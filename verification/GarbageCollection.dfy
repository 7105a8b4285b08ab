/** The garbage collector: one pass lists idle and expired sessions by index score, filters the
    idle ones by their own timeout, merges both lists and deletes cluster object and record. */
module GarbageCollection {
  import opened Sandboxes
  import opened Store
  import SortedSet

  const MIN_INACTIVE_LOOKBACK: int := MINUTE
  const CANDIDATE_LIMIT: int := 100

  // ---- One pass, as a function of the store ----

  function IdleTimeout(s: Info): int { if s.idleTimeout == 0 then DEFAULT_IDLE_TIMEOUT else s.idleTimeout }

  function ActivityAt(s: Info): Time { if s.lastActivityAt == 0 then s.createdAt else s.lastActivityAt }

  predicate TimedOut(s: Info, now: Time) { ActivityAt(s) + IdleTimeout(s) < now }

  function Filtered(infos: seq<Info>, now: Time): seq<Info> {
    if infos == [] then []
    else
      var front := Filtered(infos[..|infos| - 1], now);
      var last := infos[|infos| - 1];
      if TimedOut(last, now) then front + [last] else front
  }

  function Ids(infos: seq<Info>): set<string> {
    if infos == [] then {} else Ids(infos[..|infos| - 1]) + {infos[|infos| - 1].sessionId}
  }

  // The first record of every session, in order.
  function Deduplicated(infos: seq<Info>): seq<Info> {
    if infos == [] then []
    else
      var front := Deduplicated(infos[..|infos| - 1]);
      var last := infos[|infos| - 1];
      if last.sessionId in Ids(infos[..|infos| - 1]) then front else front + [last]
  }

  // The first i lists and the first j elements of the next one, in one list.
  function FlatTo(lists: seq<seq<Info>>, i: nat, j: nat): seq<Info>
    requires i <= |lists| && (if i < |lists| then j <= |lists[i]| else j == 0)
    decreases i, j
  {
    if j > 0 then FlatTo(lists, i, j - 1) + [lists[i][j - 1]]
    else if i > 0 then FlatTo(lists, i - 1, |lists[i - 1]|)
    else []
  }

  function Flatten(lists: seq<seq<Info>>): seq<Info> { FlatTo(lists, |lists|, 0) }

  function IdleList(st: State, now: Time): seq<Info> {
    Filtered(Inactive(st, now - MIN_INACTIVE_LOOKBACK, CANDIDATE_LIMIT), now)
  }

  function ExpiredList(st: State, now: Time): seq<Info> { Expired(st, now, CANDIDATE_LIMIT) }

  // Which of the two list calls of a pass succeed; a failed one counts as an empty list.
  datatype Listing = Listing(idle: bool, expired: bool)

  function IdlePart(st: State, now: Time, l: Listing): seq<Info> { if l.idle then IdleList(st, now) else [] }

  function ExpiredPart(st: State, now: Time, l: Listing): seq<Info> { if l.expired then ExpiredList(st, now) else [] }

  function Collected(st: State, now: Time, l: Listing): seq<Info> {
    Deduplicated(IdlePart(st, now, l) + ExpiredPart(st, now, l))
  }

  // The cluster deletes and the store deletes that are answered with an error, the time limit included, and
  // those of them that take effect all the same.
  datatype Refusals = Refusals(
    objects: set<Ref>, objectsGone: set<Ref>, records: set<string>, recordsGone: set<string>)

  // The record of the session stays.
  predicate Refused(s: Info, f: Refusals) {
    s.Target() in f.objects || (s.sessionId in f.records && s.sessionId !in f.recordsGone)
  }

  function EraseAll(st: State, infos: seq<Info>, f: Refusals): State {
    if infos == [] then st
    else
      var st1 := EraseAll(st, infos[..|infos| - 1], f);
      var last := infos[|infos| - 1];
      if Refused(last, f) then st1 else Erased(st1, last.sessionId)
  }

  // The object is one of these sessions' and its delete takes effect.
  predicate Deletes(infos: seq<Info>, f: Refusals, ref: Ref) {
    exists s :: s in infos && s.Target() == ref && (ref !in f.objects || ref in f.objectsGone)
  }

  // No delete of these sessions is answered with an error.
  predicate Clean(infos: seq<Info>, f: Refusals) {
    forall s :: s in infos ==> s.Target() !in f.objects && s.sessionId !in f.records
  }

  // The sessions of a list whose records go.
  function ErasedIds(infos: seq<Info>, f: Refusals): set<string> {
    if infos == [] then {}
    else
      var last := infos[|infos| - 1];
      ErasedIds(infos[..|infos| - 1], f) + (if Refused(last, f) then {} else {last.sessionId})
  }

  // The store after a pass.
  function AfterPass(st: State, now: Time, l: Listing, f: Refusals): State { EraseAll(st, Collected(st, now, l), f) }

  // ---- The code ----

  lemma DeduplicatedStep(all: seq<Info>, x: Info)
    ensures Deduplicated(all + [x]) == if x.sessionId in Ids(all) then Deduplicated(all) else Deduplicated(all) + [x]
    ensures Ids(all + [x]) == Ids(all) + {x.sessionId}
  {
    assert (all + [x])[..|all|] == all;
  }

  method DeduplicateSandboxes(lists: seq<seq<Info>>) returns (result: seq<Info>)
    ensures result == Deduplicated(Flatten(lists))
  {
    var seen: set<string> := {};
    result := [];
    for i := 0 to |lists|
      invariant result == Deduplicated(FlatTo(lists, i, 0))
      invariant seen == Ids(FlatTo(lists, i, 0))
    {
      var list := lists[i];
      for j := 0 to |list|
        invariant result == Deduplicated(FlatTo(lists, i, j))
        invariant seen == Ids(FlatTo(lists, i, j))
      {
        DeduplicatedStep(FlatTo(lists, i, j), list[j]);
        if list[j].sessionId !in seen {
          seen := seen + {list[j].sessionId};
          result := result + [list[j]];
        }
      }
    }
  }

  lemma {:induction false} FlatToList(lists: seq<seq<Info>>, i: nat, j: nat)
    requires i < |lists| && j <= |lists[i]|
    ensures FlatTo(lists, i, j) == FlatTo(lists, i, 0) + lists[i][..j]
    decreases j
  {
    if j > 0 {
      FlatToList(lists, i, j - 1);
      assert lists[i][..j] == lists[i][..j - 1] + [lists[i][j - 1]];
    }
  }

  lemma FlattenTwo(a: seq<Info>, b: seq<Info>)
    ensures Flatten([a, b]) == a + b
  {
    var lists := [a, b];
    FlatToList(lists, 0, |a|);
    FlatToList(lists, 1, |b|);
    assert a[..|a|] == a && b[..|b|] == b;
  }

  class Cluster {
    var objects: set<Ref>

    // A delete of an object that is not there counts as success, and one answered with an error may have
    // taken effect.
    method Delete(ref: Ref, failing: set<Ref>, gone: set<Ref>) returns (ok: bool)
      modifies this
      ensures ok == (ref !in failing)
      ensures objects == if ok || ref in gone then old(objects) - {ref} else old(objects)
    {
      ok := ref !in failing;
      if ok || ref in gone { objects := objects - {ref}; }
    }
  }

  class GarbageCollector {
    const store: RedisStore
    const cluster: Cluster

    constructor (store: RedisStore, cluster: Cluster)
      ensures this.store == store && this.cluster == cluster
    {
      this.store, this.cluster := store, cluster;
    }

    method Once(now: Time, l: Listing, f: Refusals) returns (errors: nat)
      requires store.cli.Value().Valid()
      modifies store.cli, cluster
      ensures store.cli.Value() == AfterPass(old(store.cli.Value()), now, l, f)
      ensures forall ref :: ref in cluster.objects <==>
        ref in old(cluster.objects) && !Deletes(Collected(old(store.cli.Value()), now, l), f, ref)
      ensures errors == 0 <==> Clean(Collected(old(store.cli.Value()), now, l), f)
    {
      var doomed := Collect(now, l);
      errors := DeleteAll(doomed, f);
    }

    // The part of a pass that reads: both lists, filtered and merged.
    method Collect(now: Time, l: Listing) returns (doomed: seq<Info>)
      requires store.cli.Value().Valid()
      ensures doomed == Collected(store.cli.Value(), now, l)
    {
      var candidates: seq<Info> := [];
      if l.idle { candidates := store.ListInactiveSandboxes(now - MIN_INACTIVE_LOOKBACK, CANDIDATE_LIMIT); }
      var inactive := KeepTimedOut(candidates, now);
      var expired: seq<Info> := [];
      if l.expired { expired := store.ListExpiredSandboxes(now, CANDIDATE_LIMIT); }
      doomed := DeduplicateSandboxes([inactive, expired]);
      FlattenTwo(inactive, expired);
    }

    // Only sandboxes whose own idle timeout has elapsed.
    method KeepTimedOut(candidates: seq<Info>, now: Time) returns (inactive: seq<Info>)
      ensures inactive == Filtered(candidates, now)
    {
      inactive := [];
      for i := 0 to |candidates|
        invariant inactive == Filtered(candidates[..i], now)
      {
        var s := candidates[i];
        assert candidates[..i + 1][..i] == candidates[..i];
        var activityAt := s.lastActivityAt;
        if activityAt == 0 {
          activityAt := s.createdAt;
        }
        var idleTimeout := s.idleTimeout;
        if idleTimeout == 0 {
          idleTimeout := DEFAULT_IDLE_TIMEOUT;
        }
        if activityAt + idleTimeout < now {
          inactive := inactive + [s];
        }
      }
      assert candidates[..|candidates|] == candidates;
    }

    method DeleteAll(doomed: seq<Info>, f: Refusals) returns (errors: nat)
      modifies store.cli, cluster
      ensures store.cli.Value() == EraseAll(old(store.cli.Value()), doomed, f)
      ensures forall ref :: ref in cluster.objects <==> ref in old(cluster.objects) && !Deletes(doomed, f, ref)
      ensures errors == 0 <==> Clean(doomed, f)
    {
      errors := 0;
      for i := 0 to |doomed|
        invariant store.cli.Value() == EraseAll(old(store.cli.Value()), doomed[..i], f)
        invariant forall ref :: ref in cluster.objects <==>
          ref in old(cluster.objects) && !Deletes(doomed[..i], f, ref)
        invariant errors == 0 <==> Clean(doomed[..i], f)
      {
        var s := doomed[i];
        assert doomed[..i + 1][..i] == doomed[..i];
        assert doomed[..i + 1] == doomed[..i] + [s];
        OneMore(doomed[..i], s, f);
        var ok := cluster.Delete(s.Target(), f.objects, f.objectsGone);
        if !ok {
          errors := errors + 1;
          continue;
        }
        if s.sessionId !in f.records || s.sessionId in f.recordsGone {
          store.DeleteSandboxBySessionID(s.sessionId);
        }
        if s.sessionId in f.records {
          errors := errors + 1;
        }
      }
      assert doomed[..|doomed|] == doomed;
    }
  }

  lemma {:induction false} OneMore(infos: seq<Info>, s: Info, f: Refusals)
    ensures forall ref :: Deletes(infos + [s], f, ref) <==>
              Deletes(infos, f, ref) || (s.Target() == ref && (ref !in f.objects || ref in f.objectsGone))
    ensures Clean(infos + [s], f) <==> Clean(infos, f) && s.Target() !in f.objects && s.sessionId !in f.records
  {
    assert forall x :: x in infos + [s] <==> x in infos || x == s;
  }
}
