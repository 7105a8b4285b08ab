/** What a collection pass removes, exactly. */
module GcProgress {
  import opened Sandboxes
  import opened Store
  import opened GarbageCollection
  import SortedSet

  // ---- Deduplication keeps first occurrences, in order ----

  predicate IsFirst(infos: seq<Info>, i: nat)
    requires i < |infos|
  {
    forall j :: 0 <= j < i ==> infos[j].sessionId != infos[i].sessionId
  }

  // at lists the first occurrences among the first n, in increasing order and without omission.
  ghost predicate Selects(infos: seq<Info>, n: nat, at: seq<nat>)
    requires n <= |infos|
  {
    && (forall k :: 0 <= k < |at| ==> at[k] < n && IsFirst(infos, at[k]))
    && (forall k, l :: 0 <= k < l < |at| ==> at[k] < at[l])
    && (forall i: nat {:trigger i in at} :: i < n && IsFirst(infos, i) ==> i in at)
  }

  lemma SelectsStep(infos: seq<Info>, n: nat, at: seq<nat>)
    requires 0 < n <= |infos| && Selects(infos, n - 1, at)
    ensures Selects(infos, n, if IsFirst(infos, n - 1) then at + [n - 1] else at)
  {
    if IsFirst(infos, n - 1) {
      var at' := at + [n - 1];
      forall i: nat | i < n && IsFirst(infos, i) ensures i in at' {
        if i < n - 1 { assert i in at; } else { assert at'[|at|] == i; }
      }
    }
  }

  lemma {:induction false} IdsMember(infos: seq<Info>, id: string)
    ensures id in Ids(infos) <==> exists s :: s in infos && s.sessionId == id
  {
    if infos != [] {
      IdsMember(infos[..|infos| - 1], id);
      assert infos == infos[..|infos| - 1] + [infos[|infos| - 1]];
    }
  }

  lemma SeenIffNotFirst(infos: seq<Info>, n: nat)
    requires n < |infos|
    ensures infos[n].sessionId in Ids(infos[..n]) <==> !IsFirst(infos, n)
  {
    var id := infos[n].sessionId;
    IdsMember(infos[..n], id);
    if !IsFirst(infos, n) {
      var j :| 0 <= j < n && infos[j].sessionId == id;
      assert infos[..n][j] in infos[..n];
    }
  }

  // The indices of the first occurrences among the first n.
  ghost function Firsts(infos: seq<Info>, n: nat): (at: seq<nat>)
    requires n <= |infos|
    ensures forall k :: 0 <= k < |at| ==> at[k] < n
  {
    if n == 0 then []
    else if IsFirst(infos, n - 1) then Firsts(infos, n - 1) + [n - 1]
    else Firsts(infos, n - 1)
  }

  lemma {:induction false} FirstsSelect(infos: seq<Info>, n: nat)
    requires n <= |infos|
    ensures Selects(infos, n, Firsts(infos, n))
  {
    if n > 0 {
      FirstsSelect(infos, n - 1);
      SelectsStep(infos, n, Firsts(infos, n - 1));
    }
  }

  ghost predicate Picks(r: seq<Info>, infos: seq<Info>, at: seq<nat>) {
    |r| == |at| && forall k :: 0 <= k < |at| ==> at[k] < |infos| && r[k] == infos[at[k]]
  }

  lemma {:induction false} DeduplicatedPicks(infos: seq<Info>, n: nat)
    requires n <= |infos|
    ensures Picks(Deduplicated(infos[..n]), infos, Firsts(infos, n))
  {
    if n > 0 {
      DeduplicatedPicks(infos, n - 1);
      SeenIffNotFirst(infos, n - 1);
      assert infos[..n] == infos[..n - 1] + [infos[n - 1]];
      DeduplicatedStep(infos[..n - 1], infos[n - 1]);
      PicksSnoc(Deduplicated(infos[..n - 1]), infos, Firsts(infos, n - 1), n - 1);
    }
  }

  lemma PicksSnoc(r: seq<Info>, infos: seq<Info>, at: seq<nat>, i: nat)
    requires Picks(r, infos, at) && i < |infos|
    ensures Picks(r + [infos[i]], infos, at + [i])
  {
  }

  // The result is the subsequence of first occurrences: nothing lost, nothing twice, order kept.
  lemma DeduplicatedFirsts(infos: seq<Info>)
    ensures Picks(Deduplicated(infos), infos, Firsts(infos, |infos|))
    ensures Selects(infos, |infos|, Firsts(infos, |infos|))
  {
    assert infos[..|infos|] == infos;
    DeduplicatedPicks(infos, |infos|);
    FirstsSelect(infos, |infos|);
  }

  lemma {:induction false} DeduplicatedIds(infos: seq<Info>)
    ensures Ids(Deduplicated(infos)) == Ids(infos)
    ensures forall s :: s in Deduplicated(infos) ==> s in infos
  {
    if infos != [] {
      var front, last := infos[..|infos| - 1], infos[|infos| - 1];
      DeduplicatedIds(front);
      assert infos == front + [last];
      DeduplicatedStep(front, last);
      DeduplicatedStep(Deduplicated(front), last);
    }
  }

  // ---- Membership in the lists ----

  lemma {:induction false} LoadMembers(keys: map<string, Info>, ids: seq<string>, s: Info)
    ensures s in Load(keys, ids) <==> exists id :: id in ids && id in keys && keys[id] == s
  {
    if ids != [] {
      LoadMembers(keys, ids[1..], s);
      assert ids == [ids[0]] + ids[1..];
    }
  }

  lemma {:induction false} FilteredMembers(infos: seq<Info>, now: Time)
    ensures forall s :: s in Filtered(infos, now) <==> s in infos && TimedOut(s, now)
  {
    if infos != [] {
      FilteredMembers(infos[..|infos| - 1], now);
      assert infos == infos[..|infos| - 1] + [infos[|infos| - 1]];
    }
  }

  // Records are stored under their own ID and without a last-activity time.
  ghost predicate Keyed(st: State) {
    forall id :: id in st.keys ==> st.keys[id].sessionId == id && st.keys[id].lastActivityAt == 0
  }

  function ExpiredFront(st: State, now: Time): SortedSet.ZSet {
    SortedSet.RangeByScore(st.expiry, Unix(now), CANDIDATE_LIMIT)
  }

  function IdleFront(st: State, now: Time): SortedSet.ZSet {
    SortedSet.RangeByScore(st.activity, Unix(now - MIN_INACTIVE_LOOKBACK), CANDIDATE_LIMIT)
  }

  predicate DueExpired(st: State, now: Time, id: string) {
    id in st.keys && exists e :: e in ExpiredFront(st, now) && e.member == id
  }

  predicate DueIdle(st: State, now: Time, id: string) {
    id in st.keys &&
    exists e :: e in IdleFront(st, now) && e.member == id &&
      TimedOut(st.keys[id].(lastActivityAt := FromUnix(e.score)), now)
  }

  lemma {:induction false} ExpiredListIds(st: State, now: Time, id: string)
    requires Keyed(st)
    ensures id in Ids(ExpiredList(st, now)) <==> DueExpired(st, now, id)
    ensures forall s :: s in ExpiredList(st, now) ==> s.sessionId in st.keys && s == st.keys[s.sessionId]
  {
    var range := ExpiredFront(st, now);
    var ids := SortedSet.Members(range);
    IdsMember(ExpiredList(st, now), id);
    forall s ensures s in ExpiredList(st, now) <==> exists i :: i in ids && i in st.keys && st.keys[i] == s {
      LoadMembers(st.keys, ids, s);
    }
    if DueExpired(st, now, id) {
      var e :| e in range && e.member == id;
      var k :| 0 <= k < |range| && range[k] == e;
      assert ids[k] == id;
      assert st.keys[id] in ExpiredList(st, now);
    }
    if id in Ids(ExpiredList(st, now)) {
      var s :| s in ExpiredList(st, now) && s.sessionId == id;
      var i :| i in ids && i in st.keys && st.keys[i] == s;
      var k :| 0 <= k < |ids| && ids[k] == i;
      assert range[k] in range;
    }
  }

  // A record as ListInactiveSandboxes reports it for an index entry.
  function Reported(st: State, e: SortedSet.Entry): Info
    requires e.member in st.keys
  {
    st.keys[e.member].(lastActivityAt := FromUnix(e.score))
  }

  lemma {:induction false} ListedHasEntry(st: State, before: Time, limit: nat, x: Info)
    requires st.Valid() && Keyed(st) && limit > 0 && x in Inactive(st, before, limit)
    ensures exists e :: e in SortedSet.RangeByScore(st.activity, Unix(before), limit) && e.member in st.keys &&
              x == Reported(st, e)
  {
    var range := SortedSet.RangeByScore(st.activity, Unix(before), limit);
    var ids, scores := SortedSet.Members(range), SortedSet.Scores(range);
    var loaded := Load(st.keys, ids);
    SortedSet.RangeValid(st.activity, Unix(before), limit);
    SortedSet.ScoresOf(range);
    StampAllAt(loaded, scores);
    var k :| 0 <= k < |loaded| && x == Stamp(loaded[k], scores);
    LoadMembers(st.keys, ids, loaded[k]);
    var id :| id in ids && id in st.keys && st.keys[id] == loaded[k];
    var j :| 0 <= j < |ids| && ids[j] == id;
    assert range[j] in range;
  }

  lemma {:induction false} EntryIsListed(st: State, before: Time, limit: nat, e: SortedSet.Entry)
    requires st.Valid() && Keyed(st) && limit > 0
    requires e in SortedSet.RangeByScore(st.activity, Unix(before), limit) && e.member in st.keys
    ensures Reported(st, e) in Inactive(st, before, limit)
  {
    var range := SortedSet.RangeByScore(st.activity, Unix(before), limit);
    var ids, scores := SortedSet.Members(range), SortedSet.Scores(range);
    var loaded := Load(st.keys, ids);
    SortedSet.RangeValid(st.activity, Unix(before), limit);
    SortedSet.ScoresOf(range);
    StampAllAt(loaded, scores);
    var j :| 0 <= j < |range| && range[j] == e;
    assert ids[j] == e.member;
    LoadMembers(st.keys, ids, st.keys[e.member]);
    var k :| 0 <= k < |loaded| && loaded[k] == st.keys[e.member];
    assert StampAll(loaded, scores)[k] == Reported(st, e);
  }

  lemma {:induction false} ListedIsDue(st: State, now: Time, x: Info)
    requires st.Valid() && Keyed(st) && x in IdleList(st, now)
    ensures DueIdle(st, now, x.sessionId)
  {
    FilteredMembers(Inactive(st, now - MIN_INACTIVE_LOOKBACK, CANDIDATE_LIMIT), now);
    ListedHasEntry(st, now - MIN_INACTIVE_LOOKBACK, CANDIDATE_LIMIT, x);
  }

  lemma {:induction false} DueIsListed(st: State, now: Time, id: string)
    requires st.Valid() && Keyed(st) && DueIdle(st, now, id)
    ensures exists x :: x in IdleList(st, now) && x.sessionId == id
  {
    var e :| e in IdleFront(st, now) && e.member == id &&
      TimedOut(st.keys[id].(lastActivityAt := FromUnix(e.score)), now);
    FilteredMembers(Inactive(st, now - MIN_INACTIVE_LOOKBACK, CANDIDATE_LIMIT), now);
    EntryIsListed(st, now - MIN_INACTIVE_LOOKBACK, CANDIDATE_LIMIT, e);
    assert Reported(st, e) in IdleList(st, now);
  }

  lemma {:induction false} IdleListIds(st: State, now: Time, id: string)
    requires st.Valid() && Keyed(st)
    ensures id in Ids(IdleList(st, now)) <==> DueIdle(st, now, id)
  {
    IdsMember(IdleList(st, now), id);
    if id in Ids(IdleList(st, now)) {
      var x :| x in IdleList(st, now) && x.sessionId == id;
      ListedIsDue(st, now, x);
    }
    if DueIdle(st, now, id) { DueIsListed(st, now, id); }
  }

  // Every collected record names the object of the stored record.
  lemma {:induction false} CollectedTargets(st: State, now: Time, l: Listing)
    requires st.Valid() && Keyed(st)
    ensures forall s :: s in Collected(st, now, l) ==>
              s.sessionId in st.keys && s.Target() == st.keys[s.sessionId].Target()
  {
    var both := IdlePart(st, now, l) + ExpiredPart(st, now, l);
    DeduplicatedIds(both);
    forall s | s in Collected(st, now, l)
      ensures s.sessionId in st.keys && s.Target() == st.keys[s.sessionId].Target()
    {
      assert s in both;
      if s in IdlePart(st, now, l) {
        FilteredMembers(Inactive(st, now - MIN_INACTIVE_LOOKBACK, CANDIDATE_LIMIT), now);
        ListedHasEntry(st, now - MIN_INACTIVE_LOOKBACK, CANDIDATE_LIMIT, s);
      } else {
        ExpiredListIds(st, now, s.sessionId);
      }
    }
  }

  // ---- What a pass removes ----

  function Removed(st: State, now: Time, l: Listing, f: Refusals): set<string> {
    ErasedIds(Collected(st, now, l), f)
  }

  lemma {:induction false} ErasedIdsMember(infos: seq<Info>, f: Refusals, id: string)
    ensures id in ErasedIds(infos, f) <==> exists s :: s in infos && s.sessionId == id && !Refused(s, f)
  {
    if infos != [] {
      ErasedIdsMember(infos[..|infos| - 1], f, id);
      assert infos == infos[..|infos| - 1] + [infos[|infos| - 1]];
    }
  }

  lemma {:induction false} IdsConcat(a: seq<Info>, b: seq<Info>, id: string)
    ensures id in Ids(a + b) <==> id in Ids(a) || id in Ids(b)
  {
    IdsMember(a, id);
    IdsMember(b, id);
    IdsMember(a + b, id);
    assert forall s :: s in a + b <==> s in a || s in b;
  }

  predicate IsDue(st: State, now: Time, l: Listing, id: string) {
    (l.expired && DueExpired(st, now, id)) || (l.idle && DueIdle(st, now, id))
  }

  // A pass collects a session exactly if its record exists and it is among the first hundred due by
  // expiry, or among the first hundred by last activity with its own idle timeout elapsed.
  lemma {:induction false} CollectedIff(st: State, now: Time, l: Listing, id: string)
    requires st.Valid() && Keyed(st)
    ensures id in Ids(Collected(st, now, l)) <==> IsDue(st, now, l, id)
  {
    DeduplicatedIds(IdlePart(st, now, l) + ExpiredPart(st, now, l));
    ExpiredListIds(st, now, id);
    IdleListIds(st, now, id);
    IdsConcat(IdlePart(st, now, l), ExpiredPart(st, now, l), id);
  }

  // It removes those none of whose deletes is refused, or whose store delete takes effect in spite of its error.
  lemma {:induction false} RemovedIff(st: State, now: Time, l: Listing, f: Refusals, id: string)
    requires st.Valid() && Keyed(st)
    ensures id in Removed(st, now, l, f) <==>
            && IsDue(st, now, l, id) && st.keys[id].Target() !in f.objects
            && (id in f.records ==> id in f.recordsGone)
  {
    CollectedIff(st, now, l, id);
    IdsMember(Collected(st, now, l), id);
    ErasedIdsMember(Collected(st, now, l), f, id);
    CollectedTargets(st, now, l);
  }

  // An object goes exactly if it is that of a session the pass collects, and its delete is not refused or takes
  // effect in spite of its error.
  lemma {:induction false} ObjectDeletedIff(st: State, now: Time, l: Listing, f: Refusals, ref: Ref)
    requires st.Valid() && Keyed(st)
    ensures Deletes(Collected(st, now, l), f, ref) <==>
            && (exists id :: IsDue(st, now, l, id) && st.keys[id].Target() == ref)
            && (ref in f.objects ==> ref in f.objectsGone)
  {
    CollectedTargets(st, now, l);
    if exists id :: IsDue(st, now, l, id) && st.keys[id].Target() == ref {
      var id :| IsDue(st, now, l, id) && st.keys[id].Target() == ref;
      CollectedIff(st, now, l, id);
      IdsMember(Collected(st, now, l), id);
    }
    forall s | s in Collected(st, now, l) ensures IsDue(st, now, l, s.sessionId) {
      CollectedIff(st, now, l, s.sessionId);
      IdsMember(Collected(st, now, l), s.sessionId);
    }
  }

  // A pass reports no error exactly if no delete of a session it collects is answered with one.
  lemma {:induction false} CleanIff(st: State, now: Time, l: Listing, f: Refusals)
    requires st.Valid() && Keyed(st)
    ensures Clean(Collected(st, now, l), f) <==>
            forall id :: IsDue(st, now, l, id) ==> st.keys[id].Target() !in f.objects && id !in f.records
  {
    var doomed := Collected(st, now, l);
    CollectedTargets(st, now, l);
    forall id ensures IsDue(st, now, l, id) <==> exists s :: s in doomed && s.sessionId == id {
      CollectedIff(st, now, l, id);
      IdsMember(doomed, id);
    }
  }

  // st' is st without these sessions, in all three places.
  ghost predicate Without(st: State, st': State, gone: set<string>) {
    && st'.Valid()
    && st'.keys == st.keys - gone
    && SortedSet.Scores(st'.expiry) == SortedSet.Scores(st.expiry) - gone
    && SortedSet.Scores(st'.activity) == SortedSet.Scores(st.activity) - gone
  }

  lemma {:induction false} WithoutOneMore(st: State, st1: State, gone: set<string>, id: string)
    requires Without(st, st1, gone)
    ensures Without(st, Erased(st1, id), gone + {id})
  {
    SortedSet.RemoveSpec(st1.expiry, id);
    SortedSet.RemoveSpec(st1.activity, id);
  }

  lemma {:induction false} EraseAllSpec(st: State, infos: seq<Info>, f: Refusals)
    requires st.Valid()
    ensures Without(st, EraseAll(st, infos, f), ErasedIds(infos, f))
  {
    if infos != [] {
      var front := infos[..|infos| - 1];
      EraseAllSpec(st, front, f);
      WithoutOneMore(st, EraseAll(st, front, f), ErasedIds(front, f), infos[|infos| - 1].sessionId);
    }
  }

  // The pass removes those sessions from all three places and changes nothing else.
  lemma {:induction false} PassRemoves(st: State, now: Time, l: Listing, f: Refusals)
    requires st.Valid()
    ensures Without(st, AfterPass(st, now, l, f), Removed(st, now, l, f))
  {
    EraseAllSpec(st, Collected(st, now, l), f);
  }

  // ---- The exact condition, by rank in the index ----

  // Whether a session is due as idle is a matter of its rank: the hundred longest unused entries are
  // looked at and no other, whatever their timeouts.
  lemma {:induction false} DueIdleByRank(st: State, now: Time, i: nat)
    requires st.Valid() && i < |st.activity| && st.activity[i].member in st.keys
    ensures var e := st.activity[i];
            DueIdle(st, now, e.member) <==>
              && i < CANDIDATE_LIMIT && e.score <= Unix(now - MIN_INACTIVE_LOOKBACK)
              && TimedOut(Reported(st, e), now)
    // A zero time is none, and a zero timeout stands for the default.
    ensures var e := st.activity[i];
            var s := st.keys[e.member];
            TimedOut(Reported(st, e), now) <==>
              now > (if e.score == -UNIX_EPOCH then s.createdAt else FromUnix(e.score)) +
                    (if s.idleTimeout == 0 then DEFAULT_IDLE_TIMEOUT else s.idleTimeout)
  {
    var e, max := st.activity[i], Unix(now - MIN_INACTIVE_LOOKBACK);
    RankInFront(st.activity, max, i);
    forall x | x in IdleFront(st, now) && x.member == e.member ensures x == e {
      SortedSet.RangeSpec(st.activity, max, CANDIDATE_LIMIT);
      SortedSet.ScoresOf(st.activity);
      assert x in st.activity;
    }
  }

  lemma {:induction false} DueExpiredByRank(st: State, now: Time, i: nat)
    requires st.Valid() && i < |st.expiry| && st.expiry[i].member in st.keys
    ensures DueExpired(st, now, st.expiry[i].member) <==> i < CANDIDATE_LIMIT && st.expiry[i].score <= Unix(now)
  {
    var e := st.expiry[i];
    RankInFront(st.expiry, Unix(now), i);
    forall x | x in ExpiredFront(st, now) && x.member == e.member ensures x == e {
      SortedSet.RangeSpec(st.expiry, Unix(now), CANDIDATE_LIMIT);
      SortedSet.ScoresOf(st.expiry);
      assert x in st.expiry;
    }
  }

  // The front is what has a rank below the limit and a score up to the maximum.
  lemma {:induction false} RankInFront(z: SortedSet.ZSet, max: int, i: nat)
    requires SortedSet.Valid(z) && i < |z|
    ensures z[i] in SortedSet.RangeByScore(z, max, CANDIDATE_LIMIT) <==> i < CANDIDATE_LIMIT && z[i].score <= max
  {
    var front := SortedSet.RangeByScore(z, max, CANDIDATE_LIMIT);
    SortedSet.RangeSpec(z, max, CANDIDATE_LIMIT);
    assert z[i] in z;
    if z[i] in front {
      var k :| 0 <= k < |front| && front[k] == z[i];
      SameRank(z, k, i);
    }
  }

  lemma {:induction false} SameRank(z: SortedSet.ZSet, k: nat, i: nat)
    requires SortedSet.Valid(z) && k < |z| && i < |z| && z[k] == z[i]
    ensures k == i
  {
    if k < i { SortedSet.Ordered(z, k, i); } else if i < k { SortedSet.Ordered(z, i, k); }
  }
}
