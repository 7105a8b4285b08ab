/** Service account tokens are checked against TokenReview through the token cache. If TokenReview
    is constant per token, the cache cannot be noticed. */
module TokenAuth {
  import opened Sandboxes
  import opened Recency
  import opened Caches

  datatype Review = Reviewed(authenticated: bool, username: string) | ReviewError

  datatype Answer = Answer(authenticated: bool, username: string, failed: bool)

  // What an uncached check answers.
  function Direct(r: Review): Answer {
    match r
    case ReviewError => Answer(false, "", true)
    case Reviewed(ok, name) => if ok then Answer(true, name, false) else Answer(false, "", false)
  }

  // What is put in the cache for a review.
  function VerdictOf(r: Review): Verdict
    requires r.Reviewed?
  {
    Verdict(r.authenticated, if r.authenticated then r.username else "")
  }

  // Every cached verdict is the one TokenReview gives.
  ghost predicate Faithful(s: seq<Entry<Verdict>>, review: string -> Review) {
    forall e :: e in s ==> review(e.key).Reviewed? && e.val == VerdictOf(review(e.key))
  }

  method ValidateServiceAccountToken(cache: TokenCache, token: string, review: string -> Review, now: Time, later: Time)
    returns (a: Answer)
    requires cache.Valid() && Faithful(cache.table.Model(), review)
    modifies cache.table, cache.table.Items()
    ensures cache.Valid() && Faithful(cache.table.Model(), review)
    ensures a == Direct(review(token))
    ensures a.failed <==> review(token).ReviewError?
    ensures a.authenticated <==> review(token).Reviewed? && review(token).authenticated
    ensures a.username == if a.authenticated then review(token).username else ""
    ensures var p := Sliding(cache.ttl);
            var s1 := AfterGet(p, old(cache.table.Model()), token, now);
            cache.table.Model() ==
              if Hit(p, old(cache.table.Model()), token, now).None? && review(token).Reviewed?
              then AfterSet(s1, cache.maxSize, Entry(token, VerdictOf(review(token)), later)) else s1
  {
    FaithfulHit(cache.ttl, cache.table.Model(), token, now, review);
    FaithfulAfter(Sliding(cache.ttl), cache.maxSize, cache.table.Model(), Get(token, now), review);
    var found, v := cache.Get(token, now);
    if found {
      if v.authenticated { return Answer(true, v.username, false); }
      return Answer(false, "", false);
    }
    var result := review(token);
    if result.ReviewError? { return Answer(false, "", true); }
    var username := "";
    if result.authenticated { username := result.username; }
    FaithfulAfter(Sliding(cache.ttl), cache.maxSize, cache.table.Model(),
                  Set(Entry(token, Verdict(result.authenticated, username), later)), review);
    cache.Set(token, Verdict(result.authenticated, username), later);
    if !result.authenticated { return Answer(false, "", false); }
    return Answer(true, username, false);
  }

  // ---- Every trace ----

  lemma {:induction false} KeepMembers<V>(s: seq<Entry<V>>, ks: set<string>)
    ensures forall e :: e in Keep(s, ks) ==> e in s && e.key in ks
  {
    if s != [] { KeepMembers(s[1..], ks); }
  }

  predicate HonestSet(op: Op<Verdict>, review: string -> Review) {
    op.Set? ==> review(op.entry.key).Reviewed? && op.entry.val == VerdictOf(review(op.entry.key))
  }

  lemma {:induction false} FaithfulAfter(p: Policy, max: nat, s: seq<Entry<Verdict>>, op: Op<Verdict>,
                                         review: string -> Review)
    requires Faithful(s, review) && HonestSet(op, review)
    ensures Faithful(After(p, max, s, op), review)
  {
    match op
    case Get(k, now) =>
      KeepMembers(s, Keys(s) - {k});
      FindKept(s, {}, k);
    case Set(e) => KeepMembers(s, Keys(s) - {e.key});
    case Remove(k) => KeepMembers(s, Keys(s) - {k});
  }

  lemma {:induction false} FaithfulHit(ttl: int, s: seq<Entry<Verdict>>, token: string, now: Time,
                                       review: string -> Review)
    requires Faithful(s, review)
    ensures Hit(Sliding(ttl), s, token, now).Some? ==>
              review(token).Reviewed? && Hit(Sliding(ttl), s, token, now).value == VerdictOf(review(token))
  {
    FindKept(s, {}, token);
  }

  // Transparency: however requests, evictions, expiries and removals are interleaved, what the cache
  // answers for a token is what TokenReview would have answered.
  lemma {:induction false} Transparent(ttl: int, max: nat, s: seq<Entry<Verdict>>, ops: seq<Op<Verdict>>,
                                       token: string, now: Time, review: string -> Review)
    requires Faithful(s, review)
    requires forall i :: 0 <= i < |ops| ==> HonestSet(ops[i], review)
    requires Hit(Sliding(ttl), AfterAll(Sliding(ttl), max, s, ops), token, now).Some?
    ensures review(token).Reviewed?
    ensures Hit(Sliding(ttl), AfterAll(Sliding(ttl), max, s, ops), token, now).value == VerdictOf(review(token))
    decreases ops
  {
    if ops == [] {
      FaithfulHit(ttl, s, token, now, review);
    } else {
      FaithfulAfter(Sliding(ttl), max, s, ops[0], review);
      Transparent(ttl, max, After(Sliding(ttl), max, s, ops[0]), ops[1..], token, now, review);
    }
  }

  // ---- Every hit is recent ----

  // When each token was last set or hit.
  function Accessed(ttl: int, s: seq<Entry<Verdict>>, op: Op<Verdict>, acc: map<string, Time>): map<string, Time> {
    match op
    case Get(k, now) => if Hit(Sliding(ttl), s, k, now).Some? then acc[k := now] else acc
    case Set(e) => acc[e.key := e.stamp]
    case Remove(_) => acc
  }

  function AccessedAll(ttl: int, max: nat, s: seq<Entry<Verdict>>, ops: seq<Op<Verdict>>, acc: map<string,
                       Time>): map<string, Time>
    decreases ops
  {
    if ops == [] then acc
    else AccessedAll(ttl, max, After(Sliding(ttl), max, s, ops[0]), ops[1..], Accessed(ttl, s, ops[0], acc))
  }

  ghost predicate Stamped(s: seq<Entry<Verdict>>, acc: map<string, Time>) {
    forall e :: e in s ==> e.key in acc && acc[e.key] == e.stamp
  }

  lemma {:induction false} EvictedAbsent(s: seq<Entry<Verdict>>, max: nat, k: string)
    requires k !in Keys(s)
    ensures forall e :: e in Evicted(s, max) ==> e in s && e.key != k
  {
    KeysMember(s, k);
  }

  lemma {:induction false} KeysMember(s: seq<Entry<Verdict>>, k: string)
    ensures k in Keys(s) <==> exists e :: e in s && e.key == k
  {
    if s != [] {
      assert s == [s[0]] + s[1..];
      KeysMember(s[1..], k);
    }
  }

  lemma {:induction false} StampedAfter(ttl: int, max: nat, s: seq<Entry<Verdict>>, op: Op<Verdict>, acc: map<string,
                                        Time>)
    requires Stamped(s, acc)
    ensures Stamped(After(Sliding(ttl), max, s, op), Accessed(ttl, s, op, acc))
  {
    match op
    case Get(k, now) =>
      KeepMembers(s, Keys(s) - {k});
      FindKept(s, {}, k);
    case Set(e) =>
      KeepMembers(s, Keys(s) - {e.key});
      if e.key !in Keys(s) { EvictedAbsent(s, max, e.key); }
    case Remove(k) => KeepMembers(s, Keys(s) - {k});
  }

  // On every trace a hit follows the entry's previous access by at most ttl.
  lemma {:induction false} HitsAreRecent(ttl: int, max: nat, s: seq<Entry<Verdict>>, ops: seq<Op<Verdict>>,
                                         acc: map<string, Time>, token: string, now: Time)
    requires Stamped(s, acc)
    requires Hit(Sliding(ttl), AfterAll(Sliding(ttl), max, s, ops), token, now).Some?
    ensures token in AccessedAll(ttl, max, s, ops, acc)
    ensures now - AccessedAll(ttl, max, s, ops, acc)[token] <= ttl
    decreases ops
  {
    if ops == [] {
      FindKept(s, {}, token);
    } else {
      StampedAfter(ttl, max, s, ops[0], acc);
      HitsAreRecent(ttl, max, After(Sliding(ttl), max, s, ops[0]), ops[1..], Accessed(ttl, s, ops[0], acc), token, now);
    }
  }

  // ---- The list stays ordered by last access on every trace ----

  ghost predicate ClockedTrace(ops: seq<Op<Verdict>>, clock: Time) {
    ops == [] || (Clocked(ops[0], clock) && ClockedTrace(ops[1..], ClockAfter(ops[0], clock)))
  }

  function LastClock(ops: seq<Op<Verdict>>, clock: Time): Time {
    if ops == [] then clock else LastClock(ops[1..], ClockAfter(ops[0], clock))
  }

  // With a clock that never goes back, a cache that starts empty keeps distinct keys, never exceeds its
  // capacity, and is sorted by last access, so what it evicts has the least last access.
  lemma {:induction false} SortedTrace(ttl: int, max: nat, s: seq<Entry<Verdict>>, ops: seq<Op<Verdict>>, clock: Time)
    requires 0 < max && Included(s, s, max, max) && ByAccess(s, clock) && ClockedTrace(ops, clock)
    ensures var t := AfterAll(Sliding(ttl), max, s, ops);
            && Distinct(t) && |t| <= max
            && ByAccess(t, LastClock(ops, clock))
            && (forall i :: 0 <= i < |t| ==> t[|t| - 1].stamp <= t[i].stamp)
    decreases ops
  {
    if ops == [] {
      forall i | 0 <= i < |s| ensures s[|s| - 1].stamp <= s[i].stamp { BackIsOldest(s, clock, i); }
    } else {
      ByAccessAfter(ttl, max, s, ops[0], clock);
      IncludedAfter(Sliding(ttl), s, s, max, max, ops[0]);
      SortedTrace(ttl, max, After(Sliding(ttl), max, s, ops[0]), ops[1..], ClockAfter(ops[0], clock));
    }
  }
}
