/** The behaviour shared by ClientCache and TokenCache, on a plain sequence of entries with the most
    recently used first; and the inclusion (stack) theorem of LRU replacement for it. */
module Recency {
  import opened Sandboxes

  datatype Entry<V> = Entry(key: string, val: V, stamp: Time)

  // ClientCache entries carry the expiry of their token; TokenCache entries the time of their last access.
  datatype Policy = TokenExpiry | Sliding(ttl: int)

  predicate Stale(p: Policy, stamp: Time, now: Time) {
    match p
    case TokenExpiry => stamp != 0 && now > stamp
    case Sliding(ttl) => now - stamp > ttl
  }

  function OnHit(p: Policy, stamp: Time, now: Time): Time {
    match p
    case TokenExpiry => stamp
    case Sliding(_) => now
  }

  function Keys<V>(s: seq<Entry<V>>): set<string> {
    if s == [] then {} else {s[0].key} + Keys(s[1..])
  }

  // The entries with these keys, in order.
  function Keep<V>(s: seq<Entry<V>>, ks: set<string>): seq<Entry<V>> {
    if s == [] then [] else (if s[0].key in ks then [s[0]] else []) + Keep(s[1..], ks)
  }

  function Without<V>(s: seq<Entry<V>>, k: string): seq<Entry<V>> { Keep(s, Keys(s) - {k}) }

  function Find<V>(s: seq<Entry<V>>, k: string): Option<Entry<V>> {
    if s == [] then None else if s[0].key == k then Some(s[0]) else Find(s[1..], k)
  }

  // ---- Operations ----

  function AfterGet<V>(p: Policy, s: seq<Entry<V>>, k: string, now: Time): seq<Entry<V>> {
    match Find(s, k)
    case None => s
    case Some(e) =>
      if Stale(p, e.stamp, now) then Without(s, k)
      else [e.(stamp := OnHit(p, e.stamp, now))] + Without(s, k)
  }

  function Hit<V>(p: Policy, s: seq<Entry<V>>, k: string, now: Time): Option<V> {
    match Find(s, k)
    case None => None
    case Some(e) => if Stale(p, e.stamp, now) then None else Some(e.val)
  }

  // A full cache gives up its least recently used entry.
  function Evicted<V>(s: seq<Entry<V>>, max: nat): seq<Entry<V>> {
    if |s| >= max && |s| > 0 then s[..|s| - 1] else s
  }

  function AfterSet<V>(s: seq<Entry<V>>, max: nat, e: Entry<V>): seq<Entry<V>> {
    if e.key in Keys(s) then [e] + Without(s, e.key) else [e] + Evicted(s, max)
  }

  datatype Op<V> = Get(key: string, now: Time) | Set(entry: Entry<V>) | Remove(key: string)

  function After<V>(p: Policy, max: nat, s: seq<Entry<V>>, op: Op<V>): seq<Entry<V>> {
    match op
    case Get(k, now) => AfterGet(p, s, k, now)
    case Set(e) => AfterSet(s, max, e)
    case Remove(k) => Without(s, k)
  }

  function AfterAll<V>(p: Policy, max: nat, s: seq<Entry<V>>, ops: seq<Op<V>>): seq<Entry<V>>
    decreases ops
  {
    if ops == [] then s else AfterAll(p, max, After(p, max, s, ops[0]), ops[1..])
  }

  // ---- Algebra of Keep ----

  ghost predicate Distinct<V>(s: seq<Entry<V>>) {
    s == [] || (s[0].key !in Keys(s[1..]) && Distinct(s[1..]))
  }

  lemma {:induction false} KeysCons<V>(e: Entry<V>, s: seq<Entry<V>>)
    ensures Keys([e] + s) == {e.key} + Keys(s)
    ensures forall ks :: Keep([e] + s, ks) == (if e.key in ks then [e] else []) + Keep(s, ks)
  {
    assert ([e] + s)[1..] == s;
  }

  lemma {:induction false} KeepCons<V>(s: seq<Entry<V>>, ks: set<string>)
    requires s != []
    ensures Keep(s, ks) == if s[0].key in ks then [s[0]] + Keep(s[1..], ks) else Keep(s[1..], ks)
  {
    assert [] + Keep(s[1..], ks) == Keep(s[1..], ks);
  }

  lemma {:induction false} KeepKeys<V>(s: seq<Entry<V>>, ks: set<string>)
    ensures Keys(Keep(s, ks)) == Keys(s) * ks
    ensures Distinct(s) ==> Distinct(Keep(s, ks))
  {
    if s != [] {
      KeepKeys(s[1..], ks);
      KeepCons(s, ks);
      KeysCons(s[0], Keep(s[1..], ks));
      assert ([s[0]] + Keep(s[1..], ks))[1..] == Keep(s[1..], ks);
    }
  }

  lemma {:induction false} KeepKeep<V>(s: seq<Entry<V>>, a: set<string>, b: set<string>)
    ensures Keep(Keep(s, a), b) == Keep(s, a * b)
  {
    if s != [] {
      KeepKeep(s[1..], a, b);
      KeysCons(s[0], Keep(s[1..], a));
      assert [] + Keep(s[1..], a) == Keep(s[1..], a);
    }
  }

  lemma {:induction false} KeepSame<V>(s: seq<Entry<V>>, a: set<string>, b: set<string>)
    requires a * Keys(s) == b * Keys(s)
    ensures Keep(s, a) == Keep(s, b)
  {
    if s != [] {
      assert s == [s[0]] + s[1..];
      KeysCons(s[0], s[1..]);
      assert s[0].key in Keys(s);
      assert s[0].key in a <==> s[0].key in a * Keys(s);
      assert s[0].key in b <==> s[0].key in b * Keys(s);
      assert a * Keys(s[1..]) == (a * Keys(s)) * Keys(s[1..]);
      assert b * Keys(s[1..]) == (b * Keys(s)) * Keys(s[1..]);
      KeepSame(s[1..], a, b);
    }
  }

  lemma {:induction false} KeepAll<V>(s: seq<Entry<V>>, ks: set<string>)
    requires Keys(s) <= ks
    ensures Keep(s, ks) == s
  {
    if s != [] {
      assert s == [s[0]] + s[1..];
      KeysCons(s[0], s[1..]);
      KeepAll(s[1..], ks);
    }
  }

  lemma {:induction false} DistinctSize<V>(s: seq<Entry<V>>)
    requires Distinct(s)
    ensures |Keys(s)| == |s|
  {
    if s != [] {
      assert s == [s[0]] + s[1..];
      KeysCons(s[0], s[1..]);
      DistinctSize(s[1..]);
    }
  }

  lemma {:induction false} LastKey<V>(s: seq<Entry<V>>)
    requires s != []
    ensures s[|s| - 1].key in Keys(s)
  {
    if |s| > 1 { LastKey(s[1..]); }
  }

  lemma {:induction false} DropLast<V>(s: seq<Entry<V>>)
    requires Distinct(s) && s != []
    ensures s[..|s| - 1] == Without(s, s[|s| - 1].key)
  {
    if |s| == 1 {
      assert s[1..] == [] && Keep(s[1..], Keys(s) - {s[0].key}) == [];
    } else {
      var t := s[1..];
      assert s == [s[0]] + t;
      KeysCons(s[0], t);
      DropLast(t);
      LastKey(t);
      assert s[|s| - 1] == t[|t| - 1];
      KeepSame(t, Keys(s) - {s[|s| - 1].key}, Keys(t) - {s[|s| - 1].key});
      assert s[..|s| - 1] == [s[0]] + t[..|t| - 1];
    }
  }

  // The last entry of a selection is the last entry of the whole, if that one is selected.
  lemma {:induction false} LastKept<V>(s: seq<Entry<V>>, ks: set<string>)
    requires s != [] && s[|s| - 1].key in ks
    ensures Keep(s, ks) != [] && Keep(s, ks)[|Keep(s, ks)| - 1] == s[|s| - 1]
  {
    if |s| > 1 { LastKept(s[1..], ks); }
  }

  lemma {:induction false} FindKept<V>(s: seq<Entry<V>>, ks: set<string>, k: string)
    ensures k in ks ==> Find(Keep(s, ks), k) == Find(s, k)
    ensures Find(s, k).Some? <==> k in Keys(s)
    ensures Find(s, k).Some? ==> Find(s, k).value.key == k && Find(s, k).value in s
  {
    if s != [] {
      FindKept(s[1..], ks, k);
      assert s == [s[0]] + s[1..];
      KeysCons(s[0], s[1..]);
      assert ([s[0]] + Keep(s[1..], ks))[1..] == Keep(s[1..], ks);
      assert [] + Keep(s[1..], ks) == Keep(s[1..], ks);
    }
  }

  // ---- Inclusion ----

  // small is what large holds under small's keys, in the same recency order; large holds at most
  // n - m further entries.
  ghost predicate Included<V>(small: seq<Entry<V>>, large: seq<Entry<V>>, m: nat, n: nat) {
    && Distinct(large)
    && Keys(small) <= Keys(large)
    && small == Keep(large, Keys(small))
    && |small| <= m && |large| <= n
    && |large| - |small| <= n - m
  }

  lemma {:induction false} IncludedDistinct<V>(small: seq<Entry<V>>, large: seq<Entry<V>>, m: nat, n: nat)
    requires Included(small, large, m, n)
    ensures Distinct(small) && |small| == |Keys(small)| && |large| == |Keys(large)|
  {
    KeepKeys(large, Keys(small));
    DistinctSize(small);
    DistinctSize(large);
  }

  // Dropping a set of keys from each side.
  lemma {:induction false} DropBoth<V>(small: seq<Entry<V>>, large: seq<Entry<V>>, x: set<string>, y: set<string>)
    requires Distinct(large) && Keys(small) <= Keys(large) && small == Keep(large, Keys(small))
    requires y !! (Keys(small) - x)
    ensures var small' := Keep(small, Keys(small) - x);
            var large' := Keep(large, Keys(large) - y);
            && Distinct(large')
            && Keys(small') == Keys(small) - x
            && Keys(large') == Keys(large) - y
            && small' == Keep(large', Keys(small'))
  {
    var K, L := Keys(small), Keys(large);
    KeepKeys(small, K - x);
    KeepKeys(large, L - y);
    KeepKeep(large, K, K - x);
    KeepKeep(large, L - y, K - x);
    assert K * (K - x) == K - x && (L - y) * (K - x) == K - x;
  }

  // Pushing the same entry onto both sides.
  lemma {:induction false} PushBoth<V>(e: Entry<V>, small: seq<Entry<V>>, large: seq<Entry<V>>)
    requires Distinct(large) && e.key !in Keys(large) && Keys(small) <= Keys(large) && small == Keep(large, Keys(small))
    ensures Distinct([e] + large)
    ensures Keys([e] + small) <= Keys([e] + large)
    ensures [e] + small == Keep([e] + large, Keys([e] + small))
  {
    KeysCons(e, small);
    KeysCons(e, large);
    assert ([e] + large)[1..] == large;
    KeepSame(large, Keys(small), {e.key} + Keys(small));
  }

  lemma {:induction false} KeepSize<V>(s: seq<Entry<V>>, x: set<string>)
    requires Distinct(s)
    ensures |Keep(s, Keys(s) - x)| == |s| - |Keys(s) * x|
  {
    KeepKeys(s, Keys(s) - x);
    DistinctSize(s);
    DistinctSize(Keep(s, Keys(s) - x));
    SplitSize(Keys(s), x);
  }

  lemma {:induction false} SplitSize(a: set<string>, x: set<string>)
    ensures a * (a - x) == a - x && |a - x| == |a| - |a * x|
  {
    assert a == (a - x) + (a * x);
  }

  lemma {:induction false} WithoutSize<V>(s: seq<Entry<V>>, k: string)
    requires Distinct(s)
    ensures |Without(s, k)| == if k in Keys(s) then |s| - 1 else |s|
  {
    KeepSize(s, {k});
    assert Keys(s) * {k} == if k in Keys(s) then {k} else {};
  }

  lemma {:induction false} IncludedRemove<V>(small: seq<Entry<V>>, large: seq<Entry<V>>, m: nat, n: nat, k: string)
    requires Included(small, large, m, n)
    ensures Included(Without(small, k), Without(large, k), m, n)
  {
    IncludedDistinct(small, large, m, n);
    DropBoth(small, large, {k}, {k});
    WithoutSize(small, k);
    WithoutSize(large, k);
  }

  // Putting the same entry in front, after dropping x from small and y from large.
  lemma {:induction false} IncludedPush<V>(small: seq<Entry<V>>, large: seq<Entry<V>>, m: nat, n: nat, e: Entry<V>,
                                           x: set<string>, y: set<string>)
    requires Included(small, large, m, n)
    requires x <= Keys(small) && y <= Keys(large) && y !! (Keys(small) - x)
    requires e.key !in Keys(large) - y
    requires |small| - |x| < m && |large| - |y| < n && (|large| - |y|) - (|small| - |x|) <= n - m
    ensures Included([e] + Keep(small, Keys(small) - x), [e] + Keep(large, Keys(large) - y), m, n)
  {
    IncludedDistinct(small, large, m, n);
    DropBoth(small, large, x, y);
    DropSize(small, x);
    DropSize(large, y);
    PushBoth(e, Keep(small, Keys(small) - x), Keep(large, Keys(large) - y));
  }

  lemma {:induction false} DropSize<V>(s: seq<Entry<V>>, x: set<string>)
    requires Distinct(s) && x <= Keys(s)
    ensures |Keep(s, Keys(s) - x)| == |s| - |x|
  {
    KeepSize(s, x);
    assert Keys(s) * x == x;
  }

  lemma {:induction false} IncludedGet<V>(p: Policy, small: seq<Entry<V>>, large: seq<Entry<V>>, m: nat, n: nat,
                                          k: string, now: Time)
    requires Included(small, large, m, n) && m <= n
    ensures Included(AfterGet(p, small, k, now), AfterGet(p, large, k, now), m, n)
    ensures Hit(p, small, k, now).Some? ==> Hit(p, large, k, now) == Hit(p, small, k, now)
  {
    IncludedDistinct(small, large, m, n);
    FindKept(large, Keys(small), k);
    FindKept(small, Keys(small), k);
    if k in Keys(large) {
      var e := Find(large, k).value;
      IncludedRemove(small, large, m, n, k);
      if !Stale(p, e.stamp, now) {
        var e' := e.(stamp := OnHit(p, e.stamp, now));
        if k in Keys(small) {
          IncludedPush(small, large, m, n, e', {k}, {k});
        } else {
          IncludedTouchLarge(small, large, m, n, e');
        }
      } else if k !in Keys(small) {
        KeepAll(small, Keys(small) - {k});
      }
    }
  }

  // A hit in large only moves an entry that small does not have.
  lemma {:induction false} IncludedTouchLarge<V>(small: seq<Entry<V>>, large: seq<Entry<V>>, m: nat, n: nat,
                                                 e: Entry<V>)
    requires Included(small, large, m, n) && e.key in Keys(large) && e.key !in Keys(small)
    ensures Included(small, [e] + Without(large, e.key), m, n)
  {
    IncludedDistinct(small, large, m, n);
    DropBoth(small, large, {}, {e.key});
    KeepAll(small, Keys(small) - {});
    KeepSize(large, {e.key});
    assert Keys(large) * {e.key} == {e.key};
    KeysCons(e, Without(large, e.key));
    assert ([e] + Without(large, e.key))[1..] == Without(large, e.key);
  }

  function EvictedKeys<V>(s: seq<Entry<V>>, max: nat): set<string> {
    if |s| >= max && |s| > 0 then {s[|s| - 1].key} else {}
  }

  lemma {:induction false} EvictedIsKeep<V>(s: seq<Entry<V>>, max: nat)
    requires Distinct(s)
    ensures EvictedKeys(s, max) <= Keys(s)
    ensures Evicted(s, max) == Keep(s, Keys(s) - EvictedKeys(s, max))
  {
    if |s| >= max && |s| > 0 {
      DropLast(s);
      LastKey(s);
    } else {
      KeepAll(s, Keys(s) - {});
    }
  }

  lemma {:induction false} IncludedSet<V>(small: seq<Entry<V>>, large: seq<Entry<V>>, m: nat, n: nat, e: Entry<V>)
    requires Included(small, large, m, n) && 0 < m <= n
    ensures Included(AfterSet(small, m, e), AfterSet(large, n, e), m, n)
  {
    IncludedDistinct(small, large, m, n);
    EvictedIsKeep(small, m);
    EvictedIsKeep(large, n);
    if e.key in Keys(small) {
      IncludedPush(small, large, m, n, e, {e.key}, {e.key});
    } else if e.key in Keys(large) {
      IncludedPush(small, large, m, n, e, EvictedKeys(small, m), {e.key});
    } else {
      EvictedTogether(small, large, m, n);
      IncludedPush(small, large, m, n, e, EvictedKeys(small, m), EvictedKeys(large, n));
    }
  }

  // If large is full then so is small, and a least recently used entry they share leaves both.
  lemma {:induction false} EvictedTogether<V>(small: seq<Entry<V>>, large: seq<Entry<V>>, m: nat, n: nat)
    requires Included(small, large, m, n) && 0 < m <= n
    ensures EvictedKeys(large, n) !! (Keys(small) - EvictedKeys(small, m))
    ensures |large| >= n ==> |small| >= m
  {
    if |large| >= n && large[|large| - 1].key in Keys(small) {
      LastKept(large, Keys(small));
    }
  }

  lemma {:induction false} IncludedAfter<V>(p: Policy, small: seq<Entry<V>>, large: seq<Entry<V>>, m: nat, n: nat,
                                            op: Op<V>)
    requires Included(small, large, m, n) && 0 < m <= n
    ensures Included(After(p, m, small, op), After(p, n, large, op), m, n)
  {
    match op
    case Get(k, now) => IncludedGet(p, small, large, m, n, k, now);
    case Set(e) => IncludedSet(small, large, m, n, e);
    case Remove(k) => IncludedRemove(small, large, m, n, k);
  }

  // The stack theorem: on every trace of Get, Set and Remove with one clock, a cache of capacity m
  // holds a subset of what a cache of capacity n >= m holds, with equal entries and in the same
  // recency order, although a Get that misses inserts nothing.
  lemma {:induction false} Inclusion<V>(p: Policy, small: seq<Entry<V>>, large: seq<Entry<V>>, m: nat, n: nat,
                                        ops: seq<Op<V>>)
    requires Included(small, large, m, n) && 0 < m <= n
    ensures Included(AfterAll(p, m, small, ops), AfterAll(p, n, large, ops), m, n)
    decreases ops
  {
    if ops != [] {
      IncludedAfter(p, small, large, m, n, ops[0]);
      Inclusion(p, After(p, m, small, ops[0]), After(p, n, large, ops[0]), m, n, ops[1..]);
    }
  }

  // In particular whatever hits in the smaller cache hits in the larger one, with the same value.
  lemma {:induction false} HitsAreIncluded<V>(p: Policy, m: nat, n: nat, ops: seq<Op<V>>, k: string, now: Time)
    requires 0 < m <= n
    ensures var small, large := AfterAll<V>(p, m, [], ops), AfterAll<V>(p, n, [], ops);
            Hit(p, small, k, now).Some? ==> Hit(p, large, k, now) == Hit(p, small, k, now)
  {
    Inclusion<V>(p, [], [], m, n, ops);
    IncludedGet(p, AfterAll<V>(p, m, [], ops), AfterAll<V>(p, n, [], ops), m, n, k, now);
  }

  // ---- The sliding cache is ordered by last access ----

  // Front to back the stamps never increase, and none is ahead of the clock.
  ghost predicate ByAccess<V>(s: seq<Entry<V>>, clock: Time) {
    s == [] || (s[0].stamp <= clock && ByAccess(s[1..], s[0].stamp))
  }

  // The time an operation of the sliding cache reads, and stores on a Set or a hit.
  predicate Clocked<V>(op: Op<V>, clock: Time) {
    match op
    case Get(_, now) => clock <= now
    case Set(e) => clock <= e.stamp
    case Remove(_) => true
  }

  function ClockAfter<V>(op: Op<V>, clock: Time): Time {
    match op
    case Get(_, now) => now
    case Set(e) => e.stamp
    case Remove(_) => clock
  }

  lemma {:induction false} ByAccessLater<V>(s: seq<Entry<V>>, a: Time, b: Time)
    requires ByAccess(s, a) && a <= b
    ensures ByAccess(s, b)
  {
  }

  lemma {:induction false} ByAccessKeep<V>(s: seq<Entry<V>>, ks: set<string>, clock: Time)
    requires ByAccess(s, clock)
    ensures ByAccess(Keep(s, ks), clock)
  {
    if s != [] {
      ByAccessKeep(s[1..], ks, s[0].stamp);
      ByAccessLater(Keep(s[1..], ks), s[0].stamp, clock);
      assert ([s[0]] + Keep(s[1..], ks))[1..] == Keep(s[1..], ks);
      assert [] + Keep(s[1..], ks) == Keep(s[1..], ks);
    }
  }

  lemma {:induction false} ByAccessPush<V>(e: Entry<V>, s: seq<Entry<V>>, clock: Time)
    requires ByAccess(s, clock) && clock <= e.stamp
    ensures ByAccess([e] + s, e.stamp)
  {
    ByAccessLater(s, clock, e.stamp);
    assert ([e] + s)[1..] == s;
  }

  lemma {:induction false} ByAccessAfter<V>(ttl: int, max: nat, s: seq<Entry<V>>, op: Op<V>, clock: Time)
    requires Distinct(s) && ByAccess(s, clock) && Clocked(op, clock)
    ensures ByAccess(After(Sliding(ttl), max, s, op), ClockAfter(op, clock))
  {
    match op
    case Get(k, now) =>
      ByAccessKeep(s, Keys(s) - {k}, clock);
      ByAccessLater(s, clock, now);
      ByAccessLater(Without(s, k), clock, now);
      if Find(s, k).Some? { ByAccessPush(Find(s, k).value.(stamp := now), Without(s, k), clock); }
    case Set(e) =>
      EvictedIsKeep(s, max);
      ByAccessKeep(s, Keys(s) - {e.key}, clock);
      ByAccessKeep(s, Keys(s) - EvictedKeys(s, max), clock);
      ByAccessPush(e, Without(s, e.key), clock);
      ByAccessPush(e, Evicted(s, max), clock);
    case Remove(k) =>
      ByAccessKeep(s, Keys(s) - {k}, clock);
  }

  // Hence the entry at the back, the one evicted, has the least last access.
  lemma {:induction false} BackIsOldest<V>(s: seq<Entry<V>>, clock: Time, i: nat)
    requires ByAccess(s, clock) && i < |s|
    ensures s[|s| - 1].stamp <= s[i].stamp <= clock
  {
    if i > 0 {
      BackIsOldest(s[1..], s[0].stamp, i - 1);
    } else if |s| > 1 {
      BackIsOldest(s[1..], s[0].stamp, 0);
    }
  }
}
