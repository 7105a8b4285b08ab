/** The caches without their order. Each key carries what has been set or hit since it was last set or hit
    itself; it is lost when that comes to as many keys as the cache holds. The list of a cache does just this. */
module Reuse {
  import opened Sandboxes
  import opened Recency

  datatype Trail<+V> = Trail(val: V, stamp: Time, since: set<string>)

  type History<V> = map<string, Trail<V>>

  // A token without expiry is always good and others through their last moment; a verdict for ttl after
  // its last use.
  predicate Fresh(p: Policy, stamp: Time, now: Time) {
    match p
    case TokenExpiry => stamp == 0 || now <= stamp
    case Sliding(ttl) => now <= stamp + ttl
  }

  function Known<V>(p: Policy, h: History<V>, k: string, now: Time): Option<V> {
    if k in h && Fresh(p, h[k].stamp, now) then Some(h[k].val) else None
  }

  // j is set or hit: it starts over, and all others have seen one more key, if they did not know it.
  function Used<V>(h: History<V>, max: nat, j: string, val: V, stamp: Time): History<V> {
    map k | k in h.Keys + {j} && (k == j || |h[k].since + {j}| < max) ::
      if k == j then Trail(val, stamp, {}) else h[k].(since := h[k].since + {j})
  }

  function Forgotten<V>(h: History<V>, j: string): History<V> {
    map k | k in h && k != j :: h[k].(since := h[k].since - {j})
  }

  function Next<V>(p: Policy, max: nat, h: History<V>, op: Op<V>): History<V> {
    match op
    case Get(k, now) =>
      if k !in h then h
      else if !Fresh(p, h[k].stamp, now) then Forgotten(h, k)
      else Used(h, max, k, h[k].val, if p.Sliding? then now else h[k].stamp)
    case Set(e) => Used(h, max, e.key, e.val, e.stamp)
    case Remove(k) => Forgotten(h, k)
  }

  function NextAll<V>(p: Policy, max: nat, h: History<V>, ops: seq<Op<V>>): History<V>
    decreases ops
  {
    if ops == [] then h else NextAll(p, max, Next(p, max, h, ops[0]), ops[1..])
  }

  // ---- What is ahead of a key in the list ----

  function Ahead<V>(s: seq<Entry<V>>, k: string): set<string> {
    if s == [] || s[0].key == k then {} else {s[0].key} + Ahead(s[1..], k)
  }

  lemma {:induction false} AheadCons<V>(e: Entry<V>, s: seq<Entry<V>>, k: string)
    ensures Ahead([e] + s, k) == if e.key == k then {} else {e.key} + Ahead(s, k)
    ensures Find([e] + s, k) == if e.key == k then Some(e) else Find(s, k)
  {
    assert ([e] + s)[1..] == s;
  }

  lemma {:induction false} AheadKeep<V>(s: seq<Entry<V>>, ks: set<string>, k: string)
    requires k in ks
    ensures Ahead(Keep(s, ks), k) == Ahead(s, k) * ks
  {
    if s != [] {
      AheadKeep(s[1..], ks, k);
      KeepCons(s, ks);
      AheadCons(s[0], Keep(s[1..], ks), k);
    }
  }

  lemma {:induction false} AheadWithin<V>(s: seq<Entry<V>>, k: string)
    requires Distinct(s) && k in Keys(s)
    ensures Ahead(s, k) <= Keys(s) - {k}
    ensures |Ahead(s, k)| < |s|
    ensures Ahead(s, k) == Keys(s) - {k} <==> s[|s| - 1].key == k
  {
    assert s == [s[0]] + s[1..];
    KeysCons(s[0], s[1..]);
    if s[0].key != k {
      AheadWithin(s[1..], k);
      assert Ahead(s, k) == {s[0].key} + Ahead(s[1..], k);
      assert s[0].key !in Keys(s[1..]);
    } else if |s| > 1 {
      LastKey(s[1..]);
    }
    DistinctSize(s);
    LastKey(s);
  }

  // ---- The list and the history agree ----

  ghost predicate SameAt<V>(s: seq<Entry<V>>, h: History<V>, k: string) {
    k in h ==> Find(s, k) == Some(Entry(k, h[k].val, h[k].stamp)) && Ahead(s, k) == h[k].since
  }

  ghost predicate Same<V>(s: seq<Entry<V>>, h: History<V>) {
    Keys(s) == h.Keys && forall k :: SameAt(s, h, k)
  }

  lemma {:induction false} SetSize(a: set<string>, b: set<string>)
    requires a <= b
    ensures |a| <= |b|
    ensures |a| == |b| ==> a == b
  {
    assert b == a + (b - a);
  }

  // The other keys a Set of j leaves.
  function Left<V>(s: seq<Entry<V>>, max: nat, j: string): set<string> {
    Keys(s) - if j in Keys(s) then {j} else EvictedKeys(s, max)
  }

  lemma {:induction false} AfterSetIsPush<V>(s: seq<Entry<V>>, max: nat, e: Entry<V>)
    requires Distinct(s)
    ensures AfterSet(s, max, e) == [e] + Keep(s, Left(s, max, e.key))
    ensures Keys(AfterSet(s, max, e)) == {e.key} + Left(s, max, e.key)
  {
    EvictedIsKeep(s, max);
    KeepKeys(s, Left(s, max, e.key));
    KeysCons(e, Keep(s, Left(s, max, e.key)));
  }

  // They are the ones that have seen too few others.
  lemma {:induction false} LeftIff<V>(s: seq<Entry<V>>, max: nat, j: string, k: string)
    requires Distinct(s) && 0 < max && |s| <= max && k in Keys(s) && k != j
    ensures k in Left(s, max, j) <==> |Ahead(s, k) + {j}| < max
  {
    AheadWithin(s, k);
    DistinctSize(s);
    if j in Keys(s) {
      SetSize(Ahead(s, k) + {j}, Keys(s) - {k});
    } else {
      assert |Ahead(s, k) + {j}| == |Ahead(s, k)| + 1;
      SetSize(Ahead(s, k), Keys(s) - {k});
    }
  }

  lemma {:induction false} LeftPlace<V>(s: seq<Entry<V>>, max: nat, j: string, k: string)
    requires Distinct(s) && k in Left(s, max, j) && k != j
    ensures Ahead(s, k) * Left(s, max, j) + {j} == Ahead(s, k) + {j}
  {
    AheadWithin(s, k);
    if j !in Keys(s) && EvictedKeys(s, max) != {} {
      BackIsLast(s, k);
      assert EvictedKeys(s, max) == {s[|s| - 1].key};
    }
    SameButOne(Ahead(s, k), Left(s, max, j), j);
  }

  lemma {:induction false} SameButOne(a: set<string>, ks: set<string>, j: string)
    requires a <= ks + {j}
    ensures a * ks + {j} == a + {j}
  {
  }

  // The last key is ahead of no other.
  lemma {:induction false} BackIsLast<V>(s: seq<Entry<V>>, k: string)
    requires Distinct(s) && k in Keys(s) && s[|s| - 1].key != k
    ensures s[|s| - 1].key !in Ahead(s, k)
  {
    assert s == [s[0]] + s[1..];
    KeysCons(s[0], s[1..]);
    if s[0].key != k {
      BackIsLast(s[1..], k);
      LastKey(s[1..]);
    }
  }

  // Those that stay keep their value and are behind the key that was set.
  lemma {:induction false} PushedPlace<V>(s: seq<Entry<V>>, max: nat, e: Entry<V>, k: string)
    requires Distinct(s) && k in Left(s, max, e.key) && k != e.key
    ensures Find(AfterSet(s, max, e), k) == Find(s, k)
    ensures Ahead(AfterSet(s, max, e), k) == Ahead(s, k) + {e.key}
  {
    var ks := Left(s, max, e.key);
    AfterSetIsPush(s, max, e);
    FindKept(s, ks, k);
    AheadKeep(s, ks, k);
    AheadCons(e, Keep(s, ks), k);
    LeftPlace(s, max, e.key, k);
  }

  lemma {:induction false} SameAfterUse<V>(s: seq<Entry<V>>, h: History<V>, max: nat, e: Entry<V>)
    requires Distinct(s) && 0 < max && |s| <= max && Same(s, h)
    ensures Same(AfterSet(s, max, e), Used(h, max, e.key, e.val, e.stamp))
  {
    var s', h' := AfterSet(s, max, e), Used(h, max, e.key, e.val, e.stamp);
    AfterSetIsPush(s, max, e);
    forall k ensures k in Keys(s') <==> k in h' {
      if k in Keys(s) && k != e.key { assert SameAt(s, h, k); LeftIff(s, max, e.key, k); }
    }
    forall k ensures SameAt(s', h', k) {
      if k == e.key {
        AheadCons(e, Keep(s, Left(s, max, e.key)), k);
      } else if k in h' {
        assert SameAt(s, h, k);
        PushedPlace(s, max, e, k);
      }
    }
  }

  lemma {:induction false} PlaceAfterDrop<V>(s: seq<Entry<V>>, j: string, k: string)
    requires Distinct(s) && k in Keys(s) && k != j
    ensures Find(Without(s, j), k) == Find(s, k) && Ahead(Without(s, j), k) == Ahead(s, k) - {j}
  {
    var ks := Keys(s) - {j};
    FindKept(s, ks, k);
    AheadKeep(s, ks, k);
    AheadWithin(s, k);
    assert Ahead(s, k) * ks == Ahead(s, k) - {j};
  }

  lemma {:induction false} SameAfterDrop<V>(s: seq<Entry<V>>, h: History<V>, j: string)
    requires Distinct(s) && Same(s, h)
    ensures Same(Without(s, j), Forgotten(h, j))
  {
    KeepKeys(s, Keys(s) - {j});
    forall k ensures SameAt(Without(s, j), Forgotten(h, j), k) {
      if k in h && k != j {
        assert SameAt(s, h, k);
        PlaceAfterDrop(s, j, k);
      }
    }
  }

  lemma {:induction false} SameAfter<V>(p: Policy, max: nat, s: seq<Entry<V>>, h: History<V>, op: Op<V>)
    requires Distinct(s) && 0 < max && |s| <= max && Same(s, h)
    ensures Same(After(p, max, s, op), Next(p, max, h, op))
  {
    match op
    case Get(k, now) =>
      FindKept(s, {}, k);
      assert SameAt(s, h, k);
      if k in h {
        SameAfterDrop(s, h, k);
        SameAfterUse(s, h, max, Entry(k, h[k].val, OnHit(p, h[k].stamp, now)));
      }
    case Set(e) => SameAfterUse(s, h, max, e);
    case Remove(k) => SameAfterDrop(s, h, k);
  }

  lemma {:induction false} SameAfterAll<V>(p: Policy, max: nat, s: seq<Entry<V>>, h: History<V>, ops: seq<Op<V>>)
    requires Included(s, s, max, max) && 0 < max && Same(s, h)
    ensures Same(AfterAll(p, max, s, ops), NextAll(p, max, h, ops))
    decreases ops
  {
    if ops != [] {
      SameAfter(p, max, s, h, ops[0]);
      IncludedAfter(p, s, s, max, max, ops[0]);
      SameAfterAll(p, max, After(p, max, s, ops[0]), Next(p, max, h, ops[0]), ops[1..]);
    }
  }

  // On every trace a cache answers what the history says: a key hits exactly if it was set, has not been removed
  // or found expired since, is not expired now, and fewer than max other keys have been set or hit since it was;
  // and it hits with the value last set.
  lemma {:induction false} HitsByHistory<V>(p: Policy, max: nat, ops: seq<Op<V>>, k: string, now: Time)
    requires 0 < max
    ensures Hit(p, AfterAll<V>(p, max, [], ops), k, now) == Known(p, NextAll<V>(p, max, map[], ops), k, now)
  {
    SameAfterAll<V>(p, max, [], map[], ops);
    FindKept(AfterAll<V>(p, max, [], ops), {}, k);
    assert SameAt(AfterAll<V>(p, max, [], ops), NextAll<V>(p, max, map[], ops), k);
  }

  lemma {:induction false} NextAllAppend<V>(p: Policy, max: nat, h: History<V>, a: seq<Op<V>>, b: seq<Op<V>>)
    ensures NextAll(p, max, h, a + b) == NextAll(p, max, NextAll(p, max, h, a), b)
    decreases a
  {
    if a == [] {
      assert a + b == b;
    } else {
      assert (a + b)[1..] == a[1..] + b;
      NextAllAppend(p, max, Next(p, max, h, a[0]), a[1..], b);
    }
  }

  // ---- A hit, from the trace alone ----

  // What the key was last set to, unless it was removed since.
  function LastSet<V>(ops: seq<Op<V>>, k: string): Option<Entry<V>> {
    if ops == [] then None
    else match ops[|ops| - 1]
      case Set(e) => if e.key == k then Some(e) else LastSet(ops[..|ops| - 1], k)
      case Remove(j) => if j == k then None else LastSet(ops[..|ops| - 1], k)
      case Get(_, _) => LastSet(ops[..|ops| - 1], k)
  }

  lemma {:induction false} HistoryIsLastSet<V>(p: Policy, max: nat, ops: seq<Op<V>>, k: string)
    ensures var h := NextAll<V>(p, max, map[], ops);
            k in h ==>
              && LastSet(ops, k).Some? && LastSet(ops, k).value.val == h[k].val
              && (p.TokenExpiry? ==> LastSet(ops, k).value.stamp == h[k].stamp)
    decreases |ops|
  {
    if ops != [] {
      var front, op := ops[..|ops| - 1], ops[|ops| - 1];
      assert ops == front + [op];
      NextAllAppend<V>(p, max, map[], front, [op]);
      NextOne(p, max, NextAll<V>(p, max, map[], front), op);
      HistoryIsLastSet(p, max, front, k);
    }
  }

  // On every trace a hit returns the value last set, and a client is not returned after its token's expiry.
  lemma {:induction false} HitsAreLastSet<V>(p: Policy, max: nat, ops: seq<Op<V>>, k: string, now: Time)
    requires 0 < max && Hit(p, AfterAll<V>(p, max, [], ops), k, now).Some?
    ensures LastSet(ops, k).Some? && Hit(p, AfterAll<V>(p, max, [], ops), k, now).value == LastSet(ops, k).value.val
    ensures p.TokenExpiry? ==> LastSet(ops, k).value.stamp == 0 || now <= LastSet(ops, k).value.stamp
  {
    HitsByHistory(p, max, ops, k, now);
    HistoryIsLastSet(p, max, ops, k);
  }

  // ---- And the converse ----

  // The key is not set again, removed or found expired.
  predicate Undisturbed<V>(p: Policy, ops: seq<Op<V>>, k: string, stamp: Time)
    decreases ops
  {
    ops == [] ||
    match ops[0]
    case Set(e) => e.key != k && Undisturbed(p, ops[1..], k, stamp)
    case Remove(j) => j != k && Undisturbed(p, ops[1..], k, stamp)
    case Get(j, now) =>
      if j != k then Undisturbed(p, ops[1..], k, stamp)
      else Fresh(p, stamp, now) && Undisturbed(p, ops[1..], k, if p.Sliding? then now else stamp)
  }

  // The key an operation sets or hits.
  function Uses<V>(p: Policy, h: History<V>, op: Op<V>): set<string> {
    match op
    case Set(e) => {e.key}
    case Get(k, now) => if Known(p, h, k, now).Some? then {k} else {}
    case Remove(_) => {}
  }

  function UsesAll<V>(p: Policy, max: nat, h: History<V>, ops: seq<Op<V>>): set<string>
    decreases ops
  {
    if ops == [] then {} else Uses(p, h, ops[0]) + UsesAll(p, max, Next(p, max, h, ops[0]), ops[1..])
  }

  lemma {:induction false} StaysOneStep<V>(p: Policy, max: nat, h: History<V>, op: Op<V>, k: string)
    requires k in h && Undisturbed(p, [op], k, h[k].stamp)
    requires |h[k].since + (Uses(p, h, op) - {k})| < max
    ensures var h' := Next(p, max, h, op);
            && k in h' && h'[k].val == h[k].val && h'[k].since <= h[k].since + (Uses(p, h, op) - {k})
            && h'[k].stamp == if op.Get? && op.key == k && p.Sliding? then op.now else h[k].stamp
  {
    if op.Set? || (op.Get? && Known(p, h, op.key, op.now).Some? && op.key != k) {
      var j := if op.Set? then op.entry.key else op.key;
      assert Uses(p, h, op) - {k} == {j};
    }
  }

  lemma {:induction false} StaysKnown<V>(p: Policy, max: nat, h: History<V>, ops: seq<Op<V>>, k: string, now: Time)
    requires k in h && Undisturbed(p, ops + [Get(k, now)], k, h[k].stamp)
    requires |h[k].since + (UsesAll(p, max, h, ops) - {k})| < max
    ensures Known(p, NextAll(p, max, h, ops), k, now) == Some(h[k].val)
    decreases ops
  {
    var all := ops + [Get(k, now)];
    if ops == [] {
      assert all[0] == Get(k, now);
    } else {
      var op, h' := ops[0], Next(p, max, h, ops[0]);
      assert all[0] == op && all[1..] == ops[1..] + [Get(k, now)];
      var uses, later := Uses(p, h, op), UsesAll(p, max, h', ops[1..]);
      assert UsesAll(p, max, h, ops) == uses + later;
      SetSize(h[k].since + (uses - {k}), h[k].since + (uses + later - {k}));
      StaysOneStep(p, max, h, op, k);
      SetSize(h'[k].since + (later - {k}), h[k].since + (uses + later - {k}));
      StaysKnown(p, max, h', ops[1..], k, now);
    }
  }

  // A key that was set hits with that value if since then it has not been set again, removed or found expired,
  // is not expired, and fewer than max other keys have been set or hit.
  lemma {:induction false} LastSetHits<V>(p: Policy, max: nat, before: seq<Op<V>>, e: Entry<V>, after: seq<Op<V>>,
                                          now: Time)
    requires 0 < max && Undisturbed(p, after + [Get(e.key, now)], e.key, e.stamp)
    requires |UsesAll(p, max, NextAll<V>(p, max, map[], before + [Set(e)]), after) - {e.key}| < max
    ensures Hit(p, AfterAll<V>(p, max, [], before + [Set(e)] + after), e.key, now) == Some(e.val)
  {
    var h := NextAll<V>(p, max, map[], before + [Set(e)]);
    NextAllAppend<V>(p, max, map[], before, [Set(e)]);
    NextAllAppend<V>(p, max, map[], before + [Set(e)], after);
    assert h[e.key] == Trail(e.val, e.stamp, {});
    assert {} + (UsesAll(p, max, h, after) - {e.key}) == UsesAll(p, max, h, after) - {e.key};
    StaysKnown(p, max, h, after, e.key, now);
    HitsByHistory(p, max, before + [Set(e)] + after, e.key, now);
  }

  // ---- What a Set drops ----

  // Operation i of the trace sets or hits the key.
  predicate UsedAt<V>(p: Policy, max: nat, ops: seq<Op<V>>, i: nat, k: string)
    requires i < |ops|
  {
    match ops[i]
    case Set(e) => e.key == k
    case Get(j, now) => j == k && Hit(p, AfterAll<V>(p, max, [], ops[..i]), j, now).Some?
    case Remove(_) => false
  }

  // j was used at some moment from which on k was not.
  ghost predicate MoreRecent<V>(p: Policy, max: nat, ops: seq<Op<V>>, j: string, k: string) {
    exists i :: 0 <= i < |ops| && UsedAt(p, max, ops, i, j) && UnusedFrom(p, max, ops, i, k)
  }

  ghost predicate UnusedFrom<V>(p: Policy, max: nat, ops: seq<Op<V>>, i: nat, k: string) {
    forall n :: i <= n < |ops| ==> !UsedAt(p, max, ops, n, k)
  }

  lemma {:induction false} MoreRecentStill<V>(p: Policy, max: nat, ops: seq<Op<V>>, op: Op<V>, j: string, k: string)
    requires MoreRecent(p, max, ops, j, k) && !UsedAt(p, max, ops + [op], |ops|, k)
    ensures MoreRecent(p, max, ops + [op], j, k)
  {
    var all := ops + [op];
    var i :| 0 <= i < |ops| && UsedAt(p, max, ops, i, j) && UnusedFrom(p, max, ops, i, k);
    assert all[..i] == ops[..i];
    forall n | i <= n < |all| ensures !UsedAt(p, max, all, n, k) {
      if n < |ops| { assert all[..n] == ops[..n] && !UsedAt(p, max, ops, n, k); }
    }
    assert UnusedFrom(p, max, all, i, k);
  }

  lemma {:induction false} UsedAtEnd<V>(p: Policy, max: nat, ops: seq<Op<V>>, op: Op<V>, k: string)
    requires 0 < max
    ensures UsedAt(p, max, ops + [op], |ops|, k) <==> k in Uses(p, NextAll<V>(p, max, map[], ops), op)
  {
    assert (ops + [op])[..|ops|] == ops;
    if op.Get? { HitsByHistory(p, max, ops, op.key, op.now); }
  }

  // One step adds to what a key has seen only what it uses, and takes everything from a key it uses.
  lemma {:induction false} SinceStep<V>(p: Policy, max: nat, h: History<V>, op: Op<V>, j: string, k: string)
    requires k in Next(p, max, h, op) && j in Next(p, max, h, op)[k].since
    ensures k in h && k !in Uses(p, h, op) && (j in h[k].since || j in Uses(p, h, op))
  {
  }

  // What a key has seen was used after it.
  lemma {:induction false} SinceIsMoreRecent<V>(p: Policy, max: nat, ops: seq<Op<V>>, j: string, k: string)
    requires 0 < max
    requires var h := NextAll<V>(p, max, map[], ops); k in h && j in h[k].since
    ensures MoreRecent(p, max, ops, j, k)
    decreases |ops|
  {
    if ops != [] {
      var front, op := ops[..|ops| - 1], ops[|ops| - 1];
      assert ops == front + [op];
      var h := NextAll<V>(p, max, map[], front);
      NextAllAppend<V>(p, max, map[], front, [op]);
      NextOne(p, max, h, op);
      SinceStep(p, max, h, op, j, k);
      UsedAtEnd(p, max, front, op, k);
      UsedAtEnd(p, max, front, op, j);
      if j in h[k].since {
        SinceIsMoreRecent(p, max, front, j, k);
        MoreRecentStill(p, max, front, op, j, k);
      } else {
        assert UsedAt(p, max, ops, |front|, j) && UnusedFrom(p, max, ops, |front|, k);
      }
    }
  }

  lemma {:induction false} NextOne<V>(p: Policy, max: nat, h: History<V>, op: Op<V>)
    ensures NextAll(p, max, h, [op]) == Next(p, max, h, op)
  {
    var none := [op][1..];
    assert none == [] && NextAll(p, max, Next(p, max, h, op), none) == Next(p, max, h, op);
  }

  // A Set drops another key only from a full cache and for a new key, and that is the last one.
  lemma {:induction false} DropsBack<V>(s: seq<Entry<V>>, max: nat, e: Entry<V>, k: string)
    requires Distinct(s) && |s| <= max && k in Keys(s) && k != e.key && k !in Keys(AfterSet(s, max, e))
    ensures |s| == max && e.key !in Keys(s) && Ahead(s, k) == Keys(s) - {k}
  {
    AfterSetIsPush(s, max, e);
    assert k in EvictedKeys(s, max);
    AheadWithin(s, k);
  }

  // On every trace what a Set drops is the least recently used key: every other one has been set or hit since it
  // last was.
  lemma {:induction false} DropsLeastRecent<V>(p: Policy, max: nat, ops: seq<Op<V>>, e: Entry<V>, k: string)
    requires 0 < max && k != e.key
    requires var s := AfterAll<V>(p, max, [], ops); k in Keys(s) && k !in Keys(AfterSet(s, max, e))
    ensures var s := AfterAll<V>(p, max, [], ops);
            && |s| == max && e.key !in Keys(s)
            && forall j :: j in Keys(s) && j != k ==> MoreRecent(p, max, ops, j, k)
  {
    var s, h := AfterAll<V>(p, max, [], ops), NextAll<V>(p, max, map[], ops);
    SameAfterAll<V>(p, max, [], map[], ops);
    Inclusion<V>(p, [], [], max, max, ops);
    DropsBack(s, max, e, k);
    assert SameAt(s, h, k);
    forall j | j in Keys(s) && j != k ensures MoreRecent(p, max, ops, j, k) {
      SinceIsMoreRecent(p, max, ops, j, k);
    }
  }
}
