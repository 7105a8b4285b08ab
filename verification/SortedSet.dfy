/** The sorted sets Redis and Valkey keep for the expiry and last-activity indexes.
    A sorted set is the sequence of its entries, ordered by score and then by member,
    which is the order ZRANGEBYSCORE reports. */
module SortedSet {

  datatype Entry = Entry(score: int, member: string)

  type ZSet = seq<Entry>

  predicate LexLess(a: string, b: string) {
    b != [] && (a == [] || a[0] < b[0] || (a[0] == b[0] && LexLess(a[1..], b[1..])))
  }

  predicate Before(x: Entry, y: Entry) {
    x.score < y.score || (x.score == y.score && LexLess(x.member, y.member))
  }

  ghost predicate AllAfter(x: Entry, z: ZSet) {
    forall e :: e in z ==> Before(x, e)
  }

  ghost predicate Absent(m: string, z: ZSet) {
    forall e :: e in z ==> e.member != m
  }

  ghost predicate Increasing(z: ZSet) {
    z == [] || (AllAfter(z[0], z[1..]) && Increasing(z[1..]))
  }

  ghost predicate Distinct(z: ZSet) {
    z == [] || (Absent(z[0].member, z[1..]) && Distinct(z[1..]))
  }

  ghost predicate Valid(z: ZSet) {
    Increasing(z) && Distinct(z)
  }

  // The abstract value of a sorted set.
  function Scores(z: ZSet): map<string, int> {
    if z == [] then map[] else Scores(z[1..])[z[0].member := z[0].score]
  }

  function Remove(z: ZSet, m: string): ZSet {
    if z == [] then []
    else if z[0].member == m then Remove(z[1..], m)
    else [z[0]] + Remove(z[1..], m)
  }

  function Insert(z: ZSet, e: Entry): ZSet {
    if z == [] then [e]
    else if Before(e, z[0]) then [e] + z
    else [z[0]] + Insert(z[1..], e)
  }

  // ZADD: a member has one score; adding it again moves it.
  function Add(z: ZSet, score: int, m: string): ZSet {
    Insert(Remove(z, m), Entry(score, m))
  }

  // The entries with score at most max.
  function UpTo(z: ZSet, max: int): ZSet {
    if z == [] || z[0].score > max then [] else [z[0]] + UpTo(z[1..], max)
  }

  // ZRANGEBYSCORE key -inf max LIMIT 0 limit
  function RangeByScore(z: ZSet, max: int, limit: nat): ZSet {
    var below := UpTo(z, max);
    if limit < |below| then below[..limit] else below
  }

  function Members(z: ZSet): (ms: seq<string>)
    ensures |ms| == |z| && forall i :: 0 <= i < |z| ==> ms[i] == z[i].member
  {
    seq(|z|, i requires 0 <= i < |z| => z[i].member)
  }

  // ---- Order ----

  lemma {:induction false} LexTotal(a: string, b: string)
    ensures a != b ==> LexLess(a, b) || LexLess(b, a)
    ensures !(LexLess(a, b) && LexLess(b, a))
    ensures !LexLess(a, a)
  {
    if a != [] && b != [] {
      LexTotal(a[1..], b[1..]);
      if a != b && a[0] == b[0] {
        assert a == [a[0]] + a[1..] && b == [b[0]] + b[1..];
      }
    }
    LexIrreflexive(a);
  }

  lemma {:induction false} LexIrreflexive(a: string)
    ensures !LexLess(a, a)
  {
    if a != [] { LexIrreflexive(a[1..]); }
  }

  lemma {:induction false} LexTransitive(a: string, b: string, c: string)
    requires LexLess(a, b) && LexLess(b, c)
    ensures LexLess(a, c)
  {
    if a != [] && a[0] == b[0] == c[0] {
      LexTransitive(a[1..], b[1..], c[1..]);
    }
  }

  lemma {:induction false} BeforeTransitive(x: Entry, y: Entry, z: Entry)
    requires Before(x, y) && Before(y, z)
    ensures Before(x, z)
  {
    if x.score == y.score == z.score { LexTransitive(x.member, y.member, z.member); }
  }

  lemma {:induction false} BeforeTotal(x: Entry, y: Entry)
    ensures x.member != y.member ==> Before(x, y) || Before(y, x)
    ensures !(Before(x, y) && Before(y, x)) && !Before(x, x)
  {
    LexTotal(x.member, y.member);
    LexTotal(x.member, x.member);
  }

  // ---- Contents ----

  lemma {:induction false} ScoresOf(z: ZSet)
    requires Distinct(z)
    ensures forall e :: e in z <==> e.member in Scores(z) && Scores(z)[e.member] == e.score
    ensures forall m :: m in Scores(z) ==> Entry(Scores(z)[m], m) in z
    ensures |Scores(z)| == |z|
  {
    if z != [] {
      ScoresOf(z[1..]);
      assert z == [z[0]] + z[1..];
    }
  }

  lemma {:induction false} RemoveMembers(z: ZSet, m: string)
    ensures forall e :: e in Remove(z, m) <==> e in z && e.member != m
  {
    if z != [] {
      assert z == [z[0]] + z[1..];
      RemoveMembers(z[1..], m);
    }
  }

  lemma {:induction false} RemoveDistinct(z: ZSet, m: string)
    requires Distinct(z)
    ensures Distinct(Remove(z, m))
  {
    if z != [] {
      RemoveDistinct(z[1..], m);
      RemoveMembers(z[1..], m);
      assert ([z[0]] + Remove(z[1..], m))[1..] == Remove(z[1..], m);
    }
  }

  lemma {:induction false} RemoveScores(z: ZSet, m: string)
    ensures Scores(Remove(z, m)) == Scores(z) - {m}
  {
    if z != [] {
      RemoveScores(z[1..], m);
      ScoresCons(z[0], Remove(z[1..], m));
    }
  }

  lemma {:induction false} RemoveIncreasing(z: ZSet, m: string)
    requires Valid(z)
    ensures Increasing(Remove(z, m))
  {
    if z != [] {
      RemoveIncreasing(z[1..], m);
      RemoveMembers(z[1..], m);
    }
  }

  lemma {:induction false} InsertMembers(z: ZSet, e: Entry)
    ensures forall x :: x in Insert(z, e) <==> x in z || x == e
  {
    if z != [] && !Before(e, z[0]) {
      assert z == [z[0]] + z[1..];
      InsertMembers(z[1..], e);
    }
  }

  lemma {:induction false} InsertDistinct(z: ZSet, e: Entry)
    requires Distinct(z) && Absent(e.member, z)
    ensures Distinct(Insert(z, e))
  {
    if z == [] {
    } else if Before(e, z[0]) {
      assert ([e] + z)[1..] == z;
    } else {
      InsertDistinct(z[1..], e);
      InsertMembers(z[1..], e);
      assert ([z[0]] + Insert(z[1..], e))[1..] == Insert(z[1..], e);
    }
  }

  lemma {:induction false} ScoresCons(e: Entry, z: ZSet)
    ensures Scores([e] + z) == Scores(z)[e.member := e.score]
  {
    assert ([e] + z)[1..] == z;
  }

  lemma {:induction false} InsertScores(z: ZSet, e: Entry)
    requires Absent(e.member, z)
    ensures Scores(Insert(z, e)) == Scores(z)[e.member := e.score]
  {
    if z == [] || Before(e, z[0]) {
      ScoresCons(e, z);
    } else {
      assert z[0] in z;
      InsertScores(z[1..], e);
      ScoresCons(z[0], Insert(z[1..], e));
    }
  }

  lemma {:induction false} InsertIncreasing(z: ZSet, e: Entry)
    requires Valid(z) && Absent(e.member, z)
    ensures Increasing(Insert(z, e))
  {
    if z == [] {
    } else if Before(e, z[0]) {
      forall x | x in z ensures Before(e, x) {
        if x != z[0] { BeforeTransitive(e, z[0], x); }
      }
      assert ([e] + z)[1..] == z;
    } else {
      InsertIncreasing(z[1..], e);
      InsertMembers(z[1..], e);
      BeforeTotal(e, z[0]);
      assert ([z[0]] + Insert(z[1..], e))[1..] == Insert(z[1..], e);
    }
  }

  // ZREM drops exactly one member.
  lemma {:induction false} RemoveSpec(z: ZSet, m: string)
    requires Valid(z)
    ensures Valid(Remove(z, m))
    ensures Scores(Remove(z, m)) == Scores(z) - {m}
  {
    RemoveDistinct(z, m);
    RemoveScores(z, m);
    RemoveIncreasing(z, m);
  }

  // ZADD sets exactly one score ...
  lemma {:induction false} AddScores(z: ZSet, score: int, m: string)
    ensures Scores(Add(z, score, m)) == Scores(z)[m := score]
  {
    RemoveScores(z, m);
    RemoveMembers(z, m);
    InsertScores(Remove(z, m), Entry(score, m));
    assert (Scores(z) - {m})[m := score] == Scores(z)[m := score];
  }

  // ... and keeps the order.
  lemma {:induction false} AddSpec(z: ZSet, score: int, m: string)
    requires Valid(z)
    ensures Valid(Add(z, score, m))
    ensures Scores(Add(z, score, m)) == Scores(z)[m := score]
  {
    AddScores(z, score, m);
    RemoveDistinct(z, m);
    RemoveMembers(z, m);
    RemoveIncreasing(z, m);
    InsertDistinct(Remove(z, m), Entry(score, m));
    InsertIncreasing(Remove(z, m), Entry(score, m));
  }

  // The order is canonical: the scores determine the sorted set.
  lemma {:induction false} Canonical(y: ZSet, z: ZSet)
    requires Valid(y) && Valid(z) && Scores(y) == Scores(z)
    ensures y == z
  {
    SameHead(y, z);
    if y != [] {
      TailScores(y);
      TailScores(z);
      Canonical(y[1..], z[1..]);
      assert y == [y[0]] + y[1..] && z == [z[0]] + z[1..];
    }
  }

  lemma {:induction false} SameHead(y: ZSet, z: ZSet)
    requires Valid(y) && Valid(z) && Scores(y) == Scores(z)
    ensures if y == [] then z == [] else z != [] && y[0] == z[0]
  {
    ScoresOf(y);
    ScoresOf(z);
    if y != [] {
      assert y[0] in z && z[0] in y;
      BeforeTotal(y[0], z[0]);
    }
  }

  lemma {:induction false} TailScores(z: ZSet)
    requires Distinct(z) && z != []
    ensures Scores(z[1..]) == Scores(z) - {z[0].member}
  {
    ScoresOf(z[1..]);
  }

  // ---- Ranges ----

  lemma {:induction false} UpToSpec(z: ZSet, max: int)
    requires Valid(z)
    ensures UpTo(z, max) <= z
    ensures forall e :: e in UpTo(z, max) <==> e in z && e.score <= max
  {
    if z != [] {
      assert z == [z[0]] + z[1..];
      UpToSpec(z[1..], max);
    }
  }

  lemma {:induction false} Ordered(z: ZSet, i: nat, j: nat)
    requires Valid(z) && i < j < |z|
    ensures Before(z[i], z[j]) && z[i].member != z[j].member
  {
    if i == 0 {
      assert z[j] == z[1..][j - 1];
    } else {
      Ordered(z[1..], i - 1, j - 1);
    }
  }

  // A range is the front of the set: it misses nothing that precedes what it reports.
  lemma {:induction false} RangeSpec(z: ZSet, max: int, limit: nat)
    requires Valid(z)
    ensures var r := RangeByScore(z, max, limit);
            && r <= z
            && |r| <= limit
            && (forall e :: e in r ==> e.score <= max)
            && (forall e :: e in z && e !in r && e.score <= max ==>
                  |r| == limit && forall x :: x in r ==> Before(x, e))
  {
    UpToSpec(z, max);
    var below := UpTo(z, max);
    var r := RangeByScore(z, max, limit);
    forall e | e in z && e !in r && e.score <= max
      ensures |r| == limit && forall x :: x in r ==> Before(x, e)
    {
      var i :| 0 <= i < |below| && below[i] == e;
      assert forall k :: 0 <= k < |r| ==> r[k] != e;
      forall x | x in r ensures Before(x, e) {
        var k :| 0 <= k < |r| && r[k] == x;
        Ordered(z, k, i);
      }
    }
  }

  lemma {:induction false} RangeValid(z: ZSet, max: int, limit: nat)
    requires Valid(z)
    ensures Valid(RangeByScore(z, max, limit))
  {
    UpToSpec(z, max);
    var r := RangeByScore(z, max, limit);
    PrefixValid(z, |r|);
    assert r == z[..|r|];
  }

  lemma {:induction false} PrefixValid(z: ZSet, n: nat)
    requires Valid(z) && n <= |z|
    ensures Valid(z[..n])
  {
    if n > 0 {
      PrefixValid(z[1..], n - 1);
      assert z[..n][1..] == z[1..][..n - 1];
      assert forall e :: e in z[1..][..n - 1] ==> e in z[1..];
    }
  }
}
