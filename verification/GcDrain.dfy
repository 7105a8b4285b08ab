/** Progress of the repeated passes of a collector over every history: whatever else happens in between,
    whichever deletes are refused and whatever other collectors do, what is due is drained a hundred
    sessions a pass. Sessions that cannot be collected may be set aside as stubborn: those whose deletes
    are refused again and again, entries without a record, and for idleness sessions with longer
    timeouts. Each of them costs one place of every pass. */
module GcDrain {
  import opened Sandboxes
  import opened Store
  import opened GarbageCollection
  import opened GcProgress
  import opened GcHistory
  import SortedSet

  // ---- Counting ----

  // The members of an index with score at most sec.
  function DueBy(z: SortedSet.ZSet, sec: int): set<string> {
    set m | m in SortedSet.Scores(z) && SortedSet.Scores(z)[m] <= sec
  }

  // Those of them that are neither stubborn nor listed.
  function Left(z: SortedSet.ZSet, sec: int, stubborn: set<string>, pending: set<string>): set<string> {
    set m | m in SortedSet.Scores(z) && SortedSet.Scores(z)[m] <= sec && m !in stubborn && m !in pending
  }

  function Minus(n: int, k: int): int { if n < k then 0 else n - k }

  lemma {:induction false} SubsetSize(a: set<string>, b: set<string>)
    requires a <= b
    ensures |a| <= |b|
  {
    assert b == a + (b - a);
  }

  lemma {:induction false} DifferenceSize(a: set<string>, b: set<string>)
    requires b <= a
    ensures |a - b| == |a| - |b|
  {
  }

  lemma {:induction false} RestSize(a: set<string>, b: set<string>)
    ensures |a - b| >= |a| - |b|
  {
    assert a == (a - b) + (a * b);
    SubsetSize(a * b, b);
  }

  // If the entries of the front that are due by an earlier second are listed or stubborn, then of all that
  // are due by then and not stubborn, all are listed, or as many as a full front has room for.
  lemma {:induction false} FrontDrains(z: SortedSet.ZSet, sec: int, early: int, listed: set<string>,
                                       stubborn: set<string>)
    requires SortedSet.Valid(z) && early <= sec && |stubborn| <= CANDIDATE_LIMIT
    requires forall e :: e in SortedSet.RangeByScore(z, sec, CANDIDATE_LIMIT) && e.score <= early ==>
               e.member in listed || e.member in stubborn
    ensures |Left(z, early, stubborn, listed)| <= Minus(|Left(z, early, stubborn, {})|, CANDIDATE_LIMIT - |stubborn|)
  {
    var front := SortedSet.RangeByScore(z, sec, CANDIDATE_LIMIT);
    SortedSet.RangeSpec(z, sec, CANDIDATE_LIMIT);
    SortedSet.ScoresOf(z);
    if e :| e in z && e !in front && e.score <= early {
      FullFrontDrains(z, sec, early, listed, stubborn, e);
    } else {
      forall m | m in DueBy(z, early) ensures m in listed || m in stubborn {
        assert SortedSet.Entry(SortedSet.Scores(z)[m], m) in z;
      }
      assert Left(z, early, stubborn, listed) == {};
    }
  }

  lemma {:induction false} FullFrontDrains(z: SortedSet.ZSet, sec: int, early: int, listed: set<string>,
                                           stubborn: set<string>, e: SortedSet.Entry)
    requires SortedSet.Valid(z) && early <= sec && |stubborn| <= CANDIDATE_LIMIT
    requires e in z && e !in SortedSet.RangeByScore(z, sec, CANDIDATE_LIMIT) && e.score <= early
    requires forall x :: x in SortedSet.RangeByScore(z, sec, CANDIDATE_LIMIT) && x.score <= early ==>
               x.member in listed || x.member in stubborn
    ensures |Left(z, early, stubborn, listed)| <= Minus(|Left(z, early, stubborn, {})|, CANDIDATE_LIMIT - |stubborn|)
  {
    var taken := FrontMembers(z, sec);
    FullFront(z, sec, early, e);
    forall m | m in taken - stubborn ensures m in listed {
      assert SortedSet.Entry(SortedSet.Scores(z)[m], m) in SortedSet.RangeByScore(z, sec, CANDIDATE_LIMIT);
    }
    var before, after := Left(z, early, stubborn, {}), Left(z, early, stubborn, listed);
    SubsetSize(after, before - (taken - stubborn));
    DifferenceSize(before, taken - stubborn);
    RestSize(taken, stubborn);
  }

  function FrontMembers(z: SortedSet.ZSet, sec: int): set<string> {
    SortedSet.Scores(SortedSet.RangeByScore(z, sec, CANDIDATE_LIMIT)).Keys
  }

  // If something that is due by an earlier second is left out, the front is full and due by then.
  lemma {:induction false} FullFront(z: SortedSet.ZSet, sec: int, early: int, e: SortedSet.Entry)
    requires SortedSet.Valid(z) && early <= sec
    requires e in z && e !in SortedSet.RangeByScore(z, sec, CANDIDATE_LIMIT) && e.score <= early
    ensures |FrontMembers(z, sec)| == CANDIDATE_LIMIT && FrontMembers(z, sec) <= DueBy(z, early)
    ensures forall m :: m in FrontMembers(z, sec) ==>
              var x := SortedSet.Entry(SortedSet.Scores(z)[m], m);
              x in SortedSet.RangeByScore(z, sec, CANDIDATE_LIMIT) && x.score <= early
  {
    var front := SortedSet.RangeByScore(z, sec, CANDIDATE_LIMIT);
    SortedSet.RangeSpec(z, sec, CANDIDATE_LIMIT);
    SortedSet.RangeValid(z, sec, CANDIDATE_LIMIT);
    SortedSet.ScoresOf(z);
    SortedSet.ScoresOf(front);
    forall m | m in FrontMembers(z, sec)
      ensures m in SortedSet.Scores(z) && SortedSet.Scores(z)[m] == SortedSet.Scores(front)[m] <= early
      ensures SortedSet.Entry(SortedSet.Scores(front)[m], m) in front
    {
      FrontIsIndexed(z, sec, SortedSet.Entry(SortedSet.Scores(front)[m], m));
    }
  }

  lemma {:induction false} FrontIsIndexed(z: SortedSet.ZSet, max: int, e: SortedSet.Entry)
    requires SortedSet.Valid(z) && e in SortedSet.RangeByScore(z, max, CANDIDATE_LIMIT)
    ensures e in z && e.member in SortedSet.Scores(z) && SortedSet.Scores(z)[e.member] == e.score && e.score <= max
  {
    SortedSet.RangeSpec(z, max, CANDIDATE_LIMIT);
    SortedSet.ScoresOf(z);
    assert e in z;
  }

  // ---- What one event does to the number of those left ----

  // A refusal met by collector p, outside the stubborn.
  function Given(ev: Event, p: nat, stubborn: set<string>): nat {
    if ev.Refuse? && ev.p == p && ev.id !in stubborn then 1 else 0
  }

  // From z to z' entries only go or move to a later second, and these members are gone.
  ghost predicate Shrinks(z: SortedSet.ZSet, z': SortedSet.ZSet, sec: int, gone: set<string>) {
    forall m :: m in DueBy(z', sec) ==> m in DueBy(z, sec) && m !in gone
  }

  // What an event takes from the list of collector p, by deleting it.
  function GoneIn(ev: Event, p: nat): set<string> { if ev.Drop? && ev.p == p then {ev.id} else {} }

  // An event that is neither a listing nor a refusal of collector p.
  predicate Aside(ev: Event, p: nat) { (ev.ListIdle? || ev.ListExpired? || ev.Refuse?) ==> ev.p != p }

  lemma PendingAside(c: Scene, ev: Event, p: nat)
    requires CanHappen(c, ev) && Aside(ev, p)
    ensures After(c, ev).Of(p).idle == c.Of(p).idle - GoneIn(ev, p)
    ensures After(c, ev).Of(p).Expired() == c.Of(p).Expired() - GoneIn(ev, p)
  {
  }

  // Every entry due by this second has its record or is stubborn.
  ghost predicate Backed(st: State, z: SortedSet.ZSet, sec: int, stubborn: set<string>) {
    forall m :: m in DueBy(z, sec) ==> m in st.keys || m in stubborn
  }

  // What is still due after an event has kept its record.
  lemma {:induction false} BackedShrinks(st: State, ev: Event, z: SortedSet.ZSet, z': SortedSet.ZSet, sec: int,
                                         stubborn: set<string>)
    requires Backed(st, z, sec, stubborn) && Shrinks(z, z', sec, {})
    requires ev.Erase? || ev.Drop? ==> ev.id !in DueBy(z', sec)
    ensures Backed(StoreAfter(st, ev), z', sec, stubborn)
  {
    forall m | m in DueBy(z', sec) ensures m in StoreAfter(st, ev).keys || m in stubborn {
      assert m in DueBy(z, sec);
    }
  }

  lemma {:induction false} LeftShrinks(z: SortedSet.ZSet, z': SortedSet.ZSet, sec: int, stubborn: set<string>,
                                       pending: set<string>, gone: set<string>)
    requires Shrinks(z, z', sec, gone)
    ensures |Left(z', sec, stubborn, pending - gone)| <= |Left(z, sec, stubborn, pending)|
  {
    forall m | m in Left(z', sec, stubborn, pending - gone) ensures m in Left(z, sec, stubborn, pending) {
      assert m in DueBy(z', sec);
    }
    SubsetSize(Left(z', sec, stubborn, pending - gone), Left(z, sec, stubborn, pending));
  }

  lemma {:induction false} LeftRefused(z: SortedSet.ZSet, sec: int, stubborn: set<string>, pending: set<string>,
                                       id: string)
    ensures |Left(z, sec, stubborn, pending - {id})| <=
            |Left(z, sec, stubborn, pending)| + (if id in stubborn then 0 else 1)
  {
    var more := if id in stubborn then {} else {id};
    SubsetSize(Left(z, sec, stubborn, pending - {id}), Left(z, sec, stubborn, pending) + more);
    assert |Left(z, sec, stubborn, pending) + more| <= |Left(z, sec, stubborn, pending)| + |more|;
  }

  // The arithmetic of one event and the rest: n is what is left before, n1 after the event, n2 in the end.
  lemma DrainStep(n: int, n1: int, n2: int, k: int, one: int, p: int, g: int, r: int)
    requires 0 <= n && 0 <= k && 0 <= one && 0 <= p && 0 <= g
    requires n1 <= Minus(n, k * one) + g && n2 <= Minus(n1, k * p) + r
    ensures n2 <= Minus(n, k * (one + p)) + (g + r)
  {
    assert k * (one + p) == k * one + k * p;
    assert 0 <= k * p && 0 <= k * one;
  }

  // ---- Expired sessions ----

  // From time T on: new sessions expire later, and the collector's clock does not show an earlier time.
  predicate ExpiresAfter(ev: Event, p: nat, T: Time) {
    match ev
    case Put(s, _) => Unix(T) < Unix(s.expiresAt)
    case ListExpired(q, now, _) => q == p ==> T <= now
    case _ => true
  }

  lemma {:induction false} ExpiredListed(st: State, now: Time, T: Time, stubborn: set<string>)
    requires st.Valid() && Keyed(st) && Backed(st, st.expiry, Unix(T), stubborn)
    requires T <= now && |stubborn| <= CANDIDATE_LIMIT
    ensures |Left(st.expiry, Unix(T), stubborn, Ids(ExpiredList(st, now)))|
            <= Minus(|Left(st.expiry, Unix(T), stubborn, {})|, CANDIDATE_LIMIT - |stubborn|)
  {
    var listed := Ids(ExpiredList(st, now));
    UnixMonotone(T, now);
    forall e | e in ExpiredFront(st, now) && e.score <= Unix(T) ensures e.member in listed || e.member in stubborn {
      FrontIsIndexed(st.expiry, Unix(now), e);
      assert e.member in DueBy(st.expiry, Unix(T));
      ExpiredListIds(st, now, e.member);
    }
    FrontDrains(st.expiry, Unix(now), Unix(T), listed, stubborn);
  }

  lemma {:induction false} ExpiryShrinks(st: State, ev: Event, p: nat, T: Time)
    requires st.Valid() && ExpiresAfter(ev, p, T)
    ensures Shrinks(st.expiry, StoreAfter(st, ev).expiry, Unix(T), GoneIn(ev, p))
    ensures ev.Erase? || ev.Drop? ==> ev.id !in DueBy(StoreAfter(st, ev).expiry, Unix(T))
  {
    match ev
    case Put(s, now) => SortedSet.AddSpec(st.expiry, Unix(s.expiresAt), s.sessionId);
    case Erase(id) => SortedSet.RemoveSpec(st.expiry, id);
    case Drop(_, id) => SortedSet.RemoveSpec(st.expiry, id);
    case _ =>
  }

  ghost predicate ExpiredReady(st: State, T: Time, stubborn: set<string>) {
    st.Valid() && Keyed(st) && Backed(st, st.expiry, Unix(T), stubborn)
  }

  lemma {:induction false} ExpiredReadyAfter(st: State, ev: Event, p: nat, T: Time, stubborn: set<string>)
    requires ExpiredReady(st, T, stubborn) && ExpiresAfter(ev, p, T)
    ensures ExpiredReady(StoreAfter(st, ev), T, stubborn)
  {
    ValidAfter(st, ev);
    KeyedAfter(st, ev);
    ExpiryShrinks(st, ev, p, T);
    BackedShrinks(st, ev, st.expiry, StoreAfter(st, ev).expiry, Unix(T), stubborn);
  }

  // The expired sessions that collector p has still to list.
  function ExpiredLeft(c: Scene, p: nat, T: Time, stubborn: set<string>): nat {
    |Left(c.st.expiry, Unix(T), stubborn, c.Of(p).Expired())|
  }

  function ExpiredPass(ev: Event, p: nat): nat { if ev.ListExpired? && ev.p == p && ev.ok then 1 else 0 }

  lemma {:induction false} ExpiredEvent(c: Scene, ev: Event, p: nat, T: Time, stubborn: set<string>)
    requires ExpiredReady(c.st, T, stubborn) && |stubborn| <= CANDIDATE_LIMIT
    requires CanHappen(c, ev) && ExpiresAfter(ev, p, T)
    ensures ExpiredLeft(After(c, ev), p, T, stubborn) <=
            Minus(ExpiredLeft(c, p, T, stubborn), (CANDIDATE_LIMIT - |stubborn|) * ExpiredPass(ev, p))
            + Given(ev, p, stubborn)
  {
    var z := c.st.expiry;
    if Aside(ev, p) {
      PendingAside(c, ev, p);
      ExpiryShrinks(c.st, ev, p, T);
      LeftShrinks(z, After(c, ev).st.expiry, Unix(T), stubborn, c.Of(p).Expired(), GoneIn(ev, p));
    } else if ev.Refuse? {
      LeftRefused(z, Unix(T), stubborn, c.Of(p).Expired(), ev.id);
    } else if ev.ListExpired? && ev.ok {
      ExpiredListed(c.st, ev.now, T, stubborn);
    }
  }

  // The passes of collector p that got their list of expired sessions, and the refusals they met.
  function ExpiredPasses(evs: seq<Event>, p: nat): nat {
    if evs == [] then 0 else ExpiredPass(evs[0], p) + ExpiredPasses(evs[1..], p)
  }

  function Refusals(evs: seq<Event>, p: nat, stubborn: set<string>): nat {
    if evs == [] then 0 else Given(evs[0], p, stubborn) + Refusals(evs[1..], p, stubborn)
  }

  // No starvation: of n sessions expired at T, at most n - 100m are left after m passes of a collector, plus
  // one for each delete refused to it. Of the stubborn, b of them take b places of every pass. Whatever
  // other operations, touches and collectors come in between, and inside the passes.
  lemma {:induction false} ExpiredDrain(c: Scene, evs: seq<Event>, p: nat, T: Time, stubborn: set<string>)
    requires ExpiredReady(c.st, T, stubborn) && |stubborn| <= CANDIDATE_LIMIT
    requires History(c, evs) && forall i :: 0 <= i < |evs| ==> ExpiresAfter(evs[i], p, T)
    ensures ExpiredLeft(AfterAll(c, evs), p, T, stubborn) <=
            Minus(ExpiredLeft(c, p, T, stubborn), (CANDIDATE_LIMIT - |stubborn|) * ExpiredPasses(evs, p))
            + Refusals(evs, p, stubborn)
    decreases evs
  {
    if evs != [] {
      var c1, rest := After(c, evs[0]), evs[1..];
      ExpiredReadyAfter(c.st, evs[0], p, T, stubborn);
      ExpiredEvent(c, evs[0], p, T, stubborn);
      ExpiredDrain(c1, rest, p, T, stubborn);
      DrainStep(ExpiredLeft(c, p, T, stubborn), ExpiredLeft(c1, p, T, stubborn),
                ExpiredLeft(AfterAll(c1, rest), p, T, stubborn),
                CANDIDATE_LIMIT - |stubborn|, ExpiredPass(evs[0], p), ExpiredPasses(rest, p),
                Given(evs[0], p, stubborn), Refusals(rest, p, stubborn));
    }
  }

  // So after enough passes none is left: a hundred places a pass, less those of the stubborn.
  lemma {:induction false} ExpiredGone(c: Scene, evs: seq<Event>, p: nat, T: Time, stubborn: set<string>)
    requires ExpiredReady(c.st, T, stubborn) && |stubborn| <= CANDIDATE_LIMIT
    requires History(c, evs) && forall i :: 0 <= i < |evs| ==> ExpiresAfter(evs[i], p, T)
    requires Refusals(evs, p, stubborn) == 0 && AfterAll(c, evs).Of(p) == Resting
    requires |DueBy(c.st.expiry, Unix(T))| <= (CANDIDATE_LIMIT - |stubborn|) * ExpiredPasses(evs, p)
    ensures DueBy(AfterAll(c, evs).st.expiry, Unix(T)) <= stubborn
  {
    ExpiredDrain(c, evs, p, T, stubborn);
    NoneLeft(c.st.expiry, AfterAll(c, evs).st.expiry, Unix(T), stubborn, c.Of(p).Expired(),
             (CANDIDATE_LIMIT - |stubborn|) * ExpiredPasses(evs, p));
  }

  lemma {:induction false} NoneLeft(z: SortedSet.ZSet, z': SortedSet.ZSet, sec: int, stubborn: set<string>,
                                    pending: set<string>, k: int)
    requires |Left(z', sec, stubborn, {})| <= Minus(|Left(z, sec, stubborn, pending)|, k) && |DueBy(z, sec)| <= k
    ensures DueBy(z', sec) <= stubborn
  {
    SubsetSize(Left(z, sec, stubborn, pending), DueBy(z, sec));
    var rest := DueBy(z', sec) - stubborn;
    assert Left(z', sec, stubborn, {}) == rest;
    assert rest == {};
    assert forall m :: m in DueBy(z', sec) ==> m in rest || m in stubborn;
  }

  // ---- Idle sessions ----

  // Sessions idle for longer than D at time T are those with a score up to this second.
  function IdleSecond(T: Time, D: int): int { Unix(T - D - 1) }

  lemma IdleSecondExact(T: Time, D: int, score: int)
    ensures score <= IdleSecond(T, D) <==> FromUnix(score) + D < T
  {
    UnixBounds(T - D - 1);
  }

  // No session outside the stubborn has an idle timeout longer than D.
  ghost predicate IdleWithin(st: State, D: int, stubborn: set<string>) {
    forall id :: id in st.keys && id !in stubborn ==> IdleTimeout(st.keys[id]) <= D
  }

  ghost predicate IdleReady(st: State, T: Time, D: int, stubborn: set<string>) {
    && st.Valid() && Keyed(st) && Dated(st)
    && Backed(st, st.activity, IdleSecond(T, D), stubborn) && IdleWithin(st, D, stubborn)
  }

  // From time T on: nobody's clock shows an earlier time, and sessions outside the stubborn have idle
  // timeouts up to D.
  predicate UsedAfter(ev: Event, p: nat, T: Time, D: int, stubborn: set<string>) {
    match ev
    case Put(s, now) => T <= now && (IdleTimeout(s) <= D || s.sessionId in stubborn)
    case Change(s) => IdleTimeout(s) <= D || s.sessionId in stubborn
    case Use(_, at) => T <= at
    case Add(_, at) => T <= at
    case ListIdle(q, now, _) => q == p ==> T <= now
    case _ => true
  }

  lemma {:induction false} IdleReadyAfter(st: State, ev: Event, p: nat, T: Time, D: int, stubborn: set<string>)
    requires IdleReady(st, T, D, stubborn) && UsedAfter(ev, p, T, D, stubborn)
    requires SECOND <= T && MIN_INACTIVE_LOOKBACK <= D
    ensures IdleReady(StoreAfter(st, ev), T, D, stubborn)
  {
    ValidAfter(st, ev);
    KeyedAfter(st, ev);
    DatedAfter(st, ev);
    ActivityShrinks(st, ev, p, T, D, stubborn);
    BackedShrinks(st, ev, st.activity, StoreAfter(st, ev).activity, IdleSecond(T, D), stubborn);
    IdleWithinAfter(st, ev, p, T, D, stubborn);
  }

  lemma IdleWithinAfter(st: State, ev: Event, p: nat, T: Time, D: int, stubborn: set<string>)
    requires IdleWithin(st, D, stubborn) && UsedAfter(ev, p, T, D, stubborn)
    ensures IdleWithin(StoreAfter(st, ev), D, stubborn)
  {
  }

  lemma TouchIsLate(T: Time, D: int, at: Time)
    requires MIN_INACTIVE_LOOKBACK <= D && T <= at
    ensures IdleSecond(T, D) < Unix(at)
  {
    UnixMonotone(T, at);
    UnixMonotone(T - D - 1, T - SECOND);
    assert (T - SECOND) / SECOND == T / SECOND - 1;
  }

  lemma {:induction false} IdleListed(st: State, now: Time, T: Time, D: int, stubborn: set<string>)
    requires IdleReady(st, T, D, stubborn) && MIN_INACTIVE_LOOKBACK <= D
    requires T <= now && |stubborn| <= CANDIDATE_LIMIT
    ensures |Left(st.activity, IdleSecond(T, D), stubborn, Ids(IdleList(st, now)))|
            <= Minus(|Left(st.activity, IdleSecond(T, D), stubborn, {})|, CANDIDATE_LIMIT - |stubborn|)
  {
    var z, sec, listed := st.activity, Unix(now - MIN_INACTIVE_LOOKBACK), Ids(IdleList(st, now));
    UnixMonotone(T - D - 1, now - MIN_INACTIVE_LOOKBACK);
    forall e | e in IdleFront(st, now) && e.score <= IdleSecond(T, D) && e.member !in stubborn
      ensures e.member in listed
    {
      IdleEntryIsDue(st, now, T, D, stubborn, e);
      IdleListIds(st, now, e.member);
    }
    FrontDrains(z, sec, IdleSecond(T, D), listed, stubborn);
  }

  // An entry of the front that has been idle for longer than the largest timeout is due.
  lemma {:induction false} IdleEntryIsDue(st: State, now: Time, T: Time, D: int, stubborn: set<string>,
                                          e: SortedSet.Entry)
    requires IdleReady(st, T, D, stubborn) && T <= now
    requires e in IdleFront(st, now) && e.score <= IdleSecond(T, D) && e.member !in stubborn
    ensures DueIdle(st, now, e.member)
  {
    FrontIsIndexed(st.activity, Unix(now - MIN_INACTIVE_LOOKBACK), e);
    IdleSecondExact(T, D, e.score);
    assert e.member in DueBy(st.activity, IdleSecond(T, D));
    assert TimedOut(st.keys[e.member].(lastActivityAt := FromUnix(e.score)), now);
  }

  lemma {:induction false} ActivityShrinks(st: State, ev: Event, p: nat, T: Time, D: int, stubborn: set<string>)
    requires st.Valid() && UsedAfter(ev, p, T, D, stubborn) && MIN_INACTIVE_LOOKBACK <= D
    ensures Shrinks(st.activity, StoreAfter(st, ev).activity, IdleSecond(T, D), GoneIn(ev, p))
    ensures ev.Erase? || ev.Drop? ==> ev.id !in DueBy(StoreAfter(st, ev).activity, IdleSecond(T, D))
  {
    match ev
    case Put(s, now) =>
      TouchIsLate(T, D, now);
      SortedSet.AddSpec(st.activity, Unix(now), s.sessionId);
    case Erase(id) => SortedSet.RemoveSpec(st.activity, id);
    case Use(id, at) =>
      TouchIsLate(T, D, at);
      SortedSet.AddSpec(st.activity, Unix(at), id);
    case Add(id, at) =>
      TouchIsLate(T, D, at);
      SortedSet.AddSpec(st.activity, Unix(at), id);
    case Drop(_, id) => SortedSet.RemoveSpec(st.activity, id);
    case _ =>
  }

  // The sessions idle for longer than D at T that collector p has still to list.
  function IdleLeft(c: Scene, p: nat, T: Time, D: int, stubborn: set<string>): nat {
    |Left(c.st.activity, IdleSecond(T, D), stubborn, c.Of(p).idle)|
  }

  function IdlePass(ev: Event, p: nat): nat { if ev.ListIdle? && ev.p == p && ev.ok then 1 else 0 }

  lemma {:induction false} IdleEvent(c: Scene, ev: Event, p: nat, T: Time, D: int, stubborn: set<string>)
    requires IdleReady(c.st, T, D, stubborn) && MIN_INACTIVE_LOOKBACK <= D && |stubborn| <= CANDIDATE_LIMIT
    requires CanHappen(c, ev) && UsedAfter(ev, p, T, D, stubborn)
    ensures IdleLeft(After(c, ev), p, T, D, stubborn) <=
            Minus(IdleLeft(c, p, T, D, stubborn), (CANDIDATE_LIMIT - |stubborn|) * IdlePass(ev, p))
            + Given(ev, p, stubborn)
  {
    var z, sec := c.st.activity, IdleSecond(T, D);
    if Aside(ev, p) {
      PendingAside(c, ev, p);
      ActivityShrinks(c.st, ev, p, T, D, stubborn);
      LeftShrinks(z, After(c, ev).st.activity, sec, stubborn, c.Of(p).idle, GoneIn(ev, p));
    } else if ev.Refuse? {
      LeftRefused(z, sec, stubborn, c.Of(p).idle, ev.id);
    } else if ev.ListIdle? && ev.ok {
      IdleListed(c.st, ev.now, T, D, stubborn);
    }
  }

  function IdlePasses(evs: seq<Event>, p: nat): nat {
    if evs == [] then 0 else IdlePass(evs[0], p) + IdlePasses(evs[1..], p)
  }

  // The same for idle sessions, whatever their timeouts: with D, at least a minute, the largest of them, those
  // idle for longer than D are drained. And if only the stubborn have timeouts above D, those idle for
  // longer than D are drained from among the others.
  lemma {:induction false} IdleDrain(c: Scene, evs: seq<Event>, p: nat, T: Time, D: int, stubborn: set<string>)
    requires IdleReady(c.st, T, D, stubborn) && |stubborn| <= CANDIDATE_LIMIT
    requires MIN_INACTIVE_LOOKBACK <= D && SECOND <= T
    requires History(c, evs) && forall i :: 0 <= i < |evs| ==> UsedAfter(evs[i], p, T, D, stubborn)
    ensures IdleLeft(AfterAll(c, evs), p, T, D, stubborn) <=
            Minus(IdleLeft(c, p, T, D, stubborn), (CANDIDATE_LIMIT - |stubborn|) * IdlePasses(evs, p))
            + Refusals(evs, p, stubborn)
    decreases evs
  {
    if evs != [] {
      var c1, rest := After(c, evs[0]), evs[1..];
      IdleReadyAfter(c.st, evs[0], p, T, D, stubborn);
      IdleEvent(c, evs[0], p, T, D, stubborn);
      IdleDrain(c1, rest, p, T, D, stubborn);
      DrainStep(IdleLeft(c, p, T, D, stubborn), IdleLeft(c1, p, T, D, stubborn),
                IdleLeft(AfterAll(c1, rest), p, T, D, stubborn),
                CANDIDATE_LIMIT - |stubborn|, IdlePass(evs[0], p), IdlePasses(rest, p),
                Given(evs[0], p, stubborn), Refusals(rest, p, stubborn));
    }
  }

  lemma {:induction false} IdleGone(c: Scene, evs: seq<Event>, p: nat, T: Time, D: int, stubborn: set<string>)
    requires IdleReady(c.st, T, D, stubborn) && |stubborn| <= CANDIDATE_LIMIT
    requires MIN_INACTIVE_LOOKBACK <= D && SECOND <= T
    requires History(c, evs) && forall i :: 0 <= i < |evs| ==> UsedAfter(evs[i], p, T, D, stubborn)
    requires Refusals(evs, p, stubborn) == 0 && AfterAll(c, evs).Of(p) == Resting
    requires |DueBy(c.st.activity, IdleSecond(T, D))| <= (CANDIDATE_LIMIT - |stubborn|) * IdlePasses(evs, p)
    ensures DueBy(AfterAll(c, evs).st.activity, IdleSecond(T, D)) <= stubborn
  {
    IdleDrain(c, evs, p, T, D, stubborn);
    NoneLeft(c.st.activity, AfterAll(c, evs).st.activity, IdleSecond(T, D), stubborn, c.Of(p).idle,
             (CANDIDATE_LIMIT - |stubborn|) * IdlePasses(evs, p));
  }

  // ---- A pass that runs alone ----

  const Everything := Listing(true, true)

  // Only stubborn sessions are refused.
  ghost predicate RefusesOnly(st: State, f: GarbageCollection.Refusals, stubborn: set<string>) {
    forall id :: id in st.keys && Refused(st.keys[id], f) ==> id in stubborn
  }

  lemma {:induction false} PassDrainsExpired(st: State, now: Time, T: Time, f: GarbageCollection.Refusals,
                                             stubborn: set<string>)
    requires ExpiredReady(st, T, stubborn) && T <= now
    requires |stubborn| <= CANDIDATE_LIMIT && RefusesOnly(st, f, stubborn)
    ensures |Left(AfterPass(st, now, Everything, f).expiry, Unix(T), stubborn, {})|
            <= Minus(|Left(st.expiry, Unix(T), stubborn, {})|, CANDIDATE_LIMIT - |stubborn|)
  {
    var gone := Removed(st, now, Everything, f);
    PassRemoves(st, now, Everything, f);
    UnixMonotone(T, now);
    forall e | e in ExpiredFront(st, now) && e.score <= Unix(T) ensures e.member in gone || e.member in stubborn {
      FrontIsIndexed(st.expiry, Unix(now), e);
      assert e.member in DueBy(st.expiry, Unix(T));
      RemovedIff(st, now, Everything, f, e.member);
    }
    FrontDrains(st.expiry, Unix(now), Unix(T), gone, stubborn);
    assert Left(AfterPass(st, now, Everything, f).expiry, Unix(T), stubborn, {})
        == Left(st.expiry, Unix(T), stubborn, gone);
  }

  lemma {:induction false} PassDrainsIdle(st: State, now: Time, T: Time, D: int, f: GarbageCollection.Refusals,
                                          stubborn: set<string>)
    requires IdleReady(st, T, D, stubborn) && MIN_INACTIVE_LOOKBACK <= D && T <= now
    requires |stubborn| <= CANDIDATE_LIMIT && RefusesOnly(st, f, stubborn)
    ensures |Left(AfterPass(st, now, Everything, f).activity, IdleSecond(T, D), stubborn, {})|
            <= Minus(|Left(st.activity, IdleSecond(T, D), stubborn, {})|, CANDIDATE_LIMIT - |stubborn|)
  {
    var gone, sec := Removed(st, now, Everything, f), Unix(now - MIN_INACTIVE_LOOKBACK);
    PassRemoves(st, now, Everything, f);
    UnixMonotone(T - D - 1, now - MIN_INACTIVE_LOOKBACK);
    forall e | e in IdleFront(st, now) && e.score <= IdleSecond(T, D) ensures e.member in gone || e.member in stubborn {
      if e.member !in stubborn {
        IdleEntryIsDue(st, now, T, D, stubborn, e);
        RemovedIff(st, now, Everything, f, e.member);
      }
    }
    FrontDrains(st.activity, sec, IdleSecond(T, D), gone, stubborn);
    assert Left(AfterPass(st, now, Everything, f).activity, IdleSecond(T, D), stubborn, {})
        == Left(st.activity, IdleSecond(T, D), stubborn, gone);
  }
}
