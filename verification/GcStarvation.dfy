/** When passes do not drain: a hundred entries at the front of an index that cannot be collected hide
    every session behind them, for as long as they stay. */
module GcStarvation {
  import opened Sandboxes
  import opened Store
  import opened GarbageCollection
  import opened GcProgress
  import opened GcHistory
  import opened GcDrain
  import SortedSet

  // ---- A wall: a full front of an index, ahead of every other entry ----

  ghost predicate Walled(z: SortedSet.ZSet, wall: set<string>, sec: int) {
    && |wall| == CANDIDATE_LIMIT
    && wall <= SortedSet.Scores(z).Keys
    && (forall m :: m in wall ==> SortedSet.Scores(z)[m] <= sec)
    && (forall m, n :: m in wall && n in SortedSet.Scores(z) && n !in wall ==> Ahead(z, m, n))
  }

  predicate Ahead(z: SortedSet.ZSet, m: string, n: string)
    requires m in SortedSet.Scores(z) && n in SortedSet.Scores(z)
  {
    SortedSet.Before(SortedSet.Entry(SortedSet.Scores(z)[m], m), SortedSet.Entry(SortedSet.Scores(z)[n], n))
  }

  lemma {:induction false} WallAdd(z: SortedSet.ZSet, wall: set<string>, sec: int, score: int, id: string)
    requires SortedSet.Valid(z) && Walled(z, wall, sec) && id !in wall && sec < score
    ensures Walled(SortedSet.Add(z, score, id), wall, sec)
    ensures forall m :: m in wall ==> SortedSet.Scores(SortedSet.Add(z, score, id))[m] == SortedSet.Scores(z)[m]
  {
    var z' := SortedSet.Add(z, score, id);
    SortedSet.AddSpec(z, score, id);
    forall m, n | m in wall && n in SortedSet.Scores(z') && n !in wall ensures Ahead(z', m, n) {
      if n != id { assert Ahead(z, m, n); }
    }
  }

  lemma {:induction false} WallRemove(z: SortedSet.ZSet, wall: set<string>, sec: int, id: string)
    requires SortedSet.Valid(z) && Walled(z, wall, sec) && id !in wall
    ensures Walled(SortedSet.Remove(z, id), wall, sec)
    ensures forall m :: m in wall ==> SortedSet.Scores(SortedSet.Remove(z, id))[m] == SortedSet.Scores(z)[m]
  {
    var z' := SortedSet.Remove(z, id);
    SortedSet.RemoveSpec(z, id);
    forall m, n | m in wall && n in SortedSet.Scores(z') && n !in wall ensures Ahead(z', m, n) {
      assert Ahead(z, m, n);
    }
  }

  // Behind the wall nothing is reached: a front of a hundred entries is the wall itself.
  lemma {:induction false} WallHides(z: SortedSet.ZSet, wall: set<string>, sec: int, max: int, e: SortedSet.Entry)
    requires SortedSet.Valid(z) && Walled(z, wall, sec) && e in SortedSet.RangeByScore(z, max, CANDIDATE_LIMIT)
    ensures e.member in wall
  {
    var front := SortedSet.RangeByScore(z, max, CANDIDATE_LIMIT);
    FrontIsIndexed(z, max, e);
    if e.member !in wall {
      SortedSet.RangeValid(z, max, CANDIDATE_LIMIT);
      SortedSet.RangeSpec(z, max, CANDIDATE_LIMIT);
      SortedSet.ScoresOf(z);
      SortedSet.ScoresOf(front);
      var inside := SortedSet.Scores(front).Keys;
      forall m | m in wall + {e.member} ensures m in inside {
        if m in wall { AheadIsInFront(z, max, e, m); }
      }
      assert |wall + {e.member}| == CANDIDATE_LIMIT + 1;
      SubsetSize(wall + {e.member}, inside);
    }
  }

  lemma {:induction false} AheadIsInFront(z: SortedSet.ZSet, max: int, e: SortedSet.Entry, m: string)
    requires SortedSet.Valid(z) && e in SortedSet.RangeByScore(z, max, CANDIDATE_LIMIT)
    requires m in SortedSet.Scores(z) && e.member in SortedSet.Scores(z) && Ahead(z, m, e.member)
    ensures m in SortedSet.Scores(SortedSet.RangeByScore(z, max, CANDIDATE_LIMIT))
  {
    var front := SortedSet.RangeByScore(z, max, CANDIDATE_LIMIT);
    var f := SortedSet.Entry(SortedSet.Scores(z)[m], m);
    FrontIsIndexed(z, max, e);
    SortedSet.RangeValid(z, max, CANDIDATE_LIMIT);
    SortedSet.RangeSpec(z, max, CANDIDATE_LIMIT);
    SortedSet.ScoresOf(z);
    SortedSet.ScoresOf(front);
    if f !in front {
      SortedSet.LexIrreflexive(m);
      SortedSet.BeforeTransitive(f, e, f);
    }
  }

  // A full front is a wall.
  lemma {:induction false} FrontIsWall(z: SortedSet.ZSet, max: int)
    requires SortedSet.Valid(z) && |SortedSet.RangeByScore(z, max, CANDIDATE_LIMIT)| == CANDIDATE_LIMIT
    ensures Walled(z, FrontMembers(z, max), max)
    ensures forall m :: m in FrontMembers(z, max) ==>
              SortedSet.Entry(SortedSet.Scores(z)[m], m) in SortedSet.RangeByScore(z, max, CANDIDATE_LIMIT)
  {
    var front, wall := SortedSet.RangeByScore(z, max, CANDIDATE_LIMIT), FrontMembers(z, max);
    SortedSet.RangeValid(z, max, CANDIDATE_LIMIT);
    SortedSet.RangeSpec(z, max, CANDIDATE_LIMIT);
    SortedSet.ScoresOf(z);
    SortedSet.ScoresOf(front);
    forall m | m in wall
      ensures m in SortedSet.Scores(z) && SortedSet.Scores(z)[m] == SortedSet.Scores(front)[m] <= max
    {
      FrontIsIndexed(z, max, SortedSet.Entry(SortedSet.Scores(front)[m], m));
    }
    forall m, n | m in wall && n in SortedSet.Scores(z) && n !in wall ensures Ahead(z, m, n) {
      var f, e := SortedSet.Entry(SortedSet.Scores(z)[m], m), SortedSet.Entry(SortedSet.Scores(z)[n], n);
      assert f in front && e in z && e !in front;
    }
  }

  lemma LookbackIsEarlier(T: Time, at: Time)
    requires T <= at
    ensures Unix(T - MIN_INACTIVE_LOOKBACK) < Unix(at)
  {
    UnixMonotone(T, at);
    UnixMonotone(T - MIN_INACTIVE_LOOKBACK, T - SECOND);
    assert (T - SECOND) / SECOND == T / SECOND - 1;
  }

  // From time T on: sessions are stored under other IDs, only those are deleted by request, and no touch
  // that asked EXISTS before is still to add an entry of the wall.
  predicate Spares(ev: Event, wall: set<string>, T: Time) {
    match ev
    case Put(s, now) => s.sessionId !in wall && T <= now
    case Erase(id) => id !in wall
    case Use(_, at) => T <= at
    case Add(id, at) => id !in wall && T <= at
    case _ => true
  }

  // No collector has listed any of them.
  predicate Unlisted(c: Scene, wall: set<string>) { forall p :: p in c.passes ==> wall !! c.passes[p].Listed() }

  // What a pass lists anew is due.
  lemma {:induction false} ListedAfter(c: Scene, ev: Event, wall: set<string>)
    requires c.st.Valid() && Keyed(c.st) && CanHappen(c, ev) && Unlisted(c, wall)
    requires ev.ListIdle? ==> forall id :: id in wall ==> !DueIdle(c.st, ev.now, id)
    requires ev.ListExpired? ==> forall id :: id in wall ==> !DueExpired(c.st, ev.now, id)
    ensures Unlisted(After(c, ev), wall)
  {
    match ev
    case ListIdle(p, now, _) =>
      forall id | id in wall ensures id !in Ids(IdleList(c.st, now)) { IdleListIds(c.st, now, id); }
    case ListExpired(p, now, _) =>
      assert wall !! c.passes[p].Listed();
      forall id | id in wall ensures id !in Ids(ExpiredList(c.st, now)) { ExpiredListIds(c.st, now, id); }
    case Drop(p, _) => assert wall !! c.passes[p].Listed();
    case Refuse(p, _) => assert wall !! c.passes[p].Listed();
    case _ =>
  }

  // An event that leaves these entries alone keeps the wall.
  lemma {:induction false} IdleWallStands(c: Scene, ev: Event, wall: set<string>, T: Time)
    requires c.st.Valid() && Walled(c.st.activity, wall, Unix(T - MIN_INACTIVE_LOOKBACK))
    requires CanHappen(c, ev) && Spares(ev, wall, T) && Unlisted(c, wall)
    requires ev.Use? && ev.id in wall ==> ev.id !in c.st.keys
    ensures var z, z' := c.st.activity, After(c, ev).st.activity;
            && Walled(z', wall, Unix(T - MIN_INACTIVE_LOOKBACK))
            && (forall m :: m in wall ==> SortedSet.Scores(z')[m] == SortedSet.Scores(z)[m])
  {
    var z, sec := c.st.activity, Unix(T - MIN_INACTIVE_LOOKBACK);
    match ev
    case Put(s, now) =>
      LookbackIsEarlier(T, now);
      WallAdd(z, wall, sec, Unix(now), s.sessionId);
    case Erase(id) => WallRemove(z, wall, sec, id);
    case Use(id, at) =>
      if id in c.st.keys {
        LookbackIsEarlier(T, at);
        WallAdd(z, wall, sec, Unix(at), id);
      }
    case Add(id, at) =>
      LookbackIsEarlier(T, at);
      WallAdd(z, wall, sec, Unix(at), id);
    case Drop(p, id) =>
      assert wall !! c.passes[p].Listed();
      WallRemove(z, wall, sec, id);
    case _ =>
  }

  // ---- Entries without a record ----

  // If neither front holds an entry with a record, a pass changes nothing at all.
  lemma {:induction false} DanglingFrontStarves(st: State, now: Time, l: Listing, f: Refusals)
    requires st.Valid() && Keyed(st)
    requires forall e :: e in ExpiredFront(st, now) ==> e.member !in st.keys
    requires forall e :: e in IdleFront(st, now) ==> e.member !in st.keys
    ensures AfterPass(st, now, l, f) == st
  {
    var all := Collected(st, now, l);
    if all != [] {
      CollectedIff(st, now, l, all[0].sessionId);
      IdsMember(all, all[0].sessionId);
      assert false;
    }
  }

  ghost predicate DanglingWall(c: Scene, wall: set<string>, T: Time) {
    && c.st.Valid() && Keyed(c.st)
    && Walled(c.st.activity, wall, Unix(T - MIN_INACTIVE_LOOKBACK))
    && wall !! c.st.keys.Keys && Unlisted(c, wall)
  }

  lemma {:induction false} DanglingWallStands(c: Scene, ev: Event, wall: set<string>, T: Time)
    requires DanglingWall(c, wall, T) && CanHappen(c, ev) && Spares(ev, wall, T)
    ensures DanglingWall(After(c, ev), wall, T)
  {
    ValidAfter(c.st, ev);
    KeyedAfter(c.st, ev);
    IdleWallStands(c, ev, wall, T);
    ListedAfter(c, ev, wall);
  }

  // Starvation for good: once the hundred longest unused last-activity entries have no record, no
  // session is ever collected for being idle again, whatever else happens.
  lemma {:induction false} IdleStarvedForever(c: Scene, T: Time, evs: seq<Event>, now: Time, id: string)
    requires c.st.Valid() && Keyed(c.st) && |IdleFront(c.st, T)| == CANDIDATE_LIMIT
    requires forall e :: e in IdleFront(c.st, T) ==> e.member !in c.st.keys
    requires Unlisted(c, FrontMembers(c.st.activity, Unix(T - MIN_INACTIVE_LOOKBACK))) && History(c, evs)
    requires forall i :: 0 <= i < |evs| ==>
               Spares(evs[i], FrontMembers(c.st.activity, Unix(T - MIN_INACTIVE_LOOKBACK)), T)
    ensures !DueIdle(AfterAll(c, evs).st, now, id)
  {
    FrontIsWall(c.st.activity, Unix(T - MIN_INACTIVE_LOOKBACK));
    DanglingWallHides(c, FrontMembers(c.st.activity, Unix(T - MIN_INACTIVE_LOOKBACK)), T, evs, now, id);
  }

  lemma {:induction false} DanglingWallHides(c: Scene, wall: set<string>, T: Time, evs: seq<Event>, now: Time,
                                             id: string)
    requires DanglingWall(c, wall, T) && History(c, evs)
    requires forall i :: 0 <= i < |evs| ==> Spares(evs[i], wall, T)
    ensures !DueIdle(AfterAll(c, evs).st, now, id)
    decreases evs
  {
    if evs != [] {
      DanglingWallStands(c, evs[0], wall, T);
      DanglingWallHides(After(c, evs[0]), wall, T, evs[1..], now, id);
    } else if DueIdle(c.st, now, id) {
      var e :| e in IdleFront(c.st, now) && e.member == id;
      WallHides(c.st.activity, wall, Unix(T - MIN_INACTIVE_LOOKBACK), Unix(now - MIN_INACTIVE_LOOKBACK), e);
    }
  }

  // ---- Sessions with long idle timeouts ----

  // This session has an idle timeout of at least D, does not time out before E, and has not expired by E.
  predicate Patient(st: State, m: string, D: int, E: Time) {
    && m in st.keys && D <= IdleTimeout(st.keys[m])
    && m in SortedSet.Scores(st.activity)
    && 0 < FromUnix(SortedSet.Scores(st.activity)[m])
    && E <= FromUnix(SortedSet.Scores(st.activity)[m]) + D
    && (m in SortedSet.Scores(st.expiry) ==> Unix(E) < SortedSet.Scores(st.expiry)[m])
  }

  ghost predicate PatientWall(c: Scene, wall: set<string>, T: Time, D: int, E: Time) {
    && c.st.Valid() && Keyed(c.st)
    && Walled(c.st.activity, wall, Unix(T - MIN_INACTIVE_LOOKBACK))
    && (forall m :: m in wall ==> Patient(c.st, m, D, E))
    && Unlisted(c, wall)
  }

  // The patient sessions stay: they are not used and keep their timeouts, and passes run until E.
  predicate Waits(ev: Event, wall: set<string>, T: Time, D: int, E: Time) {
    && Spares(ev, wall, T)
    && (ev.Use? ==> ev.id !in wall)
    && (ev.Change? && ev.s.sessionId in wall ==> D <= IdleTimeout(ev.s))
    && (ev.ListIdle? || ev.ListExpired? ==> ev.now <= E)
  }

  lemma {:induction false} PatientNotDue(st: State, m: string, D: int, E: Time, now: Time)
    requires st.Valid() && Patient(st, m, D, E) && now <= E
    ensures !DueExpired(st, now, m) && !DueIdle(st, now, m)
  {
    UnixMonotone(now, E);
    if DueExpired(st, now, m) {
      var e :| e in ExpiredFront(st, now) && e.member == m;
      FrontIsIndexed(st.expiry, Unix(now), e);
    }
    if DueIdle(st, now, m) {
      var e :| e in IdleFront(st, now) && e.member == m &&
        TimedOut(st.keys[m].(lastActivityAt := FromUnix(e.score)), now);
      FrontIsIndexed(st.activity, Unix(now - MIN_INACTIVE_LOOKBACK), e);
    }
  }

  lemma {:induction false} PatientWallStands(c: Scene, ev: Event, wall: set<string>, T: Time, D: int, E: Time)
    requires PatientWall(c, wall, T, D, E) && CanHappen(c, ev) && Waits(ev, wall, T, D, E)
    ensures PatientWall(After(c, ev), wall, T, D, E)
  {
    ValidAfter(c.st, ev);
    KeyedAfter(c.st, ev);
    IdleWallStands(c, ev, wall, T);
    forall m | m in wall ensures Patient(After(c, ev).st, m, D, E) { PatientStays(c, ev, wall, T, D, E, m); }
    if ev.ListIdle? || ev.ListExpired? {
      forall id | id in wall ensures !DueExpired(c.st, ev.now, id) && !DueIdle(c.st, ev.now, id) {
        PatientNotDue(c.st, id, D, E, ev.now);
      }
    }
    ListedAfter(c, ev, wall);
  }

  lemma {:induction false} PatientStays(c: Scene, ev: Event, wall: set<string>, T: Time, D: int, E: Time, m: string)
    requires PatientWall(c, wall, T, D, E) && CanHappen(c, ev) && Waits(ev, wall, T, D, E) && m in wall
    ensures Patient(After(c, ev).st, m, D, E)
  {
    IdleWallStands(c, ev, wall, T);
    match ev
    case Put(s, now) => SortedSet.AddSpec(c.st.expiry, Unix(s.expiresAt), s.sessionId);
    case Erase(id) => SortedSet.RemoveSpec(c.st.expiry, id);
    case Drop(p, id) =>
      assert wall !! c.passes[p].Listed();
      SortedSet.RemoveSpec(c.st.expiry, id);
    case _ =>
  }

  // While a hundred patient sessions stay ahead, no session is collected as idle at any pass before the
  // earliest of their timeouts, however long it has been unused.
  lemma {:induction false} PatientFrontStarves(c: Scene, wall: set<string>, T: Time, D: int, E: Time,
                                               evs: seq<Event>, now: Time, id: string)
    requires PatientWall(c, wall, T, D, E) && History(c, evs) && now <= E
    requires forall i :: 0 <= i < |evs| ==> Waits(evs[i], wall, T, D, E)
    ensures !DueIdle(AfterAll(c, evs).st, now, id)
    decreases evs
  {
    if evs != [] {
      PatientWallStands(c, evs[0], wall, T, D, E);
      PatientFrontStarves(After(c, evs[0]), wall, T, D, E, evs[1..], now, id);
    } else if DueIdle(c.st, now, id) {
      var e :| e in IdleFront(c.st, now) && e.member == id;
      WallHides(c.st.activity, wall, Unix(T - MIN_INACTIVE_LOOKBACK), Unix(now - MIN_INACTIVE_LOOKBACK), e);
      PatientNotDue(c.st, id, D, E, now);
    }
  }

  // ---- Expired sessions whose deletes are refused ----

  ghost predicate RefusedWall(c: Scene, wall: set<string>, sec: int) {
    c.st.Valid() && Walled(c.st.expiry, wall, sec)
  }

  // The deletes of the sessions in the wall are refused, and new sessions expire later.
  predicate Refuses(ev: Event, wall: set<string>, sec: int) {
    match ev
    case Put(s, _) => s.sessionId !in wall && sec < Unix(s.expiresAt)
    case Erase(id) => id !in wall
    case Drop(_, id) => id !in wall
    case _ => true
  }

  // A hundred expired sessions that cannot be deleted starve all others: no session behind them is ever
  // collected for having expired.
  lemma {:induction false} RefusedFrontStarves(c: Scene, wall: set<string>, sec: int, evs: seq<Event>, now: Time,
                                               id: string)
    requires RefusedWall(c, wall, sec) && History(c, evs)
    requires forall i :: 0 <= i < |evs| ==> Refuses(evs[i], wall, sec)
    ensures DueExpired(AfterAll(c, evs).st, now, id) ==> id in wall
    decreases evs
  {
    if evs != [] {
      ValidAfter(c.st, evs[0]);
      match evs[0] {
        case Put(s, _) => WallAdd(c.st.expiry, wall, sec, Unix(s.expiresAt), s.sessionId);
        case Erase(id) => WallRemove(c.st.expiry, wall, sec, id);
        case Drop(_, id) => WallRemove(c.st.expiry, wall, sec, id);
        case _ =>
      }
      RefusedFrontStarves(After(c, evs[0]), wall, sec, evs[1..], now, id);
    } else if DueExpired(c.st, now, id) {
      var e :| e in ExpiredFront(c.st, now) && e.member == id;
      WallHides(c.st.expiry, wall, sec, Unix(now), e);
    }
  }
}
