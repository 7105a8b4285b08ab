/** Histories of the store: sessions are stored, updated, deleted and touched while any number of collectors
    run passes. A pass reads its two lists one after the other and then deletes session by session, and
    everything else may come in between. */
module GcHistory {
  import opened Sandboxes
  import opened Store
  import opened GarbageCollection
  import opened GcProgress
  import SortedSet

  // Where a collector stands: it has read the list of idle sessions and not yet that of expired ones, or it
  // has read both. The sets hold what it has listed and not dealt with yet.
  datatype Pass = Half(idle: set<string>) | Full(idle: set<string>, expired: set<string>) {
    function Expired(): set<string> { if Half? then {} else expired }

    function Listed(): set<string> { idle + Expired() }

    // Without a session it has dealt with.
    function Less(id: string): Pass {
      if Half? then Half(idle - {id}) else Full(idle - {id}, expired - {id})
    }
  }

  const Resting := Full({}, {})

  // The store and the passes under way, one per collector.
  datatype Scene = Scene(st: State, passes: map<nat, Pass>) {
    function Of(p: nat): Pass { if p in passes then passes[p] else Resting }
  }

  datatype Event =
    | Put(s: Info, now: Time)
    | Change(s: Info)
    | Erase(id: string)
    | Use(id: string, at: Time)                        // a touch, in one piece
    | Add(id: string, at: Time)                        // the ZADD of a touch that asked EXISTS before
    | ListIdle(p: nat, now: Time, ok: bool)            // a pass begins; a failed list counts as empty
    | ListExpired(p: nat, now: Time, ok: bool)
    | Drop(p: nat, id: string)                         // it deletes a listed session
    | Refuse(p: nat, id: string)                       // or a delete of it is answered with an error

  predicate CanHappen(c: Scene, ev: Event) {
    match ev
    case ListIdle(p, _, _) => c.Of(p) == Resting
    case ListExpired(p, _, _) => c.Of(p).Half?
    case Drop(p, id) => c.Of(p).Full? && id in c.Of(p).Listed()
    case Refuse(p, id) => c.Of(p).Full? && id in c.Of(p).Listed()
    case _ => true
  }

  function IdleIds(st: State, now: Time, ok: bool): set<string> { if ok then Ids(IdleList(st, now)) else {} }

  function ExpiredIds(st: State, now: Time, ok: bool): set<string> { if ok then Ids(ExpiredList(st, now)) else {} }

  // What an event does to the store ...
  function StoreAfter(st: State, ev: Event): State {
    match ev
    case Put(s, now) => Stored(st, s, now)
    case Change(s) => Updated(st, s)
    case Erase(id) => Erased(st, id)
    case Use(id, at) => Touched(st, id, at)
    case Add(id, at) => st.(activity := SortedSet.Add(st.activity, Unix(at), id))
    case Drop(_, id) => Erased(st, id)
    case _ => st
  }

  // ... and to the passes.
  function PassesAfter(c: Scene, ev: Event): map<nat, Pass>
    requires CanHappen(c, ev)
  {
    match ev
    case ListIdle(p, now, ok) => c.passes[p := Half(IdleIds(c.st, now, ok))]
    case ListExpired(p, now, ok) => c.passes[p := Full(c.Of(p).idle, ExpiredIds(c.st, now, ok))]
    case Drop(p, id) => c.passes[p := c.Of(p).Less(id)]
    case Refuse(p, id) => c.passes[p := c.Of(p).Less(id)]
    case _ => c.passes
  }

  function After(c: Scene, ev: Event): Scene
    requires CanHappen(c, ev)
  {
    Scene(StoreAfter(c.st, ev), PassesAfter(c, ev))
  }

  predicate History(c: Scene, evs: seq<Event>)
    decreases evs
  {
    evs == [] || (CanHappen(c, evs[0]) && History(After(c, evs[0]), evs[1..]))
  }

  function AfterAll(c: Scene, evs: seq<Event>): Scene
    requires History(c, evs)
    decreases evs
  {
    if evs == [] then c else AfterAll(After(c, evs[0]), evs[1..])
  }

  // ---- A pass that runs alone ----

  function PassEvents(p: nat, infos: seq<Info>, f: Refusals): seq<Event> {
    if infos == [] then []
    else
      var id := infos[|infos| - 1].sessionId;
      PassEvents(p, infos[..|infos| - 1], f) + [if Refused(infos[|infos| - 1], f) then Refuse(p, id) else Drop(p, id)]
  }

  lemma {:induction false} HistoryConcat(c: Scene, a: seq<Event>, b: seq<Event>)
    requires History(c, a) && History(AfterAll(c, a), b)
    ensures History(c, a + b) && AfterAll(c, a + b) == AfterAll(AfterAll(c, a), b)
    decreases a
  {
    if a == [] {
      assert a + b == b;
    } else {
      assert (a + b)[1..] == a[1..] + b;
      HistoryConcat(After(c, a[0]), a[1..], b);
    }
  }

  lemma HistoryOne(c: Scene, ev: Event)
    requires CanHappen(c, ev)
    ensures History(c, [ev]) && AfterAll(c, [ev]) == After(c, ev)
  {
    var none := [ev][1..];
    assert none == [] && AfterAll(After(c, ev), none) == After(c, ev);
  }

  // Once is the two listings followed by the deletes, with nothing in between.
  lemma {:induction false} PassIsListsAndDrops(c: Scene, p: nat, now: Time, l: Listing, f: Refusals)
    requires c.Of(p) == Resting
    ensures var evs := [ListIdle(p, now, l.idle), ListExpired(p, now, l.expired)]
                       + PassEvents(p, Collected(c.st, now, l), f);
            History(c, evs) && AfterAll(c, evs) == Scene(AfterPass(c.st, now, l, f), c.passes[p := Resting])
  {
    var all := Collected(c.st, now, l);
    ListsAlone(c, p, now, l);
    var lists := [ListIdle(p, now, l.idle), ListExpired(p, now, l.expired)];
    var c2 := AfterAll(c, lists);
    CollectedDistinct(c.st, now, l);
    ListedIsCollected(c.st, now, l);
    DropsErase(c2, p, all, f);
    HistoryConcat(c, lists, PassEvents(p, all, f));
    var full := c2.Of(p);
    assert full.idle - Ids(all) == {} && full.expired - Ids(all) == {};
  }

  lemma {:induction false} ListsAlone(c: Scene, p: nat, now: Time, l: Listing)
    requires c.Of(p) == Resting
    ensures var evs := [ListIdle(p, now, l.idle), ListExpired(p, now, l.expired)];
            && History(c, evs)
            && AfterAll(c, evs) ==
                 Scene(c.st, c.passes[p := Full(IdleIds(c.st, now, l.idle), ExpiredIds(c.st, now, l.expired))])
  {
    var first, second := ListIdle(p, now, l.idle), ListExpired(p, now, l.expired);
    var c1 := After(c, first);
    HistoryOne(c, first);
    HistoryOne(c1, second);
    HistoryConcat(c, [first], [second]);
    assert [first] + [second] == [first, second];
  }

  lemma {:induction false} ListedIsCollected(st: State, now: Time, l: Listing)
    ensures Ids(Collected(st, now, l)) == IdleIds(st, now, l.idle) + ExpiredIds(st, now, l.expired)
  {
    DeduplicatedIds(IdlePart(st, now, l) + ExpiredPart(st, now, l));
    forall id ensures id in Ids(Collected(st, now, l)) <==>
                      id in IdleIds(st, now, l.idle) || id in ExpiredIds(st, now, l.expired)
    {
      IdsConcat(IdlePart(st, now, l), ExpiredPart(st, now, l), id);
    }
  }

  ghost predicate DistinctIds(infos: seq<Info>) {
    infos == [] || (infos[|infos| - 1].sessionId !in Ids(infos[..|infos| - 1]) && DistinctIds(infos[..|infos| - 1]))
  }

  lemma {:induction false} DeduplicatedDistinct(infos: seq<Info>)
    ensures DistinctIds(Deduplicated(infos))
  {
    if infos != [] {
      var front, last := infos[..|infos| - 1], infos[|infos| - 1];
      DeduplicatedDistinct(front);
      DeduplicatedIds(front);
      var r := Deduplicated(front) + [last];
      assert r[..|r| - 1] == Deduplicated(front);
    }
  }

  lemma CollectedDistinct(st: State, now: Time, l: Listing)
    ensures DistinctIds(Collected(st, now, l))
  {
    DeduplicatedDistinct(IdlePart(st, now, l) + ExpiredPart(st, now, l));
  }

  lemma {:induction false} DropsErase(c: Scene, p: nat, infos: seq<Info>, f: Refusals)
    requires p in c.passes && c.passes[p].Full? && DistinctIds(infos) && Ids(infos) <= c.passes[p].Listed()
    ensures var full := c.passes[p];
            && History(c, PassEvents(p, infos, f))
            && AfterAll(c, PassEvents(p, infos, f)) ==
                 Scene(EraseAll(c.st, infos, f),
                       c.passes[p := Full(full.idle - Ids(infos), full.expired - Ids(infos))])
  {
    var full := c.passes[p];
    if infos != [] {
      var front, last := infos[..|infos| - 1], infos[|infos| - 1];
      DropsErase(c, p, front, f);
      var c1 := AfterAll(c, PassEvents(p, front, f));
      var ev := if Refused(last, f) then Refuse(p, last.sessionId) else Drop(p, last.sessionId);
      HistoryOne(c1, ev);
      HistoryConcat(c, PassEvents(p, front, f), [ev]);
      assert full.idle - Ids(infos) == (full.idle - Ids(front)) - {last.sessionId};
      assert full.expired - Ids(infos) == (full.expired - Ids(front)) - {last.sessionId};
    } else {
      assert full.idle - Ids(infos) == full.idle && full.expired - Ids(infos) == full.expired;
      assert c.passes[p := full] == c.passes;
    }
  }

  // ---- What every event keeps ----

  lemma {:induction false} ValidAfter(st: State, ev: Event)
    requires st.Valid()
    ensures StoreAfter(st, ev).Valid()
  {
    match ev
    case Put(s, now) =>
      SortedSet.AddSpec(st.expiry, Unix(s.expiresAt), s.sessionId);
      SortedSet.AddSpec(st.activity, Unix(now), s.sessionId);
    case Erase(id) =>
      SortedSet.RemoveSpec(st.expiry, id);
      SortedSet.RemoveSpec(st.activity, id);
    case Use(id, at) => SortedSet.AddSpec(st.activity, Unix(at), id);
    case Add(id, at) => SortedSet.AddSpec(st.activity, Unix(at), id);
    case Drop(_, id) =>
      SortedSet.RemoveSpec(st.expiry, id);
      SortedSet.RemoveSpec(st.activity, id);
    case _ =>
  }

  lemma KeyedAfter(st: State, ev: Event)
    requires Keyed(st)
    ensures Keyed(StoreAfter(st, ev))
  {
  }

  lemma {:induction false} ValidAfterAll(c: Scene, evs: seq<Event>)
    requires History(c, evs) && c.st.Valid() && Keyed(c.st)
    ensures AfterAll(c, evs).st.Valid() && Keyed(AfterAll(c, evs).st)
    decreases evs
  {
    if evs != [] {
      ValidAfter(c.st, evs[0]);
      KeyedAfter(c.st, evs[0]);
      ValidAfterAll(After(c, evs[0]), evs[1..]);
    }
  }

  // Clocks show a time after the first second of year 1.
  predicate Clocked(ev: Event) {
    match ev
    case Put(_, now) => SECOND <= now
    case Use(_, at) => SECOND <= at
    case Add(_, at) => SECOND <= at
    case _ => true
  }

  // Scores are later than Go's zero time.
  ghost predicate Dated(st: State) {
    forall m :: m in SortedSet.Scores(st.activity) ==> SortedSet.Scores(st.activity)[m] > -UNIX_EPOCH
  }

  lemma {:induction false} DatedAfter(st: State, ev: Event)
    requires st.Valid() && Dated(st) && Clocked(ev)
    ensures Dated(StoreAfter(st, ev))
  {
    match ev
    case Put(s, now) =>
      UnixMonotone(SECOND, now);
      SortedSet.AddSpec(st.activity, Unix(now), s.sessionId);
    case Erase(id) => SortedSet.RemoveSpec(st.activity, id);
    case Use(id, at) =>
      UnixMonotone(SECOND, at);
      SortedSet.AddSpec(st.activity, Unix(at), id);
    case Add(id, at) =>
      UnixMonotone(SECOND, at);
      SortedSet.AddSpec(st.activity, Unix(at), id);
    case Drop(_, id) => SortedSet.RemoveSpec(st.activity, id);
    case _ =>
  }

  lemma {:induction false} DatedAfterAll(c: Scene, evs: seq<Event>)
    requires History(c, evs) && c.st.Valid() && Dated(c.st) && forall i :: 0 <= i < |evs| ==> Clocked(evs[i])
    ensures Dated(AfterAll(c, evs).st)
    decreases evs
  {
    if evs != [] {
      ValidAfter(c.st, evs[0]);
      DatedAfter(c.st, evs[0]);
      DatedAfterAll(After(c, evs[0]), evs[1..]);
    }
  }

  // Stores and updates keep the expiry second, and touches add only for sessions that are there.
  predicate KeepsSecond(st: State, ev: Event) {
    match ev
    case Put(s, _) => s.sessionId in st.keys ==> Unix(s.expiresAt) == Unix(st.keys[s.sessionId].expiresAt)
    case Change(s) => s.sessionId in st.keys ==> Unix(s.expiresAt) == Unix(st.keys[s.sessionId].expiresAt)
    case Add(id, _) => id in st.keys
    case _ => true
  }

  ghost predicate SecondsKept(c: Scene, evs: seq<Event>)
    requires History(c, evs)
    decreases evs
  {
    evs == [] || (KeepsSecond(c.st, evs[0]) && SecondsKept(After(c, evs[0]), evs[1..]))
  }

  // An event keeps records and indexes in agreement exactly under that condition.
  lemma {:induction false} AgreeAfterIff(st: State, ev: Event)
    requires Agree(st)
    ensures Agree(StoreAfter(st, ev)) <==> KeepsSecond(st, ev)
  {
    match ev
    case Put(s, now) => StoredAgreesIff(st, s, now);
    case Change(s) => UpdatedAgreesIff(st, s);
    case Erase(id) => ErasedAgrees(st, id);
    case Use(id, at) => TouchedAgrees(st, id, at);
    case Add(id, at) => SortedSet.AddSpec(st.activity, Unix(at), id);
    case Drop(_, id) => ErasedAgrees(st, id);
    case _ =>
  }

  // Records and indexes agree along every history that keeps the expiry seconds.
  lemma {:induction false} AgreeAfterAll(c: Scene, evs: seq<Event>)
    requires History(c, evs) && Agree(c.st) && SecondsKept(c, evs)
    ensures Agree(AfterAll(c, evs).st)
    decreases evs
  {
    if evs != [] {
      AgreeAfterIff(c.st, evs[0]);
      AgreeAfterAll(After(c, evs[0]), evs[1..]);
    }
  }
}
