/** How early a session can be collected, given that the indexes keep whole seconds, over every history. */
module GcTiming {
  import opened Sandboxes
  import opened Store
  import opened GarbageCollection
  import opened GcProgress
  import opened GcHistory
  import opened GcDrain
  import SortedSet

  // No session that is ever listed as inactive has a zero LastActivityAt, so the fallback to CreatedAt is
  // not taken.
  lemma {:induction false} FallbackUnreachable(c: Scene, evs: seq<Event>, before: Time, limit: int)
    requires History(c, evs) && c.st.Valid() && Keyed(c.st) && Dated(c.st)
    requires forall i :: 0 <= i < |evs| ==> Clocked(evs[i])
    ensures forall s :: s in Inactive(AfterAll(c, evs).st, before, limit) ==>
              s.lastActivityAt != 0 && ActivityAt(s) == s.lastActivityAt
  {
    var st := AfterAll(c, evs).st;
    ValidAfterAll(c, evs);
    DatedAfterAll(c, evs);
    if limit > 0 {
      SortedSet.RangeSpec(st.activity, Unix(before), limit);
      SortedSet.ScoresOf(st.activity);
      forall s | s in Inactive(st, before, limit) ensures s.lastActivityAt != 0 {
        ListedHasEntry(st, before, limit, s);
        var e :| e in SortedSet.RangeByScore(st.activity, Unix(before), limit) && e.member in st.keys &&
          s == Reported(st, e);
        assert e in st.activity;
      }
    }
  }

  // The time of the last touch or store that was applied to each session.
  function LastUse(st: State, ev: Event, uses: map<string, Time>): map<string, Time> {
    match ev
    case Put(s, now) => uses[s.sessionId := now]
    case Use(id, at) => if id in st.keys then uses[id := at] else uses
    case Add(id, at) => uses[id := at]
    case _ => uses
  }

  function LastUses(c: Scene, evs: seq<Event>, uses: map<string, Time>): map<string, Time>
    requires History(c, evs)
    decreases evs
  {
    if evs == [] then uses else LastUses(After(c, evs[0]), evs[1..], LastUse(c.st, evs[0], uses))
  }

  ghost predicate Scored(st: State, uses: map<string, Time>) {
    forall id :: id in SortedSet.Scores(st.activity) ==>
      id in uses && SortedSet.Scores(st.activity)[id] == Unix(uses[id])
  }

  lemma {:induction false} ScoredAfter(st: State, ev: Event, uses: map<string, Time>)
    requires st.Valid() && Scored(st, uses)
    ensures Scored(StoreAfter(st, ev), LastUse(st, ev, uses))
  {
    match ev
    case Put(s, now) => SortedSet.AddSpec(st.activity, Unix(now), s.sessionId);
    case Erase(id) => SortedSet.RemoveSpec(st.activity, id);
    case Use(id, at) => SortedSet.AddSpec(st.activity, Unix(at), id);
    case Add(id, at) => SortedSet.AddSpec(st.activity, Unix(at), id);
    case Drop(_, id) => SortedSet.RemoveSpec(st.activity, id);
    case _ =>
  }

  lemma {:induction false} ScoredAfterAll(c: Scene, evs: seq<Event>, uses: map<string, Time>)
    requires History(c, evs) && c.st.Valid() && Scored(c.st, uses)
    ensures Scored(AfterAll(c, evs).st, LastUses(c, evs, uses))
    decreases evs
  {
    if evs != [] {
      ValidAfter(c.st, evs[0]);
      ScoredAfter(c.st, evs[0], uses);
      ScoredAfterAll(After(c, evs[0]), evs[1..], LastUse(c.st, evs[0], uses));
    }
  }

  // After any history, a session that is listed as idle had been unused for more than its idle timeout
  // less one second, counted from the last touch that was applied to it.
  lemma {:induction false} IdleTooEarlyByLessThanASecond(c: Scene, evs: seq<Event>, uses: map<string, Time>,
                                                         now: Time, id: string)
    requires History(c, evs) && c.st.Valid() && Keyed(c.st) && Dated(c.st) && Scored(c.st, uses)
    requires (forall i :: 0 <= i < |evs| ==> Clocked(evs[i])) && DueIdle(AfterAll(c, evs).st, now, id)
    ensures id in LastUses(c, evs, uses)
    ensures now - LastUses(c, evs, uses)[id] > IdleTimeout(AfterAll(c, evs).st.keys[id]) - SECOND
  {
    var st := AfterAll(c, evs).st;
    ValidAfterAll(c, evs);
    DatedAfterAll(c, evs);
    ScoredAfterAll(c, evs, uses);
    var e :| e in IdleFront(st, now) && e.member == id &&
      TimedOut(st.keys[id].(lastActivityAt := FromUnix(e.score)), now);
    FrontIsIndexed(st.activity, Unix(now - MIN_INACTIVE_LOOKBACK), e);
    UnixBounds(LastUses(c, evs, uses)[id]);
  }

  // After any history that keeps expiry seconds, a session that is listed as expired is past its
  // deadline, or less than a second before it.
  lemma {:induction false} ExpiredTooEarlyByLessThanASecond(c: Scene, evs: seq<Event>, now: Time, id: string)
    requires History(c, evs) && Agree(c.st) && SecondsKept(c, evs) && DueExpired(AfterAll(c, evs).st, now, id)
    ensures AfterAll(c, evs).st.keys[id].expiresAt < now + SECOND
  {
    var st := AfterAll(c, evs).st;
    AgreeAfterAll(c, evs);
    var e :| e in ExpiredFront(st, now) && e.member == id;
    FrontIsIndexed(st.expiry, Unix(now), e);
    UnixBounds(now);
    UnixBounds(st.keys[id].expiresAt);
  }
}
