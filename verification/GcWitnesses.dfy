/** Stores in which idle sessions starve: one with a hundred patient sessions in front, and one that the
    Valkey touch race leads to, with a hundred entries without a record. */
module GcWitnesses {
  import opened Sandboxes
  import opened Store
  import opened GarbageCollection
  import opened GcProgress
  import opened GcHistory
  import opened GcDrain
  import opened GcStarvation
  import Lifecycle
  import LifecycleSafety
  import LifecycleWitnesses
  import TouchRefinement
  import Handlers
  import SortedSet

  // ---- A hundred names ----

  function Name(i: nat): string { seq(i, _ => 'a') }

  function Names(n: nat): set<string> { if n == 0 then {} else Names(n - 1) + {Name(n - 1)} }

  lemma {:induction false} NameIn(n: nat, s: string)
    requires s in Names(n)
    ensures |s| < n && s == Name(|s|)
  {
    if s != Name(n - 1) { NameIn(n - 1, s); }
  }

  lemma {:induction false} NewName(n: nat)
    ensures Name(n) !in Names(n)
  {
    if Name(n) in Names(n) { NameIn(n, Name(n)); }
  }

  lemma {:induction false} NamesSize(n: nat)
    ensures |Names(n)| == n
  {
    if n > 0 {
      NamesSize(n - 1);
      NewName(n - 1);
    }
  }

  // ---- Patient sessions ----

  function Sleeper(id: string, idle: int, expires: Time): Info {
    Info(Sandbox, "", "", id, [], id, "", 0, expires, idle, 0, "ready")
  }

  // The store after n patient sessions were created at one time.
  function Crowd(n: nat, D: int, t: Time, expires: Time): State {
    if n == 0 then State(map[], [], []) else Stored(Crowd(n - 1, D, t, expires), Sleeper(Name(n - 1), D, expires), t)
  }

  ghost predicate AllScored(z: SortedSet.ZSet, names: set<string>, score: int) {
    SortedSet.Scores(z).Keys == names && forall s :: s in names ==> SortedSet.Scores(z)[s] == score
  }

  lemma {:induction false} ScoreOneMore(z: SortedSet.ZSet, names: set<string>, score: int, id: string)
    requires SortedSet.Valid(z) && AllScored(z, names, score)
    ensures SortedSet.Valid(SortedSet.Add(z, score, id)) && AllScored(SortedSet.Add(z, score, id), names + {id}, score)
  {
    SortedSet.AddSpec(z, score, id);
  }

  ghost predicate CrowdLike(st: State, names: set<string>, D: int, t: Time, expires: Time) {
    && st.Valid() && st.keys.Keys == names
    && (forall s :: s in names ==> st.keys[s] == Sleeper(s, D, expires))
    && AllScored(st.activity, names, Unix(t)) && AllScored(st.expiry, names, Unix(expires))
  }

  lemma {:induction false} CrowdSpec(n: nat, D: int, t: Time, expires: Time)
    ensures CrowdLike(Crowd(n, D, t, expires), Names(n), D, t, expires)
  {
    if n > 0 {
      CrowdSpec(n - 1, D, t, expires);
      NewName(n - 1);
      CrowdGrows(Crowd(n - 1, D, t, expires), Names(n - 1), Name(n - 1), D, t, expires);
    }
  }

  lemma {:induction false} CrowdGrows(st: State, names: set<string>, id: string, D: int, t: Time, expires: Time)
    requires CrowdLike(st, names, D, t, expires) && id !in names
    ensures CrowdLike(Stored(st, Sleeper(id, D, expires), t), names + {id}, D, t, expires)
  {
    ScoreOneMore(st.activity, names, Unix(t), id);
    ScoreOneMore(st.expiry, names, Unix(expires), id);
  }

  const Victim := "b"

  // The crowd, and one session with a short timeout created a minute later.
  function Crowded(n: nat, D: int, d: int, t: Time, expires: Time): State {
    Stored(Crowd(n, D, t, expires), Sleeper(Victim, d, expires), t + MINUTE)
  }

  lemma {:induction false} VictimIsNew(n: nat)
    ensures Victim !in Names(n)
  {
    assert Victim[0] == 'b' && Name(1)[0] == 'a';
    if Victim in Names(n) { NameIn(n, Victim); }
  }

  // However long it has been idle, it is not due before the first of the others is; and by the theorem on
  // patient fronts this stays so over every history that leaves the others alone.
  lemma {:induction false} CrowdStarves(n: nat, D: int, d: int, t: Time, expires: Time, now: Time)
    requires n == CANDIDATE_LIMIT && SECOND <= t && d != 0 && D != 0 && Unix(Truncate(t) + D) < Unix(expires)
    requires t + MINUTE + d < now <= Truncate(t) + D && t + 2 * MINUTE <= now
    ensures var st := Crowded(n, D, d, t, expires);
            && PatientWall(Scene(st, map[]), Names(n), t + MINUTE, D, Truncate(t) + D)
            && IdleAt(st, Victim, now)
            && !DueIdle(st, now, Victim)
  {
    CrowdIsWall(n, D, t, expires);
    VictimIsNew(n);
    assert Victim !in Crowd(n, D, t, expires).keys by { CrowdSpec(n, D, t, expires); }
    VictimStarves(Crowd(n, D, t, expires), Names(n), D, d, t, expires, now);
  }

  lemma {:induction false} VictimStarves(st: State, names: set<string>, D: int, d: int, t: Time, expires: Time,
                                         now: Time)
    requires PatientWall(Scene(st, map[]), names, t + MINUTE, D, Truncate(t) + D)
    requires Victim !in names && Victim !in st.keys && SECOND <= t && d != 0
    requires t + MINUTE + d < now <= Truncate(t) + D && t + 2 * MINUTE <= now
    ensures var st' := Stored(st, Sleeper(Victim, d, expires), t + MINUTE);
            && PatientWall(Scene(st', map[]), names, t + MINUTE, D, Truncate(t) + D)
            && IdleAt(st', Victim, now)
            && !DueIdle(st', now, Victim)
  {
    var T, E, c := t + MINUTE, Truncate(t) + D, Scene(st, map[]);
    var put := Put(Sleeper(Victim, d, expires), T);
    PatientWallStands(c, put, names, T, D, E);
    PatientFrontStarves(After(c, put), names, T, D, E, [], now, Victim);
    VictimIsIdle(st, d, t, expires, now);
  }

  // The session is in the part of the index a pass asks for, and its own idle timeout has elapsed.
  predicate IdleAt(st: State, id: string, now: Time) {
    && id in st.keys && id in SortedSet.Scores(st.activity)
    && SortedSet.Scores(st.activity)[id] <= Unix(now - MIN_INACTIVE_LOOKBACK)
    && TimedOut(Reported(st, SortedSet.Entry(SortedSet.Scores(st.activity)[id], id)), now)
  }

  lemma {:induction false} VictimIsIdle(st: State, d: int, t: Time, expires: Time, now: Time)
    requires st.Valid() && Victim !in st.keys && SECOND <= t && d != 0
    requires t + MINUTE + d < now && t + 2 * MINUTE <= now
    ensures IdleAt(Stored(st, Sleeper(Victim, d, expires), t + MINUTE), Victim, now)
  {
    SortedSet.AddSpec(st.activity, Unix(t + MINUTE), Victim);
    UnixMonotone(t + MINUTE, now - MIN_INACTIVE_LOOKBACK);
    UnixBounds(t + MINUTE);
    UnixMonotone(SECOND, t + MINUTE);
  }

  lemma {:induction false} CrowdIsWall(n: nat, D: int, t: Time, expires: Time)
    requires n == CANDIDATE_LIMIT && SECOND <= t && D != 0 && Unix(Truncate(t) + D) < Unix(expires)
    ensures PatientWall(Scene(Crowd(n, D, t, expires), map[]), Names(n), t + MINUTE, D, Truncate(t) + D)
  {
    CrowdSpec(n, D, t, expires);
    NamesSize(n);
    CrowdIsPatient(Crowd(n, D, t, expires), Names(n), D, t, expires);
  }

  lemma {:induction false} CrowdIsPatient(st: State, names: set<string>, D: int, t: Time, expires: Time)
    requires CrowdLike(st, names, D, t, expires) && |names| == CANDIDATE_LIMIT
    requires SECOND <= t && D != 0 && Unix(Truncate(t) + D) < Unix(expires)
    ensures PatientWall(Scene(st, map[]), names, t + MINUTE, D, Truncate(t) + D)
  {
    UnixMonotone(SECOND, t);
  }

  // ---- Entries without a record ----

  function Reply(p: Plan): SandboxObject
    requires p.claim.None? && p.sandbox.shutdownTime.Some?
  {
    p.sandbox.(shutdownTime := Some(Truncate(p.sandbox.shutdownTime.value)), ready := true)
  }

  // These sessions are all gone but for their last-activity entries.
  ghost predicate AllDangling(world: Lifecycle.World, namespace: string, names: set<string>, now: Time) {
    && world.cluster == {} && world.sessions.Keys == names
    && forall s :: s in names ==> DanglesAs(world.sessions[s], namespace, s, now)
  }

  ghost predicate DanglesAs(m: Lifecycle.Session, namespace: string, s: string, now: Time) {
    && TouchRefinement.Dangling(m) && m.expiry.None? && m.activity == Some(Unix(now))
    && m.plan.entry.sessionId == s && m.plan.Target() == Ref(Sandbox, namespace, s)
    && m.placeholder == Placeholder(m.plan, now)
  }

  // The race, run for one session after the other.
  lemma {:induction false} DanglingCrowd(w: Workload, n: nat, now: Time) returns (steps: seq<Lifecycle.Step>)
    ensures Lifecycle.CanRun(Lifecycle.Unguarded, Lifecycle.Init, steps)
    ensures AllDangling(Lifecycle.Run(Lifecycle.Unguarded, Lifecycle.Init, steps), w.namespace, Names(n), now)
  {
    if n == 0 { return []; }
    var front := DanglingCrowd(w, n - 1, now);
    var world := Lifecycle.Run(Lifecycle.Unguarded, Lifecycle.Init, front);
    NewName(n - 1);
    var more := OneMoreDangling(world, w, Names(n - 1), Name(n - 1), now);
    Lifecycle.RunConcat(Lifecycle.Unguarded, Lifecycle.Init, front, more);
    steps := front + more;
  }

  lemma {:induction false} OneMoreDangling(world: Lifecycle.World, w: Workload, names: set<string>, s: string,
                                           now: Time)
    returns (steps: seq<Lifecycle.Step>)
    requires AllDangling(world, w.namespace, names, now) && s !in names
    ensures Lifecycle.CanRun(Lifecycle.Unguarded, world, steps)
    ensures AllDangling(Lifecycle.Run(Lifecycle.Unguarded, world, steps), w.namespace, names + {s}, now)
  {
    var p := BuildByAgentRuntime(w, "", s, s, now);
    var m := TouchRefinement.ValkeyTouchRace(p, now, Reply(p));
    NewIsFresh(world, w, names, s, now);
    steps := LifecycleWitnesses.ReachesRun(world, p, now, m, false);
    var world' := Lifecycle.Run(Lifecycle.Unguarded, world, steps);
    forall ref ensures ref !in world'.cluster {
      assert ref in world'.cluster - {p.Target()} <==> ref in world.cluster - {p.Target()};
    }
    DanglingGrows(world, world', w.namespace, names, s, now, m);
  }

  lemma {:induction false} NewIsFresh(world: Lifecycle.World, w: Workload, names: set<string>, s: string, now: Time)
    requires AllDangling(world, w.namespace, names, now) && s !in names
    ensures Lifecycle.Fresh(world, s, BuildByAgentRuntime(w, "", s, s, now))
  {
  }

  lemma {:induction false} DanglingGrows(world: Lifecycle.World, world': Lifecycle.World, namespace: string,
                                         names: set<string>, s: string, now: Time, m: Lifecycle.Session)
    requires AllDangling(world, namespace, names, now) && DanglesAs(m, namespace, s, now)
    requires world'.cluster == {} && world'.sessions == world.sessions[s := m]
    ensures AllDangling(world', namespace, names + {s}, now)
  {
  }

  function DanglingIndex(n: nat, now: Time): SortedSet.ZSet {
    if n == 0 then [] else SortedSet.Add(DanglingIndex(n - 1, now), Unix(now), Name(n - 1))
  }

  lemma {:induction false} DanglingIndexSpec(n: nat, now: Time)
    ensures SortedSet.Valid(DanglingIndex(n, now))
    ensures AllScored(DanglingIndex(n, now), Names(n), Unix(now))
  {
    if n > 0 {
      DanglingIndexSpec(n - 1, now);
      ScoreOneMore(DanglingIndex(n - 1, now), Names(n - 1), Unix(now), Name(n - 1));
    }
  }

  // The store shows the world: every session has its part of it, and there is nothing else.
  ghost predicate ShowsWorld(st: State, world: Lifecycle.World) {
    && (forall s :: s in world.sessions ==> Handlers.Shows(st, s, world.sessions[s]))
    && st.keys.Keys <= world.sessions.Keys
    && SortedSet.Scores(st.expiry).Keys <= world.sessions.Keys
    && SortedSet.Scores(st.activity).Keys <= world.sessions.Keys
  }

  // A run of the protocol leads to a store in which idle collection has starved for good: its hundred
  // longest unused last-activity entries have no record.
  lemma {:induction false} RaceStarvesCollection(w: Workload, n: nat, now: Time)
    returns (steps: seq<Lifecycle.Step>, st: State)
    requires n == CANDIDATE_LIMIT
    ensures Lifecycle.CanRun(Lifecycle.Unguarded, Lifecycle.Init, steps)
    ensures ShowsWorld(st, Lifecycle.Run(Lifecycle.Unguarded, Lifecycle.Init, steps))
    ensures st.Valid() && Keyed(st) && |IdleFront(st, now + MINUTE)| == CANDIDATE_LIMIT
    ensures forall e :: e in IdleFront(st, now + MINUTE) ==> e.member !in st.keys
  {
    steps := DanglingCrowd(w, n, now);
    DanglingIndexSpec(n, now);
    NamesSize(n);
    var world := Lifecycle.Run(Lifecycle.Unguarded, Lifecycle.Init, steps);
    st := ShownStore(world, w.namespace, Names(n), DanglingIndex(n, now), now);
  }

  lemma {:induction false} ShownStore(world: Lifecycle.World, namespace: string, names: set<string>, z: SortedSet.ZSet,
                                      now: Time)
    returns (st: State)
    requires AllDangling(world, namespace, names, now) && |names| == CANDIDATE_LIMIT
    requires SortedSet.Valid(z) && AllScored(z, names, Unix(now))
    ensures ShowsWorld(st, world) && st.Valid() && st.keys == map[]
    ensures |IdleFront(st, now + MINUTE)| == CANDIDATE_LIMIT
  {
    st := State(map[], [], z);
    FrontOfDangling(st, names, now);
    DanglingShown(st, world, namespace, names, now);
  }

  lemma {:induction false} FrontOfDangling(st: State, names: set<string>, now: Time)
    requires st.Valid() && AllScored(st.activity, names, Unix(now)) && |names| == CANDIDATE_LIMIT
    ensures |IdleFront(st, now + MINUTE)| == CANDIDATE_LIMIT
  {
    FrontIsAll(st.activity, Unix(now));
  }

  lemma {:induction false} DanglingShown(st: State, world: Lifecycle.World, namespace: string, names: set<string>,
                                         now: Time)
    requires AllDangling(world, namespace, names, now)
    requires st.keys == map[] && st.expiry == [] && AllScored(st.activity, names, Unix(now))
    ensures ShowsWorld(st, world)
  {
    forall s | s in world.sessions ensures Handlers.Shows(st, s, world.sessions[s]) {
      assert DanglesAs(world.sessions[s], namespace, s, now);
    }
  }

  // An index of exactly a hundred entries that are all due is its own front.
  lemma {:induction false} FrontIsAll(z: SortedSet.ZSet, max: int)
    requires SortedSet.Valid(z) && |SortedSet.Scores(z)| == CANDIDATE_LIMIT
    requires forall m :: m in SortedSet.Scores(z) ==> SortedSet.Scores(z)[m] <= max
    ensures |SortedSet.RangeByScore(z, max, CANDIDATE_LIMIT)| == CANDIDATE_LIMIT
  {
    var front := SortedSet.RangeByScore(z, max, CANDIDATE_LIMIT);
    SortedSet.RangeSpec(z, max, CANDIDATE_LIMIT);
    SortedSet.ScoresOf(z);
    if |front| < CANDIDATE_LIMIT {
      RankInFront(z, max, |front|);
      assert z[|front|] in z;
      var k :| 0 <= k < |front| && front[k] == z[|front|];
      SameRank(z, k, |front|);
    }
  }
}
