/** Runs that show what happens without the guards of the safety theorems, for every plan. */
module LifecycleWitnesses {
  import opened Sandboxes
  import opened Lifecycle
  import opened LifecycleSafety

  // The acts of one session, as a run of the world.
  predicate CanActs(m: Session, acts: seq<Act>)
    decreases acts
  {
    acts == [] || (CanAct(m, acts[0]) && CanActs(Next(m, acts[0]), acts[1..]))
  }

  function NextAll(m: Session, acts: seq<Act>): Session
    requires CanActs(m, acts)
    decreases acts
  {
    if acts == [] then m else NextAll(Next(m, acts[0]), acts[1..])
  }

  function LiveAll(m: Session, live: bool, acts: seq<Act>): bool
    requires CanActs(m, acts)
    decreases acts
  {
    if acts == [] then live else LiveAll(Next(m, acts[0]), LiveAfter(m, live, acts[0]), acts[1..])
  }

  function Steps(s: Sid, acts: seq<Act>): seq<Step> {
    seq(|acts|, i requires 0 <= i < |acts| => On(s, acts[i]))
  }

  lemma {:induction false} ActsRun(w: World, s: Sid, acts: seq<Act>)
    requires s in w.sessions && Fits(w.sessions[s]) && CanActs(w.sessions[s], acts)
    ensures CanRun(Unguarded, w, Steps(s, acts))
    ensures var w' := Run(Unguarded, w, Steps(s, acts));
            && w'.sessions == w.sessions[s := NextAll(w.sessions[s], acts)]
            && w'.cluster - {w.sessions[s].plan.Target()} == w.cluster - {w.sessions[s].plan.Target()}
            && w'.sessions[s].plan == w.sessions[s].plan
            && Live(w', w'.sessions[s]) == LiveAll(w.sessions[s], Live(w, w.sessions[s]), acts)
    decreases acts
  {
    if acts != [] {
      var m := w.sessions[s];
      assert Steps(s, acts)[1..] == Steps(s, acts[1..]);
      FitsAct(m, acts[0]);
      PlanKept(m, acts[0]);
      ClusterLocal(w.cluster, m, acts[0]);
      ActsRun(Apply(w, On(s, acts[0])), s, acts[1..]);
    }
  }

  lemma {:induction false} PlaceholderKept(m: Session, acts: seq<Act>)
    requires CanActs(m, acts)
    ensures NextAll(m, acts).placeholder == m.placeholder && NextAll(m, acts).plan == m.plan
    decreases acts
  {
    if acts != [] {
      PlanKept(m, acts[0]);
      PlaceholderKept(Next(m, acts[0]), acts[1..]);
    }
  }

  // A state a session can come to, it can come to in any world in which it is new.
  lemma {:induction false} ReachesRun(w: World, plan: Plan, now: Time, m: Session, live: bool)
    returns (steps: seq<Step>)
    requires Reaches(plan, now, m, live) && plan.WellBuilt() && Fresh(w, plan.entry.sessionId, plan)
    ensures CanRun(Unguarded, w, steps)
    ensures var w' := Run(Unguarded, w, steps);
            && w'.sessions == w.sessions[plan.entry.sessionId := m]
            && w'.cluster - {plan.Target()} == w.cluster - {plan.Target()}
            && (plan.Target() in w'.cluster <==> live)
    ensures m.plan == plan && m.placeholder == Placeholder(plan, now)
  {
    var m0, s := NewSession(plan, now), plan.entry.sessionId;
    var acts :| CanActs(m0, acts) && NextAll(m0, acts) == m && LiveAll(m0, false, acts) == live;
    var begin := Begin(s, plan, now);
    var w1 := Apply(w, begin);
    assert m0.placeholder == Placeholder(plan, now);
    ActsRun(w1, s, acts);
    PlaceholderKept(m0, acts);
    steps := [begin] + Steps(s, acts);
    assert steps[1..] == Steps(s, acts);
  }

  // Some run of a session with this plan ends with the object in the cluster, no record, and no
  // rollback armed.
  ghost predicate CanOrphan(plan: Plan) {
    exists steps :: CanRun(Unguarded, Init, steps) &&
      var w := Run(Unguarded, Init, steps);
      var s := plan.entry.sessionId;
      s in w.sessions && w.sessions[s].plan == plan && !Accounted(w.sessions[s], Live(w, w.sessions[s]))
  }

  // A session begun with this plan can come to this state, its object being live or not.
  ghost predicate Reaches(plan: Plan, now: Time, m: Session, live: bool) {
    exists acts :: CanActs(NewSession(plan, now), acts) &&
      NextAll(NewSession(plan, now), acts) == m && LiveAll(NewSession(plan, now), false, acts) == live
  }

  lemma ReachesStart(plan: Plan, now: Time)
    ensures Reaches(plan, now, NewSession(plan, now), false)
  {
    var none: seq<Act> := [];
    assert CanActs(NewSession(plan, now), none) && NextAll(NewSession(plan, now), none) == NewSession(plan, now);
  }

  lemma {:induction false} ActsAppend(m: Session, live: bool, acts: seq<Act>, a: Act)
    requires CanActs(m, acts) && CanAct(NextAll(m, acts), a)
    ensures CanActs(m, acts + [a])
    ensures NextAll(m, acts + [a]) == Next(NextAll(m, acts), a)
    ensures LiveAll(m, live, acts + [a]) == LiveAfter(NextAll(m, acts), LiveAll(m, live, acts), a)
    decreases acts
  {
    if acts == [] {
      assert acts + [a] == [a];
    } else {
      assert (acts + [a])[1..] == acts[1..] + [a];
      ActsAppend(Next(m, acts[0]), LiveAfter(m, live, acts[0]), acts[1..], a);
    }
  }

  lemma ReachesNext(plan: Plan, now: Time, m: Session, live: bool, a: Act)
    requires Reaches(plan, now, m, live) && CanAct(m, a)
    ensures Reaches(plan, now, Next(m, a), LiveAfter(m, live, a))
  {
    var m0 := NewSession(plan, now);
    var acts :| CanActs(m0, acts) && NextAll(m0, acts) == m && LiveAll(m0, false, acts) == live;
    ActsAppend(m0, false, acts, a);
  }

  lemma ReachesOrphan(plan: Plan, now: Time, m: Session, live: bool)
    requires plan.WellBuilt() && Reaches(plan, now, m, live) && !Accounted(m, live)
    ensures CanOrphan(plan)
  {
    var steps := ReachesRun(Init, plan, now, m, live);
    assert Run(Unguarded, Init, steps).sessions[plan.entry.sessionId] == m;
  }

  lemma ReachesStored(plan: Plan, now: Time) returns (m: Session)
    ensures Reaches(plan, now, m, false)
    ensures m == NewSession(plan, now).(pc := Stored, record := Some(Placeholder(plan, now)),
                 expiry := Some(Unix(Placeholder(plan, now).expiresAt)), activity := Some(Unix(now)))
  {
    ReachesStart(plan, now);
    m := NewSession(plan, now);
    ReachesNext(plan, now, m, false, SetKey);
    m := Next(m, SetKey);
    ReachesNext(plan, now, m, false, AddExpiry);
    m := Next(m, AddExpiry);
    ReachesNext(plan, now, m, false, AddActivity(now));
    m := Next(m, AddActivity(now));
  }

  // A remover reads the placeholder and deletes the missing object just before the cluster create.
  lemma ReachesHazard(plan: Plan, now: Time) returns (m: Session)
    ensures Reaches(plan, now, m, true)
    ensures m.plan == plan && m.pc.Created? && m.record.Some? && RemoverAt(m, 0, ObjectGone)
  {
    m := ReachesStored(plan, now);
    ReachesNext(plan, now, m, false, Select(0));
    m := Next(m, Select(0));
    ReachesNext(plan, now, m, false, DeleteObject(0));
    m := Next(m, DeleteObject(0));
    ReachesNext(plan, now, m, false, CreateOk);
    m := Next(m, CreateOk);
  }

  // Without the guard on removers that orphans the committed sandbox, whatever the plan.
  lemma EarlyRemovalOrphans(plan: Plan, now: Time, created: SandboxObject)
    requires plan.WellBuilt() && ReadBack(plan, created)
    ensures CanOrphan(plan)
  {
    var m := ReachesHazard(plan, now);
    ReachesNext(plan, now, m, true, Commit(created, ""));
    m := Next(m, Commit(created, ""));
    ReachesNext(plan, now, m, true, DeleteKey(0));
    ReachesOrphan(plan, now, Next(m, DeleteKey(0)), true);
  }

  // Without the guard on rollback: a create that times out after taking effect, and a rollback whose
  // cluster delete fails, orphan the object.
  lemma FailedRollbackOrphans(plan: Plan, now: Time)
    requires plan.WellBuilt()
    ensures CanOrphan(plan)
  {
    var m := ReachesStored(plan, now);
    ReachesNext(plan, now, m, false, CreateError(true));
    m := Next(m, CreateError(true));
    ReachesNext(plan, now, m, true, DropObject(false));
    m := Next(m, DropObject(false));
    ReachesNext(plan, now, m, true, DropKey);
    ReachesOrphan(plan, now, Next(m, DropKey), true);
  }

  // Without the guard on late creates: a create that times out and takes effect after the cluster delete
  // of the rollback orphans the object, though every delete does what it should.
  lemma LateCreateOrphans(plan: Plan, now: Time)
    requires plan.WellBuilt()
    ensures CanOrphan(plan)
  {
    var m := ReachesStored(plan, now);
    ReachesNext(plan, now, m, false, CreateUnknown);
    m := Next(m, CreateUnknown);
    ReachesNext(plan, now, m, false, DropObject(true));
    m := Next(m, DropObject(true));
    ReachesNext(plan, now, m, false, DropKey);
    m := Next(m, DropKey);
    ReachesNext(plan, now, m, false, Land);
    ReachesOrphan(plan, now, Next(m, Land), true);
  }

  // Without the guard on the indexes: a remover that finishes while StoreSandbox is between its
  // commands leaves the creator to add entries for a record that is gone.
  lemma EarlyRemovalDangles(plan: Plan, now: Time)
    ensures exists m :: Reaches(plan, now, m, false) && m.record.None? && m.expiry.Some? && m.activity.Some? &&
              m.pc.Stored? && !ExpiryAgrees(m) && !ActivityAgrees(m)
  {
    var m := ReachesRemoved(plan, now);
    ReachesNext(plan, now, m, false, AddExpiry);
    m := Next(m, AddExpiry);
    ReachesNext(plan, now, m, false, AddActivity(now));
    m := Next(m, AddActivity(now));
    assert !ExpiryAgrees(m) && !ActivityAgrees(m);
  }

  lemma ReachesRemoved(plan: Plan, now: Time) returns (m: Session)
    ensures Reaches(plan, now, m, false)
    ensures m.pc.KeySet? && m.record.None? && m.removers.Keys == {0} && m.removers[0].pc.Finished?
  {
    ReachesStart(plan, now);
    m := NewSession(plan, now);
    ReachesNext(plan, now, m, false, SetKey);
    m := Next(m, SetKey);
    ReachesNext(plan, now, m, false, Select(0));
    m := Next(m, Select(0));
    m := ReachesFinished(plan, now, m, false, 0);
  }

  // A remover at work on a session can always run to its end.
  lemma ReachesFinished(plan: Plan, now: Time, m: Session, live: bool, r: nat) returns (m': Session)
    requires Reaches(plan, now, m, live) && RemoverAt(m, r, Selected)
    ensures Reaches(plan, now, m', false)
    ensures m' == RemoverTo(m, r, Finished).(record := None, expiry := None, activity := None)
  {
    ReachesNext(plan, now, m, live, DeleteObject(r));
    m' := Next(m, DeleteObject(r));
    ReachesNext(plan, now, m', false, DeleteKey(r));
    m' := Next(m', DeleteKey(r));
    ReachesNext(plan, now, m', false, DeleteExpiry(r));
    m' := Next(m', DeleteExpiry(r));
    ReachesNext(plan, now, m', false, DeleteActivity(r));
    m' := Next(m', DeleteActivity(r));
  }
}
