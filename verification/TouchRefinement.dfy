/** Redis updates last activity with one script; Valkey asks EXISTS and then issues ZADD. The two
    go through the same states exactly if each ZADD comes when the script would do the same, which is
    so if no DEL of the session falls in between. */
module TouchRefinement {
  import opened Sandboxes
  import opened Lifecycle
  import opened LifecycleSafety
  import opened LifecycleWitnesses

  // The world as Redis sees it: no touch is ever half done.
  function Erase(m: Session): Session { m.(touches := {}) }

  function EraseWorld(w: World): World {
    World(map s | s in w.sessions :: Erase(w.sessions[s]), w.cluster)
  }

  // A Valkey run with every ZADD of a touch replaced by the script and every EXISTS left out.
  function AtomicStep(step: Step): seq<Step> {
    match step
    case On(_, TouchExists(_)) => []
    case On(sid, TouchAdd(_, at)) => [On(sid, Touch(at))]
    case _ => [step]
  }

  function Atomic(steps: seq<Step>): seq<Step> {
    if steps == [] then [] else AtomicStep(steps[0]) + Atomic(steps[1..])
  }

  function RedisGuards(g: Guards): Guards { g.(atomicTouches := true, touchAsScript := false) }

  lemma EraseAct(m: Session, a: Act)
    requires CanAct(m, a) && !a.TouchExists? && !a.TouchAdd?
    ensures CanAct(Erase(m), a) && Next(Erase(m), a) == Erase(Next(m, a))
  {
  }

  // The ZADD does what the script would do at that moment, exactly if the record is still there
  // (or the entry happens to carry that very score).
  lemma TouchAddIsScriptIff(m: Session, t: nat, at: Time)
    requires CanAct(m, TouchAdd(t, at))
    ensures Next(Erase(m), Touch(at)) == Erase(Next(m, TouchAdd(t, at)))
            <==> m.record.Some? || m.activity == Some(Unix(at))
  {
  }

  lemma EraseStep(g: Guards, w: World, step: Step)
    requires Allowed(g, w, step)
    requires step.On? ==> !step.act.TouchExists? && !step.act.TouchAdd?
    ensures Allowed(RedisGuards(g), EraseWorld(w), step)
    ensures Apply(EraseWorld(w), step) == EraseWorld(Apply(w, step))
  {
    if step.On? {
      EraseAct(w.sessions[step.sid], step.act);
    }
    assert Apply(EraseWorld(w), step).sessions == EraseWorld(Apply(w, step)).sessions;
  }

  lemma ExistsStep(w: World, sid: Sid, t: nat)
    requires Enabled(w, On(sid, TouchExists(t)))
    ensures EraseWorld(Apply(w, On(sid, TouchExists(t)))) == EraseWorld(w)
  {
    assert EraseWorld(Apply(w, On(sid, TouchExists(t)))).sessions == EraseWorld(w).sessions;
  }

  lemma AddStep(g: Guards, w: World, sid: Sid, t: nat, at: Time)
    requires Enabled(w, On(sid, TouchAdd(t, at)))
    ensures Allowed(g, EraseWorld(w), On(sid, Touch(at)))
    ensures Apply(EraseWorld(w), On(sid, Touch(at))) == EraseWorld(Apply(w, On(sid, TouchAdd(t, at)))) <==>
            w.sessions[sid].record.Some? || w.sessions[sid].activity == Some(Unix(at))
  {
    var w1, w2 := Apply(EraseWorld(w), On(sid, Touch(at))), EraseWorld(Apply(w, On(sid, TouchAdd(t, at))));
    TouchAddIsScriptIff(w.sessions[sid], t, at);
    if w1.sessions[sid] == w2.sessions[sid] { assert w1.sessions == w2.sessions; }
  }

  // The step of both systems ends in the same state.
  ghost predicate SameStep(g: Guards, w: World, step: Step)
    requires Enabled(w, step)
  {
    && CanRun(RedisGuards(g), EraseWorld(w), AtomicStep(step))
    && Run(RedisGuards(g), EraseWorld(w), AtomicStep(step)) == EraseWorld(Apply(w, step))
  }

  // This is so exactly if the guard on touches permits the step.
  lemma AtomicStepIff(g: Guards, w: World, step: Step)
    requires Allowed(g.(touchAsScript := false), w, step) && !g.atomicTouches
    ensures CanRun(RedisGuards(g), EraseWorld(w), AtomicStep(step))
    ensures SameStep(g, w, step) <==> Allowed(g.(touchAsScript := true), w, step)
  {
    if step.On? && step.act.TouchExists? {
      ExistsStepSame(g, w, step.sid, step.act.t);
    } else if step.On? && step.act.TouchAdd? {
      AddStepIff(g, w, step.sid, step.act.t, step.act.at);
    } else {
      OtherStepSame(g, w, step);
    }
  }

  lemma ExistsStepSame(g: Guards, w: World, sid: Sid, t: nat)
    requires Allowed(g.(touchAsScript := false), w, On(sid, TouchExists(t)))
    ensures SameStep(g, w, On(sid, TouchExists(t))) && Allowed(g.(touchAsScript := true), w, On(sid, TouchExists(t)))
  {
    ExistsStep(w, sid, t);
  }

  lemma OtherStepSame(g: Guards, w: World, step: Step)
    requires Allowed(g.(touchAsScript := false), w, step)
    requires step.On? ==> !step.act.TouchExists? && !step.act.TouchAdd?
    ensures SameStep(g, w, step) && Allowed(g.(touchAsScript := true), w, step)
  {
    EraseStep(g.(touchAsScript := false), w, step);
    RunOne(RedisGuards(g), EraseWorld(w), step);
    assert AtomicStep(step) == [step];
  }

  lemma AddStepIff(g: Guards, w: World, sid: Sid, t: nat, at: Time)
    requires Allowed(g.(touchAsScript := false), w, On(sid, TouchAdd(t, at))) && !g.atomicTouches
    ensures CanRun(RedisGuards(g), EraseWorld(w), AtomicStep(On(sid, TouchAdd(t, at))))
    ensures SameStep(g, w, On(sid, TouchAdd(t, at))) <==>
            Allowed(g.(touchAsScript := true), w, On(sid, TouchAdd(t, at)))
  {
    AddStep(RedisGuards(g), w, sid, t, at);
    RunOne(RedisGuards(g), EraseWorld(w), On(sid, Touch(at)));
  }

  lemma FirstStepSame(g: Guards, w: World, step: Step)
    requires g.touchAsScript && !g.atomicTouches && Allowed(g, w, step)
    ensures SameStep(g, w, step)
  {
    assert g.(touchAsScript := true) == g;
    AtomicStepIff(g, w, step);
  }

  // Refinement: the run without EXISTS steps and with atomic touches is a run of the Redis system
  // under the same guards, and it goes through the same records, indexes, cluster and processes.
  lemma {:induction false} ValkeyRefinesRedis(g: Guards, w: World, steps: seq<Step>)
    requires g.touchAsScript && !g.atomicTouches && CanRun(g, w, steps)
    ensures CanRun(RedisGuards(g), EraseWorld(w), Atomic(steps))
    ensures Run(RedisGuards(g), EraseWorld(w), Atomic(steps)) == EraseWorld(Run(g, w, steps))
    decreases steps
  {
    if steps != [] {
      FirstStepSame(g, w, steps[0]);
      ValkeyRefinesRedis(g, Apply(w, steps[0]), steps[1..]);
      RunConcat(RedisGuards(g), EraseWorld(w), AtomicStep(steps[0]), Atomic(steps[1..]));
    }
  }

  const ScriptGuards := Unguarded.(touchAsScript := true)

  // After n steps Redis, running the same with atomic touches, is in the same state.
  ghost predicate FollowsAt(w: World, steps: seq<Step>, n: nat)
    requires n <= |steps|
  {
    && CanRun(Unguarded, w, steps[..n])
    && CanRun(RedisGuards(Unguarded), EraseWorld(w), Atomic(steps[..n]))
    && Run(RedisGuards(Unguarded), EraseWorld(w), Atomic(steps[..n])) == EraseWorld(Run(Unguarded, w, steps[..n]))
  }

  // The condition is exact: Redis follows a Valkey run state by state if and only if every ZADD of a touch
  // comes while the record is there or the entry has that very score.
  lemma {:induction false} RedisFollowsIff(w: World, steps: seq<Step>)
    requires CanRun(Unguarded, w, steps)
    ensures CanRun(ScriptGuards, w, steps) <==> forall n :: 0 <= n <= |steps| ==> FollowsAt(w, steps, n)
  {
    if CanRun(ScriptGuards, w, steps) {
      forall n | 0 <= n <= |steps| ensures FollowsAt(w, steps, n) { FollowsGuarded(w, steps, n); }
    }
    if forall n :: 0 <= n <= |steps| ==> FollowsAt(w, steps, n) { GuardedIfFollowed(w, steps); }
  }

  lemma {:induction false} FollowsGuarded(w: World, steps: seq<Step>, n: nat)
    requires CanRun(ScriptGuards, w, steps) && n <= |steps|
    ensures FollowsAt(w, steps, n)
  {
    assert steps[..n] + steps[n..] == steps;
    RunSplit(ScriptGuards, w, steps[..n], steps[n..]);
    RunUnguarded(ScriptGuards, w, steps[..n]);
    ValkeyRefinesRedis(ScriptGuards, w, steps[..n]);
    assert RedisGuards(ScriptGuards) == RedisGuards(Unguarded);
  }

  lemma {:induction false} GuardedIfFollowed(w: World, steps: seq<Step>)
    requires CanRun(Unguarded, w, steps) && forall n :: 0 <= n <= |steps| ==> FollowsAt(w, steps, n)
    ensures CanRun(ScriptGuards, w, steps)
    decreases steps
  {
    if steps != [] {
      FirstFollows(w, steps);
      var w1, rest := Apply(w, steps[0]), steps[1..];
      forall n | 0 <= n <= |rest| ensures FollowsAt(w1, rest, n) {
        assert FollowsAt(w, steps, n + 1);
        RestFollows(w, steps, n);
      }
      GuardedIfFollowed(w1, rest);
    }
  }

  lemma {:induction false} FirstFollows(w: World, steps: seq<Step>)
    requires CanRun(Unguarded, w, steps) && steps != [] && FollowsAt(w, steps, 1)
    ensures Allowed(ScriptGuards, w, steps[0])
    ensures Run(RedisGuards(Unguarded), EraseWorld(w), AtomicStep(steps[0])) == EraseWorld(Apply(w, steps[0]))
  {
    var one := steps[..1];
    assert one[0] == steps[0] && one[1..] == [];
    assert Atomic(one) == AtomicStep(steps[0]) + Atomic(one[1..]) == AtomicStep(steps[0]);
    assert Run(Unguarded, w, one) == Run(Unguarded, Apply(w, steps[0]), one[1..]) == Apply(w, steps[0]);
    AtomicStepIff(Unguarded, w, steps[0]);
  }

  lemma {:induction false} RestFollows(w: World, steps: seq<Step>, n: nat)
    requires CanRun(Unguarded, w, steps) && n < |steps| && FollowsAt(w, steps, n + 1)
    requires CanRun(RedisGuards(Unguarded), EraseWorld(w), AtomicStep(steps[0]))
    requires Run(RedisGuards(Unguarded), EraseWorld(w), AtomicStep(steps[0])) == EraseWorld(Apply(w, steps[0]))
    ensures FollowsAt(Apply(w, steps[0]), steps[1..], n)
  {
    var front := steps[..n + 1];
    assert front[0] == steps[0] && front[1..] == steps[1..][..n];
    RunSplit(RedisGuards(Unguarded), EraseWorld(w), AtomicStep(steps[0]), Atomic(front[1..]));
  }

  // Hence Valkey's indexes agree with the records as well, in the runs that meet the condition.
  lemma {:induction false} ValkeyIndexesAgree(g: Guards, steps: seq<Step>, s: Sid)
    requires g.touchAsScript && !g.atomicTouches && g.removeAfterStore
    requires CanRun(g, Init, steps) && s in Run(g, Init, steps).sessions
    ensures var m := Run(g, Init, steps).sessions[s];
            && (m.expiry.Some? && m.record.None? ==> DeletingExpiry(m))
            && (m.activity.Some? && m.record.None? ==> DeletingActivity(m))
  {
    assert EraseWorld(Init) == Init;
    ValkeyRefinesRedis(g, Init, steps);
    IndexesAgree(RedisGuards(g), Atomic(steps), s);
  }

  // ---- No DEL between EXISTS and ZADD is enough ----

  predicate Deletes(step: Step, s: Sid) { step.On? && step.sid == s && (step.act.DropKey? || step.act.DeleteKey?) }

  predicate Asks(step: Step, s: Sid, t: nat) { step == On(s, TouchExists(t)) }

  predicate Adds(step: Step, s: Sid, t: nat) { step.On? && step.sid == s && step.act.TouchAdd? && step.act.t == t }

  // Between the EXISTS of a touch and its ZADD there is no DEL of the session.
  ghost predicate NoDeleteInTouch(steps: seq<Step>) {
    forall i, j, s, t :: Touches(steps, i, j, s, t) ==> forall k :: i < k < j ==> !Deletes(steps[k], s)
  }

  // The touch t of session s asks at i and adds at j.
  ghost predicate Touches(steps: seq<Step>, i: int, j: int, s: Sid, t: nat) {
    && 0 <= i < j < |steps| && Asks(steps[i], s, t) && Adds(steps[j], s, t)
    && (forall k :: i < k < j ==> !Adds(steps[k], s, t))
  }

  // A record that is there stays exactly until the first DEL.
  lemma {:induction false} RecordKeptIffNoDelete(g: Guards, w: World, steps: seq<Step>, s: Sid)
    requires CanRun(g, w, steps) && s in w.sessions && w.sessions[s].record.Some? && !w.sessions[s].pc.Planned?
    ensures s in Run(g, w, steps).sessions
    ensures Run(g, w, steps).sessions[s].record.Some? <==> forall k :: 0 <= k < |steps| ==> !Deletes(steps[k], s)
    decreases steps
  {
    StartedStays(g, w, steps, s);
    if steps != [] {
      var w1, rest := Apply(w, steps[0]), steps[1..];
      if Deletes(steps[0], s) {
        NoResurrection(g, w1, rest, s);
      } else {
        RecordKeptIffNoDelete(g, w1, rest, s);
        assert forall k :: 0 <= k < |rest| ==> rest[k] == steps[k + 1];
        assert forall k :: 0 < k < |steps| ==> steps[k] == rest[k - 1];
      }
    }
  }

  // After n steps the session's record is there.
  ghost predicate FoundAfter(steps: seq<Step>, n: nat, s: Sid)
    requires n <= |steps|
  {
    && CanRun(Unguarded, Init, steps[..n])
    && s in Run(Unguarded, Init, steps[..n]).sessions
    && Run(Unguarded, Init, steps[..n]).sessions[s].record.Some?
    && !Run(Unguarded, Init, steps[..n]).sessions[s].pc.Planned?
  }

  predicate Pending(w: World, s: Sid, t: nat) { s in w.sessions && t in w.sessions[s].touches }

  // A pending touch has an EXISTS behind it that found the record, and no ZADD since.
  ghost predicate AskedAt(steps: seq<Step>, n: nat, s: Sid, t: nat, i: nat) {
    && i < n <= |steps| && Asks(steps[i], s, t) && FoundAfter(steps, i + 1, s)
    && (forall k :: i < k < n ==> !Adds(steps[k], s, t))
  }

  lemma {:induction false} PendingWasAsked(steps: seq<Step>, n: nat, s: Sid, t: nat) returns (i: nat)
    requires CanRun(Unguarded, Init, steps) && n <= |steps| && CanRun(Unguarded, Init, steps[..n])
    requires Pending(Run(Unguarded, Init, steps[..n]), s, t)
    ensures AskedAt(steps, n, s, t, i)
    decreases n
  {
    RunSnoc(Unguarded, Init, steps, n - 1);
    var w := Run(Unguarded, Init, steps[..n - 1]);
    if Pending(w, s, t) {
      i := PendingWasAsked(steps, n - 1, s, t);
      StillPending(w, steps[n - 1], s, t);
    } else {
      i := n - 1;
      if s in w.sessions { InOrderAlong(steps[..i], s); }
      NewlyAsked(w, steps[i], s, t);
    }
  }

  lemma StillPending(w: World, step: Step, s: Sid, t: nat)
    requires Enabled(w, step) && Pending(w, s, t) && Pending(Apply(w, step), s, t)
    ensures !Adds(step, s, t)
  {
  }

  lemma {:induction false} NewlyAsked(w: World, step: Step, s: Sid, t: nat)
    requires Enabled(w, step) && Pending(Apply(w, step), s, t) && !Pending(w, s, t)
    requires s in w.sessions ==> InOrder(w.sessions[s])
    ensures Asks(step, s, t)
    ensures Apply(w, step).sessions[s].record.Some? && !Apply(w, step).sessions[s].pc.Planned?
  {
    if step.On? && step.sid == s { AskingAct(w.sessions[s], step.act, t); }
  }

  lemma AskingAct(m: Session, a: Act, t: nat)
    requires CanAct(m, a) && InOrder(m) && t !in m.touches && t in Next(m, a).touches
    ensures a == TouchExists(t) && Next(m, a).record.Some? && !Next(m, a).pc.Planned?
  {
  }

  lemma {:induction false} InOrderAlong(steps: seq<Step>, s: Sid)
    requires CanRun(Unguarded, Init, steps) && s in Run(Unguarded, Init, steps).sessions
    ensures InOrder(Run(Unguarded, Init, steps).sessions[s])
  {
    WorldInvRun(Unguarded, Init, steps);
  }

  lemma {:induction false} NoDeleteInTouchSuffices(steps: seq<Step>)
    requires CanRun(Unguarded, Init, steps) && NoDeleteInTouch(steps)
    ensures CanRun(ScriptGuards, Init, steps)
  {
    forall n | 0 <= n < |steps| ensures AllowedAt(ScriptGuards, Init, steps, n) {
      RunSnoc(Unguarded, Init, steps, n);
      if steps[n].On? && steps[n].act.TouchAdd? { AddFindsRecord(steps, n); }
    }
    AllowedThroughout(ScriptGuards, Init, steps);
  }

  lemma {:induction false} AddFindsRecord(steps: seq<Step>, n: nat)
    requires CanRun(Unguarded, Init, steps) && NoDeleteInTouch(steps)
    requires n < |steps| && steps[n].On? && steps[n].act.TouchAdd?
    requires CanRun(Unguarded, Init, steps[..n])
    requires Pending(Run(Unguarded, Init, steps[..n]), steps[n].sid, steps[n].act.t)
    ensures Run(Unguarded, Init, steps[..n]).sessions[steps[n].sid].record.Some?
  {
    var s, t := steps[n].sid, steps[n].act.t;
    var i := PendingWasAsked(steps, n, s, t);
    assert Touches(steps, i, n, s, t);
    FoundStays(steps, i + 1, n, s);
  }

  lemma {:induction false} FoundStays(steps: seq<Step>, i: nat, n: nat, s: Sid)
    requires i <= n <= |steps| && CanRun(Unguarded, Init, steps[..n]) && FoundAfter(steps, i, s)
    requires forall k :: i <= k < n ==> !Deletes(steps[k], s)
    ensures s in Run(Unguarded, Init, steps[..n]).sessions
    ensures Run(Unguarded, Init, steps[..n]).sessions[s].record.Some?
  {
    var rest := steps[i..n];
    assert steps[..i] + rest == steps[..n];
    RunSplit(Unguarded, Init, steps[..i], rest);
    forall k | 0 <= k < |rest| ensures !Deletes(rest[k], s) { assert rest[k] == steps[i + k]; }
    RecordKeptIffNoDelete(Unguarded, Run(Unguarded, Init, steps[..i]), rest, s);
  }

  // ---- The race ----

  // An entry without a record that no process will ever drop.
  predicate Dangling(m: Session) {
    && m.record.None? && m.activity.Some?
    && (m.pc.Failed? || m.pc.Committed?)
    && forall r :: r in m.removers ==> m.removers[r].pc.Finished?
  }

  lemma DanglingAct(m: Session, a: Act)
    requires Dangling(m) && CanAct(m, a)
    ensures Dangling(Next(m, a))
  {
  }

  lemma {:induction false} DanglingForever(g: Guards, w: World, steps: seq<Step>, s: Sid)
    requires CanRun(g, w, steps) && s in w.sessions && Dangling(w.sessions[s])
    ensures s in Run(g, w, steps).sessions && Dangling(Run(g, w, steps).sessions[s])
    decreases steps
  {
    if steps != [] {
      if steps[0].On? && steps[0].sid == s { DanglingAct(w.sessions[s], steps[0].act); }
      DanglingForever(g, Apply(w, steps[0]), steps[1..], s);
    }
  }

  lemma ReachesTouching(plan: Plan, now: Time, created: SandboxObject) returns (m: Session)
    requires plan.WellBuilt() && ReadBack(plan, created)
    ensures Reaches(plan, now, m, true)
    ensures m.plan == plan && m.pc.Committed? && m.record.Some? && m.removers == map[] && m.touches == {0}
  {
    m := ReachesStored(plan, now);
    ReachesNext(plan, now, m, false, CreateOk);
    m := Next(m, CreateOk);
    ReachesNext(plan, now, m, true, Commit(created, ""));
    m := Next(m, Commit(created, ""));
    ReachesNext(plan, now, m, true, TouchExists(0));
    m := Next(m, TouchExists(0));
  }

  // A delete that runs between EXISTS and ZADD leaves the last-activity entry behind for good.
  lemma ValkeyTouchRace(plan: Plan, now: Time, created: SandboxObject) returns (m: Session)
    requires plan.WellBuilt() && ReadBack(plan, created)
    ensures Reaches(plan, now, m, false) && Dangling(m)
    ensures m.plan == plan && m.expiry.None? && m.activity == Some(Unix(now))
  {
    m := ReachesTouching(plan, now, created);
    ReachesNext(plan, now, m, true, Select(0));
    m := Next(m, Select(0));
    m := ReachesFinished(plan, now, m, true, 0);
    ReachesNext(plan, now, m, false, TouchAdd(0, now));
    m := Next(m, TouchAdd(0, now));
  }
}
