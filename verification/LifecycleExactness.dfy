/** The guards of the safety theorems are exact: a run keeps the property in all its states exactly
    if the guard permits all its steps. And what is enough to meet them. */
module LifecycleExactness {
  import opened Sandboxes
  import opened Lifecycle
  import opened LifecycleSafety

  // ---- Properties of all states of a run ----

  // A property of one session, given whether its object is in the cluster.
  type Property = (Session, bool) -> bool

  ghost predicate Holds(p: Property, w: World) {
    forall s :: s in w.sessions ==> p(w.sessions[s], Live(w, w.sessions[s]))
  }

  ghost predicate Always(p: Property, w: World, steps: seq<Step>)
    requires CanRun(Unguarded, w, steps)
    decreases steps
  {
    Holds(p, w) && (steps != [] ==> Always(p, Apply(w, steps[0]), steps[1..]))
  }

  // In other words, at the end of every prefix of the run.
  lemma {:induction false} AlwaysIsEveryPrefix(p: Property, w: World, steps: seq<Step>)
    requires CanRun(Unguarded, w, steps)
    ensures forall n :: 0 <= n <= |steps| ==> CanRun(Unguarded, w, steps[..n])
    ensures Always(p, w, steps) <==> forall n :: 0 <= n <= |steps| ==> HoldsAfter(p, w, steps, n)
    decreases steps
  {
    forall n | 0 <= n <= |steps| ensures CanRun(Unguarded, w, steps[..n]) { PrefixRuns(w, steps, n); }
    assert HoldsAfter(p, w, steps, 0) <==> Holds(p, w);
    if steps != [] {
      var w1, rest := Apply(w, steps[0]), steps[1..];
      AlwaysIsEveryPrefix(p, w1, rest);
      forall n | 0 <= n <= |rest| ensures HoldsAfter(p, w1, rest, n) <==> HoldsAfter(p, w, steps, n + 1) {
        PrefixRuns(w, steps, n + 1);
        assert steps[..n + 1][1..] == rest[..n];
      }
      forall n | 0 < n <= |steps| ensures HoldsAfter(p, w1, rest, n - 1) <==> HoldsAfter(p, w, steps, n) {
        assert HoldsAfter(p, w1, rest, n - 1) <==> HoldsAfter(p, w, steps, (n - 1) + 1);
      }
    }
  }

  ghost predicate HoldsAfter(p: Property, w: World, steps: seq<Step>, n: nat)
    requires n <= |steps|
  {
    CanRun(Unguarded, w, steps[..n]) && Holds(p, Run(Unguarded, w, steps[..n]))
  }

  lemma {:induction false} PrefixRuns(w: World, steps: seq<Step>, n: nat)
    requires CanRun(Unguarded, w, steps) && n <= |steps|
    ensures CanRun(Unguarded, w, steps[..n])
  {
    assert steps[..n] + steps[n..] == steps;
    RunSplit(Unguarded, w, steps[..n], steps[n..]);
  }

  // A guard is exact for a property that new sessions have and that does not need the object: it
  // permits exactly the acts that keep the property.
  ghost predicate Exact(g: Guards, p: Property) {
    && (forall plan, now :: p(NewSession(plan, now), false))
    && (forall m :: p(m, true) ==> p(m, false))
    && (forall m, live, a {:trigger Permitted(g, m, live, a)} ::
          Inv(Unguarded, m, live) && p(m, live) && CanAct(m, a) ==>
            (Permitted(g, m, live, a) <==> p(Next(m, a), LiveAfter(m, live, a))))
  }

  lemma {:induction false} ExactStep(g: Guards, p: Property, w: World, step: Step)
    requires Exact(g, p) && WorldInv(Unguarded, w) && Holds(p, w) && Allowed(Unguarded, w, step)
    ensures Allowed(g, w, step) <==> Holds(p, Apply(w, step))
  {
    var w' := Apply(w, step);
    match step
    case Begin(sid, plan, now) =>
      assert w'.sessions[sid] == NewSession(plan, now) && !Live(w', w'.sessions[sid]);
    case Vanish(ref) =>
      forall s | s in w'.sessions ensures p(w'.sessions[s], Live(w', w'.sessions[s])) {
        assert p(w.sessions[s], Live(w, w.sessions[s]));
      }
    case On(sid, a) =>
      ExactOn(g, p, w, sid, a);
  }

  lemma {:induction false} ExactOn(g: Guards, p: Property, w: World, sid: Sid, a: Act)
    requires Exact(g, p) && WorldInv(Unguarded, w) && Holds(p, w) && Allowed(Unguarded, w, On(sid, a))
    ensures Allowed(g, w, On(sid, a)) <==> Holds(p, Apply(w, On(sid, a)))
  {
    var m, w' := w.sessions[sid], Apply(w, On(sid, a));
    ClusterLocal(w.cluster, m, a);
    PlansKept(w, On(sid, a));
    assert Live(w', w'.sessions[sid]) == LiveAfter(m, Live(w, m), a);
    assert Permitted(g, m, Live(w, m), a) <==> p(w'.sessions[sid], Live(w', w'.sessions[sid]));
    forall s | s in w'.sessions && s != sid ensures p(w'.sessions[s], Live(w', w'.sessions[s])) {
      OthersKept(w, sid, a, s);
      assert p(w.sessions[s], Live(w, w.sessions[s]));
    }
  }

  lemma {:induction false} ExactRun(g: Guards, p: Property, w: World, steps: seq<Step>)
    requires Exact(g, p) && WorldInv(Unguarded, w) && Holds(p, w) && CanRun(Unguarded, w, steps)
    ensures CanRun(g, w, steps) <==> Always(p, w, steps)
    decreases steps
  {
    if steps != [] {
      ExactStep(g, p, w, steps[0]);
      WorldInvStep(Unguarded, w, steps[0]);
      if Holds(p, Apply(w, steps[0])) {
        ExactRun(g, p, Apply(w, steps[0]), steps[1..]);
      }
    }
  }

  // ---- The three exact conditions ----

  // Some delete command that can come next leaves the object without record and without rollback.
  ghost predicate Doomed(m: Session, live: bool) {
    || (CanAct(m, DropKey) && !Accounted(Next(m, DropKey), live))
    || (exists r :: CanAct(m, DeleteKey(r)) && !Accounted(Next(m, DeleteKey(r)), live))
  }

  // No orphan, and no delete command that can come next makes one.
  ghost predicate OrphanSafe(m: Session, live: bool) { Accounted(m, live) && !Doomed(m, live) }

  const OrphanGuards := Unguarded.(rollbackDeletes := true, landsInTime := true, noStaleCommit := true)

  // Doomed, spelled out.
  lemma DoomedIff(m: Session, live: bool)
    requires InOrder(m) && Accounted(m, live)
    ensures Doomed(m, live) <==> live && (m.pc.ObjectDropped? || (AboutToDelete(m) && !Armed(m.pc)))
  {
    if live && AboutToDelete(m) && !Armed(m.pc) {
      var r :| r in m.removers && m.removers[r].pc.ObjectGone?;
      assert CanAct(m, DeleteKey(r)) && !Accounted(Next(m, DeleteKey(r)), live);
    }
  }

  lemma OrphanGuardsExact()
    ensures Exact(OrphanGuards, OrphanSafe)
  {
    forall m, live, a | Inv(Unguarded, m, live) && OrphanSafe(m, live) && CanAct(m, a)
      ensures Permitted(OrphanGuards, m, live, a) <==> OrphanSafe(Next(m, a), LiveAfter(m, live, a))
    {
      OrphanSafeIffPermitted(m, live, a);
    }
    forall m | OrphanSafe(m, true) ensures OrphanSafe(m, false) {}
  }

  lemma OrphanSafeIffPermitted(m: Session, live: bool, a: Act)
    requires InOrder(m) && OrphanSafe(m, live) && CanAct(m, a)
    ensures Permitted(OrphanGuards, m, live, a) <==> OrphanSafe(Next(m, a), LiveAfter(m, live, a))
  {
    var m', live' := Next(m, a), LiveAfter(m, live, a);
    DoomedIff(m, live);
    InOrderAct(m, a);
    if Accounted(m', live') { DoomedIff(m', live'); }
  }

  // Orphans: a run meets the guards (a rollback deletes the object if there is one, no create takes effect
  // later than that, and no successful commit in a Hazard) exactly if none of its states
  // has an orphan or is one delete command from one.
  lemma {:induction false} OrphanSafeIff(steps: seq<Step>)
    requires CanRun(Unguarded, Init, steps)
    ensures CanRun(OrphanGuards, Init, steps) <==> Always(OrphanSafe, Init, steps)
  {
    OrphanGuardsExact();
    ExactRun(OrphanGuards, OrphanSafe, Init, steps);
  }

  ghost predicate EndsInOrphan(steps: seq<Step>) {
    CanRun(Unguarded, Init, steps) && !Holds(Accounted, Run(Unguarded, Init, steps))
  }

  // So every run that breaks the guards makes an orphan, or does so if it is cut somewhere and one delete
  // command that is due is added.
  lemma {:induction false} BrokenGuardOrphans(steps: seq<Step>)
    requires CanRun(Unguarded, Init, steps) && !CanRun(OrphanGuards, Init, steps)
    ensures exists n, more :: 0 <= n <= |steps| && |more| <= 1 && EndsInOrphan(steps[..n] + more)
  {
    OrphanSafeIff(steps);
    AlwaysIsEveryPrefix(OrphanSafe, Init, steps);
    var n :| 0 <= n <= |steps| && !HoldsAfter(OrphanSafe, Init, steps, n);
    var w := Run(Unguarded, Init, steps[..n]);
    var s :| s in w.sessions && !OrphanSafe(w.sessions[s], Live(w, w.sessions[s]));
    var more := DueDelete(w, s);
    OneMoreOrphans(steps[..n], s, more);
  }

  // The delete commands that are due, none if the session is an orphan already.
  lemma DueDelete(w: World, s: Sid) returns (more: seq<Step>)
    requires s in w.sessions && !OrphanSafe(w.sessions[s], Live(w, w.sessions[s]))
    ensures |more| <= 1 && (more == [] ==> !Accounted(w.sessions[s], Live(w, w.sessions[s])))
    ensures more != [] ==> Orphaning(w, s, more[0])
  {
    var m, live := w.sessions[s], Live(w, w.sessions[s]);
    if !Accounted(m, live) {
      more := [];
    } else if CanAct(m, DropKey) && !Accounted(Next(m, DropKey), live) {
      more := [On(s, DropKey)];
    } else {
      var r :| CanAct(m, DeleteKey(r)) && !Accounted(Next(m, DeleteKey(r)), live);
      more := [On(s, DeleteKey(r))];
    }
  }

  predicate Orphaning(w: World, s: Sid, step: Step) {
    && s in w.sessions && step.On? && step.sid == s && (step.act.DropKey? || step.act.DeleteKey?)
    && CanAct(w.sessions[s], step.act)
    && !Accounted(Next(w.sessions[s], step.act), Live(w, w.sessions[s]))
  }

  lemma {:induction false} OneMoreOrphans(steps: seq<Step>, s: Sid, more: seq<Step>)
    requires CanRun(Unguarded, Init, steps) && s in Run(Unguarded, Init, steps).sessions && |more| <= 1
    requires var w := Run(Unguarded, Init, steps);
             if more == [] then !Accounted(w.sessions[s], Live(w, w.sessions[s])) else Orphaning(w, s, more[0])
    ensures EndsInOrphan(steps + more)
  {
    var w := Run(Unguarded, Init, steps);
    if more == [] {
      assert steps + more == steps;
    } else {
      var w' := Apply(w, more[0]);
      assert more == [more[0]];
      RunOne(Unguarded, w, more[0]);
      RunConcat(Unguarded, Init, steps, more);
      PlanKept(w.sessions[s], more[0].act);
      assert !Accounted(w'.sessions[s], Live(w', w'.sessions[s]));
    }
  }

  // The object is there, and its record is missing or the next command of some process drops it.
  predicate Outlived(m: Session, live: bool) {
    live && (m.record.None? || AboutToDelete(m) || m.pc.ObjectDropped?)
  }

  ghost predicate RecordSafe(m: Session, live: bool) { !Outlived(m, live) }

  const OutliveGuards := Unguarded.(rollbackDeletes := true, createWithRecord := true)

  lemma OutliveGuardsExact()
    ensures Exact(OutliveGuards, RecordSafe)
  {
    forall m, live, a | Inv(Unguarded, m, live) && RecordSafe(m, live) && CanAct(m, a)
      ensures Permitted(OutliveGuards, m, live, a) <==> RecordSafe(Next(m, a), LiveAfter(m, live, a))
    {
      RecordSafeIffPermitted(m, live, a);
    }
  }

  lemma RecordSafeIffPermitted(m: Session, live: bool, a: Act)
    requires InOrder(m) && RecordSafe(m, live) && CanAct(m, a)
    ensures Permitted(OutliveGuards, m, live, a) <==> RecordSafe(Next(m, a), LiveAfter(m, live, a))
  {
  }

  // Records that outlive their objects: a run meets the guards exactly if in none of its states an object
  // has lost its record or is about to.
  lemma {:induction false} RecordSafeIff(steps: seq<Step>)
    requires CanRun(Unguarded, Init, steps)
    ensures CanRun(OutliveGuards, Init, steps) <==> Always(RecordSafe, Init, steps)
  {
    OutliveGuardsExact();
    ExactRun(OutliveGuards, RecordSafe, Init, steps);
  }

  ghost predicate EntriesAgree(m: Session, live: bool) { ExpiryAgrees(m) && ActivityAgrees(m) }

  lemma IndexGuardsExact()
    ensures Exact(IndexGuards, EntriesAgree)
  {
    forall m, live, a | Inv(Unguarded, m, live) && EntriesAgree(m, live) && CanAct(m, a)
      ensures Permitted(IndexGuards, m, live, a) <==> EntriesAgree(Next(m, a), LiveAfter(m, live, a))
    {
      AgreesIffPermitted(m, a);
    }
  }

  // Sharp index agreement: a run keeps it in all its states exactly if no ZADD, of a creator or of a
  // touch, comes for a session whose record is gone and whose deletes have passed that index.
  lemma {:induction false} EntriesAgreeIff(steps: seq<Step>)
    requires CanRun(Unguarded, Init, steps)
    ensures CanRun(IndexGuards, Init, steps) <==> Always(EntriesAgree, Init, steps)
  {
    IndexGuardsExact();
    ExactRun(IndexGuards, EntriesAgree, Init, steps);
  }

  // ---- What is enough to meet them ----

  // Whatever g permits in a state its runs can reach, g' permits, too.
  ghost predicate Stricter(g: Guards, g': Guards) {
    forall m, live, a {:trigger Permitted(g', m, live, a)} ::
      Inv(g, m, live) && CanAct(m, a) && Permitted(g, m, live, a) ==> Permitted(g', m, live, a)
  }

  lemma {:induction false} StricterRun(g: Guards, g': Guards, w: World, steps: seq<Step>)
    requires Stricter(g, g') && WorldInv(g, w) && CanRun(g, w, steps)
    ensures CanRun(g', w, steps) && Run(g', w, steps) == Run(g, w, steps)
    decreases steps
  {
    if steps != [] {
      if steps[0].On? {
        var m := w.sessions[steps[0].sid];
        assert Inv(g, m, Live(w, m));
        assert Permitted(g', m, Live(w, m), steps[0].act);
      }
      WorldInvStep(g, w, steps[0]);
      StricterRun(g, g', Apply(w, steps[0]), steps[1..]);
    }
  }

  // Removers that read a record only once the create is decided delete only after that; then objects come
  // to be with their record safely there; then no create is too late and no commit hazardous.
  lemma LateSelectionSuffices(g: Guards)
    requires g.selectAfterCreate
    ensures Stricter(g, g.(removeAfterCreate := true))
  {
  }

  lemma LateDeletionSuffices(g: Guards)
    requires g.removeAfterCreate && g.landsInTime
    ensures Stricter(g, g.(createWithRecord := true))
  {
  }

  lemma SafeCreationSuffices(g: Guards)
    requires g.rollbackDeletes && g.createWithRecord
    ensures Stricter(g, g.(landsInTime := true, noStaleCommit := true))
  {
  }

  // Removers that read a record only after its StoreSandbox has returned, and touches that do what the
  // script does, keep the indexes in sharp agreement.
  lemma LateRemoversSuffice(g: Guards)
    requires g.removeAfterStore && TouchesAsScript(g)
    ensures Stricter(g, g.(addsIndexed := true))
  {
  }

  // Together: if rollbacks delete what there is, creates do not take effect later than that, and no remover
  // reads a record before the create is decided, every object in the cluster has a record that names it.
  lemma {:induction false} LateSelectionLeavesNoOrphan(g: Guards, steps: seq<Step>, ref: Ref)
    requires g.rollbackDeletes && g.landsInTime && g.selectAfterCreate
    requires CanRun(g, Init, steps) && ref in Run(g, Init, steps).cluster
    ensures var w := Run(g, Init, steps);
            exists s :: s in w.sessions && w.sessions[s].record.Some? && w.sessions[s].record.value.Target() == ref
  {
    var g1 := g.(removeAfterCreate := true);
    LateSelectionSuffices(g);
    StricterRun(g, g1, Init, steps);
    LateDeletionSuffices(g1);
    StricterRun(g1, g1.(createWithRecord := true), Init, steps);
    RecordOutlivesObject(g1.(createWithRecord := true), steps, ref);
  }
}
