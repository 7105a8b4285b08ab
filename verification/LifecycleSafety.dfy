/** Safety of whole runs: indexes agree with records, no cluster object is left without a record,
    and deleted sessions stay deleted. Each invariant speaks of one session and of whether its
    object is in the cluster. */
module LifecycleSafety {
  import opened Sandboxes
  import opened Lifecycle

  // ---- Invariants of one session ----

  // A record, stored or in a remover's hand, speaks for the session's plan.
  predicate Speaks(m: Session, r: Info) { SpeaksFor(r, m.plan, Unix(m.placeholder.expiresAt)) }

  ghost predicate Fits(m: Session) {
    && m.plan.WellBuilt()
    && (exists now :: m.placeholder == Placeholder(m.plan, now))
    && (m.record.Some? ==> Speaks(m, m.record.value))
    && (forall r :: r in m.removers ==> Speaks(m, m.removers[r].record))
  }

  // A record is the placeholder, or what some sandbox that was found ready was turned into. Until the
  // commit is tried it is the placeholder, and after a successful one it no longer is.
  ghost predicate IsFinal(m: Session, r: Info) {
    exists created, podIP :: ReadBack(m.plan, created) && r == Final(m, created, podIP)
  }

  predicate BeforeCommit(pc: CreatorPc) { BeforeCreated(pc) || pc.Created? }

  ghost predicate Genuine(m: Session) {
    m.record.Some? ==>
      && (m.record.value == m.placeholder || IsFinal(m, m.record.value))
      && (BeforeCommit(m.pc) ==> m.record.value == m.placeholder)
      && (m.pc.Committed? ==> IsFinal(m, m.record.value))
  }

  // Before the SETNX there is nothing; whoever has passed its DEL finds no record behind it.
  predicate InOrder(m: Session) {
    && (m.pc.Planned? ==> m.record.None? && m.expiry.None? && m.activity.None?)
    && (m.pc.Planned? ==> m.removers == map[] && m.touches == {})
    && (m.pc.KeyDropped? || m.pc.ExpiryDropped? || m.pc.Failed? ==> m.record.None?)
    && (m.late ==> !BeforeCommit(m.pc) && !m.pc.Committed?)
    && (forall r :: r in m.removers && Deleted(m.removers[r].pc) ==> m.record.None?)
  }

  // As long as there is a record, what its creator has added to the indexes stays there.
  predicate RecordIndexed(m: Session) {
    && (m.record.Some? && !m.pc.KeySet? ==> m.expiry == Some(Unix(m.placeholder.expiresAt)))
    && (m.record.Some? && !BeforeStored(m.pc) ==> m.activity.Some?)
  }

  predicate InFlight(pc: CreatorPc) { !pc.Planned? && !pc.Failed? && !pc.Committed? }

  // An entry without a record is about to be dropped by a delete, or its creator is still at work:
  // it will find the record gone and roll back.
  predicate ExpiryAccounted(m: Session) {
    m.expiry.Some? && m.record.None? ==> DeletingExpiry(m) || (InFlight(m.pc) && !m.pc.ExpiryDropped?)
  }

  predicate ActivityAccounted(m: Session) {
    m.activity.Some? && m.record.None? ==> DeletingActivity(m) || InFlight(m.pc)
  }

  // The sharper form: an entry without a record is only there while a delete is about to drop it.
  predicate ExpiryAgrees(m: Session) { m.expiry.Some? && m.record.None? ==> DeletingExpiry(m) }

  predicate ActivityAgrees(m: Session) { m.activity.Some? && m.record.None? ==> DeletingActivity(m) }

  predicate StoredFirst(m: Session) {
    BeforeStored(m.pc) && !m.pc.Planned? ==> m.record.Some? && m.removers == map[]
  }

  // The object has a record, or its creator's rollback is still armed.
  predicate Accounted(m: Session, live: bool) { live ==> m.record.Some? || Armed(m.pc) }

  predicate NoOrphan(m: Session, live: bool) {
    && Accounted(m, live)
    && (live ==> m.pc.Committed? || Armed(m.pc))
    && (m.pc.Committed? ==> !Hazard(m, live))
  }

  // The record outlives the object: even if every process stops here, the collector can find it.
  predicate RecordOutlives(m: Session, live: bool) {
    live ==> m.record.Some? && !AboutToDelete(m) && (m.pc.Committed? || Armed(m.pc))
  }

  predicate SelectedLate(m: Session) {
    Undecided(m) ==> m.removers == map[] && (!m.pc.Planned? ==> m.record.Some?)
  }

  predicate RemovedLate(m: Session) {
    Undecided(m) ==>
      && (!m.pc.Planned? ==> m.record.Some?)
      && forall r :: r in m.removers ==> m.removers[r].pc.Selected? || m.removers[r].pc.Finished?
  }

  // The guards against orphans: rollbacks delete what there is, creates take effect before that, and no commit
  // succeeds in a Hazard.
  predicate NoOrphanGuards(g: Guards) { g.rollbackDeletes && g.landsInTime && g.noStaleCommit }

  predicate TouchesAsScript(g: Guards) { g.atomicTouches || g.touchAsScript }

  ghost predicate Inv(g: Guards, m: Session, live: bool) {
    && Fits(m)
    && Genuine(m)
    && InOrder(m)
    && RecordIndexed(m)
    && ExpiryAccounted(m)
    && (TouchesAsScript(g) ==> ActivityAccounted(m))
    && (g.removeAfterStore ==> StoredFirst(m))
    && (g.removeAfterStore || g.addsIndexed ==> ExpiryAgrees(m))
    && ((g.removeAfterStore && TouchesAsScript(g)) || g.addsIndexed ==> ActivityAgrees(m))
    && (NoOrphanGuards(g) ==> NoOrphan(m, live))
    && (g.rollbackDeletes && g.createWithRecord ==> RecordOutlives(m, live))
    && (g.selectAfterCreate ==> SelectedLate(m))
    && (g.removeAfterCreate ==> RemovedLate(m))
  }

  function LiveAfter(m: Session, live: bool, a: Act): bool {
    match a
    case CreateOk => true
    case CreateError(applied) => applied || live
    case Land => true
    case DropObject(applied) => !applied && live
    case DeleteObject(_) => false
    case DeleteError(_, applied) => !applied && live
    case _ => live
  }

  lemma FinalSpeaks(m: Session, created: SandboxObject, podIP: string)
    requires Fits(m) && ReadBack(m.plan, created)
    ensures Speaks(m, Final(m, created, podIP)) && Speaks(m, m.placeholder)
  {
    var now :| m.placeholder == Placeholder(m.plan, now);
    CommitConserves(m.plan, now, created, podIP);
  }

  lemma FitsAct(m: Session, a: Act)
    requires Fits(m) && CanAct(m, a)
    ensures Fits(Next(m, a))
  {
    PlanKept(m, a);
    RecordSpeaks(m, a);
    forall r | r in Next(m, a).removers ensures Speaks(Next(m, a), Next(m, a).removers[r].record) {
      RemoverSpeaks(m, a, r);
    }
  }

  lemma PlanKept(m: Session, a: Act)
    requires CanAct(m, a)
    ensures Next(m, a).plan == m.plan && Next(m, a).placeholder == m.placeholder
  {
  }

  lemma RecordSpeaks(m: Session, a: Act)
    requires Fits(m) && CanAct(m, a)
    ensures Next(m, a).record.Some? ==> Speaks(m, Next(m, a).record.value)
  {
    match a
    case Commit(created, podIP) => FinalSpeaks(m, created, podIP);
    case CommitError(created, podIP, _) => FinalSpeaks(m, created, podIP);
    case _ =>
  }

  lemma RemoverSpeaks(m: Session, a: Act, r: nat)
    requires Fits(m) && CanAct(m, a) && r in Next(m, a).removers
    ensures Speaks(m, Next(m, a).removers[r].record)
  {
  }

  lemma GenuineAct(m: Session, a: Act)
    requires Genuine(m) && InOrder(m) && CanAct(m, a)
    ensures Genuine(Next(m, a))
  {
    var m' := Next(m, a);
    PlanKept(m, a);
    if m.record.Some? && IsFinal(m, m.record.value) { FinalStays(m, m', m.record.value); }
    match a
    case Commit(created, podIP) => MakesFinal(m, m', created, podIP);
    case CommitError(created, podIP, _) => MakesFinal(m, m', created, podIP);
    case _ =>
  }

  lemma MakesFinal(m: Session, m': Session, created: SandboxObject, podIP: string)
    requires m'.plan == m.plan && m'.placeholder == m.placeholder && ReadBack(m.plan, created)
    ensures IsFinal(m', Final(m, created, podIP))
  {
    assert Final(m', created, podIP) == Final(m, created, podIP);
  }

  lemma FinalStays(m: Session, m': Session, r: Info)
    requires m'.plan == m.plan && m'.placeholder == m.placeholder && IsFinal(m, r)
    ensures IsFinal(m', r)
  {
    var created, podIP :| ReadBack(m.plan, created) && r == Final(m, created, podIP);
    MakesFinal(m, m', created, podIP);
  }

  lemma InOrderAct(m: Session, a: Act)
    requires InOrder(m) && CanAct(m, a)
    ensures InOrder(Next(m, a))
  {
  }

  lemma RecordIndexedAct(m: Session, a: Act)
    requires InOrder(m) && RecordIndexed(m) && CanAct(m, a)
    ensures RecordIndexed(Next(m, a))
  {
  }

  // A delete between its DEL and its ZREM stays there until it has dropped the entry.
  lemma DeletingStays(m: Session, a: Act)
    requires CanAct(m, a)
    ensures DeletingExpiry(m) ==> DeletingExpiry(Next(m, a)) || Next(m, a).expiry.None?
    ensures DeletingActivity(m) ==> DeletingActivity(Next(m, a)) || Next(m, a).activity.None?
    ensures a.DropKey? || a.DeleteKey? ==> DeletingExpiry(Next(m, a)) && DeletingActivity(Next(m, a))
  {
    var m' := Next(m, a);
    if a.DeleteKey? { assert m'.removers[a.r].pc.KeyGone?; }
    forall r | r in m.removers && m.removers[r].pc.KeyGone? && m'.expiry.Some?
      ensures r in m'.removers && m'.removers[r].pc.KeyGone? {}
    forall r | r in m.removers && Deleted(m.removers[r].pc) && m'.activity.Some?
      ensures r in m'.removers && Deleted(m'.removers[r].pc) {}
  }

  lemma ExpiryAccountedAct(m: Session, a: Act)
    requires InOrder(m) && ExpiryAccounted(m) && CanAct(m, a)
    ensures ExpiryAccounted(Next(m, a))
  {
    DeletingStays(m, a);
  }

  lemma ActivityAccountedAct(g: Guards, m: Session, live: bool, a: Act)
    requires TouchesAsScript(g)
    requires InOrder(m) && ActivityAccounted(m) && CanAct(m, a) && Permitted(g, m, live, a)
    ensures ActivityAccounted(Next(m, a))
  {
    DeletingStays(m, a);
  }

  lemma StoredFirstAct(g: Guards, m: Session, live: bool, a: Act)
    requires g.removeAfterStore
    requires InOrder(m) && StoredFirst(m) && CanAct(m, a) && Permitted(g, m, live, a)
    ensures StoredFirst(Next(m, a))
  {
  }

  // Agreement is kept by an act exactly if the guard lets it pass.
  lemma AgreesIffPermitted(m: Session, a: Act)
    requires InOrder(m) && CanAct(m, a) && ExpiryAgrees(m) && ActivityAgrees(m)
    ensures ExpiryAgrees(Next(m, a)) && ActivityAgrees(Next(m, a)) <==> Permitted(IndexGuards, m, false, a)
  {
    DeletingStays(m, a);
  }

  lemma ExpiryAgreesAct(g: Guards, m: Session, live: bool, a: Act)
    requires g.addsIndexed || (g.removeAfterStore && StoredFirst(m))
    requires InOrder(m) && ExpiryAgrees(m) && CanAct(m, a) && Permitted(g, m, live, a)
    ensures ExpiryAgrees(Next(m, a))
  {
    DeletingStays(m, a);
  }

  lemma ActivityAgreesAct(g: Guards, m: Session, live: bool, a: Act)
    requires g.addsIndexed || (g.removeAfterStore && TouchesAsScript(g) && StoredFirst(m))
    requires InOrder(m) && ActivityAgrees(m) && CanAct(m, a) && Permitted(g, m, live, a)
    ensures ActivityAgrees(Next(m, a))
  {
    DeletingStays(m, a);
  }

  lemma NoOrphanAct(g: Guards, m: Session, live: bool, a: Act)
    requires NoOrphanGuards(g)
    requires InOrder(m) && NoOrphan(m, live) && CanAct(m, a) && Permitted(g, m, live, a)
    ensures NoOrphan(Next(m, a), LiveAfter(m, live, a))
  {
  }

  lemma RecordOutlivesAct(g: Guards, m: Session, live: bool, a: Act)
    requires g.rollbackDeletes && g.createWithRecord
    requires InOrder(m) && RecordOutlives(m, live) && CanAct(m, a) && Permitted(g, m, live, a)
    ensures RecordOutlives(Next(m, a), LiveAfter(m, live, a))
  {
  }

  lemma SelectedLateAct(g: Guards, m: Session, live: bool, a: Act)
    requires g.selectAfterCreate
    requires InOrder(m) && SelectedLate(m) && CanAct(m, a) && Permitted(g, m, live, a)
    ensures SelectedLate(Next(m, a))
  {
  }

  lemma RemovedLateAct(g: Guards, m: Session, live: bool, a: Act)
    requires g.removeAfterCreate
    requires InOrder(m) && RemovedLate(m) && CanAct(m, a) && Permitted(g, m, live, a)
    ensures RemovedLate(Next(m, a))
  {
    if Undecided(Next(m, a)) {
      UndecidedBefore(m, a);
      forall r | r in Next(m, a).removers
        ensures Next(m, a).removers[r].pc.Selected? || Next(m, a).removers[r].pc.Finished?
      {
        assert r in m.removers ==> m.removers[r].pc.Selected? || m.removers[r].pc.Finished?;
      }
    }
  }

  lemma UndecidedBefore(m: Session, a: Act)
    requires InOrder(m) && CanAct(m, a) && Undecided(Next(m, a))
    ensures Undecided(m)
  {
  }

  // ---- Invariants of the world ----

  ghost predicate WorldInv(g: Guards, w: World) {
    && (forall s :: s in w.sessions ==> Inv(g, w.sessions[s], Live(w, w.sessions[s])))
    && Named(w)
    && (forall ref :: ref in w.cluster ==> HasSession(w, ref))
  }

  // Sessions are kept under their own ID and stand for different objects.
  predicate Named(w: World) {
    && (forall s :: s in w.sessions ==> w.sessions[s].plan.entry.sessionId == s)
    && (forall s, s' :: s in w.sessions && s' in w.sessions && s != s' ==>
          w.sessions[s].plan.Target() != w.sessions[s'].plan.Target())
  }

  predicate HasSession(w: World, ref: Ref) { exists s :: s in w.sessions && w.sessions[s].plan.Target() == ref }

  lemma InvAct(g: Guards, m: Session, live: bool, a: Act)
    requires Inv(g, m, live) && CanAct(m, a) && Permitted(g, m, live, a)
    ensures Inv(g, Next(m, a), LiveAfter(m, live, a))
  {
    FitsAct(m, a);
    GenuineAct(m, a);
    InOrderAct(m, a);
    RecordIndexedAct(m, a);
    ExpiryAccountedAct(m, a);
    IndexInvAct(g, m, live, a);
    if NoOrphanGuards(g) { NoOrphanAct(g, m, live, a); }
    if g.rollbackDeletes && g.createWithRecord { RecordOutlivesAct(g, m, live, a); }
    if g.selectAfterCreate { SelectedLateAct(g, m, live, a); }
    if g.removeAfterCreate { RemovedLateAct(g, m, live, a); }
  }

  lemma IndexInvAct(g: Guards, m: Session, live: bool, a: Act)
    requires Inv(g, m, live) && CanAct(m, a) && Permitted(g, m, live, a)
    ensures var m' := Next(m, a);
            && (TouchesAsScript(g) ==> ActivityAccounted(m'))
            && (g.removeAfterStore ==> StoredFirst(m'))
            && (g.removeAfterStore || g.addsIndexed ==> ExpiryAgrees(m'))
            && ((g.removeAfterStore && TouchesAsScript(g)) || g.addsIndexed ==> ActivityAgrees(m'))
  {
    if TouchesAsScript(g) { ActivityAccountedAct(g, m, live, a); }
    if g.removeAfterStore { StoredFirstAct(g, m, live, a); }
    if g.removeAfterStore || g.addsIndexed { ExpiryAgreesAct(g, m, live, a); }
    if (g.removeAfterStore && TouchesAsScript(g)) || g.addsIndexed { ActivityAgreesAct(g, m, live, a); }
  }

  // A delete made for one session leaves the objects of all others alone.
  lemma ClusterLocal(cluster: set<Ref>, m: Session, a: Act)
    requires Fits(m) && CanAct(m, a)
    ensures ClusterAfter(cluster, m, a) - {m.plan.Target()} == cluster - {m.plan.Target()}
    ensures m.plan.Target() in ClusterAfter(cluster, m, a) <==> LiveAfter(m, m.plan.Target() in cluster, a)
  {
  }

  lemma InvUnlessLive(g: Guards, m: Session)
    requires Inv(g, m, true)
    ensures Inv(g, m, false)
  {
  }

  lemma InvBegin(g: Guards, plan: Plan, now: Time)
    requires plan.WellBuilt()
    ensures Inv(g, NewSession(plan, now), false)
  {
    assert NewSession(plan, now).placeholder == Placeholder(plan, now);
  }

  // Plans never change, so objects stay distinct.
  lemma PlansKept(w: World, step: Step)
    requires Enabled(w, step)
    ensures forall s :: s in w.sessions ==>
              s in Apply(w, step).sessions && Apply(w, step).sessions[s].plan == w.sessions[s].plan
  {
  }

  // An act on one session leaves the others, and their objects, as they are.
  lemma {:induction false} OthersKept(w: World, sid: Sid, a: Act, s: Sid)
    requires sid in w.sessions && s in w.sessions && s != sid && Fits(w.sessions[sid])
    requires w.sessions[s].plan.Target() != w.sessions[sid].plan.Target()
    requires Enabled(w, On(sid, a))
    ensures var w' := Apply(w, On(sid, a));
            w'.sessions[s] == w.sessions[s] && Live(w', w'.sessions[s]) == Live(w, w.sessions[s])
  {
    var m := w.sessions[sid];
    ClusterLocal(w.cluster, m, a);
    assert w.sessions[s].plan.Target() in Apply(w, On(sid, a)).cluster - {m.plan.Target()} <==>
           w.sessions[s].plan.Target() in w.cluster - {m.plan.Target()};
  }

  lemma {:induction false} ActedKept(g: Guards, w: World, sid: Sid, a: Act)
    requires sid in w.sessions && Allowed(g, w, On(sid, a))
    requires Inv(g, w.sessions[sid], Live(w, w.sessions[sid]))
    ensures var w' := Apply(w, On(sid, a)); Inv(g, w'.sessions[sid], Live(w', w'.sessions[sid]))
  {
    var m := w.sessions[sid];
    ClusterLocal(w.cluster, m, a);
    InvAct(g, m, Live(w, m), a);
    PlansKept(w, On(sid, a));
  }

  lemma {:induction false} WorldInvAt(g: Guards, w: World, step: Step, s: Sid)
    requires WorldInv(g, w) && Allowed(g, w, step) && s in Apply(w, step).sessions
    ensures var w' := Apply(w, step); Inv(g, w'.sessions[s], Live(w', w'.sessions[s]))
  {
    match step
    case Begin(sid, plan, now) =>
      if s == sid { InvBegin(g, plan, now); }
    case On(sid, a) =>
      if s == sid { ActedKept(g, w, sid, a); } else { OthersKept(w, sid, a, s); }
    case Vanish(ref) =>
      if Live(w, w.sessions[s]) { InvUnlessLive(g, w.sessions[s]); }
  }

  lemma {:induction false} WorldInvStep(g: Guards, w: World, step: Step)
    requires WorldInv(g, w) && Allowed(g, w, step)
    ensures WorldInv(g, Apply(w, step))
  {
    var w' := Apply(w, step);
    NamedStep(w, step);
    forall s | s in w'.sessions ensures Inv(g, w'.sessions[s], Live(w', w'.sessions[s])) {
      WorldInvAt(g, w, step, s);
    }
    forall ref | ref in w'.cluster ensures HasSession(w', ref) {
      ObjectsHaveSessions(w, step, ref);
    }
  }

  lemma {:induction false} NamedStep(w: World, step: Step)
    requires Named(w) && Enabled(w, step)
    ensures Named(Apply(w, step))
  {
    PlansKept(w, step);
  }

  lemma {:induction false} ObjectsHaveSessions(w: World, step: Step, ref: Ref)
    requires Enabled(w, step) && ref in Apply(w, step).cluster
    requires ref in w.cluster ==> HasSession(w, ref)
    ensures HasSession(Apply(w, step), ref)
  {
    PlansKept(w, step);
    if ref in w.cluster {
      var s :| s in w.sessions && w.sessions[s].plan.Target() == ref;
      assert Apply(w, step).sessions[s].plan.Target() == ref;
    } else {
      assert Apply(w, step).sessions[step.sid].plan.Target() == ref;
    }
  }

  lemma {:induction false} WorldInvRun(g: Guards, w: World, steps: seq<Step>)
    requires WorldInv(g, w) && CanRun(g, w, steps)
    ensures WorldInv(g, Run(g, w, steps))
    decreases steps
  {
    if steps != [] {
      WorldInvStep(g, w, steps[0]);
      WorldInvRun(g, Apply(w, steps[0]), steps[1..]);
    }
  }

  // ---- Theorems about every run from the empty world ----

  const IndexGuards := Unguarded.(addsIndexed := true)

  // Every record whose StoreSandbox has returned is in both indexes, under its own expiry second. This
  // is so on every run, whatever removers and touches do.
  lemma {:induction false} RecordsAreIndexed(g: Guards, steps: seq<Step>, s: Sid)
    requires CanRun(g, Init, steps) && s in Run(g, Init, steps).sessions
    ensures var m := Run(g, Init, steps).sessions[s];
            m.record.Some? && !BeforeStored(m.pc) ==>
              m.expiry == Some(Unix(m.record.value.expiresAt)) && m.activity.Some?
  {
    WorldInvRun(g, Init, steps);
  }

  // On every run an index entry without a record is about to be dropped, or its creator is under way and
  // bound to roll back. For last activity this takes touches that do what the script does.
  lemma {:induction false} EntriesAreAccounted(g: Guards, steps: seq<Step>, s: Sid)
    requires CanRun(g, Init, steps) && s in Run(g, Init, steps).sessions
    ensures var m := Run(g, Init, steps).sessions[s];
            && (m.expiry.Some? && m.record.None? ==> DeletingExpiry(m) || (InFlight(m.pc) && !m.pc.ExpiryDropped?))
            && (TouchesAsScript(g) && m.activity.Some? && m.record.None? ==> DeletingActivity(m) || InFlight(m.pc))
  {
    WorldInvRun(g, Init, steps);
  }

  // Index agreement in the sharp form, if no remover reads a record before its StoreSandbox has returned:
  // an index entry without a record is only seen between a DEL and the matching ZREM.
  lemma {:induction false} IndexesAgree(g: Guards, steps: seq<Step>, s: Sid)
    requires g.removeAfterStore
    requires CanRun(g, Init, steps) && s in Run(g, Init, steps).sessions
    ensures var m := Run(g, Init, steps).sessions[s];
            && (m.expiry.Some? && m.record.None? ==> DeletingExpiry(m))
            && (TouchesAsScript(g) && m.activity.Some? && m.record.None? ==> DeletingActivity(m))
  {
    WorldInvRun(g, Init, steps);
  }

  // No orphan: every object in the cluster belongs to a session whose record is in the store and
  // names it, or whose creator still has its rollback armed.
  lemma {:induction false} NoOrphanReachable(g: Guards, steps: seq<Step>, ref: Ref)
    requires NoOrphanGuards(g)
    requires CanRun(g, Init, steps) && ref in Run(g, Init, steps).cluster
    ensures var w := Run(g, Init, steps);
            exists s :: s in w.sessions && w.sessions[s].plan.Target() == ref &&
              ((w.sessions[s].record.Some? && w.sessions[s].record.value.Target() == ref) || Armed(w.sessions[s].pc))
  {
    WorldInvRun(g, Init, steps);
    var w := Run(g, Init, steps);
    assert HasSession(w, ref);
    var s :| s in w.sessions && w.sessions[s].plan.Target() == ref;
    assert Inv(g, w.sessions[s], true);
  }

  // The record outlives the object: if objects come to be only with their record safely there, every
  // object has a record naming it, so the collector can find it even if all processes stop where they are.
  lemma {:induction false} RecordOutlivesObject(g: Guards, steps: seq<Step>, ref: Ref)
    requires g.rollbackDeletes && g.createWithRecord
    requires CanRun(g, Init, steps) && ref in Run(g, Init, steps).cluster
    ensures var w := Run(g, Init, steps);
            exists s :: s in w.sessions && w.sessions[s].record.Some? && w.sessions[s].record.value.Target() == ref
  {
    WorldInvRun(g, Init, steps);
    var w := Run(g, Init, steps);
    assert HasSession(w, ref);
    var s :| s in w.sessions && w.sessions[s].plan.Target() == ref;
    assert Inv(g, w.sessions[s], true);
  }

  // What a reader of the store can see of a session, on every run: the placeholder, which says creating
  // and has no entry points, or a record that says ready and has one entry point per port; never anything
  // in between. Success is answered for the latter only.
  lemma {:induction false} RecordIsPlaceholderOrReady(g: Guards, steps: seq<Step>, s: Sid)
    requires CanRun(g, Init, steps) && s in Run(g, Init, steps).sessions
    requires Run(g, Init, steps).sessions[s].record.Some?
    ensures var m := Run(g, Init, steps).sessions[s];
            var r := m.record.value;
            && (r.status == "creating" <==> r == m.placeholder)
            && (r.status == "creating" ==> r.entryPoints == [] && !m.pc.Committed?)
            && (r.status != "creating" ==> r.status == "ready" && |r.entryPoints| == |m.plan.entry.ports|)
            && (BeforeCommit(m.pc) ==> r.status == "creating")
  {
    WorldInvRun(g, Init, steps);
    var w := Run(g, Init, steps);
    var m := w.sessions[s];
    assert Inv(g, m, Live(w, m));
    var now :| m.placeholder == Placeholder(m.plan, now);
    if IsFinal(m, m.record.value) {
      var created, podIP :| ReadBack(m.plan, created) && m.record.value == Final(m, created, podIP);
      assert m.record.value.status == "ready" && "ready"[0] != "creating"[0];
    }
  }

  // ---- At rest ----

  // Every process of the session has come to its end.
  predicate AtRest(m: Session) {
    (m.pc.Failed? || m.pc.Committed?) && forall r :: r in m.removers ==> m.removers[r].pc.Finished?
  }

  // Whatever happened on the way, once its processes have ended a session is in all three places of the
  // store or in none, under its expiry second, and what is left of it was committed. For last activity
  // this takes touches that do what the script does, and for its object, which is then named by that
  // record, the guards against orphans.
  lemma {:induction false} RestIsConsistent(g: Guards, steps: seq<Step>, s: Sid)
    requires CanRun(g, Init, steps) && s in Run(g, Init, steps).sessions && AtRest(Run(g, Init, steps).sessions[s])
    ensures var w := Run(g, Init, steps);
            var m := w.sessions[s];
            && (m.record.Some? <==> m.expiry.Some?)
            && (m.record.Some? ==> m.pc.Committed? && m.expiry == Some(Unix(m.record.value.expiresAt)))
            && (m.record.Some? ==> m.activity.Some?)
            && (TouchesAsScript(g) ==> (m.record.Some? <==> m.activity.Some?))
            && (NoOrphanGuards(g) && Live(w, m) ==>
                  m.record.Some? && m.record.value.Target() == m.plan.Target())
  {
    WorldInvRun(g, Init, steps);
    var w := Run(g, Init, steps);
    RestOf(g, w.sessions[s], Live(w, w.sessions[s]));
  }

  lemma RestOf(g: Guards, m: Session, live: bool)
    requires Inv(g, m, live) && AtRest(m)
    ensures m.record.Some? <==> m.expiry.Some?
    ensures m.record.Some? ==> m.pc.Committed? && m.expiry == Some(Unix(m.record.value.expiresAt)) && m.activity.Some?
    ensures TouchesAsScript(g) && m.activity.Some? ==> m.record.Some?
    ensures NoOrphanGuards(g) && live ==> m.record.Some? && m.record.value.Target() == m.plan.Target()
  {
  }

  // ---- Commit point and no resurrection (any run, no guard) ----

  // The session's placeholder was written and its record is gone.
  predicate Gone(w: World, s: Sid) {
    s in w.sessions && !w.sessions[s].pc.Planned? && w.sessions[s].record.None?
  }

  lemma GoneAct(m: Session, a: Act)
    requires CanAct(m, a) && !m.pc.Planned? && m.record.None?
    ensures !Next(m, a).pc.Planned? && Next(m, a).record.None?
    ensures Next(m, a).pc.Committed? ==> m.pc.Committed?
  {
  }

  // A deleted record never comes back, and a creator that had not committed by then never does:
  // its SET XX fails and it rolls back.
  lemma {:induction false} NoResurrection(g: Guards, w: World, steps: seq<Step>, s: Sid)
    requires CanRun(g, w, steps) && Gone(w, s)
    ensures Gone(Run(g, w, steps), s)
    ensures Run(g, w, steps).sessions[s].pc.Committed? ==> w.sessions[s].pc.Committed?
    decreases steps
  {
    if steps != [] {
      if steps[0].On? && steps[0].sid == s { GoneAct(w.sessions[s], steps[0].act); }
      NoResurrection(g, Apply(w, steps[0]), steps[1..], s);
    }
  }

  // Once a record existed and is gone, it stays gone.
  lemma {:induction false} DeletedForever(g: Guards, w: World, a: seq<Step>, b: seq<Step>, s: Sid)
    requires WorldInv(g, w) && CanRun(g, w, a + b) && CanRun(g, w, a)
    requires s in w.sessions && w.sessions[s].record.Some?
    requires s in Run(g, w, a).sessions && Run(g, w, a).sessions[s].record.None?
    ensures Gone(Run(g, w, a + b), s)
  {
    RunSplit(g, w, a, b);
    StartedStays(g, w, a, s);
    NoResurrection(g, Run(g, w, a), b, s);
  }

  lemma {:induction false} StartedStays(g: Guards, w: World, steps: seq<Step>, s: Sid)
    requires CanRun(g, w, steps) && s in w.sessions && !w.sessions[s].pc.Planned?
    ensures s in Run(g, w, steps).sessions && !Run(g, w, steps).sessions[s].pc.Planned?
    decreases steps
  {
    if steps != [] { StartedStays(g, Apply(w, steps[0]), steps[1..], s); }
  }

  ghost predicate CommittedAt(g: Guards, w: World, steps: seq<Step>, s: Sid, i: nat) {
    && i < |steps|
    && steps[i].On? && steps[i].sid == s && steps[i].act.Commit?
    && CanRun(g, w, steps[..i])
    && s in Run(g, w, steps[..i]).sessions
    && Run(g, w, steps[..i]).sessions[s].record.Some?
  }

  // A success response has a commit step behind it, and the record existed right then.
  lemma {:induction false} SuccessHadRecord(g: Guards, w: World, steps: seq<Step>, s: Sid)
    requires CanRun(g, w, steps)
    requires s in Run(g, w, steps).sessions && Run(g, w, steps).sessions[s].pc.Committed?
    requires s in w.sessions ==> !w.sessions[s].pc.Committed?
    ensures exists i: nat :: CommittedAt(g, w, steps, s, i)
    decreases steps
  {
    var w1 := Apply(w, steps[0]);
    if s in w1.sessions && w1.sessions[s].pc.Committed? {
      assert steps[..0] == [];
      assert CommittedAt(g, w, steps, s, 0);
    } else {
      SuccessHadRecord(g, w1, steps[1..], s);
      var i: nat :| CommittedAt(g, w1, steps[1..], s, i);
      assert steps[..i + 1][1..] == steps[1..][..i];
      assert CommittedAt(g, w, steps, s, i + 1);
    }
  }
}
