/** The session lifecycle as a transition system. One step is one store command or one cluster
    call. Any number of creators, removers (an explicit delete, or one session of a garbage
    collection pass) and last-activity updates run interleaved. A process that crashes or times
    out is one that takes no further step, so every claim below covers it. */
module Lifecycle {
  import opened Sandboxes

  type Sid = string

  // Where createSandbox stands. From Stored to RollingBack its rollback is armed.
  datatype CreatorPc =
    | Planned          // nothing written yet
    | KeySet           // SETNX done
    | ExpirySet        // ZADD expiry done
    | Stored           // ZADD last_activity done: StoreSandbox has returned, rollback is armed
    | Created          // the cluster create was answered with success
    | RollingBack      // an error is being returned; the deferred rollback starts
    | ObjectDropped    // rollback: the cluster delete was answered
    | KeyDropped       // rollback: DEL done
    | ExpiryDropped    // rollback: ZREM expiry done
    | Failed           // rollback: ZREM last_activity done
    | Committed        // SET XX succeeded: rollback disarmed, success response

  // Where handleDeleteSandbox, or the collector's loop for one session, stands.
  datatype RemoverPc =
    | Selected     // the record was read
    | ObjectGone   // the cluster delete was answered with success or not-found
    | KeyGone      // DEL done
    | ExpiryGone   // ZREM expiry done
    | Finished     // ZREM last_activity done, or the cluster delete was answered with an error

  datatype Remover = Remover(record: Info, pc: RemoverPc)

  // Everything kept under one session ID: the key, its two index entries and the processes at work on it.
  datatype Session = Session(
    plan: Plan,
    placeholder: Info,
    pc: CreatorPc,
    record: Option<Info>,
    expiry: Option<int>,
    activity: Option<int>,
    removers: map<nat, Remover>,
    touches: set<nat>,
    late: bool)          // the cluster create was answered with an error and may still take effect

  datatype Act =
    // createSandbox
    | SetKey
    | AddExpiry
    | AddActivity(now: Time)
    | CreateOk
    | CreateError(applied: bool)     // an error answer; the object may exist all the same
    | CreateUnknown                  // an error answer, for example a timeout, while the create is still under way
    | Land                           // such a create takes effect
    | GiveUp                         // waiting for readiness, pod IP or entry points failed
    | Commit(created: SandboxObject, podIP: string)
    | CommitError(created: SandboxObject, podIP: string, applied: bool)
    // rollbackSandboxCreation, which goes on whatever the cluster answers
    | DropObject(applied: bool)
    | DropKey
    | DropExpiry
    | DropActivity
    // handleDeleteSandbox, and one session of garbageCollector.once
    | Select(r: nat)
    | DeleteObject(r: nat)
    | DeleteError(r: nat, applied: bool)
    | DeleteKey(r: nat)
    | DeleteExpiry(r: nat)
    | DeleteActivity(r: nat)
    // UpdateSessionLastActivity: one script in Redis, EXISTS and then ZADD in Valkey
    | Touch(at: Time)
    | TouchExists(t: nat)
    | TouchAdd(t: nat, at: Time)

  predicate CreatorAt(a: Act, pc: CreatorPc) {
    match a
    case SetKey => pc.Planned?
    case AddExpiry => pc.KeySet?
    case AddActivity(_) => pc.ExpirySet?
    case CreateOk => pc.Stored?
    case CreateError(_) => pc.Stored?
    case CreateUnknown => pc.Stored?
    case GiveUp => pc.Created?
    case Commit(_, _) => pc.Created?
    case CommitError(_, _, _) => pc.Created?
    case DropObject(_) => pc.RollingBack?
    case DropKey => pc.ObjectDropped?
    case DropExpiry => pc.KeyDropped?
    case DropActivity => pc.ExpiryDropped?
    case _ => true
  }

  predicate RemoverAt(m: Session, r: nat, pc: RemoverPc) { r in m.removers && m.removers[r].pc == pc }

  predicate CanAct(m: Session, a: Act) {
    CreatorAt(a, m.pc) &&
    match a
    case Commit(created, _) => ReadBack(m.plan, created)
    case CommitError(created, _, _) => ReadBack(m.plan, created)
    case Land => m.late
    case Select(r) => r !in m.removers && m.record.Some?
    case DeleteObject(r) => RemoverAt(m, r, Selected)
    case DeleteError(r, _) => RemoverAt(m, r, Selected)
    case DeleteKey(r) => RemoverAt(m, r, ObjectGone)
    case DeleteExpiry(r) => RemoverAt(m, r, KeyGone)
    case DeleteActivity(r) => RemoverAt(m, r, ExpiryGone)
    case TouchExists(t) => t !in m.touches
    case TouchAdd(t, _) => t in m.touches
    case _ => true
  }

  function RemoverTo(m: Session, r: nat, pc: RemoverPc): Session
    requires r in m.removers
  {
    m.(removers := m.removers[r := m.removers[r].(pc := pc)])
  }

  function Final(m: Session, created: SandboxObject, podIP: string): Info {
    FinalRecord(m.plan, m.placeholder, created, podIP)
  }

  // What an act does to its session.
  function Next(m: Session, a: Act): Session
    requires CanAct(m, a)
  {
    match a
    case SetKey =>                                                         // SETNX
      m.(pc := KeySet, record := if m.record.Some? then m.record else Some(m.placeholder))
    case AddExpiry => m.(pc := ExpirySet, expiry := Some(Unix(m.placeholder.expiresAt)))
    case AddActivity(now) => m.(pc := Stored, activity := Some(Unix(now)))
    case CreateOk => m.(pc := Created)
    case CreateError(_) => m.(pc := RollingBack)
    case CreateUnknown => m.(pc := RollingBack, late := true)
    case Land => m.(late := false)
    case GiveUp => m.(pc := RollingBack)
    case Commit(created, podIP) =>                                         // SET XX
      if m.record.Some? then m.(pc := Committed, record := Some(Final(m, created, podIP)))
      else m.(pc := RollingBack)
    case CommitError(created, podIP, applied) =>
      m.(pc := RollingBack, record := if applied && m.record.Some? then Some(Final(m, created, podIP)) else m.record)
    case DropObject(_) => m.(pc := ObjectDropped)
    case DropKey => m.(pc := KeyDropped, record := None)                   // DEL
    case DropExpiry => m.(pc := ExpiryDropped, expiry := None)             // ZREM
    case DropActivity => m.(pc := Failed, activity := None)
    case Select(r) => m.(removers := m.removers[r := Remover(m.record.value, Selected)])
    case DeleteObject(r) => RemoverTo(m, r, ObjectGone)
    case DeleteError(r, _) => RemoverTo(m, r, Finished)
    case DeleteKey(r) => RemoverTo(m, r, KeyGone).(record := None)
    case DeleteExpiry(r) => RemoverTo(m, r, ExpiryGone).(expiry := None)
    case DeleteActivity(r) => RemoverTo(m, r, Finished).(activity := None)
    case Touch(at) => if m.record.Some? then m.(activity := Some(Unix(at))) else m
    case TouchExists(t) => if m.record.Some? then m.(touches := m.touches + {t}) else m
    case TouchAdd(t, at) => m.(activity := Some(Unix(at)), touches := m.touches - {t})
  }

  // What an act does to the cluster. A delete names the object the record in hand names.
  function ClusterAfter(cluster: set<Ref>, m: Session, a: Act): set<Ref>
    requires CanAct(m, a)
  {
    match a
    case CreateOk => cluster + {m.plan.Target()}
    case CreateError(applied) => if applied then cluster + {m.plan.Target()} else cluster
    case Land => cluster + {m.plan.Target()}
    case DropObject(applied) => if applied then cluster - {m.plan.Target()} else cluster
    case DeleteObject(r) => cluster - {m.removers[r].record.Target()}
    case DeleteError(r, applied) => if applied then cluster - {m.removers[r].record.Target()} else cluster
    case _ => cluster
  }

  // ---- Runs ----

  datatype World = World(sessions: map<Sid, Session>, cluster: set<Ref>)

  const Init := World(map[], {})

  datatype Step =
    | Begin(sid: Sid, plan: Plan, now: Time)
    | On(sid: Sid, act: Act)
    | Vanish(ref: Ref)          // the cluster drops an object by itself, for example at its shutdown time

  predicate Live(w: World, m: Session) { m.plan.Target() in w.cluster }

  // Session IDs and object names are fresh: a UUID and a random suffix.
  predicate Fresh(w: World, sid: Sid, plan: Plan) {
    && sid !in w.sessions
    && plan.Target() !in w.cluster
    && forall s :: s in w.sessions ==> w.sessions[s].plan.Target() != plan.Target()
  }

  function NewSession(plan: Plan, now: Time): Session {
    Session(plan, Placeholder(plan, now), Planned, None, None, None, map[], {}, false)
  }

  predicate Enabled(w: World, step: Step) {
    match step
    case Begin(sid, plan, _) => plan.WellBuilt() && plan.entry.sessionId == sid && Fresh(w, sid, plan)
    case On(sid, a) => sid in w.sessions && CanAct(w.sessions[sid], a)
    case Vanish(_) => true
  }

  function Apply(w: World, step: Step): World
    requires Enabled(w, step)
  {
    match step
    case Begin(sid, plan, now) => w.(sessions := w.sessions[sid := NewSession(plan, now)])
    case On(sid, a) =>
      World(w.sessions[sid := Next(w.sessions[sid], a)], ClusterAfter(w.cluster, w.sessions[sid], a))
    case Vanish(ref) => w.(cluster := w.cluster - {ref})
  }

  // Restrictions a theorem may put on the steps of a run; the code enforces none of them.
  datatype Guards = Guards(
    atomicTouches: bool,        // last activity is updated by the atomic script only
    touchAsScript: bool,        // the ZADD of a two-command touch comes when the script would do the same
    removeAfterStore: bool,     // a remover reads a record only once its StoreSandbox has returned
    addsIndexed: bool,          // no ZADD for a session whose record is gone and whose deletes have passed that index
    selectAfterCreate: bool,    // a remover reads a record only once its cluster create is decided
    removeAfterCreate: bool,    // a remover's cluster delete runs only once the cluster create is decided
    createWithRecord: bool,     // an object comes to be only while its record is there and no DEL of it is next
    rollbackDeletes: bool,      // the cluster delete of a rollback takes effect if there is an object
    landsInTime: bool,          // a create takes effect before the cluster delete of its rollback, or not at all
    noStaleCommit: bool)        // no successful commit in a Hazard

  const Unguarded := Guards(false, false, false, false, false, false, false, false, false, false)

  predicate BeforeStored(pc: CreatorPc) { pc.Planned? || pc.KeySet? || pc.ExpirySet? }

  predicate BeforeCreated(pc: CreatorPc) { BeforeStored(pc) || pc.Stored? }

  predicate Armed(pc: CreatorPc) { pc.Stored? || pc.Created? || pc.RollingBack? }

  // The cluster create is still to come, or under way with its rollback still to come.
  predicate Undecided(m: Session) { BeforeCreated(m.pc) || (m.late && Armed(m.pc)) }

  // Some remover is past its cluster delete, and its next command drops the record.
  predicate AboutToDelete(m: Session) { exists r :: r in m.removers && m.removers[r].pc.ObjectGone? }

  // The one dangerous moment to commit: the record is about to be dropped, and the object is there.
  predicate Hazard(m: Session, live: bool) { live && AboutToDelete(m) }

  predicate Deleted(pc: RemoverPc) { pc.KeyGone? || pc.ExpiryGone? }

  // Some delete is past its DEL and not past its ZREM of the index in question.
  predicate DeletingExpiry(m: Session) {
    m.pc.KeyDropped? || exists r :: r in m.removers && m.removers[r].pc.KeyGone?
  }

  predicate DeletingActivity(m: Session) {
    m.pc.KeyDropped? || m.pc.ExpiryDropped? || exists r :: r in m.removers && Deleted(m.removers[r].pc)
  }

  predicate Permitted(g: Guards, m: Session, live: bool, a: Act) {
    match a
    case AddExpiry => g.addsIndexed ==> m.record.Some? || DeletingExpiry(m)
    case AddActivity(_) => g.addsIndexed ==> m.record.Some? || DeletingActivity(m)
    case TouchExists(_) => !g.atomicTouches
    case TouchAdd(_, at) =>
      && !g.atomicTouches
      && (g.touchAsScript ==> m.record.Some? || m.activity == Some(Unix(at)))
      && (g.addsIndexed ==> m.record.Some? || DeletingActivity(m))
    case CreateOk => g.createWithRecord ==> m.record.Some? && !AboutToDelete(m)
    case CreateError(applied) => g.createWithRecord && applied ==> m.record.Some? && !AboutToDelete(m)
    case Land =>
      && (g.landsInTime ==> Armed(m.pc))
      && (g.createWithRecord ==> m.record.Some? && !AboutToDelete(m) && !m.pc.ObjectDropped?)
    case Select(_) => (g.removeAfterStore ==> !BeforeStored(m.pc)) && (g.selectAfterCreate ==> !Undecided(m))
    case DeleteObject(_) => g.removeAfterCreate ==> !Undecided(m)
    case DropObject(applied) => g.rollbackDeletes && live ==> applied
    case Commit(_, _) => g.noStaleCommit && m.record.Some? ==> !Hazard(m, live)
    case _ => true
  }

  predicate Allowed(g: Guards, w: World, step: Step) {
    && Enabled(w, step)
    && (step.On? ==> Permitted(g, w.sessions[step.sid], Live(w, w.sessions[step.sid]), step.act))
  }

  predicate CanRun(g: Guards, w: World, steps: seq<Step>)
    decreases steps
  {
    steps == [] || (Allowed(g, w, steps[0]) && CanRun(g, Apply(w, steps[0]), steps[1..]))
  }

  function Run(g: Guards, w: World, steps: seq<Step>): World
    requires CanRun(g, w, steps)
    decreases steps
  {
    if steps == [] then w else Run(g, Apply(w, steps[0]), steps[1..])
  }

  // A run can be cut anywhere.
  lemma {:induction false} RunSplit(g: Guards, w: World, a: seq<Step>, b: seq<Step>)
    requires CanRun(g, w, a + b)
    ensures CanRun(g, w, a) && CanRun(g, Run(g, w, a), b)
    ensures Run(g, w, a + b) == Run(g, Run(g, w, a), b)
    decreases a
  {
    if a == [] {
      assert a + b == b;
    } else {
      assert (a + b)[1..] == a[1..] + b;
      RunSplit(g, Apply(w, a[0]), a[1..], b);
    }
  }

  lemma {:induction false} RunConcat(g: Guards, w: World, a: seq<Step>, b: seq<Step>)
    requires CanRun(g, w, a) && CanRun(g, Run(g, w, a), b)
    ensures CanRun(g, w, a + b)
    ensures Run(g, w, a + b) == Run(g, Run(g, w, a), b)
    decreases a
  {
    if a == [] {
      assert a + b == b;
    } else {
      assert (a + b)[1..] == a[1..] + b;
      RunConcat(g, Apply(w, a[0]), a[1..], b);
    }
  }

  // Every guarded run is a run, and a run is guarded if each of its steps is.
  lemma {:induction false} RunUnguarded(g: Guards, w: World, steps: seq<Step>)
    requires CanRun(g, w, steps)
    ensures CanRun(Unguarded, w, steps) && Run(Unguarded, w, steps) == Run(g, w, steps)
    decreases steps
  {
    if steps != [] { RunUnguarded(g, Apply(w, steps[0]), steps[1..]); }
  }

  ghost predicate AllowedAt(g: Guards, w: World, steps: seq<Step>, n: nat)
    requires n < |steps|
  {
    CanRun(Unguarded, w, steps[..n]) && Allowed(g, Run(Unguarded, w, steps[..n]), steps[n])
  }

  lemma {:induction false} AllowedThroughout(g: Guards, w: World, steps: seq<Step>)
    requires forall n :: 0 <= n < |steps| ==> AllowedAt(g, w, steps, n)
    ensures CanRun(g, w, steps)
    decreases steps
  {
    if steps != [] {
      assert AllowedAt(g, w, steps, 0) && steps[..0] == [];
      var rest := steps[1..];
      forall n | 0 <= n < |rest| ensures AllowedAt(g, Apply(w, steps[0]), rest, n) {
        assert AllowedAt(g, w, steps, n + 1) && steps[..n + 1][1..] == rest[..n];
      }
      AllowedThroughout(g, Apply(w, steps[0]), rest);
    }
  }

  lemma RunOne(g: Guards, w: World, step: Step)
    requires Allowed(g, w, step)
    ensures CanRun(g, w, [step]) && Run(g, w, [step]) == Apply(w, step)
  {
    var w', none := Apply(w, step), [step][1..];
    assert none == [] && Run(g, w', none) == w';
  }

  // The last step of a run.
  lemma {:induction false} RunSnoc(g: Guards, w: World, steps: seq<Step>, n: nat)
    requires CanRun(g, w, steps) && n < |steps|
    ensures CanRun(g, w, steps[..n]) && Allowed(g, Run(g, w, steps[..n]), steps[n])
    ensures CanRun(g, w, steps[..n + 1])
    ensures Run(g, w, steps[..n + 1]) == Apply(Run(g, w, steps[..n]), steps[n])
  {
    var one := [steps[n]];
    assert steps == steps[..n + 1] + steps[n + 1..];
    RunSplit(g, w, steps[..n + 1], steps[n + 1..]);
    assert steps[..n + 1] == steps[..n] + one;
    RunSplit(g, w, steps[..n], one);
    RunOne(g, Run(g, w, steps[..n]), steps[n]);
  }
}
