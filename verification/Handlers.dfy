/** The workload manager's create and delete handlers, run alone: creation is all or nothing,
    deletion undoes it, and both issue exactly the acts of the lifecycle protocol. */
module Handlers {
  import opened Sandboxes
  import opened Store
  import Lifecycle
  import SortedSet
  import GC = GarbageCollection

  // How the calls createSandbox makes turn out. A call answered with an error may have taken effect.
  datatype Surroundings = Surroundings(
    storeOk: bool,                      // StoreSandbox is answered ...
    storeApplied: bool,                 // ... or fails on the way, having taken effect or not
    createOk: bool,                     // the cluster create
    createApplied: bool,
    ready: Option<SandboxObject>,       // the sandbox became ready in time
    podIP: Option<string>,
    entryPointsOk: bool,
    updateOk: bool,                     // UpdateSandbox
    updateApplied: bool,
    rollbackApplied: bool,              // the cluster delete of a rollback takes effect
    eraseApplied: bool)                 // the store delete of a rollback takes effect
  {
    // Everything up to the commit goes well.
    predicate Commits() { storeOk && createOk && ready.Some? && podIP.Some? && entryPointsOk }

    predicate AllWell() { Commits() && updateOk }

    predicate ObjectMade() { createOk || createApplied }
  }

  datatype Response = Response(kind: Kind, sessionId: string, sandboxId: string, sandboxName: string,
                               entryPoints: seq<EntryPoint>, ownerId: string)

  datatype CreateError = StoreFailed | CreateFailed | NotReady | NoPodIP | EntryPointsDown | UpdateFailed

  datatype CreateResult = Created(response: Response) | Refused(error: CreateError)

  // How the calls handleDeleteSandbox makes turn out. A delete that reports an error may have taken effect.
  datatype DeleteCalls = DeleteCalls(
    getOk: bool, clientOk: bool, deleteOk: bool, deleteApplied: bool, eraseOk: bool, eraseApplied: bool)

  datatype DeleteResult = Deleted | UnknownSession | Unauthorized | InternalError

  function ResponseOf(p: Plan, fin: Info): Response {
    Response(fin.kind, p.entry.sessionId, fin.sandboxId, fin.name, fin.entryPoints, p.entry.ownerId)
  }

  // What the caller is told: the session and its owner, the object to look for, and one entry point per port.
  predicate Announces(r: Response, p: Plan, created: SandboxObject, podIP: string) {
    && r.kind == p.entry.kind && r.sessionId == p.entry.sessionId && r.ownerId == p.entry.ownerId
    && r.sandboxId == created.uid
    && r.sandboxName == (if p.claim.Some? then p.claim.value.name else created.name)
    && |r.entryPoints| == |p.entry.ports|
    && forall i :: 0 <= i < |p.entry.ports| ==>
         var port := p.entry.ports[i];
         r.entryPoints[i] == EntryPoint(port.pathPrefix, port.protocol, podIP, port.number)
  }

  // The store after a successful creation.
  function Committed(st: State, p: Plan, now: Time, created: SandboxObject, podIP: string): State {
    var ph := Placeholder(p, now);
    Updated(Stored(st, ph, now), FinalRecord(p, ph, created, podIP))
  }

  // The store after everything up to the commit, from one that holds the placeholder. A commit that is
  // answered with an error may have taken effect.
  function Provisioned(st: State, p: Plan, now: Time, env: Surroundings): State {
    if env.Commits() && (env.updateOk || env.updateApplied)
    then Updated(st, FinalRecord(p, Placeholder(p, now), env.ready.value, env.podIP.value)) else st
  }

  // The store a rollback finds: the placeholder, or the final record if the commit took effect all the same.
  function BeforeRollback(st: State, p: Plan, now: Time, env: Surroundings): State {
    Provisioned(Stored(st, Placeholder(p, now), now), p, now, env)
  }

  // The record is the final one then, under the scores of the placeholder.
  lemma {:induction false} CommittedHolds(st: State, p: Plan, now: Time, created: SandboxObject, podIP: string)
    ensures var st', id := Committed(st, p, now, created, podIP), p.entry.sessionId;
            && st'.keys == st.keys[id := FinalRecord(p, Placeholder(p, now), created, podIP)]
            && SortedSet.Scores(st'.expiry) == SortedSet.Scores(st.expiry)[id := Unix(Placeholder(p, now).expiresAt)]
            && SortedSet.Scores(st'.activity) == SortedSet.Scores(st.activity)[id := Unix(now)]
  {
    StoredSpec(st, Placeholder(p, now), now);
  }

  // A rollback finds the final record exactly if the commit was tried and took effect, and the placeholder
  // otherwise, unless there was a record before.
  lemma {:induction false} BeforeRollbackHolds(st: State, p: Plan, now: Time, env: Surroundings)
    ensures var st', id := BeforeRollback(st, p, now, env), p.entry.sessionId;
            && st'.keys == (if env.Commits() && (env.updateOk || env.updateApplied)
                            then st.keys[id := FinalRecord(p, Placeholder(p, now), env.ready.value, env.podIP.value)]
                            else map[id := Placeholder(p, now)] + st.keys)
            && SortedSet.Scores(st'.expiry) == SortedSet.Scores(st.expiry)[id := Unix(Placeholder(p, now).expiresAt)]
            && SortedSet.Scores(st'.activity) == SortedSet.Scores(st.activity)[id := Unix(now)]
  {
    StoredSpec(st, Placeholder(p, now), now);
  }

  // A rollback erases the session, however far its creation had come.
  lemma {:induction false} RollbackForgets(st: State, p: Plan, now: Time, env: Surroundings)
    requires st.Valid()
    ensures Erased(BeforeRollback(st, p, now, env), p.entry.sessionId) == Erased(st, p.entry.sessionId)
  {
    var st1 := Stored(st, Placeholder(p, now), now);
    EraseForgetsStore(st, Placeholder(p, now), now);
    assert BeforeRollback(st, p, now, env).keys - {p.entry.sessionId} == st1.keys - {p.entry.sessionId};
  }

  // So if the session was new, the store is as it was.
  lemma {:induction false} RollbackRestores(st: State, p: Plan, now: Time, env: Surroundings)
    requires Agree(st) && p.entry.sessionId !in st.keys
    ensures Erased(BeforeRollback(st, p, now, env), p.entry.sessionId) == st
  {
    RollbackForgets(st, p, now, env);
    EraseAbsent(st, p.entry.sessionId);
  }

  // The cluster after a failed creation. If the object was new and there is none, or the rollback deletes
  // it, the cluster is as it was.
  function ClusterAfterRollback(objects: set<Ref>, p: Plan, env: Surroundings): set<Ref> {
    var made := objects + (if env.ObjectMade() then {p.Target()} else {});
    if env.rollbackApplied then made - {p.Target()} else made
  }

  lemma ClusterRestored(objects: set<Ref>, p: Plan, env: Surroundings)
    requires p.Target() !in objects
    ensures ClusterAfterRollback(objects, p, env) == objects <==> env.rollbackApplied || !env.ObjectMade()
  {
  }

  // What createSandbox leaves of a store that holds its placeholder.
  function AfterCreate(st: State, p: Plan, now: Time, env: Surroundings): State {
    var st1 := Provisioned(st, p, now, env);
    if !env.AllWell() && env.eraseApplied then Erased(st1, p.entry.sessionId) else st1
  }

  function ClusterAfterCreate(cluster: set<Ref>, p: Plan, env: Surroundings): set<Ref> {
    if env.AllWell() then cluster + {p.Target()} else ClusterAfterRollback(cluster, p, env)
  }

  class Server {
    const store: RedisStore
    const cluster: GC.Cluster

    constructor (store: RedisStore, cluster: GC.Cluster)
      ensures this.store == store && this.cluster == cluster
    {
      this.store, this.cluster := store, cluster;
    }

    method CreateSandbox(p: Plan, now: Time, env: Surroundings) returns (r: CreateResult)
      requires store.cli.Value().Valid()
      modifies store.cli, cluster
      ensures r.Created? <==> env.AllWell() && Placeholder(p, now).expiresAt != 0
      ensures r.Created? ==>
        && store.cli.Value() == Committed(old(store.cli.Value()), p, now, env.ready.value, env.podIP.value)
        && cluster.objects == old(cluster.objects) + {p.Target()}
        && r.response == ResponseOf(p, FinalRecord(p, Placeholder(p, now), env.ready.value, env.podIP.value))
        && Announces(r.response, p, env.ready.value, env.podIP.value)
      // In one formula, once the placeholder is stored.
      ensures env.storeOk && Placeholder(p, now).expiresAt != 0 ==>
        && store.cli.Value() == AfterCreate(Stored(old(store.cli.Value()), Placeholder(p, now), now), p, now, env)
        && cluster.objects == ClusterAfterCreate(old(cluster.objects), p, env)
      // If storing the placeholder fails there is no rollback; a placeholder stored all the same stays.
      ensures r.Refused? ==> (r.error.StoreFailed? <==> !env.storeOk || Placeholder(p, now).expiresAt == 0)
      ensures r.Refused? && r.error.StoreFailed? ==>
        && cluster.objects == old(cluster.objects)
        && store.cli.Value() == if !env.storeOk && env.storeApplied && Placeholder(p, now).expiresAt != 0
                                then Stored(old(store.cli.Value()), Placeholder(p, now), now)
                                else old(store.cli.Value())
      // After any later error the session is erased and the object deleted, as far as the rollback can.
      ensures r.Refused? && !r.error.StoreFailed? ==>
        && store.cli.Value() == (if env.eraseApplied then Erased(old(store.cli.Value()), p.entry.sessionId)
                                 else BeforeRollback(old(store.cli.Value()), p, now, env))
        && cluster.objects == ClusterAfterRollback(old(cluster.objects), p, env)
      // So for a new session ID and object name everything is as it was, except what the rollback could not delete.
      ensures r.Refused? && !r.error.StoreFailed? && env.eraseApplied ==>
        Agree(old(store.cli.Value())) && p.entry.sessionId !in old(store.cli.keys) ==>
          store.cli.Value() == old(store.cli.Value())
      ensures r.Refused? && p.Target() !in old(cluster.objects) && (env.rollbackApplied || !env.ObjectMade()) ==>
        cluster.objects == old(cluster.objects)
    {
      var placeholder := Placeholder(p, now);
      if !env.storeOk {
        if env.storeApplied { var lost := store.StoreSandbox(Some(placeholder), now); }
        return Refused(StoreFailed);
      }
      var stored := store.StoreSandbox(Some(placeholder), now);
      if stored.Err? { return Refused(StoreFailed); }

      // From here on the rollback is armed, until everything has gone well.
      r := Provision(p, now, env);
      if r.Refused? {
        Rollback(p, env.rollbackApplied, env.eraseApplied);
        RollbackForgets(old(store.cli.Value()), p, now, env);
        if Agree(old(store.cli.Value())) && p.entry.sessionId !in old(store.cli.keys) {
          RollbackRestores(old(store.cli.Value()), p, now, env);
        }
        if p.Target() !in old(cluster.objects) { ClusterRestored(old(cluster.objects), p, env); }
      }
    }

    // createSandbox from the stored placeholder to the commit.
    method Provision(p: Plan, now: Time, env: Surroundings) returns (r: CreateResult)
      requires env.storeOk && p.entry.sessionId in store.cli.keys
      modifies store.cli, cluster
      ensures store.cli.Value() == Provisioned(old(store.cli.Value()), p, now, env)
      ensures cluster.objects == old(cluster.objects) + (if env.ObjectMade() then {p.Target()} else {})
      ensures r.Created? <==> env.AllWell()
      ensures r.Created? ==>
        && r.response == ResponseOf(p, FinalRecord(p, Placeholder(p, now), env.ready.value, env.podIP.value))
        && Announces(r.response, p, env.ready.value, env.podIP.value)
      ensures r.Refused? ==> !r.error.StoreFailed?
    {
      if env.createOk || env.createApplied {
        cluster.objects := cluster.objects + {p.Target()};
      }
      if !env.createOk { return Refused(CreateFailed); }
      if env.ready.None? { return Refused(NotReady); }
      if env.podIP.None? { return Refused(NoPodIP); }
      if !env.entryPointsOk { return Refused(EntryPointsDown); }

      var info := BuildSandboxInfo(env.ready.value, env.podIP.value, p.entry);
      if p.claim.Some? {
        var placeholder := Placeholder(p, now);
        info := info.(name := p.claim.value.name, namespace := p.claim.value.namespace,
                      expiresAt := placeholder.expiresAt, createdAt := placeholder.createdAt);
      }
      if env.updateOk || env.updateApplied {
        var updated := store.UpdateSandbox(Some(info));
      }
      if !env.updateOk { return Refused(UpdateFailed); }
      r := Created(Response(info.kind, p.entry.sessionId, info.sandboxId, info.name, info.entryPoints,
                            p.entry.ownerId));
    }

    // Goes on to the store whatever the cluster answers, and reports nothing.
    method Rollback(p: Plan, applied: bool, erased: bool)
      modifies store.cli, cluster
      ensures store.cli.Value() ==
        if erased then Erased(old(store.cli.Value()), p.entry.sessionId) else old(store.cli.Value())
      ensures cluster.objects == if applied then old(cluster.objects) - {p.Target()} else old(cluster.objects)
    {
      var target := if p.claim.Some? then p.claim.value else Ref(Sandbox, p.sandbox.namespace, p.sandbox.name);
      var ok := cluster.Delete(target, if applied then {} else {target}, {});
      if erased { store.DeleteSandboxBySessionID(p.entry.sessionId); }
    }

    method HandleDeleteSandbox(id: string, calls: DeleteCalls) returns (r: DeleteResult)
      modifies store.cli, cluster
      ensures r.UnknownSession? <==> calls.getOk && id !in old(store.cli.keys)
      ensures r.Unauthorized? <==> calls.getOk && id in old(store.cli.keys) && !calls.clientOk
      ensures r.Deleted? <==>
        calls.getOk && id in old(store.cli.keys) && calls.clientOk && calls.deleteOk && calls.eraseOk
      // The object the record names goes if the cluster delete is made and takes effect, error or not.
      ensures cluster.objects ==
        if calls.getOk && id in old(store.cli.keys) && calls.clientOk && (calls.deleteOk || calls.deleteApplied)
        then old(cluster.objects) - {old(store.cli.keys)[id].Target()} else old(cluster.objects)
      // The record goes only after a cluster delete that was answered with success.
      ensures store.cli.Value() ==
        if calls.getOk && id in old(store.cli.keys) && calls.clientOk && calls.deleteOk
           && (calls.eraseOk || calls.eraseApplied)
        then Erased(old(store.cli.Value()), id) else old(store.cli.Value())
    {
      if !calls.getOk { return InternalError; }
      var sandbox := store.GetSandboxBySessionID(id);
      if sandbox.Err? { return UnknownSession; }
      if !calls.clientOk { return Unauthorized; }
      var target := sandbox.value.Target();
      var ok := cluster.Delete(target, if calls.deleteOk then {} else {target},
                               if calls.deleteApplied then {target} else {});
      if !ok { return InternalError; }
      if calls.eraseOk || calls.eraseApplied { store.DeleteSandboxBySessionID(id); }
      if !calls.eraseOk { return InternalError; }
      return Deleted;
    }
  }

  lemma SameSession(p: Plan, now: Time, created: SandboxObject, podIP: string)
    requires p.WellBuilt() && ReadBack(p, created)
    ensures var ph := Placeholder(p, now);
            var fin := FinalRecord(p, ph, created, podIP);
            && fin.sessionId == ph.sessionId == p.entry.sessionId
            && Unix(fin.expiresAt) == Unix(ph.expiresAt)
            && fin.Target() == p.Target()
            && Persisted(fin) == fin && Persisted(ph) == ph
  {
    CommitConserves(p, now, created, podIP);
  }

  // Creating a session and deleting it again leaves the store as it was, and the delete names the
  // object that was created, so the cluster is as it was too.
  lemma {:induction false} DeleteUndoesCreate(st: State, p: Plan, now: Time, created: SandboxObject, podIP: string)
    requires Agree(st) && p.WellBuilt() && ReadBack(p, created) && p.entry.sessionId !in st.keys
    ensures var st' := Committed(st, p, now, created, podIP);
            && p.entry.sessionId in st'.keys
            && st'.keys[p.entry.sessionId].Target() == p.Target()
            && Agree(st')
            && Erased(st', p.entry.sessionId) == st
  {
    var ph := Placeholder(p, now);
    var fin := FinalRecord(p, ph, created, podIP);
    SameSession(p, now, created, podIP);
    StoredAgreesIff(st, ph, now);
    UpdatedAgreesIff(Stored(st, ph, now), fin);
    EraseUndoesStore(st, ph, now);
    assert Updated(Stored(st, ph, now), fin).keys - {ph.sessionId} == Stored(st, ph, now).keys - {ph.sessionId};
  }

  // ---- The protocol's acts are the store's commands ----

  // What the protocol keeps for a session is what the store holds under its ID.
  ghost predicate Shows(st: State, id: string, m: Lifecycle.Session) {
    && m.plan.entry.sessionId == id
    && (exists now :: m.placeholder == Placeholder(m.plan, now))
    && m.record == (if id in st.keys then Some(st.keys[id]) else None)
    && m.expiry == (if id in SortedSet.Scores(st.expiry) then Some(SortedSet.Scores(st.expiry)[id]) else None)
    && m.activity == (if id in SortedSet.Scores(st.activity) then Some(SortedSet.Scores(st.activity)[id]) else None)
  }

  // Next is partial; this is the session after three acts.
  function Next3(m: Lifecycle.Session, a: Lifecycle.Act, b: Lifecycle.Act, c: Lifecycle.Act): Lifecycle.Session
    requires Lifecycle.CanAct(m, a) && Lifecycle.CanAct(Lifecycle.Next(m, a), b)
    requires Lifecycle.CanAct(Lifecycle.Next(Lifecycle.Next(m, a), b), c)
  {
    Lifecycle.Next(Lifecycle.Next(Lifecycle.Next(m, a), b), c)
  }

  // StoreSandbox is SetKey, AddExpiry, AddActivity.
  lemma {:induction false} StoreIsThreeActs(st: State, id: string, m: Lifecycle.Session, now: Time)
    requires st.Valid() && Shows(st, id, m) && m.pc.Planned?
    ensures Shows(Stored(st, m.placeholder, now), id,
                  Next3(m, Lifecycle.SetKey, Lifecycle.AddExpiry, Lifecycle.AddActivity(now)))
  {
    SortedSet.AddSpec(st.expiry, Unix(m.placeholder.expiresAt), id);
    SortedSet.AddSpec(st.activity, Unix(now), id);
  }

  // UpdateSandbox is Commit, with the same answer.
  lemma {:induction false} UpdateIsCommit(st: State, id: string, m: Lifecycle.Session, created: SandboxObject,
                                          podIP: string)
    requires Shows(st, id, m) && m.plan.WellBuilt() && m.pc.Created? && ReadBack(m.plan, created)
    ensures var fin := Lifecycle.Final(m, created, podIP);
            var m' := Lifecycle.Next(m, Lifecycle.Commit(created, podIP));
            && Shows(Updated(st, fin), id, m')
            && (UpdateResult(st, Some(fin)).Ok? <==> m'.pc.Committed?)
  {
    var now :| m.placeholder == Placeholder(m.plan, now);
    SameSession(m.plan, now, created, podIP);
  }

  // DeleteSandboxBySessionID is the last three acts of a rollback ...
  lemma {:induction false} EraseIsRollback(st: State, id: string, m: Lifecycle.Session)
    requires st.Valid() && Shows(st, id, m) && m.pc.ObjectDropped?
    ensures Shows(Erased(st, id), id, Next3(m, Lifecycle.DropKey, Lifecycle.DropExpiry, Lifecycle.DropActivity))
  {
    SortedSet.RemoveSpec(st.expiry, id);
    SortedSet.RemoveSpec(st.activity, id);
  }

  // ... and of a remover.
  lemma {:induction false} EraseIsRemoval(st: State, id: string, m: Lifecycle.Session, r: nat)
    requires st.Valid() && Shows(st, id, m) && Lifecycle.RemoverAt(m, r, Lifecycle.ObjectGone)
    ensures var m1 := Lifecycle.Next(m, Lifecycle.DeleteKey(r));
            Lifecycle.CanAct(m1, Lifecycle.DeleteExpiry(r)) &&
            var m2 := Lifecycle.Next(m1, Lifecycle.DeleteExpiry(r));
            Lifecycle.CanAct(m2, Lifecycle.DeleteActivity(r)) &&
            Shows(Erased(st, id), id, Lifecycle.Next(m2, Lifecycle.DeleteActivity(r)))
  {
    RemovalActs(m, r);
    SortedSet.RemoveSpec(st.expiry, id);
    SortedSet.RemoveSpec(st.activity, id);
  }

  lemma RemovalActs(m: Lifecycle.Session, r: nat)
    requires Lifecycle.RemoverAt(m, r, Lifecycle.ObjectGone)
    ensures var m1 := Lifecycle.Next(m, Lifecycle.DeleteKey(r));
            Lifecycle.CanAct(m1, Lifecycle.DeleteExpiry(r)) &&
            var m2 := Lifecycle.Next(m1, Lifecycle.DeleteExpiry(r));
            Lifecycle.CanAct(m2, Lifecycle.DeleteActivity(r)) &&
            var m3 := Lifecycle.Next(m2, Lifecycle.DeleteActivity(r));
            m3 == m.(record := None, expiry := None, activity := None, removers := m3.removers)
  {
  }

  // UpdateSessionLastActivity is Touch; it is answered with success exactly if there is a record to touch.
  lemma {:induction false} TouchIsTouch(st: State, id: string, m: Lifecycle.Session, at: Time)
    requires st.Valid() && Shows(st, id, m)
    ensures Shows(Touched(st, id, at), id, Lifecycle.Next(m, Lifecycle.Touch(at)))
    ensures TouchResult(st, id).Ok? <==> id != "" && m.record.Some?
  {
    SortedSet.AddSpec(st.activity, Unix(at), id);
  }

  // ---- The handlers are runs of the protocol ----

  predicate CanActAll(m: Lifecycle.Session, acts: seq<Lifecycle.Act>)
    decreases acts
  {
    acts == [] || (Lifecycle.CanAct(m, acts[0]) && CanActAll(Lifecycle.Next(m, acts[0]), acts[1..]))
  }

  function NextAll(m: Lifecycle.Session, acts: seq<Lifecycle.Act>): Lifecycle.Session
    requires CanActAll(m, acts)
    decreases acts
  {
    if acts == [] then m else NextAll(Lifecycle.Next(m, acts[0]), acts[1..])
  }

  function ClusterAll(cluster: set<Ref>, m: Lifecycle.Session, acts: seq<Lifecycle.Act>): set<Ref>
    requires CanActAll(m, acts)
    decreases acts
  {
    if acts == [] then cluster
    else ClusterAll(Lifecycle.ClusterAfter(cluster, m, acts[0]), Lifecycle.Next(m, acts[0]), acts[1..])
  }

  lemma {:induction false} ActsAppend(cluster: set<Ref>, m: Lifecycle.Session, a: seq<Lifecycle.Act>,
                                      b: seq<Lifecycle.Act>)
    requires CanActAll(m, a) && CanActAll(NextAll(m, a), b)
    ensures CanActAll(m, a + b) && NextAll(m, a + b) == NextAll(NextAll(m, a), b)
    ensures ClusterAll(cluster, m, a + b) == ClusterAll(ClusterAll(cluster, m, a), NextAll(m, a), b)
    decreases a
  {
    if a == [] {
      assert a + b == b;
    } else {
      assert (a + b)[1..] == a[1..] + b;
      ActsAppend(Lifecycle.ClusterAfter(cluster, m, a[0]), Lifecycle.Next(m, a[0]), a[1..], b);
    }
  }

  lemma {:induction false} OneAct(cluster: set<Ref>, m: Lifecycle.Session, a: Lifecycle.Act)
    requires Lifecycle.CanAct(m, a)
    ensures CanActAll(m, [a]) && NextAll(m, [a]) == Lifecycle.Next(m, a)
    ensures ClusterAll(cluster, m, [a]) == Lifecycle.ClusterAfter(cluster, m, a)
  {
    var none, m' := [a][1..], Lifecycle.Next(m, a);
    assert none == [] && NextAll(m', none) == m';
    assert ClusterAll(Lifecycle.ClusterAfter(cluster, m, a), m', none) == Lifecycle.ClusterAfter(cluster, m, a);
  }

  lemma {:induction false} ThreeActs(cluster: set<Ref>, m: Lifecycle.Session, a: Lifecycle.Act, b: Lifecycle.Act,
                                     c: Lifecycle.Act)
    requires Lifecycle.CanAct(m, a) && Lifecycle.CanAct(Lifecycle.Next(m, a), b)
    requires Lifecycle.CanAct(Lifecycle.Next(Lifecycle.Next(m, a), b), c)
    ensures CanActAll(m, [a, b, c]) && NextAll(m, [a, b, c]) == Next3(m, a, b, c)
    ensures ClusterAll(cluster, m, [a, b, c]) ==
            Lifecycle.ClusterAfter(
              Lifecycle.ClusterAfter(Lifecycle.ClusterAfter(cluster, m, a), Lifecycle.Next(m, a), b),
              Lifecycle.Next(Lifecycle.Next(m, a), b), c)
  {
    OneAct(cluster, m, a);
    var m1, cl1 := Lifecycle.Next(m, a), Lifecycle.ClusterAfter(cluster, m, a);
    OneAct(cl1, m1, b);
    var m2, cl2 := Lifecycle.Next(m1, b), Lifecycle.ClusterAfter(cl1, m1, b);
    OneAct(cl2, m2, c);
    ActsAppend(cl1, m1, [b], [c]);
    ActsAppend(cluster, m, [a], [b] + [c]);
    assert [a] + ([b] + [c]) == [a, b, c];
  }

  // The acts of createSandbox once StoreSandbox has returned, for every outcome of its calls.
  function CreateActs(env: Surroundings): seq<Lifecycle.Act> {
    if !env.createOk then [Lifecycle.CreateError(env.createApplied)] + RollbackActs(env)
    else if !env.Commits() then [Lifecycle.CreateOk] + ([Lifecycle.GiveUp] + RollbackActs(env))
    else if env.updateOk then [Lifecycle.CreateOk] + [Lifecycle.Commit(env.ready.value, env.podIP.value)]
    else [Lifecycle.CreateOk]
         + ([Lifecycle.CommitError(env.ready.value, env.podIP.value, env.updateApplied)] + RollbackActs(env))
  }

  function RollbackActs(env: Surroundings): seq<Lifecycle.Act> {
    [Lifecycle.DropObject(env.rollbackApplied)] +
    (if env.eraseApplied then [Lifecycle.DropKey, Lifecycle.DropExpiry, Lifecycle.DropActivity] else [])
  }

  lemma {:induction false} RollbackIsRun(st: State, cluster: set<Ref>, id: string, m: Lifecycle.Session,
                                         env: Surroundings)
    requires st.Valid() && Shows(st, id, m) && m.pc.RollingBack?
    ensures CanActAll(m, RollbackActs(env))
    ensures Shows(if env.eraseApplied then Erased(st, id) else st, id, NextAll(m, RollbackActs(env)))
    ensures !NextAll(m, RollbackActs(env)).pc.Committed?
    ensures ClusterAll(cluster, m, RollbackActs(env)) ==
            if env.rollbackApplied then cluster - {m.plan.Target()} else cluster
  {
    var drop := Lifecycle.DropObject(env.rollbackApplied);
    OneAct(cluster, m, drop);
    var m1 := Lifecycle.Next(m, drop);
    if env.eraseApplied {
      ThreeActs(Lifecycle.ClusterAfter(cluster, m, drop), m1, Lifecycle.DropKey, Lifecycle.DropExpiry,
                Lifecycle.DropActivity);
      EraseIsRollback(st, id, m1);
      ActsAppend(cluster, m, [drop], [Lifecycle.DropKey, Lifecycle.DropExpiry, Lifecycle.DropActivity]);
    } else {
      assert [drop] + [] == [drop];
    }
  }

  // The session stands where StoreSandbox has returned, and the cluster answers with the sandbox it was asked for.
  ghost predicate Provisionable(st: State, id: string, m: Lifecycle.Session, now: Time, env: Surroundings) {
    && st.Valid() && Shows(st, id, m) && m.pc.Stored? && m.record.Some? && m.plan.WellBuilt()
    && m.placeholder == Placeholder(m.plan, now)
    && env.storeOk && (env.ready.Some? ==> ReadBack(m.plan, env.ready.value))
  }

  ghost predicate RunsTo(m: Lifecycle.Session, cluster: set<Ref>, acts: seq<Lifecycle.Act>, st: State, id: string,
                         cluster': set<Ref>, committed: bool) {
    && CanActAll(m, acts)
    && Shows(st, id, NextAll(m, acts))
    && ClusterAll(cluster, m, acts) == cluster'
    && NextAll(m, acts).pc.Committed? == committed
  }

  lemma {:induction false} RunsOn(m: Lifecycle.Session, cluster: set<Ref>, a: Lifecycle.Act, acts: seq<Lifecycle.Act>,
                                  st: State, id: string, cluster': set<Ref>, committed: bool)
    requires Lifecycle.CanAct(m, a)
    requires RunsTo(Lifecycle.Next(m, a), Lifecycle.ClusterAfter(cluster, m, a), acts, st, id, cluster', committed)
    ensures RunsTo(m, cluster, [a] + acts, st, id, cluster', committed)
  {
    OneAct(cluster, m, a);
    ActsAppend(cluster, m, [a], acts);
  }

  lemma {:induction false} FailedCreateIsRun(st: State, cluster: set<Ref>, id: string, m: Lifecycle.Session, now: Time,
                                             env: Surroundings)
    requires Provisionable(st, id, m, now, env) && !env.createOk
    ensures RunsTo(m, cluster, CreateActs(env), AfterCreate(st, m.plan, now, env), id,
                   ClusterAfterCreate(cluster, m.plan, env), false)
  {
    var a := Lifecycle.CreateError(env.createApplied);
    RollbackIsRun(st, Lifecycle.ClusterAfter(cluster, m, a), id, Lifecycle.Next(m, a), env);
    RunsOn(m, cluster, a, RollbackActs(env), AfterCreate(st, m.plan, now, env), id,
           ClusterAfterCreate(cluster, m.plan, env), false);
  }

  // From the created object on: m is the session after CreateOk, cluster holds the object.
  lemma {:induction false} GiveUpIsRun(st: State, cluster: set<Ref>, id: string, m: Lifecycle.Session,
                                       env: Surroundings)
    requires st.Valid() && Shows(st, id, m) && m.pc.Created?
    ensures RunsTo(m, cluster, [Lifecycle.GiveUp] + RollbackActs(env),
                   if env.eraseApplied then Erased(st, id) else st, id,
                   if env.rollbackApplied then cluster - {m.plan.Target()} else cluster, false)
  {
    RollbackIsRun(st, cluster, id, Lifecycle.Next(m, Lifecycle.GiveUp), env);
    RunsOn(m, cluster, Lifecycle.GiveUp, RollbackActs(env), if env.eraseApplied then Erased(st, id) else st, id,
           if env.rollbackApplied then cluster - {m.plan.Target()} else cluster, false);
  }

  // A commit that is answered with an error is Updated if it took effect.
  lemma {:induction false} UpdateIsCommitError(st: State, id: string, m: Lifecycle.Session, created: SandboxObject,
                                               podIP: string, applied: bool)
    requires Shows(st, id, m) && m.plan.WellBuilt() && m.pc.Created? && ReadBack(m.plan, created)
    ensures Shows(if applied then Updated(st, Lifecycle.Final(m, created, podIP)) else st, id,
                  Lifecycle.Next(m, Lifecycle.CommitError(created, podIP, applied)))
  {
    var now :| m.placeholder == Placeholder(m.plan, now);
    SameSession(m.plan, now, created, podIP);
  }

  lemma {:induction false} FailedCommitIsRun(st: State, cluster: set<Ref>, id: string, m: Lifecycle.Session,
                                             env: Surroundings)
    requires st.Valid() && Shows(st, id, m) && m.pc.Created? && m.plan.WellBuilt() && m.record.Some?
    requires env.ready.Some? && env.podIP.Some? && ReadBack(m.plan, env.ready.value)
    ensures var a := Lifecycle.CommitError(env.ready.value, env.podIP.value, env.updateApplied);
            var fin := Lifecycle.Final(m, env.ready.value, env.podIP.value);
            var st1 := if env.updateApplied then Updated(st, fin) else st;
            RunsTo(m, cluster, [a] + RollbackActs(env), if env.eraseApplied then Erased(st1, id) else st1, id,
                   if env.rollbackApplied then cluster - {m.plan.Target()} else cluster, false)
  {
    var a := Lifecycle.CommitError(env.ready.value, env.podIP.value, env.updateApplied);
    var st1 := if env.updateApplied then Updated(st, Lifecycle.Final(m, env.ready.value, env.podIP.value)) else st;
    UpdateIsCommitError(st, id, m, env.ready.value, env.podIP.value, env.updateApplied);
    RollbackIsRun(st1, cluster, id, Lifecycle.Next(m, a), env);
    RunsOn(m, cluster, a, RollbackActs(env), if env.eraseApplied then Erased(st1, id) else st1, id,
           if env.rollbackApplied then cluster - {m.plan.Target()} else cluster, false);
  }

  lemma {:induction false} GoodCommitIsRun(st: State, cluster: set<Ref>, id: string, m: Lifecycle.Session,
                                           env: Surroundings)
    requires Shows(st, id, m) && m.pc.Created? && m.plan.WellBuilt() && m.record.Some?
    requires env.ready.Some? && env.podIP.Some? && ReadBack(m.plan, env.ready.value)
    ensures RunsTo(m, cluster, [Lifecycle.Commit(env.ready.value, env.podIP.value)],
                   Updated(st, Lifecycle.Final(m, env.ready.value, env.podIP.value)), id, cluster, true)
  {
    var a := Lifecycle.Commit(env.ready.value, env.podIP.value);
    OneAct(cluster, m, a);
    UpdateIsCommit(st, id, m, env.ready.value, env.podIP.value);
  }

  // From the placeholder on, createSandbox is such a run of acts, with the store, the cluster and the answer it leaves.
  lemma {:induction false} ProvisionIsRun(st: State, cluster: set<Ref>, id: string, m: Lifecycle.Session, now: Time,
                                          env: Surroundings)
    requires Provisionable(st, id, m, now, env)
    ensures RunsTo(m, cluster, CreateActs(env), AfterCreate(st, m.plan, now, env), id,
                   ClusterAfterCreate(cluster, m.plan, env), env.AllWell())
  {
    if !env.createOk {
      FailedCreateIsRun(st, cluster, id, m, now, env);
    } else {
      var m1, cl1 := Lifecycle.Next(m, Lifecycle.CreateOk), cluster + {m.plan.Target()};
      assert Shows(st, id, m1);
      var rest := CreateActs(env)[1..];
      if !env.Commits() {
        assert CreateActs(env)[1..] == [Lifecycle.GiveUp] + RollbackActs(env);
        GiveUpIsRun(st, cl1, id, m1, env);
      } else if env.updateOk {
        assert CreateActs(env)[1..] == [Lifecycle.Commit(env.ready.value, env.podIP.value)];
        GoodCommitIsRun(st, cl1, id, m1, env);
      } else {
        FailedCommitIsRun(st, cl1, id, m1, env);
      }
      assert CreateActs(env) == [Lifecycle.CreateOk] + rest;
      RunsOn(m, cluster, Lifecycle.CreateOk, rest, AfterCreate(st, m.plan, now, env), id,
             ClusterAfterCreate(cluster, m.plan, env), env.AllWell());
    }
  }

  // createSandbox, run alone, is a run of the protocol: whatever its calls answer, its acts one after the other lead
  // to the store, the cluster and the answer it leaves.
  lemma {:induction false} CreateIsRun(st: State, cluster: set<Ref>, id: string, m: Lifecycle.Session, now: Time,
                                       env: Surroundings)
    requires st.Valid() && Shows(st, id, m) && m.pc.Planned? && m.plan.WellBuilt()
    requires m.placeholder == Placeholder(m.plan, now) && env.storeOk
    requires env.ready.Some? ==> ReadBack(m.plan, env.ready.value)
    ensures RunsTo(m, cluster, [Lifecycle.SetKey, Lifecycle.AddExpiry, Lifecycle.AddActivity(now)] + CreateActs(env),
                   AfterCreate(Stored(st, m.placeholder, now), m.plan, now, env), id,
                   ClusterAfterCreate(cluster, m.plan, env), env.AllWell())
  {
    var a, b, c := Lifecycle.SetKey, Lifecycle.AddExpiry, Lifecycle.AddActivity(now);
    var m1, st1 := Next3(m, a, b, c), Stored(st, m.placeholder, now);
    StoreIsThreeActs(st, id, m, now);
    ThreeActs(cluster, m, a, b, c);
    SortedSet.AddSpec(st.expiry, Unix(m.placeholder.expiresAt), id);
    SortedSet.AddSpec(st.activity, Unix(now), id);
    ProvisionIsRun(st1, cluster, id, m1, now, env);
    ActsAppend(cluster, m, [a, b, c], CreateActs(env));
  }

  // The acts of handleDeleteSandbox for a session it found, as remover r.
  function DeleteActs(calls: DeleteCalls, r: nat): seq<Lifecycle.Act> {
    [Lifecycle.Select(r)] +
    (if !calls.deleteOk then [Lifecycle.DeleteError(r, calls.deleteApplied)]
     else [Lifecycle.DeleteObject(r)] +
          (if calls.eraseOk || calls.eraseApplied
           then [Lifecycle.DeleteKey(r), Lifecycle.DeleteExpiry(r), Lifecycle.DeleteActivity(r)] else []))
  }

  // So is handleDeleteSandbox.
  lemma {:induction false} DeleteIsRun(st: State, cluster: set<Ref>, id: string, m: Lifecycle.Session,
                                       calls: DeleteCalls, r: nat)
    requires st.Valid() && Shows(st, id, m) && id in st.keys && r !in m.removers
    ensures RunsTo(m, cluster, DeleteActs(calls, r),
                   if calls.deleteOk && (calls.eraseOk || calls.eraseApplied) then Erased(st, id) else st, id,
                   if calls.deleteOk || calls.deleteApplied then cluster - {st.keys[id].Target()} else cluster,
                   m.pc.Committed?)
  {
    var select := Lifecycle.Select(r);
    var m1, st' := Lifecycle.Next(m, select), if calls.deleteOk && (calls.eraseOk || calls.eraseApplied)
                                              then Erased(st, id) else st;
    var cluster' := if calls.deleteOk || calls.deleteApplied then cluster - {st.keys[id].Target()} else cluster;
    var rest := DeleteActs(calls, r)[1..];
    assert DeleteActs(calls, r) == [select] + rest;
    if !calls.deleteOk {
      assert rest == [Lifecycle.DeleteError(r, calls.deleteApplied)];
      OneAct(cluster, m1, Lifecycle.DeleteError(r, calls.deleteApplied));
    } else {
      RemovalIsRun(st, cluster', id, Lifecycle.Next(m1, Lifecycle.DeleteObject(r)), r,
                   calls.eraseOk || calls.eraseApplied);
      RunsOn(m1, cluster, Lifecycle.DeleteObject(r), rest[1..], st', id, cluster', m.pc.Committed?);
      assert rest == [Lifecycle.DeleteObject(r)] + rest[1..];
    }
    RunsOn(m, cluster, select, rest, st', id, cluster', m.pc.Committed?);
  }

  // The store's part of it.
  lemma {:induction false} RemovalIsRun(st: State, cluster: set<Ref>, id: string, m: Lifecycle.Session, r: nat,
                                        erased: bool)
    requires st.Valid() && Shows(st, id, m) && Lifecycle.RemoverAt(m, r, Lifecycle.ObjectGone)
    ensures var acts := if erased then [Lifecycle.DeleteKey(r), Lifecycle.DeleteExpiry(r), Lifecycle.DeleteActivity(r)]
                        else [];
            RunsTo(m, cluster, acts, if erased then Erased(st, id) else st, id, cluster, m.pc.Committed?)
  {
    if erased {
      EraseIsRemoval(st, id, m, r);
      ThreeActs(cluster, m, Lifecycle.DeleteKey(r), Lifecycle.DeleteExpiry(r), Lifecycle.DeleteActivity(r));
    }
  }
}
