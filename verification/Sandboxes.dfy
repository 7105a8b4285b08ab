/** Session records and the objects they stand for: how a create request is turned into
    a Sandbox or SandboxClaim, a placeholder record and, at commit, a final record. */
module Sandboxes {

  datatype Option<+T> = None | Some(value: T)

  // ---- Time ----

  // Nanoseconds since year 1, so that 0 is Go's zero time.
  type Time = int

  const SECOND: int := 1_000_000_000
  const MINUTE: int := 60 * SECOND
  const UNIX_EPOCH: int := 62_135_596_800
  const DEFAULT_TTL: int := 8 * 60 * MINUTE
  const DEFAULT_IDLE_TIMEOUT: int := 15 * MINUTE

  // Time.Unix: whole seconds, rounded down.
  function Unix(t: Time): int { t / SECOND - UNIX_EPOCH }

  function FromUnix(s: int): Time { (s + UNIX_EPOCH) * SECOND }

  // What a time becomes when it travels through the cluster API, which keeps seconds only.
  function Truncate(t: Time): Time { FromUnix(Unix(t)) }

  lemma UnixBounds(t: Time)
    ensures Truncate(t) <= t < Truncate(t) + SECOND
    ensures Unix(Truncate(t)) == Unix(t)
  {
    assert t == (t / SECOND) * SECOND + t % SECOND;
    assert Truncate(t) / SECOND == t / SECOND;
  }

  lemma UnixMonotone(s: Time, t: Time)
    requires s <= t
    ensures Unix(s) <= Unix(t)
  {
    UnixBounds(s);
    UnixBounds(t);
  }

  // ---- Records ----

  datatype Kind = Sandbox | SandboxClaim

  // The cluster object a delete call names.
  datatype Ref = Ref(kind: Kind, namespace: string, name: string)

  datatype Port = Port(pathPrefix: string, protocol: string, number: int)

  datatype EntryPoint = EntryPoint(path: string, protocol: string, host: string, port: int)

  datatype Info = Info(
    kind: Kind,
    sandboxId: string,
    namespace: string,
    name: string,
    entryPoints: seq<EntryPoint>,
    sessionId: string,
    ownerId: string,
    createdAt: Time,
    expiresAt: Time,
    idleTimeout: int,
    lastActivityAt: Time,
    status: string)
  {
    function Target(): Ref { Ref(kind, namespace, name) }
  }

  // ---- Plans ----

  datatype SandboxObject = SandboxObject(
    namespace: string,
    name: string,
    uid: string,
    creationTimestamp: Time,
    shutdownTime: Option<Time>,
    ready: bool)

  datatype SessionEntry =
    SessionEntry(kind: Kind, sessionId: string, ownerId: string, ports: seq<Port>, idleTimeout: int)

  // What createSandbox is given: the object to create and the session it is for.
  datatype Plan = Plan(sandbox: SandboxObject, claim: Option<Ref>, entry: SessionEntry) {

    // The object createK8sResources asks the cluster for.
    function Target(): Ref {
      match claim
      case Some(c) => c
      case None => Ref(Sandbox, sandbox.namespace, sandbox.name)
    }

    predicate WellBuilt() {
      match claim
      case Some(c) => c == Ref(SandboxClaim, sandbox.namespace, sandbox.name) && entry.kind == SandboxClaim
      case None => entry.kind == Sandbox && sandbox.shutdownTime.Some?
    }
  }

  // The parts of an AgentRuntime or CodeInterpreter that the builders read.
  datatype Workload = Workload(
    namespace: string,
    name: string,
    maxSessionDuration: Option<int>,
    sessionTimeout: Option<int>,
    ports: seq<Port>,
    warmPoolSize: Option<int>)

  function IdleTimeoutOf(w: Workload): int {
    if w.sessionTimeout.Some? then w.sessionTimeout.value else DEFAULT_IDLE_TIMEOUT
  }

  function BuildSandboxObject(w: Workload, sandboxName: string, now: Time): SandboxObject {
    var given := if w.maxSessionDuration.Some? then w.maxSessionDuration.value else 0;
    var ttl := if given != 0 then given else DEFAULT_TTL;
    SandboxObject(w.namespace, sandboxName, "", 0, Some(now + ttl), false)
  }

  function BuildByAgentRuntime(w: Workload, ownerId: string, sessionId: string, sandboxName: string, now: Time): Plan {
    Plan(BuildSandboxObject(w, sandboxName, now), None,
         SessionEntry(Sandbox, sessionId, ownerId, w.ports, IdleTimeoutOf(w)))
  }

  function BuildByCodeInterpreter(w: Workload, ownerId: string, sessionId: string, sandboxName: string,
                                  now: Time): Plan {
    var ports := if w.ports == [] then [Port("/", "HTTP", 8080)] else w.ports;
    if w.warmPoolSize.Some? && w.warmPoolSize.value > 0 then
      var shutdown := if w.maxSessionDuration.Some? then Some(now + w.maxSessionDuration.value) else None;
      Plan(SandboxObject(w.namespace, sandboxName, "", 0, shutdown, false),
           Some(Ref(SandboxClaim, w.namespace, sandboxName)),
           SessionEntry(SandboxClaim, sessionId, ownerId, ports, IdleTimeoutOf(w)))
    else
      Plan(BuildSandboxObject(w, sandboxName, now), None,
           SessionEntry(Sandbox, sessionId, ownerId, ports, IdleTimeoutOf(w)))
  }

  // ---- Placeholder and final record ----

  function OrDefaultIdle(idle: int): int { if idle == 0 then DEFAULT_IDLE_TIMEOUT else idle }

  function Placeholder(p: Plan, now: Time): Info {
    Info(
      p.entry.kind, "", p.sandbox.namespace, p.sandbox.name, [], p.entry.sessionId, p.entry.ownerId,
      if p.sandbox.creationTimestamp == 0 then now else p.sandbox.creationTimestamp,
      if p.sandbox.shutdownTime.Some? then p.sandbox.shutdownTime.value else now + DEFAULT_TTL,
      OrDefaultIdle(p.entry.idleTimeout), 0, "creating")
  }

  function EntryPointsOf(ports: seq<Port>, podIP: string): seq<EntryPoint> {
    seq(|ports|, i requires 0 <= i < |ports| =>
      EntryPoint(ports[i].pathPrefix, ports[i].protocol, podIP, ports[i].number))
  }

  function InfoOf(created: SandboxObject, podIP: string, e: SessionEntry): Info {
    Info(
      e.kind, created.uid, created.namespace, created.name, EntryPointsOf(e.ports, podIP), e.sessionId, e.ownerId,
      created.creationTimestamp,
      if created.shutdownTime.Some? then created.shutdownTime.value else created.creationTimestamp + DEFAULT_TTL,
      OrDefaultIdle(e.idleTimeout), 0,
      if created.ready then "ready" else "not-ready")
  }

  // The record written at commit. With a claim, the adopted sandbox has its own name and
  // times, and the claim's are kept instead.
  function FinalRecord(p: Plan, placeholder: Info, created: SandboxObject, podIP: string): Info {
    var info := InfoOf(created, podIP, p.entry);
    if p.claim.Some? then
      info.(name := p.claim.value.name, namespace := p.claim.value.namespace,
            expiresAt := placeholder.expiresAt, createdAt := placeholder.createdAt)
    else
      info
  }

  // The object createSandbox waits for: any ready sandbox the claim adopted, or the very
  // sandbox that was asked for, as the cluster stored it.
  predicate ReadBack(p: Plan, created: SandboxObject) {
    created.ready &&
    (p.claim.None? ==>
      && p.sandbox.shutdownTime.Some?
      && created.namespace == p.sandbox.namespace
      && created.name == p.sandbox.name
      && created.shutdownTime == Some(Truncate(p.sandbox.shutdownTime.value)))
  }

  method BuildSandboxInfo(created: SandboxObject, podIP: string, e: SessionEntry) returns (info: Info)
    ensures info == InfoOf(created, podIP, e)
    ensures |info.entryPoints| == |e.ports|
    ensures forall i :: 0 <= i < |e.ports| ==>
              info.entryPoints[i] == EntryPoint(e.ports[i].pathPrefix, e.ports[i].protocol, podIP, e.ports[i].number)
    ensures info.status == (if created.ready then "ready" else "not-ready")
    ensures info.sandboxId == created.uid && info.createdAt == created.creationTimestamp
  {
    var expiresAt := created.creationTimestamp + DEFAULT_TTL;
    if created.shutdownTime.Some? {
      expiresAt := created.shutdownTime.value;
    }
    var accesses: seq<EntryPoint> := [];
    for i := 0 to |e.ports|
      invariant accesses == EntryPointsOf(e.ports[..i], podIP)
    {
      var port := e.ports[i];
      accesses := accesses + [EntryPoint(port.pathPrefix, port.protocol, podIP, port.number)];
    }
    assert e.ports[..|e.ports|] == e.ports;
    var idleTimeout := e.idleTimeout;
    if idleTimeout == 0 {
      idleTimeout := DEFAULT_IDLE_TIMEOUT;
    }
    info := Info(e.kind, created.uid, created.namespace, created.name, accesses, e.sessionId, e.ownerId,
                 created.creationTimestamp, expiresAt, idleTimeout, 0,
                 if created.ready then "ready" else "not-ready");
  }

  // ---- Conservation across commit ----

  // A record speaks for a plan: it names the plan's object, session and owner, and its expiry
  // falls in the second that was written to the expiry index.
  predicate SpeaksFor(r: Info, p: Plan, expirySecond: int) {
    && r.Target() == p.Target()
    && r.sessionId == p.entry.sessionId
    && r.ownerId == p.entry.ownerId
    && Unix(r.expiresAt) == expirySecond
    && r.idleTimeout == OrDefaultIdle(p.entry.idleTimeout)
  }

  lemma BuildersAgree(w: Workload, ownerId: string, sessionId: string, sandboxName: string, now: Time)
    ensures var a := BuildByAgentRuntime(w, ownerId, sessionId, sandboxName, now);
            a.WellBuilt() && a.Target() == Ref(Sandbox, w.namespace, sandboxName)
            && a.entry.sessionId == sessionId && a.entry.ownerId == ownerId
    ensures var c := BuildByCodeInterpreter(w, ownerId, sessionId, sandboxName, now);
            c.WellBuilt() && c.entry.sessionId == sessionId && c.entry.ownerId == ownerId
            && c.Target() == Ref(if w.warmPoolSize.Some? && w.warmPoolSize.value > 0 then SandboxClaim else Sandbox,
                                 w.namespace, sandboxName)
  {
  }

  // The time a workload gives decides the deadline and the idle timeout of its sessions. Zero stands for the default,
  // except that on the warm-pool path a session of duration zero is over at once.
  lemma GivenTimesDecide(w: Workload, ownerId: string, sessionId: string, sandboxName: string, now: Time, later: Time)
    ensures var a := BuildByAgentRuntime(w, ownerId, sessionId, sandboxName, now);
            && Placeholder(a, later).expiresAt == now + GivenOr(w.maxSessionDuration, DEFAULT_TTL)
            && Placeholder(a, later).idleTimeout == GivenOr(w.sessionTimeout, DEFAULT_IDLE_TIMEOUT)
            && a.entry.ports == w.ports
    ensures var c := BuildByCodeInterpreter(w, ownerId, sessionId, sandboxName, now);
            && Placeholder(c, later).expiresAt ==
                 (if c.claim.None? then now + GivenOr(w.maxSessionDuration, DEFAULT_TTL)
                  else if w.maxSessionDuration.Some? then now + w.maxSessionDuration.value else later + DEFAULT_TTL)
            && Placeholder(c, later).idleTimeout == GivenOr(w.sessionTimeout, DEFAULT_IDLE_TIMEOUT)
            && c.entry.ports == (if w.ports == [] then [Port("/", "HTTP", 8080)] else w.ports)
  {
  }

  function GivenOr(given: Option<int>, default: int): int {
    match given
    case Some(d) => if d == 0 then default else d
    case None => default
  }

  // The placeholder and the final record speak for the same plan, on both paths, so a delete
  // made from either names the object that was created and the expiry index stays right.
  lemma CommitConserves(p: Plan, now: Time, created: SandboxObject, podIP: string)
    requires p.WellBuilt() && ReadBack(p, created)
    ensures var ph := Placeholder(p, now);
            var fin := FinalRecord(p, ph, created, podIP);
            && SpeaksFor(ph, p, Unix(ph.expiresAt))
            && SpeaksFor(fin, p, Unix(ph.expiresAt))
            && fin.expiresAt == (if p.claim.Some? then ph.expiresAt else Truncate(ph.expiresAt))
            && fin.createdAt == (if p.claim.Some? then ph.createdAt else created.creationTimestamp)
            && ph.createdAt == (if p.sandbox.creationTimestamp == 0 then now else p.sandbox.creationTimestamp)
            && fin.sandboxId == created.uid && fin.status == "ready" && ph.status == "creating"
  {
    UnixBounds(Placeholder(p, now).expiresAt);
  }

  // On the direct path the sub-second part of the deadline does not survive the commit:
  // the deadline is unchanged exactly when it was a whole second.
  lemma CommitKeepsDeadlineIff(p: Plan, now: Time, created: SandboxObject, podIP: string)
    requires p.WellBuilt() && ReadBack(p, created)
    ensures var ph := Placeholder(p, now);
            FinalRecord(p, ph, created, podIP).expiresAt == ph.expiresAt
            <==> p.claim.Some? || ph.expiresAt % SECOND == 0
  {
    var t := Placeholder(p, now).expiresAt;
    assert t == (t / SECOND) * SECOND + t % SECOND;
  }
}
