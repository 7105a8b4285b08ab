/** How createSandbox waits: for the sandbox a claim adopts, in a polling loop, and for the entry points
    of the sandbox. The answers of the cluster and the state of the contexts are parameters, one round of
    the loop at a time; a loop that is given no further round is still waiting. */
module Waiting {
  import opened Sandboxes

  // The state of the context of the wait: running, ended by the creation timeout, or ended by the request.
  datatype Context = Running | TimedOut | Cancelled

  // isContextError and isRetryableSandboxReadError: how the error of a read is taken.
  datatype Read<T> = Got(value: T) | ContextError | Transient | Permanent

  // What a round of the loop meets, in order: the claim and the context after reading it, the sandbox it
  // names and the context after reading that, the context when the sandbox is found ready, and the context
  // the select at the end of the round wakes up for.
  datatype Round = Round(
    claim: Read<string>, afterClaim: Context,
    sandbox: Read<SandboxObject>, afterSandbox: Context,
    whenReady: Context,
    wake: Context)

  datatype Answer = Adopted(sandbox: SandboxObject) | CreationTimeout | RequestEnded | Internal

  datatype Outcome = Answered(answer: Answer) | StillWaiting

  // sandboxReadyWaitContextError: the creation timeout comes before the end of the request.
  function ContextAnswer(c: Context): Option<Answer> {
    match c
    case Running => None
    case TimedOut => Some(CreationTimeout)
    case Cancelled => Some(RequestEnded)
  }

  // ---- What a round decides ----

  // What the context and a failed read decide; None if the loop goes on.
  function ReadDecides<T>(r: Read<T>, c: Context): Option<Answer> {
    if c != Running then ContextAnswer(c)
    else match r
      case ContextError => Some(RequestEnded)
      case Permanent => Some(Internal)
      case _ => None
  }

  predicate Names(r: Round) { r.claim.Got? && r.claim.value != "" }

  predicate FindsReady(r: Round) { Names(r) && r.sandbox.Got? && r.sandbox.value.ready }

  function Decides(r: Round): Option<Answer> {
    if ReadDecides(r.claim, r.afterClaim).Some? then ReadDecides(r.claim, r.afterClaim)
    else if Names(r) && ReadDecides(r.sandbox, r.afterSandbox).Some? then ReadDecides(r.sandbox, r.afterSandbox)
    else if FindsReady(r) then
      if r.whenReady == Running then Some(Adopted(r.sandbox.value)) else ContextAnswer(r.whenReady)
    else ContextAnswer(r.wake)
  }

  // The first n rounds decide nothing.
  predicate Quiet(rounds: seq<Round>, n: int)
    requires n <= |rounds|
  {
    forall i :: 0 <= i < n ==> Decides(rounds[i]).None?
  }

  // ---- The code ----

  method WaitForClaimSandboxReady(rounds: seq<Round>) returns (o: Outcome)
    // The first round that decides, decides.
    ensures o.StillWaiting? <==> Quiet(rounds, |rounds|)
    ensures o.Answered? ==> exists i :: DecidedAt(rounds, i, o.answer)
    // A sandbox is returned only if the claim named it, it was read and found ready, and neither the timeout
    // nor the request had ended the wait by then.
    ensures o.Answered? && o.answer.Adopted? ==>
      o.answer.sandbox.ready && exists r :: r in rounds && Adopts(r, o.answer.sandbox)
  {
    for i := 0 to |rounds|
      invariant Quiet(rounds, i)
    {
      var r := rounds[i];
      var ended, answer := WaitEnded(r.claim.ContextError?, r.afterClaim);
      if !ended && r.claim.Permanent? { ended, answer := true, Internal; }
      if !ended && r.claim.Got? {
        if r.claim.value != "" {
          ended, answer := WaitEnded(r.sandbox.ContextError?, r.afterSandbox);
          if !ended && r.sandbox.Permanent? {
            ended, answer := true, Internal;
          } else if !ended && r.sandbox.Got? && r.sandbox.value.ready {
            ended, answer := WaitEnded(false, r.whenReady);
            if !ended { ended, answer := true, Adopted(r.sandbox.value); }
          }
        }
      }
      if !ended { ended, answer := WaitEnded(false, r.wake); }
      assert Decides(r) == if ended then Some(answer) else None;
      if ended {
        assert DecidedAt(rounds, i, answer);
        assert r in rounds && (answer.Adopted? ==> Adopts(r, answer.sandbox));
        return Answered(answer);
      }
    }
    return StillWaiting;
  }

  // sandboxReadyWaitEnded
  method WaitEnded(contextError: bool, c: Context) returns (ended: bool, answer: Answer)
    ensures ended <==> c != Running || contextError
    ensures ended ==> Some(answer) == if c != Running then ContextAnswer(c) else Some(RequestEnded)
  {
    answer := RequestEnded;
    if c.TimedOut? { return true, CreationTimeout; }
    return c.Cancelled? || contextError, RequestEnded;
  }

  ghost predicate DecidedAt(rounds: seq<Round>, i: int, a: Answer) {
    0 <= i < |rounds| && Quiet(rounds, i) && Decides(rounds[i]) == Some(a)
  }

  predicate Adopts(r: Round, s: SandboxObject) {
    && FindsReady(r) && r.sandbox.value == s
    && r.afterClaim == Running && r.afterSandbox == Running && r.whenReady == Running
  }

  // ---- Failures that pass ----

  // A round of transient failures: whatever its reads miss, the wait is not over.
  predicate Missed(r: Round) {
    && r.afterClaim == Running && r.wake == Running
    && (r.claim.Transient? || (r.claim.Got? && (r.claim.value == "" || MissedSandbox(r))))
  }

  predicate MissedSandbox(r: Round) {
    r.afterSandbox == Running && (r.sandbox.Transient? || (r.sandbox.Got? && !r.sandbox.value.ready))
  }

  // A round decides nothing exactly if all its failures are transient and the context runs to its end.
  lemma QuietIffMissed(r: Round)
    ensures Decides(r).None? <==> Missed(r)
  {
  }

  // What the deciding round answers: the sandbox exactly if the claim named it, it was read ready and the context
  // was running all the while; an internal error exactly if a read failed for good under a running context.
  lemma RoundAnswers(r: Round, s: SandboxObject)
    ensures Decides(r) == Some(Adopted(s)) <==>
            && r.claim.Got? && r.claim.value != "" && r.sandbox == Got(s) && s.ready
            && r.afterClaim == Running && r.afterSandbox == Running && r.whenReady == Running
    ensures Decides(r) == Some(Internal) <==>
            && r.afterClaim == Running
            && (r.claim.Permanent? ||
                (r.claim.Got? && r.claim.value != "" && r.afterSandbox == Running && r.sandbox.Permanent?))
    // The timeout answers where the round first meets it.
    ensures Decides(r) == Some(CreationTimeout) <==>
            || r.afterClaim == TimedOut
            || (&& r.afterClaim == Running && r.claim.Got? && r.claim.value != ""
                && (r.afterSandbox == TimedOut ||
                    (r.afterSandbox == Running && r.sandbox.Got? && r.sandbox.value.ready && r.whenReady == TimedOut)))
            || (&& r.afterClaim == Running && r.wake == TimedOut
                && (r.claim.Transient? || (r.claim.Got? && (r.claim.value == "" || MissedSandbox(r)))))
  {
  }

  // Any number of them, anywhere before the decision, change nothing about the answer.
  lemma {:induction false} TransientFailuresDoNotMatter(before: seq<Round>, missed: seq<Round>, after: seq<Round>,
                                                        i: int, a: Answer)
    requires (forall k :: 0 <= k < |missed| ==> Missed(missed[k])) && DecidedAt(before + after, i, a)
    ensures DecidedAt(before + missed + after, if i < |before| then i else i + |missed|, a)
  {
    var all, all' := before + after, before + missed + after;
    var j := if i < |before| then i else i + |missed|;
    assert all'[j] == all[i];
    forall k | 0 <= k < j ensures Decides(all'[k]).None? {
      if k < |before| {
        assert all'[k] == all[k];
      } else if k < |before| + |missed| {
        assert all'[k] == missed[k - |before|];
        QuietIffMissed(all'[k]);
      } else {
        assert all'[k] == all[k - |missed|];
      }
    }
  }

  // ---- No wait outlives its context ----

  // Once the context is over when a round has read the claim, the wait ends with that round at the latest.
  // If no earlier round had an answer it is the context's, so a sandbox found ready too late is not handed out.
  lemma {:induction false} EndsWithContext(rounds: seq<Round>, i: nat)
    requires i < |rounds| && rounds[i].afterClaim != Running
    ensures exists j, a :: 0 <= j <= i && DecidedAt(rounds, j, a)
    ensures forall a :: DecidedAt(rounds, i, a) ==> Some(a) == ContextAnswer(rounds[i].afterClaim)
  {
    var j := FirstDecision(rounds, i);
    assert DecidedAt(rounds, j, Decides(rounds[j]).value);
  }

  lemma {:induction false} FirstDecision(rounds: seq<Round>, i: nat) returns (j: nat)
    requires i < |rounds| && Decides(rounds[i]).Some?
    ensures j <= i && Quiet(rounds, j) && Decides(rounds[j]).Some?
  {
    j := 0;
    while Decides(rounds[j]).None?
      invariant j <= i && Quiet(rounds, j)
      decreases i - j
    {
      j := j + 1;
    }
  }

  // ---- Entry points ----

  // probeSandboxEntryPoints: stops at the first port that cannot be reached.
  method ProbeEntryPoints(reachable: seq<bool>) returns (ok: bool)
    ensures ok <==> forall i :: 0 <= i < |reachable| ==> reachable[i]
  {
    for i := 0 to |reachable|
      invariant forall k :: 0 <= k < i ==> reachable[k]
    {
      if !reachable[i] { return false; }
    }
    return true;
  }

  // What one probe of all ports finds, and whether the time is up after it.
  datatype Probe = Probe(reachable: seq<bool>, timeUp: bool)

  predicate AllReachable(p: Probe) { forall i :: 0 <= i < |p.reachable| ==> p.reachable[i] }

  predicate Retried(p: Probe) { !AllReachable(p) && !p.timeUp }

  datatype Probed = PortsReady | PortsDown | StillProbing

  ghost predicate FirstSettled(probes: seq<Probe>, i: int, ready: bool) {
    && 0 <= i < |probes| && (forall k :: 0 <= k < i ==> Retried(probes[k]))
    && !Retried(probes[i]) && ready == AllReachable(probes[i])
  }

  // waitForSandboxEntryPointsReady: ready exactly if one probe finds all ports at once before the time is up;
  // a sandbox without ports is ready without a probe.
  method WaitForEntryPoints(ports: nat, probes: seq<Probe>) returns (r: Probed)
    ensures r.PortsReady? <==> ports == 0 || exists i :: FirstSettled(probes, i, true)
    ensures r.PortsDown? <==> ports > 0 && exists i :: FirstSettled(probes, i, false)
    // It goes on exactly as long as every probe misses a port and the time is not up.
    ensures r.StillProbing? <==>
      ports > 0 && forall i :: 0 <= i < |probes| ==> !probes[i].timeUp && !AllReachable(probes[i])
  {
    if ports == 0 { return PortsReady; }
    for i := 0 to |probes|
      invariant forall k :: 0 <= k < i ==> Retried(probes[k])
    {
      var ok := ProbeEntryPoints(probes[i].reachable);
      if ok {
        assert FirstSettled(probes, i, true);
        return PortsReady;
      }
      if probes[i].timeUp {
        assert FirstSettled(probes, i, false);
        return PortsDown;
      }
    }
    return StillProbing;
  }
}
