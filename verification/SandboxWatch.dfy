/** The readiness notification of sandbox_controller.go: a waiter registers a one-slot channel under
    its sandbox's name, and the reconcile that finds the sandbox ready takes it and sends once. */
module SandboxWatch {
  import opened Sandboxes

  // The name a sandbox is watched under.
  datatype Key = Key(namespace: string, name: string)

  function KeyOf(s: SandboxObject): Key { Key(s.namespace, s.name) }

  // A channel with its buffer, how often it was sent to, and how often a send found it full.
  datatype Channel = Channel(key: Key, buffer: seq<SandboxObject>, sent: nat, dropped: nat)

  // A reconcile that has left the critical section with a channel to send to.
  datatype Sender = Sender(channel: nat, sandbox: SandboxObject)

  datatype State = State(watchers: map<Key, nat>, channels: map<nat, Channel>, senders: map<nat, Sender>)

  const Init := State(map[], map[], map[])

  datatype Step =
    | Watch(key: Key, channel: nat)
    | UnWatch(key: Key)
    | Take(p: nat, sandbox: SandboxObject)             // Reconcile found it ready: the locked section
    | Send(p: nat)                                     // Reconcile after unlocking
    | Receive(channel: nat)                            // the waiter

  predicate Enabled(st: State, step: Step) {
    match step
    case Watch(_, c) => c !in st.channels
    case UnWatch(_) => true
    case Take(p, sandbox) => p !in st.senders && sandbox.ready
    case Send(p) => p in st.senders && st.senders[p].channel in st.channels
    case Receive(c) => c in st.channels && st.channels[c].buffer != []
  }

  // A send on a full one-slot channel takes the default branch and is lost.
  function Deliver(ch: Channel, sandbox: SandboxObject): Channel {
    if |ch.buffer| < 1 then ch.(buffer := ch.buffer + [sandbox], sent := ch.sent + 1)
    else ch.(dropped := ch.dropped + 1)
  }

  function Apply(st: State, step: Step): State
    requires Enabled(st, step)
  {
    match step
    case Watch(key, c) => st.(watchers := st.watchers[key := c], channels := st.channels[c := Channel(key, [], 0, 0)])
    case UnWatch(key) => st.(watchers := st.watchers - {key})
    case Take(p, sandbox) =>
      var key := KeyOf(sandbox);
      if key in st.watchers then
        st.(watchers := st.watchers - {key}, senders := st.senders[p := Sender(st.watchers[key], sandbox)])
      else st
    case Send(p) =>
      var s := st.senders[p];
      st.(channels := st.channels[s.channel := Deliver(st.channels[s.channel], s.sandbox)], senders := st.senders - {p})
    case Receive(c) => st.(channels := st.channels[c := st.channels[c].(buffer := st.channels[c].buffer[1..])])
  }

  predicate CanRun(st: State, steps: seq<Step>)
    decreases steps
  {
    steps == [] || (Enabled(st, steps[0]) && CanRun(Apply(st, steps[0]), steps[1..]))
  }

  function Run(st: State, steps: seq<Step>): State
    requires CanRun(st, steps)
    decreases steps
  {
    if steps == [] then st else Run(Apply(st, steps[0]), steps[1..])
  }

  // ---- The code: each method is one locked section or one channel operation ----

  class SandboxReconciler {
    var watchers: map<Key, nat>
    var channels: map<nat, Channel>
    var senders: map<nat, Sender>

    function Value(): State
      reads this
    {
      State(watchers, channels, senders)
    }

    constructor ()
      ensures Value() == Init
    {
      watchers, channels, senders := map[], map[], map[];
    }

    method WatchSandboxOnce(key: Key, c: nat)
      requires c !in channels
      modifies this
      ensures Value() == Apply(old(Value()), Watch(key, c))
    {
      channels := channels[c := Channel(key, [], 0, 0)];
      watchers := watchers[key := c];
    }

    method UnWatchSandbox(key: Key)
      modifies this
      ensures Value() == Apply(old(Value()), UnWatch(key))
    {
      watchers := watchers - {key};
    }

    // Reconcile up to the unlock; a sandbox that is not ready changes nothing.
    method ReconcileLocked(p: nat, sandbox: SandboxObject) returns (found: bool)
      requires p !in senders
      modifies this
      ensures Value() == if sandbox.ready then Apply(old(Value()), Take(p, sandbox)) else old(Value())
      ensures found == (sandbox.ready && KeyOf(sandbox) in old(watchers))
    {
      found := false;
      if !sandbox.ready { return; }
      var key := KeyOf(sandbox);
      if key in watchers {
        found := true;
        senders := senders[p := Sender(watchers[key], sandbox)];
        watchers := watchers - {key};
      }
    }

    method ReconcileSend(p: nat)
      requires p in senders && senders[p].channel in channels
      modifies this
      ensures Value() == Apply(old(Value()), Send(p))
    {
      var s := senders[p];
      var ch := channels[s.channel];
      if |ch.buffer| == 0 {
        assert ch.buffer + [s.sandbox] == [s.sandbox];
        ch := ch.(buffer := [s.sandbox], sent := ch.sent + 1);
      } else {
        ch := ch.(dropped := ch.dropped + 1);
      }
      channels := channels[s.channel := ch];
      senders := senders - {p};
    }
  }

  // ---- At most once ----

  predicate Quiet(st: State, c: nat) { c in st.channels && st.channels[c].sent == 0 && st.channels[c].buffer == [] }

  // A registered channel, and one in a sender's hand, has not been sent to yet.
  ghost predicate Pristine(st: State) {
    && (forall k :: k in st.watchers ==> Quiet(st, st.watchers[k]) && st.channels[st.watchers[k]].key == k)
    && (forall p :: p in st.senders ==> Quiet(st, st.senders[p].channel))
  }

  // No channel is in two hands.
  ghost predicate Separate(st: State) {
    && (forall p, q :: p in st.senders && q in st.senders && p != q ==> st.senders[p].channel != st.senders[q].channel)
    && (forall k, p :: k in st.watchers && p in st.senders ==> st.watchers[k] != st.senders[p].channel)
  }

  ghost predicate SentOnce(st: State) {
    forall c :: c in st.channels ==> st.channels[c].sent <= 1 && st.channels[c].dropped == 0
  }

  ghost predicate Inv(st: State) { Pristine(st) && Separate(st) && SentOnce(st) }

  lemma {:induction false} PristineStep(st: State, step: Step)
    requires Pristine(st) && Separate(st) && Enabled(st, step)
    ensures Pristine(Apply(st, step))
  {
  }

  lemma {:induction false} SeparateStep(st: State, step: Step)
    requires Pristine(st) && Separate(st) && Enabled(st, step)
    ensures Separate(Apply(st, step))
  {
  }

  lemma {:induction false} SentOnceStep(st: State, step: Step)
    requires Pristine(st) && SentOnce(st) && Enabled(st, step)
    ensures SentOnce(Apply(st, step))
  {
  }

  lemma {:induction false} InvStep(st: State, step: Step)
    requires Inv(st) && Enabled(st, step)
    ensures Inv(Apply(st, step))
  {
    PristineStep(st, step);
    SeparateStep(st, step);
    SentOnceStep(st, step);
  }

  // In every interleaving each channel is sent to at most once, always finds its slot empty, and no
  // notification is dropped. This needs no assumption on keys.
  lemma {:induction false} NotifyOnce(st: State, steps: seq<Step>)
    requires Inv(st) && CanRun(st, steps)
    ensures Inv(Run(st, steps))
    ensures forall c :: c in Run(st, steps).channels ==>
              Run(st, steps).channels[c].sent <= 1 && Run(st, steps).channels[c].dropped == 0
    ensures forall p :: p in Run(st, steps).senders ==>
              var c := Run(st, steps).senders[p].channel;
              c in Run(st, steps).channels && Run(st, steps).channels[c].buffer == []
    decreases steps
  {
    if steps != [] {
      InvStep(st, steps[0]);
      NotifyOnce(Apply(st, steps[0]), steps[1..]);
    }
  }

  // ---- What arrives ----

  // A sandbox a channel is meant for: ready, and of the name it was registered under.
  predicate Meant(ch: Channel, s: SandboxObject) { s.ready && KeyOf(s) == ch.key }

  ghost predicate Addressed(st: State) {
    && (forall p :: p in st.senders && st.senders[p].channel in st.channels ==>
          Meant(st.channels[st.senders[p].channel], st.senders[p].sandbox))
    && (forall c :: c in st.channels ==> AllMeant(st.channels[c]))
  }

  ghost predicate AllMeant(ch: Channel) { forall s :: s in ch.buffer ==> Meant(ch, s) }

  lemma {:induction false} AddressedStep(st: State, step: Step)
    requires Inv(st) && Addressed(st) && Enabled(st, step)
    ensures Addressed(Apply(st, step))
  {
    var st' := Apply(st, step);
    forall c | c in st'.channels ensures AllMeant(st'.channels[c]) {
      if c in st.channels {
        assert AllMeant(st.channels[c]);
        if step == Receive(c) { assert forall s :: s in st'.channels[c].buffer ==> s in st.channels[c].buffer; }
      }
    }
  }

  // In every interleaving a waiter only ever receives the sandbox it registered for, and that one ready:
  // what the direct path of createSandbox goes on with.
  lemma {:induction false} ReceivedIsReady(st: State, steps: seq<Step>, c: nat, s: SandboxObject)
    requires Inv(st) && Addressed(st) && CanRun(st, steps)
    requires c in Run(st, steps).channels && s in Run(st, steps).channels[c].buffer
    ensures s.ready && KeyOf(s) == Run(st, steps).channels[c].key
    ensures c in st.channels ==> KeyOf(s) == st.channels[c].key
    decreases steps
  {
    if steps != [] {
      InvStep(st, steps[0]);
      AddressedStep(st, steps[0]);
      ReceivedIsReady(Apply(st, steps[0]), steps[1..], c, s);
    }
  }

  function Receives(steps: seq<Step>, c: nat): nat {
    if steps == [] then 0 else (if steps[0] == Receive(c) then 1 else 0) + Receives(steps[1..], c)
  }

  // Nothing is lost or doubled between the send and the waiter: what was sent and not received is in the channel.
  lemma {:induction false} SentIsReceivedOrBuffered(st: State, steps: seq<Step>, c: nat)
    requires CanRun(st, steps) && c in st.channels
    ensures c in Run(st, steps).channels
    ensures Run(st, steps).channels[c].sent - st.channels[c].sent ==
            |Run(st, steps).channels[c].buffer| - |st.channels[c].buffer| + Receives(steps, c)
    decreases steps
  {
    if steps != [] { SentIsReceivedOrBuffered(Apply(st, steps[0]), steps[1..], c); }
  }

  // So a waiter receives at most once.
  lemma {:induction false} ReceivedOnce(st: State, steps: seq<Step>, c: nat)
    requires Inv(st) && CanRun(st, steps) && c in st.channels
    ensures st.channels[c].sent + Receives(steps, c) <= 1 + |st.channels[c].buffer|
  {
    SentIsReceivedOrBuffered(st, steps, c);
    NotifyOnce(st, steps);
  }

  // ---- Delivery ----

  // A channel is on its way to its waiter or has arrived.
  predicate Underway(st: State, c: nat) {
    c in st.channels && (st.channels[c].sent == 1 || exists p :: p in st.senders && st.senders[p].channel == c)
  }

  lemma {:induction false} UnderwayStep(st: State, step: Step, c: nat)
    requires Inv(st) && Enabled(st, step) && Underway(st, c)
    ensures Underway(Apply(st, step), c)
  {
    var st' := Apply(st, step);
    if p :| p in st.senders && st.senders[p].channel == c {
      if step == Send(p) {
        assert Quiet(st, c);
      } else {
        assert p in st'.senders && st'.senders[p].channel == c;
      }
    }
  }

  lemma {:induction false} UnderwayStays(st: State, steps: seq<Step>, c: nat)
    requires Inv(st) && CanRun(st, steps) && Underway(st, c)
    ensures Underway(Run(st, steps), c)
    decreases steps
  {
    if steps != [] {
      UnderwayStep(st, steps[0], c);
      InvStep(st, steps[0]);
      UnderwayStays(Apply(st, steps[0]), steps[1..], c);
    }
  }

  // Withdraws the name or registers it again.
  predicate Disturbs(step: Step, key: Key) { step == UnWatch(key) || (step.Watch? && step.key == key) }

  predicate LeavesAlone(steps: seq<Step>, key: Key) { forall i :: 0 <= i < |steps| ==> !Disturbs(steps[i], key) }

  lemma LeavesAloneConcat(a: seq<Step>, b: seq<Step>, key: Key)
    ensures LeavesAlone(a + b, key) <==> LeavesAlone(a, key) && LeavesAlone(b, key)
  {
    if LeavesAlone(a + b, key) {
      forall i | 0 <= i < |a| ensures !Disturbs(a[i], key) { assert a[i] == (a + b)[i]; }
      forall i | 0 <= i < |b| ensures !Disturbs(b[i], key) { assert b[i] == (a + b)[|a| + i]; }
    }
  }

  // Once registered, and as long as nobody registers the same name again or withdraws it, the first
  // reconcile that sees the sandbox ready reaches the waiter: after it the notification is in the
  // channel, or in the hands of a reconcile whose next act is to send it.
  lemma {:induction false} ReadyReachesWaiter(st: State, steps: seq<Step>, key: Key, i: nat)
    requires Inv(st) && CanRun(st, steps) && key in st.watchers
    requires i < |steps| && steps[i].Take? && KeyOf(steps[i].sandbox) == key && LeavesAlone(steps[..i], key)
    ensures Underway(Run(st, steps), st.watchers[key])
    decreases steps
  {
    var c := st.watchers[key];
    var st1 := Apply(st, steps[0]);
    InvStep(st, steps[0]);
    if steps[0].Take? && KeyOf(steps[0].sandbox) == key {
      assert st1.senders[steps[0].p].channel == c;
      UnderwayStays(st1, steps[1..], c);
    } else {
      assert i > 0 && steps[..i][0] == steps[0];
      assert key in st1.watchers && st1.watchers[key] == c;
      assert steps[..i] == steps[..1] + steps[1..][..i - 1];
      LeavesAloneConcat(steps[..1], steps[1..][..i - 1], key);
      ReadyReachesWaiter(st1, steps[1..], key, i - 1);
    }
  }

  // A reconcile finds the sandbox ready at i, and before that its name is neither withdrawn nor registered again.
  predicate TakenAt(steps: seq<Step>, key: Key, i: int) {
    0 <= i < |steps| && steps[i].Take? && KeyOf(steps[i].sandbox) == key && LeavesAlone(steps[..i], key)
  }

  lemma {:induction false} TakenLater(steps: seq<Step>, key: Key)
    requires steps != [] && LeavesAlone(steps[..1], key) && !(steps[0].Take? && KeyOf(steps[0].sandbox) == key)
    ensures (exists i :: TakenAt(steps, key, i)) <==> (exists i :: TakenAt(steps[1..], key, i))
  {
    var rest := steps[1..];
    if i :| TakenAt(steps, key, i) {
      assert steps[..i] == steps[..1] + rest[..i - 1];
      LeavesAloneConcat(steps[..1], rest[..i - 1], key);
      assert TakenAt(rest, key, i - 1);
    }
    if i :| TakenAt(rest, key, i) {
      assert steps[..i + 1] == steps[..1] + rest[..i];
      LeavesAloneConcat(steps[..1], rest[..i], key);
      assert TakenAt(steps, key, i + 1);
    }
  }

  // A name that is withdrawn or registered again is not taken for this channel after that.
  lemma {:induction false} NeverTaken(steps: seq<Step>, key: Key)
    requires steps != [] && !LeavesAlone(steps[..1], key)
    ensures !exists i :: TakenAt(steps, key, i)
  {
    forall i ensures !TakenAt(steps, key, i) {
      if 0 < i < |steps| { assert steps[..i][0] == steps[..1][0]; }
      if i == 0 { assert steps[0] == steps[..1][0]; }
    }
  }

  // Delivery, exactly: a registered waiter is reached by a run if and only if a reconcile finds its sandbox
  // ready before the name is withdrawn or registered again.
  lemma {:induction false} ReachedIff(st: State, steps: seq<Step>, key: Key)
    requires Inv(st) && CanRun(st, steps) && key in st.watchers
    ensures Underway(Run(st, steps), st.watchers[key]) <==> exists i :: TakenAt(steps, key, i)
    decreases steps
  {
    var c := st.watchers[key];
    if steps == [] {
      assert Quiet(st, c);
    } else {
      var st1, rest := Apply(st, steps[0]), steps[1..];
      InvStep(st, steps[0]);
      if steps[0].Take? && KeyOf(steps[0].sandbox) == key {
        assert TakenAt(steps, key, 0);
        ReadyReachesWaiter(st, steps, key, 0);
      } else if Disturbs(steps[0], key) {
        assert steps[..1][0] == steps[0];
        NeverTaken(steps, key);
        assert Silent(st1, c) by { Forgotten(st, steps[0], key); }
        SilentStays(st1, rest, c);
      } else {
        assert steps[..1] == [steps[0]];
        TakenLater(steps, key);
        ReachedIff(st1, rest, key);
      }
    }
  }

  // Withdrawing a name or registering it again leaves its channel in nobody's hand.
  lemma {:induction false} Forgotten(st: State, step: Step, key: Key)
    requires Inv(st) && Enabled(st, step) && key in st.watchers
    requires Disturbs(step, key)
    ensures Silent(Apply(st, step), st.watchers[key])
  {
    assert Quiet(st, st.watchers[key]);
  }

  // So names must be unique: registering a name twice silences the first waiter for ever.
  lemma {:induction false} SecondWatchSilences(st: State, key: Key, d: nat, steps: seq<Step>)
    requires Inv(st) && key in st.watchers && d !in st.channels
    requires CanRun(st, [Watch(key, d)] + steps)
    ensures var st' := Run(st, [Watch(key, d)] + steps);
            st.watchers[key] in st'.channels && st'.channels[st.watchers[key]].sent == 0
  {
    var all := [Watch(key, d)] + steps;
    assert all[..1] == [all[0]];
    NeverTaken(all, key);
    ReachedIff(st, all, key);
    NotifyOnce(st, all);
    StaysAChannel(st, all, st.watchers[key]);
  }

  lemma {:induction false} StaysAChannel(st: State, steps: seq<Step>, c: nat)
    requires CanRun(st, steps) && c in st.channels
    ensures c in Run(st, steps).channels
    decreases steps
  {
    if steps != [] { StaysAChannel(Apply(st, steps[0]), steps[1..], c); }
  }

  predicate Silent(st: State, c: nat) {
    && Quiet(st, c)
    && (forall k :: k in st.watchers ==> st.watchers[k] != c)
    && (forall p :: p in st.senders ==> st.senders[p].channel != c)
  }

  lemma {:induction false} SilentStays(st: State, steps: seq<Step>, c: nat)
    requires CanRun(st, steps) && Silent(st, c)
    ensures Silent(Run(st, steps), c)
    decreases steps
  {
    if steps != [] { SilentStays(Apply(st, steps[0]), steps[1..], c); }
  }
}
