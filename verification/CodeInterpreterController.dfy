/** The CodeInterpreter reconciler. A pass may stop after any API call; the model gives it a number
    of calls it can still make, so that stopping there and failing there are the same thing. Reads come
    from a cache and may be stale; the API server answers writes from the objects as they are. */
module CodeInterpreterController {
  import opened Sandboxes

  // ---- Objects ----

  datatype EnvVar = EnvVar(name: string, value: string)

  // Fields of the pod spec other than the ones the conversion treats specially are kept opaque.
  datatype SandboxTemplate = SandboxTemplate(runtimeClassName: Option<string>, environment: seq<EnvVar>, others: string)

  datatype PodSpec = PodSpec(runtimeClassName: Option<string>, env: seq<EnvVar>, others: string)

  datatype PodTemplate = PodTemplate(spec: PodSpec, metadata: string)

  datatype NetworkPolicy = Managed | Unmanaged

  datatype TemplateObject = TemplateObject(pod: PodTemplate, network: NetworkPolicy)

  datatype PoolObject = PoolObject(replicas: int, templateRef: string)

  datatype Condition = Condition(isTrue: bool, observedGeneration: int)

  datatype Status = Status(ready: bool, condition: Option<Condition>)

  datatype CodeInterpreter = CodeInterpreter(
    name: string, generation: int, warmPoolSize: Option<int>, picodAuth: bool, template: Option<SandboxTemplate>)

  // The objects of one CodeInterpreter: its template and warm pool, both under its name, and its status.
  datatype Objects = Objects(template: Option<TemplateObject>, pool: Option<PoolObject>, status: Status)

  // convertToPodTemplate
  function Convert(t: SandboxTemplate, picodAuth: bool, publicKey: string): PodTemplate {
    PodTemplate(
      PodSpec(if t.runtimeClassName == Some("") then None else t.runtimeClassName,
              t.environment + (if picodAuth then [EnvVar("PICOD_AUTH_PUBLIC_KEY", publicKey)] else []),
              t.others),
      "")
  }

  // The declared environment in its order, then the public key exactly with picod authentication; an empty
  // runtime class is none.
  predicate Holds(spec: PodSpec, t: SandboxTemplate, picodAuth: bool, publicKey: string) {
    && |spec.env| == |t.environment| + (if picodAuth then 1 else 0)
    && (forall i :: 0 <= i < |t.environment| ==> spec.env[i] == t.environment[i])
    && (picodAuth ==> spec.env[|t.environment|] == EnvVar("PICOD_AUTH_PUBLIC_KEY", publicKey))
    && (spec.runtimeClassName.Some? <==> t.runtimeClassName.Some? && t.runtimeClassName.value != "")
    && (spec.runtimeClassName.Some? ==> spec.runtimeClassName == t.runtimeClassName)
    && spec.others == t.others
  }

  // The conversion is the only pod spec that holds all this.
  lemma HoldsIffConverted(spec: PodSpec, t: SandboxTemplate, picodAuth: bool, publicKey: string)
    ensures Holds(spec, t, picodAuth, publicKey) <==> spec == Convert(t, picodAuth, publicKey).spec
  {
    var want := Convert(t, picodAuth, publicKey).spec;
    if Holds(spec, t, picodAuth, publicKey) {
      assert spec.env == want.env;
    }
  }

  // ---- A pass, as a function of the objects, what its reads show and the calls it can make ----

  datatype Outcome = Going | Done | Requeued | Failed

  datatype Progress = Progress(objects: Objects, left: nat, writes: nat, outcome: Outcome)

  function Read(p: Progress): Progress {
    if p.left == 0 then p.(outcome := Failed) else p.(left := p.left - 1)
  }

  // A write the server carries out.
  function Write(p: Progress, objects: Objects): Progress {
    if p.left == 0 then p.(outcome := Failed)
    else Progress(objects, p.left - 1, p.writes + 1, p.outcome)
  }

  // An update goes through if the object is still the one that was read; otherwise it is a conflict.
  function Update(p: Progress, current: bool, objects: Objects): Progress {
    if p.left == 0 then p.(outcome := Failed)
    else if current then Write(p, objects)
    else Progress(p.objects, p.left - 1, p.writes + 1, Failed)
  }

  // A create of an object that exists, and a delete of one that is gone, count as success.
  function CreateTemplate(p: Progress, t: TemplateObject): Progress {
    Write(p, if p.objects.template.Some? then p.objects else p.objects.(template := Some(t)))
  }

  function CreatePool(p: Progress, t: PoolObject): Progress {
    Write(p, if p.objects.pool.Some? then p.objects else p.objects.(pool := Some(t)))
  }

  function CachedKey(publicKey: Option<string>): string { if publicKey.Some? then publicKey.value else "" }

  function EnsureTemplate(p: Progress, ci: CodeInterpreter, publicKey: Option<string>, seen: Objects): Progress
    requires p.outcome.Going?
  {
    if ci.picodAuth && publicKey.None? then p.(outcome := Requeued)
    else if ci.template.None? then p.(outcome := Failed)
    else
      var p1 := Read(p);
      var want := Convert(ci.template.value, ci.picodAuth, CachedKey(publicKey));
      if p1.outcome.Failed? then p1
      else match seen.template
        case None => CreateTemplate(p1, TemplateObject(want, Unmanaged))
        case Some(t) =>
          var t' := TemplateObject(if t.pod.spec != want.spec then want else t.pod, Unmanaged);
          if t.pod.spec != want.spec || t.network != Unmanaged
          then Update(p1, p.objects.template == seen.template, p.objects.(template := Some(t')))
          else p1
  }

  function EnsurePool(p: Progress, ci: CodeInterpreter, seen: Objects): Progress
    requires p.outcome.Going?
  {
    if ci.warmPoolSize.None? || ci.warmPoolSize.value == 0 then p
    else
      var p1 := Read(p);
      var want := PoolObject(ci.warmPoolSize.value, ci.name);
      if p1.outcome.Failed? || seen.pool == Some(want) then p1
      else if seen.pool.None? then CreatePool(p1, want)
      else Update(p1, p.objects.pool == seen.pool, p.objects.(pool := Some(want)))
  }

  function DeletePool(p: Progress, seen: Objects): Progress
    requires p.outcome.Going?
  {
    var p1 := Read(p);
    if p1.outcome.Failed? || seen.pool.None? then p1 else Write(p1, p.objects.(pool := None))
  }

  function DeleteTemplate(p: Progress, seen: Objects): Progress
    requires p.outcome.Going?
  {
    var p1 := Read(p);
    if p1.outcome.Failed? || seen.template.None? then p1 else Write(p1, p.objects.(template := None))
  }

  predicate UpToDate(s: Status, generation: int) {
    s.ready && s.condition == Some(Condition(true, generation))
  }

  function WriteStatus(p: Progress, ci: CodeInterpreter, seen: Objects): Progress
    requires p.outcome.Going?
  {
    if UpToDate(seen.status, ci.generation) then p
    else
      var s := Status(true, Some(Condition(true, ci.generation)));
      Update(p, p.objects.status == seen.status, p.objects.(status := s))
  }

  predicate Pooled(ci: CodeInterpreter) { ci.warmPoolSize.Some? && ci.warmPoolSize.value > 0 }

  function First(p: Progress, ci: CodeInterpreter, publicKey: Option<string>, seen: Objects): Progress
    requires p.outcome.Going?
  {
    if Pooled(ci) then EnsureTemplate(p, ci, publicKey, seen) else DeletePool(p, seen)
  }

  function Second(p: Progress, ci: CodeInterpreter, seen: Objects): Progress
    requires p.outcome.Going?
  {
    if Pooled(ci) then EnsurePool(p, ci, seen) else DeleteTemplate(p, seen)
  }

  function Last(p: Progress, ci: CodeInterpreter, seen: Objects): Progress
    requires p.outcome.Going?
  {
    var p1 := WriteStatus(p, ci, seen);
    if p1.outcome.Going? then p1.(outcome := Done) else p1
  }

  // The rest of a pass after its first stage.
  function Rest(p: Progress, ci: CodeInterpreter, seen: Objects): Progress {
    var p2 := if p.outcome.Going? then Second(p, ci, seen) else p;
    if p2.outcome.Going? then Last(p2, ci, seen) else p2
  }

  // A pass for a CodeInterpreter that is gone ends at once.
  function PassOn(objects: Objects, seen: Objects, ci: Option<CodeInterpreter>, publicKey: Option<string>,
                  calls: nat): Progress {
    var p0 := Read(Progress(objects, calls, 0, Going));
    if !p0.outcome.Going? then p0
    else if ci.None? then p0.(outcome := Done)
    else Rest(First(p0, ci.value, publicKey, seen), ci.value, seen)
  }

  // With reads that show the objects as they are.
  function Pass(objects: Objects, ci: CodeInterpreter, publicKey: Option<string>, calls: nat): Progress {
    PassOn(objects, objects, Some(ci), publicKey, calls)
  }

  // ---- The code ----

  class Reconciler {
    var objects: Objects
    var left: nat
    var writes: nat

    constructor (objects: Objects, calls: nat)
      ensures this.objects == objects && left == calls && writes == 0
    {
      this.objects, left, writes := objects, calls, 0;
    }

    function Here(o: Outcome): Progress
      reads this
    {
      Progress(objects, left, writes, o)
    }

    // An API read, which may fail.
    method Call() returns (ok: bool)
      modifies `left
      ensures ok == (old(left) > 0) && left == if ok then old(left) - 1 else old(left)
    {
      ok := left > 0;
      if ok { left := left - 1; }
    }

    // An API create or delete; the server ignores the ones that have nothing to do.
    method Send(o: Objects) returns (ok: bool)
      modifies this
      ensures Here(if ok then Going else Failed) == Write(old(Here(Going)), o)
    {
      ok := left > 0;
      if ok { objects, left, writes := o, left - 1, writes + 1; }
    }

    // An API update, refused if the object is not the one that was read.
    method SendUpdate(current: bool, o: Objects) returns (ok: bool)
      modifies this
      ensures Here(if ok then Going else Failed) == Update(old(Here(Going)), current, o)
    {
      if left == 0 { return false; }
      left, writes := left - 1, writes + 1;
      if !current { return false; }
      objects := o;
      return true;
    }

    method EnsureSandboxTemplate(ci: CodeInterpreter, publicKey: Option<string>, seen: Objects) returns (o: Outcome)
      modifies this
      ensures Here(o) == EnsureTemplate(old(Here(Going)), ci, publicKey, seen)
    {
      if ci.picodAuth && publicKey.None? { return Requeued; }
      if ci.template.None? { return Failed; }
      var ok := Call();
      if !ok { return Failed; }
      var podTemplate := Convert(ci.template.value, ci.picodAuth, CachedKey(publicKey));
      if seen.template.None? {
        var alreadyExists := objects.template.Some?;
        var created := objects.(template := Some(TemplateObject(podTemplate, Unmanaged)));
        ok := Send(if alreadyExists then objects else created);
        return if ok then Going else Failed;
      }
      var t := seen.template.value;
      var needsUpdate := false;
      if t.pod.spec != podTemplate.spec {
        t := t.(pod := podTemplate);
        needsUpdate := true;
      }
      if t.network != Unmanaged {
        t := t.(network := Unmanaged);
        needsUpdate := true;
      }
      if needsUpdate {
        ok := SendUpdate(objects.template == seen.template, objects.(template := Some(t)));
        if !ok { return Failed; }
      }
      return Going;
    }

    method EnsureSandboxWarmPool(ci: CodeInterpreter, seen: Objects) returns (o: Outcome)
      modifies this
      ensures Here(o) == EnsurePool(old(Here(Going)), ci, seen)
    {
      if ci.warmPoolSize.None? || ci.warmPoolSize.value == 0 { return Going; }
      var ok := Call();
      if !ok { return Failed; }
      if seen.pool.None? {
        var alreadyExists := objects.pool.Some?;
        var created := objects.(pool := Some(PoolObject(ci.warmPoolSize.value, ci.name)));
        ok := Send(if alreadyExists then objects else created);
        return if ok then Going else Failed;
      }
      var pool := seen.pool.value;
      var needsUpdate := false;
      if pool.replicas != ci.warmPoolSize.value {
        pool := pool.(replicas := ci.warmPoolSize.value);
        needsUpdate := true;
      }
      if pool.templateRef != ci.name {
        pool := pool.(templateRef := ci.name);
        needsUpdate := true;
      }
      if needsUpdate {
        ok := SendUpdate(objects.pool == seen.pool, objects.(pool := Some(pool)));
        if !ok { return Failed; }
      }
      return Going;
    }

    method DeleteSandboxWarmPool(seen: Objects) returns (o: Outcome)
      modifies this
      ensures Here(o) == DeletePool(old(Here(Going)), seen)
    {
      var ok := Call();
      if !ok { return Failed; }
      if seen.pool.None? { return Going; }
      ok := Send(objects.(pool := None));
      return if ok then Going else Failed;
    }

    method DeleteSandboxTemplate(seen: Objects) returns (o: Outcome)
      modifies this
      ensures Here(o) == DeleteTemplate(old(Here(Going)), seen)
    {
      var ok := Call();
      if !ok { return Failed; }
      if seen.template.None? { return Going; }
      ok := Send(objects.(template := None));
      return if ok then Going else Failed;
    }

    method UpdateStatus(ci: CodeInterpreter, seen: Objects) returns (o: Outcome)
      modifies this
      ensures Here(o) == WriteStatus(old(Here(Going)), ci, seen)
    {
      var existing := seen.status.condition;
      if
        && seen.status.ready && existing.Some? && existing.value.isTrue
        && existing.value.observedGeneration == ci.generation
      {
        return Going;
      }
      var ok := SendUpdate(objects.status == seen.status,
                           objects.(status := Status(true, Some(Condition(true, ci.generation)))));
      return if ok then Going else Failed;
    }

    method Reconcile(ci: Option<CodeInterpreter>, publicKey: Option<string>, seen: Objects) returns (o: Outcome)
      requires writes == 0
      modifies this
      ensures Here(o) == PassOn(old(objects), seen, ci, publicKey, old(left))
    {
      var ok := Call();
      if !ok { return Failed; }
      if ci.None? { return Done; }
      o := ManageObjects(ci.value, publicKey, seen);
      if !o.Going? { return; }
      o := UpdateStatus(ci.value, seen);
      if o.Going? { o := Done; }
    }

    // The part of Reconcile that manages the template and the warm pool.
    method ManageObjects(ci: CodeInterpreter, publicKey: Option<string>, seen: Objects) returns (o: Outcome)
      modifies this
      ensures var p1 := First(old(Here(Going)), ci, publicKey, seen);
              Here(o) == if p1.outcome.Going? then Second(p1, ci, seen) else p1
    {
      if ci.warmPoolSize.Some? && ci.warmPoolSize.value > 0 {
        o := EnsureSandboxTemplate(ci, publicKey, seen);
        if !o.Going? { return; }
        o := EnsureSandboxWarmPool(ci, seen);
      } else {
        o := DeleteSandboxWarmPool(seen);
        if !o.Going? { return; }
        o := DeleteSandboxTemplate(seen);
      }
    }
  }

  // ---- A warm pool has its template ----

  predicate PoolHasTemplate(o: Objects) { o.pool.Some? ==> o.template.Some? }

  // The template the specification determines is the one the read shows, so it is not written.
  predicate LooksRight(ci: CodeInterpreter, publicKey: Option<string>, seen: Objects) {
    && (ci.picodAuth ==> publicKey.Some?) && ci.template.Some? && seen.template.Some?
    && seen.template.value.pod.spec == Convert(ci.template.value, ci.picodAuth, CachedKey(publicKey)).spec
    && seen.template.value.network == Unmanaged
  }

  // The two ways stale reads can mislead a pass: it creates a pool for a template that is gone, or it
  // deletes the template of a pool it does not see.
  predicate Misled(o: Objects, seen: Objects, ci: CodeInterpreter, publicKey: Option<string>) {
    if Pooled(ci) then LooksRight(ci, publicKey, seen) && o.template.None? && seen.pool.None?
    else seen.pool.None? && seen.template.Some? && o.pool.Some?
  }

  // Wherever a pass stops, a pool that had its template has it still, unless stale reads mislead the pass.
  lemma PoolKeepsTemplate(o: Objects, seen: Objects, ci: CodeInterpreter, publicKey: Option<string>, calls: nat)
    requires PoolHasTemplate(o) && !Misled(o, seen, ci, publicKey)
    ensures PoolHasTemplate(PassOn(o, seen, Some(ci), publicKey, calls).objects)
  {
    if calls > 0 {
      var p := Progress(o, calls - 1, 0, Going);
      StageKeepsTemplate(p, ci, publicKey, seen);
      StatusKeepsObjects(First(p, ci, publicKey, seen), ci, seen);
    }
  }

  // The first two stages.
  lemma StageKeepsTemplate(p: Progress, ci: CodeInterpreter, publicKey: Option<string>, seen: Objects)
    requires p.outcome.Going? && PoolHasTemplate(p.objects) && !Misled(p.objects, seen, ci, publicKey)
    ensures var p1 := First(p, ci, publicKey, seen);
            PoolHasTemplate(if p1.outcome.Going? then Second(p1, ci, seen).objects else p1.objects)
  {
  }

  lemma StatusKeepsObjects(p: Progress, ci: CodeInterpreter, seen: Objects)
    ensures var o := if p.outcome.Going? then Second(p, ci, seen).objects else p.objects;
            Rest(p, ci, seen).objects.pool == o.pool && Rest(p, ci, seen).objects.template == o.template
  {
  }

  lemma MisledLosesTemplate(o: Objects, seen: Objects, ci: CodeInterpreter, publicKey: Option<string>)
    requires PoolHasTemplate(o) && Misled(o, seen, ci, publicKey)
    ensures !PoolHasTemplate(PassOn(o, seen, Some(ci), publicKey, 6).objects)
  {
  }

  // And this is exact.
  lemma PoolHasTemplateIff(o: Objects, seen: Objects, ci: CodeInterpreter, publicKey: Option<string>)
    requires PoolHasTemplate(o)
    ensures (forall calls :: PoolHasTemplate(PassOn(o, seen, Some(ci), publicKey, calls).objects)) <==>
            !Misled(o, seen, ci, publicKey)
  {
    if Misled(o, seen, ci, publicKey) {
      MisledLosesTemplate(o, seen, ci, publicKey);
    } else {
      forall calls ensures PoolHasTemplate(PassOn(o, seen, Some(ci), publicKey, calls).objects) {
        PoolKeepsTemplate(o, seen, ci, publicKey, calls);
      }
    }
  }

  // Reads that show the objects as they are do not mislead.
  lemma PoolAlwaysHasTemplate(o: Objects, ci: CodeInterpreter, publicKey: Option<string>, calls: nat)
    requires PoolHasTemplate(o)
    ensures PoolHasTemplate(Pass(o, ci, publicKey, calls).objects)
  {
    PoolKeepsTemplate(o, o, ci, publicKey, calls);
  }

  // ---- Convergence ----

  // What the specification asks for, leaving open the metadata of the pod template.
  predicate Settled(o: Objects, ci: CodeInterpreter, publicKey: Option<string>) {
    && UpToDate(o.status, ci.generation)
    && (if Pooled(ci) then LooksRight(ci, publicKey, o) && o.pool == Some(PoolObject(ci.warmPoolSize.value, ci.name))
        else o.template.None? && o.pool.None?)
  }

  predicate CanComplete(ci: CodeInterpreter, publicKey: Option<string>) {
    Pooled(ci) ==> ci.template.Some? && (ci.picodAuth ==> publicKey.Some?)
  }

  // What the first stage leaves of the objects o, and that it needs at most two calls.
  predicate AfterFirst(p: Progress, o: Objects, ci: CodeInterpreter, publicKey: Option<string>, left: nat) {
    && p.outcome != Done && p.objects.status == o.status
    && (p.outcome.Requeued? ==> p.objects == o)
    && (p.outcome.Requeued? <==> Pooled(ci) && ci.picodAuth && publicKey.None?)
    && (p.outcome.Going? ==> p.left + 2 >= left)
    && (p.outcome.Going? && Pooled(ci) ==> p.objects.pool == o.pool && LooksRight(ci, publicKey, p.objects))
    && (p.outcome.Going? && !Pooled(ci) ==> p.objects == o.(pool := None))
    && (2 <= left ==> (p.outcome.Going? <==> CanComplete(ci, publicKey)))
  }

  lemma FirstSettles(o: Objects, ci: CodeInterpreter, publicKey: Option<string>, left: nat)
    ensures AfterFirst(First(Progress(o, left, 0, Going), ci, publicKey, o), o, ci, publicKey, left)
  {
  }

  lemma SecondSettles(p: Progress, ci: CodeInterpreter, seen: Objects)
    requires p.outcome.Going?
    requires if Pooled(ci) then seen.pool == p.objects.pool else seen.template == p.objects.template
    ensures var p2 := Second(p, ci, seen);
            && (p2.outcome.Going? || p2.outcome.Failed?) && p2.objects.status == p.objects.status
            && (p2.outcome.Going? ==> p2.left + 2 >= p.left)
            && (p2.outcome.Going? && Pooled(ci) ==>
                  p2.objects == p.objects.(pool := Some(PoolObject(ci.warmPoolSize.value, ci.name))))
            && (p2.outcome.Going? && !Pooled(ci) ==> p2.objects == p.objects.(template := None))
            && (2 <= p.left ==> p2.outcome.Going?)
  {
  }

  lemma RestSettles(p: Progress, ci: CodeInterpreter, publicKey: Option<string>, seen: Objects)
    requires p.outcome.Going? && p.objects.status == seen.status
    requires if Pooled(ci) then seen.pool == p.objects.pool else seen.template == p.objects.template
    requires if Pooled(ci) then LooksRight(ci, publicKey, p.objects) else p.objects.pool.None?
    ensures var q := Rest(p, ci, seen);
            && (q.outcome.Done? ==> Settled(q.objects, ci, publicKey))
            && (q.outcome.Done? || q.outcome.Failed?) && (3 <= p.left ==> q.outcome.Done?)
  {
    SecondSettles(p, ci, seen);
    var p2 := Second(p, ci, seen);
    if p2.outcome.Going? { LastSettles(p2, ci, seen); }
  }

  lemma LastSettles(p: Progress, ci: CodeInterpreter, seen: Objects)
    requires p.outcome.Going? && p.objects.status == seen.status
    ensures var q := Last(p, ci, seen);
            && (q.outcome.Done? || q.outcome.Failed?) && (1 <= p.left ==> q.outcome.Done?)
            && (q.outcome.Done? ==> UpToDate(q.objects.status, ci.generation))
            && (q.outcome.Done? ==> q.objects == p.objects.(status := q.objects.status))
  {
  }

  predicate SettledBy(q: Progress, o: Objects, ci: CodeInterpreter, publicKey: Option<string>, calls: nat) {
    && (q.outcome.Done? ==> Settled(q.objects, ci, publicKey))
    && (q.outcome.Requeued? ==> q.objects == o)
    && (q.outcome.Requeued? <==> 1 <= calls && Pooled(ci) && ci.picodAuth && publicKey.None?)
    && (6 <= calls ==> (q.outcome.Done? <==> CanComplete(ci, publicKey)))
  }

  lemma SettlesFrom(p: Progress, o: Objects, ci: CodeInterpreter, publicKey: Option<string>, left: nat)
    requires AfterFirst(p, o, ci, publicKey, left)
    ensures SettledBy(Rest(p, ci, o), o, ci, publicKey, left + 1)
  {
    if p.outcome.Going? { RestSettles(p, ci, publicKey, o); }
  }

  // Whatever was there before, for example after an interrupted pass, a pass that completes leaves what
  // the specification asks for; and completing takes at most six calls unless the key or the template is missing.
  lemma PassSettles(o: Objects, ci: CodeInterpreter, publicKey: Option<string>, calls: nat)
    ensures SettledBy(Pass(o, ci, publicKey, calls), o, ci, publicKey, calls)
  {
    if calls == 0 {
      NoCallsNoPass(o, ci, publicKey);
    } else {
      FirstSettles(o, ci, publicKey, calls - 1);
      SettlesIf(o, ci, publicKey, calls, First(Progress(o, calls - 1, 0, Going), ci, publicKey, o));
    }
  }

  lemma NoCallsNoPass(o: Objects, ci: CodeInterpreter, publicKey: Option<string>)
    ensures SettledBy(Pass(o, ci, publicKey, 0), o, ci, publicKey, 0)
  {
  }

  lemma SettlesIf(o: Objects, ci: CodeInterpreter, publicKey: Option<string>, calls: nat, p1: Progress)
    requires calls > 0 && p1 == First(Progress(o, calls - 1, 0, Going), ci, publicKey, o)
    requires AfterFirst(p1, o, ci, publicKey, calls - 1)
    ensures SettledBy(Pass(o, ci, publicKey, calls), o, ci, publicKey, calls)
  {
    SettlesFrom(p1, o, ci, publicKey, calls - 1);
    PassStarts(o, ci, publicKey, calls, p1);
  }

  lemma PassStarts(o: Objects, ci: CodeInterpreter, publicKey: Option<string>, calls: nat, p1: Progress)
    requires calls > 0 && p1 == First(Progress(o, calls - 1, 0, Going), ci, publicKey, o)
    ensures Pass(o, ci, publicKey, calls) == Rest(p1, ci, o)
  {
  }

  // So the template a completed pass leaves holds the declared environment, the cached key and the declared rest.
  lemma PassWritesTemplate(o: Objects, ci: CodeInterpreter, publicKey: Option<string>, calls: nat)
    requires Pooled(ci) && Pass(o, ci, publicKey, calls).outcome.Done?
    ensures var t := Pass(o, ci, publicKey, calls).objects.template;
            && ci.template.Some? && t.Some? && t.value.network == Unmanaged
            && Holds(t.value.pod.spec, ci.template.value, ci.picodAuth, CachedKey(publicKey))
  {
    PassSettles(o, ci, publicKey, calls);
    var t := Pass(o, ci, publicKey, calls).objects.template.value;
    HoldsIffConverted(t.pod.spec, ci.template.value, ci.picodAuth, CachedKey(publicKey));
  }

  // A settled CodeInterpreter is left alone: a further pass writes nothing, so its own status write
  // does not start another round.
  lemma SettledIsQuiet(o: Objects, ci: CodeInterpreter, publicKey: Option<string>, calls: nat)
    requires Settled(o, ci, publicKey)
    ensures Pass(o, ci, publicKey, calls).writes == 0 && Pass(o, ci, publicKey, calls).objects == o
    ensures 3 <= calls ==> Pass(o, ci, publicKey, calls).outcome.Done?
  {
  }

  // Stale reads may make it try, but the server turns every such write down.
  lemma SettledIsStable(o: Objects, seen: Objects, ci: CodeInterpreter, publicKey: Option<string>, calls: nat)
    requires Settled(o, ci, publicKey)
    ensures PassOn(o, seen, Some(ci), publicKey, calls).objects == o
  {
  }

  // A write the pass makes and the server turns down, because the object is not the one that was read.
  predicate TemplateConflict(o: Objects, seen: Objects, ci: CodeInterpreter, publicKey: Option<string>) {
    Pooled(ci) && seen.template.Some? && !LooksRight(ci, publicKey, seen) && o.template != seen.template
  }

  predicate PoolConflict(o: Objects, seen: Objects, ci: CodeInterpreter) {
    && Pooled(ci) && seen.pool.Some? && seen.pool != Some(PoolObject(ci.warmPoolSize.value, ci.name))
    && o.pool != seen.pool
  }

  predicate StatusConflict(o: Objects, seen: Objects, ci: CodeInterpreter) {
    !UpToDate(seen.status, ci.generation) && o.status != seen.status
  }

  lemma FirstGoesOn(o: Objects, seen: Objects, ci: CodeInterpreter, publicKey: Option<string>, left: nat)
    requires 2 <= left
    ensures var p := First(Progress(o, left, 0, Going), ci, publicKey, seen);
            && (p.outcome.Going? <==> CanComplete(ci, publicKey) && !TemplateConflict(o, seen, ci, publicKey))
            && p.outcome != Done && p.left + 2 >= left && p.objects.status == o.status
            && (Pooled(ci) ==> p.objects.pool == o.pool)
  {
  }

  lemma SecondGoesOn(p: Progress, ci: CodeInterpreter, seen: Objects)
    requires p.outcome.Going? && 2 <= p.left
    ensures var q := Second(p, ci, seen);
            && (q.outcome.Going? <==> !PoolConflict(p.objects, seen, ci))
            && q.outcome != Done && q.left + 2 >= p.left && q.objects.status == p.objects.status
  {
  }

  lemma LastIsDone(p: Progress, ci: CodeInterpreter, seen: Objects)
    requires p.outcome.Going? && 1 <= p.left
    ensures Last(p, ci, seen).outcome.Done? <==> !StatusConflict(p.objects, seen, ci)
  {
  }

  // With calls enough, a pass completes exactly if key and template are there and no write of it conflicts; creating
  // what exists and deleting what is gone is no conflict.
  lemma {:induction false} CompletesIff(o: Objects, seen: Objects, ci: CodeInterpreter, publicKey: Option<string>,
                                        calls: nat)
    requires 6 <= calls
    ensures PassOn(o, seen, Some(ci), publicKey, calls).outcome.Done? <==>
            && CanComplete(ci, publicKey) && !TemplateConflict(o, seen, ci, publicKey)
            && !PoolConflict(o, seen, ci) && !StatusConflict(o, seen, ci)
  {
    FirstGoesOn(o, seen, ci, publicKey, calls - 1);
    var p := First(Progress(o, calls - 1, 0, Going), ci, publicKey, seen);
    assert PassOn(o, seen, Some(ci), publicKey, calls) == Rest(p, ci, seen);
    if p.outcome.Going? {
      SecondGoesOn(p, ci, seen);
      var q := Second(p, ci, seen);
      if q.outcome.Going? { LastIsDone(q, ci, seen); }
    }
  }

  // A CodeInterpreter that is gone is left alone.
  lemma GoneIsQuiet(o: Objects, seen: Objects, publicKey: Option<string>, calls: nat)
    ensures var q := PassOn(o, seen, None, publicKey, calls);
            q.objects == o && q.writes == 0 && q.outcome == if calls == 0 then Failed else Done
  {
  }

  function ForgetMetadata(o: Objects): Objects {
    match o.template
    case Some(t) => o.(template := Some(t.(pod := t.pod.(metadata := ""))))
    case None => o
  }

  // What is settled is determined by the specification alone, up to pod template metadata.
  lemma SettledIsUnique(a: Objects, b: Objects, ci: CodeInterpreter, publicKey: Option<string>)
    requires Settled(a, ci, publicKey) && Settled(b, ci, publicKey)
    ensures ForgetMetadata(a) == ForgetMetadata(b)
  {
    if Pooled(ci) { assert ForgetMetadata(a).template == ForgetMetadata(b).template; }
  }

  // Any number of passes, each for the specification, key and reads of its moment and each cut off anywhere.
  datatype Attempt = Attempt(ci: CodeInterpreter, publicKey: Option<string>, seen: Objects, calls: nat)

  function After(o: Objects, t: Attempt): Objects { PassOn(o, t.seen, Some(t.ci), t.publicKey, t.calls).objects }

  function AfterAttempts(o: Objects, attempts: seq<Attempt>): Objects
    decreases attempts
  {
    if attempts == [] then o else AfterAttempts(After(o, attempts[0]), attempts[1..])
  }

  predicate NeverMisled(o: Objects, attempts: seq<Attempt>)
    decreases attempts
  {
    attempts == [] ||
    (&& !Misled(o, attempts[0].seen, attempts[0].ci, attempts[0].publicKey)
     && NeverMisled(After(o, attempts[0]), attempts[1..]))
  }

  // Along every such history in which no pass is misled the pool has its template.
  lemma {:induction false} HistoriesStaySound(o: Objects, attempts: seq<Attempt>)
    requires PoolHasTemplate(o) && NeverMisled(o, attempts)
    ensures PoolHasTemplate(AfterAttempts(o, attempts))
    decreases attempts
  {
    if attempts != [] {
      PoolKeepsTemplate(o, attempts[0].seen, attempts[0].ci, attempts[0].publicKey, attempts[0].calls);
      HistoriesStaySound(After(o, attempts[0]), attempts[1..]);
    }
  }

  // Convergence: after any history, misled or not, one complete pass with current reads ends where such a
  // pass alone would have ended, up to pod template metadata.
  lemma {:induction false} InterruptedThenComplete(o: Objects, attempts: seq<Attempt>, ci: CodeInterpreter,
                                                   publicKey: Option<string>, calls: nat, again: nat)
    requires Pass(o, ci, publicKey, calls).outcome.Done?
    requires Pass(AfterAttempts(o, attempts), ci, publicKey, again).outcome.Done?
    ensures ForgetMetadata(Pass(o, ci, publicKey, calls).objects)
         == ForgetMetadata(Pass(AfterAttempts(o, attempts), ci, publicKey, again).objects)
  {
    PassSettles(o, ci, publicKey, calls);
    PassSettles(AfterAttempts(o, attempts), ci, publicKey, again);
    SettledIsUnique(Pass(o, ci, publicKey, calls).objects,
                    Pass(AfterAttempts(o, attempts), ci, publicKey, again).objects, ci, publicKey);
  }

  // The comparison looks at the pod spec only. So the final template is the one the specification
  // determines, unless a template with that very spec and other metadata was already there.
  lemma MetadataSurvivesIff(o: Objects, ci: CodeInterpreter, publicKey: Option<string>, calls: nat)
    requires Pooled(ci) && Pass(o, ci, publicKey, calls).outcome.Done?
    ensures ci.template.Some? &&
            var want := Convert(ci.template.value, ci.picodAuth, CachedKey(publicKey));
            (Pass(o, ci, publicKey, calls).objects.template != Some(TemplateObject(want, Unmanaged))
             <==> o.template.Some? && o.template.value.pod.spec == want.spec && o.template.value.pod.metadata != "")
  {
  }

  // Once a pass has completed with current reads and the specification and key stay, nothing changes any
  // more, whatever later reads show.
  lemma {:induction false} CompletedStays(o: Objects, ci: CodeInterpreter, publicKey: Option<string>, calls: nat,
                                          attempts: seq<Attempt>)
    requires Pass(o, ci, publicKey, calls).outcome.Done?
    requires forall i :: 0 <= i < |attempts| ==> attempts[i].ci == ci && attempts[i].publicKey == publicKey
    ensures AfterAttempts(Pass(o, ci, publicKey, calls).objects, attempts) == Pass(o, ci, publicKey, calls).objects
  {
    PassSettles(o, ci, publicKey, calls);
    SettledStays(Pass(o, ci, publicKey, calls).objects, ci, publicKey, attempts);
  }

  lemma {:induction false} SettledStays(o: Objects, ci: CodeInterpreter, publicKey: Option<string>,
                                        attempts: seq<Attempt>)
    requires Settled(o, ci, publicKey)
    requires forall i :: 0 <= i < |attempts| ==> attempts[i].ci == ci && attempts[i].publicKey == publicKey
    ensures AfterAttempts(o, attempts) == o
    decreases attempts
  {
    if attempts != [] {
      SettledIsStable(o, attempts[0].seen, ci, publicKey, attempts[0].calls);
      SettledStays(o, ci, publicKey, attempts[1..]);
    }
  }
}
