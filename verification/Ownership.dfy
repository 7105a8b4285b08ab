/** Resource-level access control over whole runs: the subject that created a session is carried in
    a signed identity through placeholder, commit and lookup, and later requests for the session are
    forwarded only for that subject or an admin. A signature check is a predicate on the signer. */
module Ownership {
  import opened Sandboxes
  import opened Lifecycle
  import opened LifecycleSafety

  type Key = string

  datatype Claims = Claims(subject: string, roles: set<string>)

  // An identity token with its sub, aud and exp claims (sections 4.1.2 to 4.1.4 of RFC 7519).
  datatype Token = Token(sub: string, aud: string, exp: Option<Time>, signedBy: Key)

  // A create request as the workload manager sees it: whatever token it carries, the key the manager has
  // cached and the time it is handled at.
  datatype Request = Request(header: Option<Token>, cachedKey: Option<Key>, now: Time)

  const Audience := "workloadmanager"

  // setIdentityHeader: what the router attaches for a caller, if it has a key and signing succeeds.
  function IdentityHeader(claims: Option<Claims>, signingKey: Option<Key>, exp: Time, signs: bool): Option<Token> {
    if signingKey.None? || claims.None? || !signs then None
    else Some(Token(claims.value.subject, Audience, Some(exp), signingKey.value))
  }

  // verifyIdentityJWT
  function Verify(key: Key, t: Token, now: Time): Option<string> {
    if t.signedBy != key || t.exp.None? || now >= t.exp.value then None
    else if t.aud != Audience || t.sub == "" then None
    else Some(t.sub)
  }

  datatype Resolved = Owner(id: string) | VerifierNotReady | InvalidIdentity

  // resolveSandboxOwnerID over extractOwnerID: no header means no owner, anything else must verify.
  function ResolveOwner(r: Request): Resolved {
    if r.header.None? then Owner("")
    else if r.cachedKey.None? then VerifierNotReady
    else match Verify(r.cachedKey.value, r.header.value, r.now)
      case Some(sub) => Owner(sub)
      case None => InvalidIdentity
  }

  // checkSandboxOwnership
  predicate CheckOwnership(oidc: bool, claims: Option<Claims>, record: Info) {
    if !oidc || claims.None? then true
    else if "admin" in claims.value.roles then true
    else if record.ownerId == "" then false
    else record.ownerId == claims.value.subject
  }

  // handleInvoke with a session ID: looked up, checked, forwarded.
  predicate Forwarded(w: World, s: Sid, oidc: bool, claims: Option<Claims>) {
    s in w.sessions && w.sessions[s].record.Some? && CheckOwnership(oidc, claims, w.sessions[s].record.value)
  }

  // A create request is turned away exactly if it carries a token that cannot be checked yet or does not verify.
  lemma ResolvedIff(r: Request)
    ensures ResolveOwner(r).VerifierNotReady? <==> r.header.Some? && r.cachedKey.None?
    ensures ResolveOwner(r).Owner? <==>
            || r.header.None?
            || (&& r.cachedKey == Some(r.header.value.signedBy) && r.header.value.aud == Audience
                && r.header.value.exp.Some? && r.now < r.header.value.exp.value && r.header.value.sub != "")
    ensures r.header.None? ==> ResolveOwner(r) == Owner("")
  {
  }

  // Without OIDC, and for a request without claims, ownership is not asked for.
  lemma OpenWithoutClaims(w: World, s: Sid, oidc: bool, claims: Option<Claims>)
    requires !oidc || claims.None?
    ensures Forwarded(w, s, oidc, claims) <==> s in w.sessions && w.sessions[s].record.Some?
  {
  }

  // ---- Whole runs ----

  // Every session was begun for the owner its create request resolved to.
  ghost predicate BegunFor(steps: seq<Step>, who: map<Sid, Request>) {
    forall i :: 0 <= i < |steps| && steps[i].Begin? ==> Resolves(who, steps[i].sid, steps[i].plan.entry.ownerId)
  }

  predicate Resolves(who: map<Sid, Request>, s: Sid, owner: string) { s in who && ResolveOwner(who[s]) == Owner(owner) }

  ghost predicate PlannedFor(w: World, who: map<Sid, Request>) {
    forall s :: s in w.sessions ==> Resolves(who, s, w.sessions[s].plan.entry.ownerId)
  }

  lemma {:induction false} OwnersPlanned(g: Guards, w: World, steps: seq<Step>, who: map<Sid, Request>)
    requires CanRun(g, w, steps) && BegunFor(steps, who) && PlannedFor(w, who)
    ensures PlannedFor(Run(g, w, steps), who)
    decreases steps
  {
    if steps != [] {
      PlansKept(w, steps[0]);
      assert steps[0].Begin? ==> Resolves(who, steps[0].sid, steps[0].plan.entry.ownerId);
      var rest := steps[1..];
      forall i | 0 <= i < |rest| && rest[i].Begin? ensures Resolves(who, rest[i].sid, rest[i].plan.entry.ownerId) {
        assert rest[i] == steps[i + 1];
      }
      OwnersPlanned(g, Apply(w, steps[0]), rest, who);
    }
  }

  // The owner on the record, before and after commit, is the one the create request resolved to.
  lemma {:induction false} OwnerCarried(g: Guards, steps: seq<Step>, who: map<Sid, Request>, s: Sid)
    requires CanRun(g, Init, steps) && BegunFor(steps, who)
    requires s in Run(g, Init, steps).sessions && Run(g, Init, steps).sessions[s].record.Some?
    ensures Resolves(who, s, Run(g, Init, steps).sessions[s].record.value.ownerId)
  {
    OwnersPlanned(g, Init, steps, who);
    WorldInvRun(g, Init, steps);
    assert Inv(g, Run(g, Init, steps).sessions[s], Live(Run(g, Init, steps), Run(g, Init, steps).sessions[s]));
  }

  // Whatever tokens create requests carry, a record has an owner exactly if its create request carried one,
  // and then that token was signed with the key cached at that time, for the workload manager, not
  // expired, and named the owner. So nobody becomes an owner by a token of another signer or audience.
  lemma {:induction false} OwnerWasSigned(g: Guards, steps: seq<Step>, who: map<Sid, Request>, s: Sid)
    requires CanRun(g, Init, steps) && BegunFor(steps, who)
    requires s in Run(g, Init, steps).sessions && Run(g, Init, steps).sessions[s].record.Some?
    ensures s in who
    ensures var owner, r := Run(g, Init, steps).sessions[s].record.value.ownerId, who[s];
            && (owner != "" <==> r.header.Some?)
            && (owner != "" ==>
                  && r.cachedKey == Some(r.header.value.signedBy)
                  && r.header.value.aud == Audience
                  && r.header.value.exp.Some? && r.now < r.header.value.exp.value
                  && r.header.value.sub == owner)
  {
    OwnerCarried(g, steps, who, s);
  }

  // Forwarded exactly for admins and for the subject of the token that came with the create request; a
  // session without owner is refused to everyone but admins.
  lemma {:induction false} ForwardedIffOwnerOrAdmin(g: Guards, steps: seq<Step>, who: map<Sid, Request>, s: Sid,
                                                    c: Claims)
    requires CanRun(g, Init, steps) && BegunFor(steps, who)
    requires s in Run(g, Init, steps).sessions && Run(g, Init, steps).sessions[s].record.Some?
    ensures s in who
    ensures Forwarded(Run(g, Init, steps), s, true, Some(c)) <==>
            "admin" in c.roles || (who[s].header.Some? && c.subject == who[s].header.value.sub)
  {
    OwnerWasSigned(g, steps, who, s);
  }

  // End to end: a session whose create request carried the identity the router signs for a caller is
  // forwarded exactly to that caller and to admins.
  lemma {:induction false} CreatorOwns(g: Guards, steps: seq<Step>, who: map<Sid, Request>, s: Sid, creator: Claims,
                                       key: Key, exp: Time, c: Claims)
    requires CanRun(g, Init, steps) && BegunFor(steps, who)
    requires s in Run(g, Init, steps).sessions && Run(g, Init, steps).sessions[s].record.Some?
    requires s in who && who[s].header == IdentityHeader(Some(creator), Some(key), exp, true)
    ensures Forwarded(Run(g, Init, steps), s, true, Some(c)) <==> "admin" in c.roles || c.subject == creator.subject
  {
    ForwardedIffOwnerOrAdmin(g, steps, who, s, c);
  }
}
