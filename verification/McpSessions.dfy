/** The MCP server's cache of sessions and its one-shot recovery. A session ID of "" stands for none. */
module McpSessions {
  import opened Sandboxes

  // What the control plane knows: the sessions that exist, and all IDs ever given out.
  class ControlPlane {
    var live: set<string>
    var issued: set<string>

    constructor ()
      ensures live == {} && issued == {}
    {
      live, issued := {}, {};
    }

    method CreateSession(id: string)
      requires id !in issued
      modifies this
      ensures live == old(live) + {id} && issued == old(issued) + {id}
    {
      live, issued := live + {id}, issued + {id};
    }

    // delete_session reports failure in its result and does not raise.
    method DeleteSession(id: string, works: bool)
      modifies `live
      ensures live == if works then old(live) - {id} else old(live)
    {
      if works { live := live - {id}; }
    }
  }

  // How creating a session turns out: refused, created but unreachable, or created.
  datatype Birth = Refused | Unreachable(id: string) | Born(id: string)

  // How a data plane operation turns out; the router answers 404 or 410 for a session that is gone.
  datatype OpOutcome = Fine | Stale | Broken

  class Client {
    var sessionId: string
    var open: bool

    constructor (sessionId: string)
      ensures this.sessionId == sessionId && open
    {
      this.sessionId, open := sessionId, true;
    }

    method Stop(cp: ControlPlane, works: bool)
      modifies this, cp`live
      ensures !open && sessionId == ""
      ensures cp.live == if works && old(sessionId) != "" then old(cp.live) - {old(sessionId)} else old(cp.live)
    {
      open := false;
      if sessionId != "" {
        cp.DeleteSession(sessionId, works);
        sessionId := "";
      }
    }
  }

  // A fresh birth cannot reuse an ID, and IDs are not empty.
  ghost predicate FreshBirth(b: Birth, issued: set<string>) {
    b.Refused? || (b.id !in issued && b.id != "")
  }

  // CodeInterpreterClient.__init__ without a session ID: a session that cannot be reached is deleted again.
  method NewClient(cp: ControlPlane, b: Birth, works: bool) returns (c: Client?)
    requires FreshBirth(b, cp.issued)
    modifies cp
    ensures c != null <==> b.Born?
    ensures c != null ==> fresh(c) && c.open && c.sessionId == b.id
    ensures cp.issued == old(cp.issued) + (if b.Refused? then {} else {b.id})
    ensures cp.live == if b.Refused? then old(cp.live)
                       else if b.Born? || !works then old(cp.live) + {b.id}
                       else old(cp.live) - {b.id}
  {
    if b.Refused? { return null; }
    cp.CreateSession(b.id);
    if b.Unreachable? {
      cp.DeleteSession(b.id, works);
      return null;
    }
    c := new Client(b.id);
  }

  datatype Env = Env(attach: bool, first: Birth, second: Birth, op1: OpOutcome, op2: OpOutcome, works: bool)

  datatype CallResult = Returned(sessionId: string, recovered: bool) | Raised

  // The call gets a client: a cached or attached one for a given session, or one for a new session.
  predicate Obtains(sid: string, cached: set<string>, env: Env) {
    if sid != "" then sid in cached || env.attach else env.first.Born?
  }

  // ---- What a call does to the books ----

  // The sessions that are cached, those that exist, and all IDs ever given out.
  datatype Books = Books(cached: set<string>, live: set<string>, issued: set<string>)

  function Opened(b: Birth): set<string> { if b.Born? then {b.id} else {} }

  // A new session that could be neither reached nor deleted again.
  function Leaked(b: Birth, works: bool): set<string> { if b.Unreachable? && !works then {b.id} else {} }

  function Issued(b: Birth): set<string> { if b.Refused? then {} else {b.id} }

  function Fetch(b: Books, sid: string, reuse: bool, attach: bool, birth: Birth, works: bool): Books {
    if sid != "" then
      b.(cached := if reuse && (sid in b.cached || attach) then b.cached + {sid} else b.cached)
    else
      Books(b.cached + (if reuse then Opened(birth) else {}), b.live + Opened(birth) + Leaked(birth, works),
            b.issued + Issued(birth))
  }

  function Release(b: Books, id: string, works: bool): Books {
    Books(b.cached - {id}, if works then b.live - {id} else b.live, b.issued)
  }

  // The given session is released and a new one opened, for this call or for later ones.
  function Renew(b: Books, sid: string, reuse: bool, env: Env): Books {
    var b1 := Fetch(Release(b, sid, env.works), "", reuse, false, env.second, env.works);
    if env.second.Born? && !reuse then Release(b1, env.second.id, env.works) else b1
  }

  // What is left to do with a client of session id, which was given or is new.
  function Finish(b: Books, id: string, given: bool, reuse: bool, env: Env): Books {
    if given && env.op1.Stale? then Renew(b, id, reuse, env)
    else if reuse then b
    else Release(b, id, env.works)
  }

  function Settle(b: Books, sid: string, reuse: bool, env: Env): Books {
    var b1 := Fetch(b, sid, reuse, env.attach, env.first, env.works);
    if !Obtains(sid, b.cached, env) then b1
    else Finish(b1, if sid != "" then sid else env.first.id, sid != "", reuse, env)
  }

  ghost predicate Sound(b: Books) { b.live <= b.issued && "" !in b.cached }

  // With session_reuse=false nothing the call created is live or cached afterwards, and the given session is
  // not cached; it does not exist either if the call got a client for it.
  lemma {:induction false} NothingLeft(b: Books, sid: string, env: Env)
    requires Sound(b) && FreshBirth(env.first, b.issued + b.cached + {sid})
    requires FreshBirth(env.second, b.issued + b.cached + {sid})
    ensures var b' := Settle(b, sid, false, env);
            && b'.cached == b.cached - {sid}
            && (env.works ==> b'.live == b.live - (if sid != "" && Obtains(sid, b.cached, env) then {sid} else {}))
            && (env.works ==> (b'.issued - b.issued) !! b'.live && b'.live <= b.live)
  {
  }

  // With session_reuse=true the session that served is cached and live, and a stale one is dropped for good.
  lemma {:induction false} SessionKept(b: Books, sid: string, env: Env)
    requires Sound(b) && FreshBirth(env.first, b.issued + b.cached + {sid})
    requires FreshBirth(env.second, b.issued + b.cached + {sid})
    ensures var b' := Settle(b, sid, true, env);
            if !Obtains(sid, b.cached, env) then b'.cached == b.cached && (env.works ==> b'.live == b.live)
            else if sid != "" && env.op1.Stale? then
              && b'.cached == b.cached - {sid} + Opened(env.second)
              && (env.works ==> b'.live == b.live - {sid} + Opened(env.second))
            else
              && b'.cached == b.cached + {if sid != "" then sid else env.first.id}
              && b'.live == b.live + (if sid != "" then {} else {env.first.id})
  {
  }

  // No other session is touched, and new ones are opened only where there is none to use.
  lemma {:induction false} OthersUntouched(b: Books, sid: string, reuse: bool, env: Env)
    requires Sound(b) && FreshBirth(env.first, b.issued + b.cached + {sid})
    requires FreshBirth(env.second, b.issued + b.cached + {sid})
    ensures var b' := Settle(b, sid, reuse, env);
            && Sound(b')
            && b.cached - {sid} <= b'.cached <= b.cached + {sid} + (b'.issued - b.issued)
            && b.live - {sid} <= b'.live <= b.live + (b'.issued - b.issued)
            && b'.issued == b.issued +
                 (if sid == "" then Issued(env.first)
                  else if Obtains(sid, b.cached, env) && env.op1.Stale? then Issued(env.second) else {})
  {
    var b1 := Fetch(b, sid, reuse, env.attach, env.first, env.works);
    assert b.live <= b1.live <= b.live + (b1.issued - b.issued);
    assert b.cached <= b1.cached <= b.cached + {sid} + (b1.issued - b.issued);
  }

  class Server {
    var sessions: map<string, Client>
    const cp: ControlPlane

    // Every cached key maps to an unstopped client with that session ID.
    ghost predicate Valid()
      reads this, cp, sessions.Values
    {
      cp.live <= cp.issued &&
      forall k :: k in sessions ==> sessions[k].open && sessions[k].sessionId == k && k != ""
    }

    ghost function Keeps(): Books
      reads this, cp
    {
      Books(sessions.Keys, cp.live, cp.issued)
    }

    constructor (cp: ControlPlane)
      requires cp.live <= cp.issued
      ensures this.cp == cp && sessions == map[] && Valid()
    {
      this.cp := cp;
      sessions := map[];
    }

    method ClientForCall(sid: string, reuse: bool, attach: bool, b: Birth, works: bool) returns (c: Client?)
      requires Valid() && FreshBirth(b, cp.issued + sessions.Keys)
      modifies this, cp
      ensures Valid()
      ensures c != null <==> if sid != "" then sid in old(sessions) || attach else b.Born?
      ensures c != null ==> c.open && c.sessionId == if sid != "" then sid else b.id
      ensures c != null ==> (sid in old(sessions) && c == old(sessions)[sid]) || (sid !in old(sessions) && fresh(c))
      ensures sessions == if c != null && reuse then old(sessions)[c.sessionId := c] else old(sessions)
      ensures sid != "" ==> cp.issued == old(cp.issued) && cp.live == old(cp.live)
      ensures sid == "" ==> cp.issued == old(cp.issued) + (if b.Refused? then {} else {b.id})
      ensures sid == "" ==>
        cp.live == old(cp.live) + (if b.Born? || (b.Unreachable? && !works) then {b.id} else {})
      ensures Keeps() == Fetch(old(Keeps()), sid, reuse, attach, b, works)
    {
      if sid != "" {
        if sid in sessions {
          c := sessions[sid];
          return;
        }
        if !attach { return null; }
        c := new Client(sid);
        if reuse { sessions := sessions[sid := c]; }
        return;
      }
      c := NewClient(cp, b, works);
      if c != null && reuse { sessions := sessions[c.sessionId := c]; }
    }

    method CleanupAfterCall(c: Client, reuse: bool, works: bool)
      requires forall k :: k in sessions && k != c.sessionId ==>
                 sessions[k] != c && sessions[k].open && sessions[k].sessionId == k && k != ""
      requires "" !in sessions && cp.live <= cp.issued && (reuse ==> Valid())
      modifies this, c, cp`live
      ensures Valid()
      ensures reuse ==> sessions == old(sessions) && cp.live == old(cp.live)
      ensures reuse ==> c.sessionId == old(c.sessionId) && c.open == old(c.open)
      ensures !reuse ==> sessions == old(sessions) - {old(c.sessionId)}
      ensures !reuse ==>
        cp.live == if works && old(c.sessionId) != "" then old(cp.live) - {old(c.sessionId)} else old(cp.live)
    {
      if reuse { return; }
      var sid := c.sessionId;
      c.Stop(cp, works);
      if sid != "" { sessions := sessions - {sid}; }
    }

    method CallWithSessionRecovery(sid: string, reuse: bool, env: Env) returns (r: CallResult, runs: nat)
      requires Valid()
      requires FreshBirth(env.first, cp.issued + sessions.Keys + {sid})
      requires FreshBirth(env.second, cp.issued + sessions.Keys + {sid})
      modifies this, cp, sessions.Values
      ensures Valid()
      // The operation runs once with the client the call gets, and a second time exactly if the given session
      // proved stale and a new one could be opened.
      ensures runs == if !Obtains(sid, old(sessions.Keys), env) then 0
                      else if sid != "" && env.op1.Stale? && env.second.Born? then 2 else 1
      // It returns exactly if its last run went well, and names the session of that run.
      ensures r == if runs == 1 && env.op1.Fine? then Returned(if sid != "" then sid else env.first.id, false)
                   else if runs == 2 && env.op2.Fine? then Returned(env.second.id, true)
                   else Raised
      ensures Keeps() == Settle(old(Keeps()), sid, reuse, env)
      // With session_reuse=false nothing this call created is live or cached afterwards, and the given
      // session is no longer cached.
      ensures !reuse && env.works ==> (cp.issued - old(cp.issued)) !! cp.live && cp.live <= old(cp.live)
      ensures !reuse ==> sessions.Keys == old(sessions.Keys) - {sid}
      // No other session is touched.
      ensures old(cp.live) - {sid} <= cp.live <= old(cp.live) + (cp.issued - old(cp.issued))
      // With session_reuse=true a returned session stays cached, under its own ID.
      ensures reuse && r.Returned? ==> r.sessionId in sessions
      // A stale session is dropped for good.
      ensures runs >= 1 && sid != "" && env.op1.Stale? ==> sid !in sessions
    {
      if reuse { SessionKept(Keeps(), sid, env); } else { NothingLeft(Keeps(), sid, env); }
      OthersUntouched(Keeps(), sid, reuse, env);
      var c := ClientForCall(sid, reuse, env.attach, env.first, env.works);
      if c == null { return Raised, 0; }
      r, runs := Serve(c, sid, reuse, env);
    }

    // The call once it has its client.
    method Serve(c: Client, sid: string, reuse: bool, env: Env) returns (r: CallResult, runs: nat)
      requires Valid()
      requires sid != "" ==> c.sessionId == sid && FreshBirth(env.second, cp.issued + sessions.Keys + {sid})
      requires c.sessionId != "" && (c.sessionId in sessions ==> sessions[c.sessionId] == c)
      modifies this, cp, c
      ensures Valid() && Keeps() == Finish(old(Keeps()), old(c.sessionId), sid != "", reuse, env)
      ensures runs == if sid != "" && env.op1.Stale? && env.second.Born? then 2 else 1
      ensures r == if runs == 1 && env.op1.Fine? then Returned(old(c.sessionId), false)
                   else if runs == 2 && env.op2.Fine? then Returned(env.second.id, true)
                   else Raised
    {
      if sid != "" && env.op1.Stale? {
        r, runs := StartOver(c, sid, reuse, env);
        return;
      }
      runs := 1;
      r := if env.op1.Fine? then Returned(c.sessionId, false) else Raised;
      CleanupAfterCall(c, reuse, env.works);
    }

    // The given session is gone: drop it, stop its client, and open a new session once.
    method StartOver(c: Client, sid: string, reuse: bool, env: Env) returns (r: CallResult, runs: nat)
      requires Valid() && FreshBirth(env.second, cp.issued + sessions.Keys + {sid})
      requires sid != "" && c.sessionId == sid && (sid in sessions ==> sessions[sid] == c)
      modifies this, cp, c
      ensures Valid() && Keeps() == Renew(old(Keeps()), sid, reuse, env)
      ensures runs == if env.second.Born? then 2 else 1
      ensures r == if env.second.Born? && env.op2.Fine? then Returned(env.second.id, true) else Raised
    {
      sessions := sessions - {sid};
      c.Stop(cp, env.works);
      var d := ClientForCall("", reuse, false, env.second, env.works);
      if d == null {
        CleanupAfterCall(c, reuse, env.works);
        return Raised, 1;
      }
      r := if env.op2.Fine? then Returned(d.sessionId, true) else Raised;
      CleanupAfterCall(d, reuse, env.works);
      runs := 2;
    }

    // An empty ID makes the client constructor open a new session, which is deleted at once.
    method StopSession(sid: string, attach: bool, b: Birth, works: bool) returns (stopped: bool)
      requires Valid() && FreshBirth(b, cp.issued)
      modifies this, cp, sessions.Values
      ensures Valid() && sessions == old(sessions) - {sid}
      ensures stopped == if sid != "" then sid in old(sessions) || attach else b.Born?
      ensures works && sid != "" && stopped ==> cp.live == old(cp.live) - {sid}
      ensures !stopped && works ==> cp.live == old(cp.live)
      ensures !works ==> cp.live == old(cp.live) + (if sid == "" then Issued(b) else {})
      ensures works ==> (cp.issued - old(cp.issued)) !! cp.live && cp.live <= old(cp.live)
    {
      if sid in sessions {
        var c := sessions[sid];
        sessions := sessions - {sid};
        c.Stop(cp, works);
        return true;
      }
      if sid == "" {
        var c := NewClient(cp, b, works);
        if c == null { return false; }
        c.Stop(cp, works);
        return true;
      }
      if !attach { return false; }
      var c := new Client(sid);
      c.Stop(cp, works);
      return true;
    }
  }
}
