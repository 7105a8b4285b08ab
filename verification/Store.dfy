/** The session store. Redis and Valkey implement one interface over the same keys and sorted
    sets; both are proved against the operations of one abstract store. */
module Store {
  import opened Sandboxes
  import SortedSet

  datatype Error = NilSandbox | ZeroExpiry | KeyMissing | EmptySessionId | NotFound

  datatype Result<+T> = Ok(value: T) | Err(error: Error)

  datatype Unit = Unit

  // session:<id> keys and the two indexes.
  datatype State = State(keys: map<string, Info>, expiry: SortedSet.ZSet, activity: SortedSet.ZSet) {
    ghost predicate Valid() { SortedSet.Valid(expiry) && SortedSet.Valid(activity) }
  }

  // ---- The abstract store ----

  // What survives the JSON round trip: LastActivityAt is not serialized.
  function Persisted(s: Info): Info { s.(lastActivityAt := 0) }

  function Stored(st: State, s: Info, now: Time): State {
    State(if s.sessionId in st.keys then st.keys else st.keys[s.sessionId := Persisted(s)],
          SortedSet.Add(st.expiry, Unix(s.expiresAt), s.sessionId),
          SortedSet.Add(st.activity, Unix(now), s.sessionId))
  }

  // A record that is there already stays; both scores are set in any case.
  lemma {:induction false} StoredSpec(st: State, s: Info, now: Time)
    ensures var st' := Stored(st, s, now);
            && st'.keys == map[s.sessionId := s.(lastActivityAt := 0)] + st.keys
            && SortedSet.Scores(st'.expiry) == SortedSet.Scores(st.expiry)[s.sessionId := Unix(s.expiresAt)]
            && SortedSet.Scores(st'.activity) == SortedSet.Scores(st.activity)[s.sessionId := Unix(now)]
  {
    SortedSet.AddScores(st.expiry, Unix(s.expiresAt), s.sessionId);
    SortedSet.AddScores(st.activity, Unix(now), s.sessionId);
  }

  function StoreResult(s: Option<Info>): Result<Unit> {
    if s.None? then Err(NilSandbox) else if s.value.expiresAt == 0 then Err(ZeroExpiry) else Ok(Unit)
  }

  function Updated(st: State, s: Info): State {
    if s.sessionId in st.keys then st.(keys := st.keys[s.sessionId := Persisted(s)]) else st
  }

  function UpdateResult(st: State, s: Option<Info>): Result<Unit> {
    if s.None? then Err(NilSandbox) else if s.value.sessionId in st.keys then Ok(Unit) else Err(KeyMissing)
  }

  function Erased(st: State, id: string): State {
    State(st.keys - {id}, SortedSet.Remove(st.expiry, id), SortedSet.Remove(st.activity, id))
  }

  function Touched(st: State, id: string, at: Time): State {
    if id in st.keys then st.(activity := SortedSet.Add(st.activity, Unix(at), id)) else st
  }

  function TouchResult(st: State, id: string): Result<Unit> {
    if id == "" then Err(EmptySessionId) else if id in st.keys then Ok(Unit) else Err(NotFound)
  }

  // The records of these sessions, in this order; sessions without a record are passed over.
  function Load(keys: map<string, Info>, ids: seq<string>): seq<Info> {
    if ids == [] then []
    else (if ids[0] in keys then [keys[ids[0]]] else []) + Load(keys, ids[1..])
  }

  function Stamp(s: Info, scores: map<string, int>): Info {
    if s.sessionId in scores then s.(lastActivityAt := FromUnix(scores[s.sessionId])) else s
  }

  function StampAll(infos: seq<Info>, scores: map<string, int>): seq<Info> {
    if infos == [] then [] else [Stamp(infos[0], scores)] + StampAll(infos[1..], scores)
  }

  function Expired(st: State, before: Time, limit: int): seq<Info> {
    if limit <= 0 then []
    else Load(st.keys, SortedSet.Members(SortedSet.RangeByScore(st.expiry, Unix(before), limit)))
  }

  function Inactive(st: State, before: Time, limit: int): seq<Info> {
    if limit <= 0 then []
    else
      var range := SortedSet.RangeByScore(st.activity, Unix(before), limit);
      StampAll(Load(st.keys, SortedSet.Members(range)), SortedSet.Scores(range))
  }

  lemma {:induction false} LoadAppend(keys: map<string, Info>, a: seq<string>, b: seq<string>)
    ensures Load(keys, a + b) == Load(keys, a) + Load(keys, b)
  {
    if a == [] {
      assert a + b == b;
    } else {
      assert (a + b)[1..] == a[1..] + b;
      LoadAppend(keys, a[1..], b);
    }
  }

  lemma {:induction false} StampAllAt(infos: seq<Info>, scores: map<string, int>)
    ensures |StampAll(infos, scores)| == |infos|
    ensures forall i :: 0 <= i < |infos| ==> StampAll(infos, scores)[i] == Stamp(infos[i], scores)
  {
    if infos != [] { StampAllAt(infos[1..], scores); }
  }

  lemma {:induction false} ScoresAppend(z: SortedSet.ZSet, e: SortedSet.Entry)
    requires forall x :: x in z ==> x.member != e.member
    ensures SortedSet.Scores(z + [e]) == SortedSet.Scores(z)[e.member := e.score]
  {
    if z != [] {
      assert (z + [e])[1..] == z[1..] + [e];
      ScoresAppend(z[1..], e);
      assert z[0] in z;
    }
  }

  // ---- The server both stores talk to: one method, one command ----

  class Server {
    var keys: map<string, Info>
    var expiry: SortedSet.ZSet
    var activity: SortedSet.ZSet

    function Value(): State
      reads this
    {
      State(keys, expiry, activity)
    }

    function ExpiryScores(): map<string, int>
      reads this
    {
      SortedSet.Scores(expiry)
    }

    function ActivityScores(): map<string, int>
      reads this
    {
      SortedSet.Scores(activity)
    }

    constructor ()
      ensures Value() == State(map[], [], [])
    {
      keys, expiry, activity := map[], [], [];
    }

    method Get(id: string) returns (r: Option<Info>)
      ensures r == if id in keys then Some(keys[id]) else None
    {
      r := if id in keys then Some(keys[id]) else None;
    }

    method Exists(id: string) returns (n: int)
      ensures n == if id in keys then 1 else 0
    {
      n := if id in keys then 1 else 0;
    }

    method SetNX(id: string, v: Info)
      modifies `keys
      ensures keys == if id in old(keys) then old(keys) else old(keys)[id := v]
    {
      if id !in keys { keys := keys[id := v]; }
    }

    method SetXX(id: string, v: Info) returns (ok: bool)
      modifies `keys
      ensures ok == (id in old(keys))
      ensures keys == if ok then old(keys)[id := v] else old(keys)
    {
      ok := id in keys;
      if ok { keys := keys[id := v]; }
    }

    method Del(id: string)
      modifies `keys
      ensures keys == old(keys) - {id}
    {
      keys := keys - {id};
    }

    method ZAddExpiry(score: int, id: string)
      modifies `expiry
      ensures expiry == SortedSet.Add(old(expiry), score, id)
    {
      expiry := SortedSet.Add(expiry, score, id);
    }

    method ZAddActivity(score: int, id: string)
      modifies `activity
      ensures activity == SortedSet.Add(old(activity), score, id)
    {
      activity := SortedSet.Add(activity, score, id);
    }

    method ZRemExpiry(id: string)
      modifies `expiry
      ensures expiry == SortedSet.Remove(old(expiry), id)
    {
      expiry := SortedSet.Remove(expiry, id);
    }

    method ZRemActivity(id: string)
      modifies `activity
      ensures activity == SortedSet.Remove(old(activity), id)
    {
      activity := SortedSet.Remove(activity, id);
    }

    // The script of UpdateSessionLastActivity, run without interruption.
    method EvalTouch(id: string, score: int) returns (res: int)
      modifies `activity
      ensures res == if id in keys then 1 else 0
      ensures activity == if id in keys then SortedSet.Add(old(activity), score, id) else old(activity)
    {
      if id in keys {
        activity := SortedSet.Add(activity, score, id);
        res := 1;
      } else {
        res := 0;
      }
    }

    method MGet(ids: seq<string>) returns (rs: seq<Option<Info>>)
      ensures |rs| == |ids|
      ensures forall i :: 0 <= i < |ids| ==> rs[i] == if ids[i] in keys then Some(keys[ids[i]]) else None
    {
      var ks := keys;
      rs := seq(|ids|, i requires 0 <= i < |ids| => if ids[i] in ks then Some(ks[ids[i]]) else None);
    }
  }

  // ---- Redis ----

  class RedisStore {
    const cli: Server

    constructor (cli: Server)
      ensures this.cli == cli
    {
      this.cli := cli;
    }

    method LoadSandboxesBySessionIDs(ids: seq<string>) returns (result: seq<Info>)
      ensures result == Load(cli.keys, ids)
    {
      result := [];
      if |ids| == 0 { return; }
      // One pipelined GET per session.
      var cmds: seq<Option<Info>> := [];
      for i := 0 to |ids|
        invariant |cmds| == i
        invariant forall k :: 0 <= k < i ==> cmds[k] == if ids[k] in cli.keys then Some(cli.keys[ids[k]]) else None
      {
        var cmd := cli.Get(ids[i]);
        cmds := cmds + [cmd];
      }
      for i := 0 to |ids|
        invariant result == Load(cli.keys, ids[..i])
      {
        assert ids[..i + 1] == ids[..i] + [ids[i]];
        LoadAppend(cli.keys, ids[..i], [ids[i]]);
        if cmds[i].None? { continue; }
        result := result + [cmds[i].value];
      }
      assert ids[..|ids|] == ids;
    }

    method GetSandboxBySessionID(id: string) returns (r: Result<Info>)
      ensures r == if id in cli.keys then Ok(cli.keys[id]) else Err(NotFound)
    {
      var b := cli.Get(id);
      if b.None? { return Err(NotFound); }
      return Ok(b.value);
    }

    method StoreSandbox(s: Option<Info>, now: Time) returns (r: Result<Unit>)
      modifies cli
      ensures r == StoreResult(s)
      ensures cli.Value() == if r.Ok? then Stored(old(cli.Value()), s.value, now) else old(cli.Value())
      ensures r.Ok? <==> s.Some? && s.value.expiresAt != 0
      ensures r.Ok? ==>
        && cli.keys == map[s.value.sessionId := s.value.(lastActivityAt := 0)] + old(cli.keys)
        && cli.ExpiryScores() == old(cli.ExpiryScores())[s.value.sessionId := Unix(s.value.expiresAt)]
        && cli.ActivityScores() == old(cli.ActivityScores())[s.value.sessionId := Unix(now)]
    {
      if s.None? { return Err(NilSandbox); }
      if s.value.expiresAt == 0 { return Err(ZeroExpiry); }
      StoredSpec(cli.Value(), s.value, now);
      cli.SetNX(s.value.sessionId, Persisted(s.value));
      cli.ZAddExpiry(Unix(s.value.expiresAt), s.value.sessionId);
      cli.ZAddActivity(Unix(now), s.value.sessionId);
      return Ok(Unit);
    }

    method UpdateSandbox(s: Option<Info>) returns (r: Result<Unit>)
      modifies cli
      ensures r == UpdateResult(old(cli.Value()), s)
      ensures cli.Value() == if s.Some? then Updated(old(cli.Value()), s.value) else old(cli.Value())
      ensures r.Ok? <==> s.Some? && s.value.sessionId in old(cli.keys)
      ensures cli.keys ==
        if r.Ok? then old(cli.keys)[s.value.sessionId := s.value.(lastActivityAt := 0)] else old(cli.keys)
      ensures cli.expiry == old(cli.expiry) && cli.activity == old(cli.activity)
    {
      if s.None? { return Err(NilSandbox); }
      var ok := cli.SetXX(s.value.sessionId, Persisted(s.value));
      if !ok { return Err(KeyMissing); }
      return Ok(Unit);
    }

    method DeleteSandboxBySessionID(id: string)
      modifies cli
      ensures cli.Value() == Erased(old(cli.Value()), id)
      ensures cli.keys == old(cli.keys) - {id}
      ensures cli.ExpiryScores() == old(cli.ExpiryScores()) - {id}
      ensures cli.ActivityScores() == old(cli.ActivityScores()) - {id}
    {
      SortedSet.RemoveScores(cli.expiry, id);
      SortedSet.RemoveScores(cli.activity, id);
      cli.Del(id);
      cli.ZRemExpiry(id);
      cli.ZRemActivity(id);
    }

    method ListExpiredSandboxes(before: Time, limit: int) returns (result: seq<Info>)
      ensures result == Expired(cli.Value(), before, limit)
    {
      if limit <= 0 { return []; }
      var ids := SortedSet.Members(SortedSet.RangeByScore(cli.expiry, Unix(before), limit));
      result := LoadSandboxesBySessionIDs(ids);
    }

    method ListInactiveSandboxes(before: Time, limit: int) returns (result: seq<Info>)
      requires SortedSet.Valid(cli.activity)
      ensures result == Inactive(cli.Value(), before, limit)
    {
      if limit <= 0 { return []; }
      var zs := SortedSet.RangeByScore(cli.activity, Unix(before), limit);
      var ids, scores := CollectScores(cli.activity, zs, Unix(before), limit);
      var loaded := LoadSandboxesBySessionIDs(ids);
      result := StampFrom(loaded, scores, SortedSet.Scores(zs));
    }

    method UpdateSessionLastActivity(id: string, at: Time, now: Time) returns (r: Result<Unit>)
      modifies cli
      ensures r == TouchResult(old(cli.Value()), id)
      ensures cli.Value() ==
        if r.Ok? then Touched(old(cli.Value()), id, if at == 0 then now else at) else old(cli.Value())
      // Only the score of a session that has a record is set.
      ensures r.Ok? <==> id != "" && id in old(cli.keys)
      ensures cli.keys == old(cli.keys) && cli.expiry == old(cli.expiry)
      ensures cli.ActivityScores() ==
        if r.Ok? then old(cli.ActivityScores())[id := Unix(if at == 0 then now else at)]
        else old(cli.ActivityScores())
    {
      if id == "" { return Err(EmptySessionId); }
      var t := at;
      if t == 0 { t := now; }
      SortedSet.AddScores(cli.activity, Unix(t), id);
      var res := cli.EvalTouch(id, Unix(t));
      if res == 0 { return Err(NotFound); }
      return Ok(Unit);
    }
  }

  // The loop both stores run over a scored range: the members in order and a score for each.
  method CollectScores(index: SortedSet.ZSet, zs: SortedSet.ZSet, max: int, limit: nat)
    returns (ids: seq<string>, scores: map<string, Time>)
    requires SortedSet.Valid(index) && zs == SortedSet.RangeByScore(index, max, limit)
    ensures ids == SortedSet.Members(zs)
    ensures scores == map m | m in SortedSet.Scores(zs) :: FromUnix(SortedSet.Scores(zs)[m])
  {
    ids, scores := [], map[];
    for i := 0 to |zs|
      invariant ids == SortedSet.Members(zs[..i])
      invariant scores == map m | m in SortedSet.Scores(zs[..i]) :: FromUnix(SortedSet.Scores(zs[..i])[m])
    {
      ids := ids + [zs[i].member];
      scores := scores[zs[i].member := FromUnix(zs[i].score)];
      assert zs[..i + 1] == zs[..i] + [zs[i]];
      forall x | x in zs[..i] ensures x.member != zs[i].member {
        var k :| 0 <= k < i && zs[k] == x;
        SortedSet.RangeSpec(index, max, limit);
        SortedSet.Ordered(index, k, i);
      }
      ScoresAppend(zs[..i], zs[i]);
    }
    assert zs[..|zs|] == zs;
  }

  // The loop that fills LastActivityAt from the collected scores.
  method StampFrom(loaded: seq<Info>, times: map<string, Time>, ghost scores: map<string, int>)
    returns (result: seq<Info>)
    requires times == map m | m in scores :: FromUnix(scores[m])
    ensures result == StampAll(loaded, scores)
  {
    result := loaded;
    StampAllAt(loaded, scores);
    for i := 0 to |loaded|
      invariant |result| == |loaded|
      invariant forall k :: 0 <= k < |loaded| ==>
        result[k] == if k < i then Stamp(loaded[k], scores) else loaded[k]
    {
      if result[i].sessionId in times {
        result := result[i := result[i].(lastActivityAt := times[result[i].sessionId])];
      }
    }
  }

  // ---- Valkey ----

  class ValkeyStore {
    const cli: Server

    constructor (cli: Server)
      ensures this.cli == cli
    {
      this.cli := cli;
    }

    method LoadSandboxesBySessionIDs(ids: seq<string>) returns (result: seq<Info>)
      ensures result == Load(cli.keys, ids)
    {
      result := [];
      if |ids| == 0 { return; }
      var answers := cli.MGet(ids);
      for i := 0 to |answers|
        invariant result == Load(cli.keys, ids[..i])
      {
        assert ids[..i + 1] == ids[..i] + [ids[i]];
        LoadAppend(cli.keys, ids[..i], [ids[i]]);
        if answers[i].None? { continue; }
        result := result + [answers[i].value];
      }
      assert ids[..|ids|] == ids;
    }

    method GetSandboxBySessionID(id: string) returns (r: Result<Info>)
      ensures r == if id in cli.keys then Ok(cli.keys[id]) else Err(NotFound)
    {
      var b := cli.Get(id);
      if b.None? { return Err(NotFound); }
      return Ok(b.value);
    }

    method StoreSandbox(s: Option<Info>, now: Time) returns (r: Result<Unit>)
      modifies cli
      ensures r == StoreResult(s)
      ensures cli.Value() == if r.Ok? then Stored(old(cli.Value()), s.value, now) else old(cli.Value())
      ensures r.Ok? <==> s.Some? && s.value.expiresAt != 0
      ensures r.Ok? ==>
        && cli.keys == map[s.value.sessionId := s.value.(lastActivityAt := 0)] + old(cli.keys)
        && cli.ExpiryScores() == old(cli.ExpiryScores())[s.value.sessionId := Unix(s.value.expiresAt)]
        && cli.ActivityScores() == old(cli.ActivityScores())[s.value.sessionId := Unix(now)]
    {
      if s.None? { return Err(NilSandbox); }
      if s.value.expiresAt == 0 { return Err(ZeroExpiry); }
      StoredSpec(cli.Value(), s.value, now);
      cli.SetNX(s.value.sessionId, Persisted(s.value));
      cli.ZAddExpiry(Unix(s.value.expiresAt), s.value.sessionId);
      cli.ZAddActivity(Unix(now), s.value.sessionId);
      return Ok(Unit);
    }

    method UpdateSandbox(s: Option<Info>) returns (r: Result<Unit>)
      modifies cli
      ensures r == UpdateResult(old(cli.Value()), s)
      ensures cli.Value() == if s.Some? then Updated(old(cli.Value()), s.value) else old(cli.Value())
      ensures r.Ok? <==> s.Some? && s.value.sessionId in old(cli.keys)
      ensures cli.keys ==
        if r.Ok? then old(cli.keys)[s.value.sessionId := s.value.(lastActivityAt := 0)] else old(cli.keys)
      ensures cli.expiry == old(cli.expiry) && cli.activity == old(cli.activity)
    {
      if s.None? { return Err(NilSandbox); }
      var ok := cli.SetXX(s.value.sessionId, Persisted(s.value));
      if !ok { return Err(KeyMissing); }
      return Ok(Unit);
    }

    method DeleteSandboxBySessionID(id: string)
      modifies cli
      ensures cli.Value() == Erased(old(cli.Value()), id)
      ensures cli.keys == old(cli.keys) - {id}
      ensures cli.ExpiryScores() == old(cli.ExpiryScores()) - {id}
      ensures cli.ActivityScores() == old(cli.ActivityScores()) - {id}
    {
      SortedSet.RemoveScores(cli.expiry, id);
      SortedSet.RemoveScores(cli.activity, id);
      cli.Del(id);
      cli.ZRemExpiry(id);
      cli.ZRemActivity(id);
    }

    method ListExpiredSandboxes(before: Time, limit: int) returns (result: seq<Info>)
      ensures result == Expired(cli.Value(), before, limit)
    {
      if limit <= 0 { return []; }
      var ids := SortedSet.Members(SortedSet.RangeByScore(cli.expiry, Unix(before), limit));
      result := LoadSandboxesBySessionIDs(ids);
    }

    method ListInactiveSandboxes(before: Time, limit: int) returns (result: seq<Info>)
      requires SortedSet.Valid(cli.activity)
      ensures result == Inactive(cli.Value(), before, limit)
    {
      if limit <= 0 { return []; }
      var zs := SortedSet.RangeByScore(cli.activity, Unix(before), limit);
      var ids, scores := CollectScores(cli.activity, zs, Unix(before), limit);
      var loaded := LoadSandboxesBySessionIDs(ids);
      result := StampFrom(loaded, scores, SortedSet.Scores(zs));
    }

    // Two commands; nothing comes between them in a sequential run.
    method UpdateSessionLastActivity(id: string, at: Time, now: Time) returns (r: Result<Unit>)
      modifies cli
      ensures r == TouchResult(old(cli.Value()), id)
      ensures cli.Value() ==
        if r.Ok? then Touched(old(cli.Value()), id, if at == 0 then now else at) else old(cli.Value())
      // Only the score of a session that has a record is set.
      ensures r.Ok? <==> id != "" && id in old(cli.keys)
      ensures cli.keys == old(cli.keys) && cli.expiry == old(cli.expiry)
      ensures cli.ActivityScores() ==
        if r.Ok? then old(cli.ActivityScores())[id := Unix(if at == 0 then now else at)]
        else old(cli.ActivityScores())
    {
      if id == "" { return Err(EmptySessionId); }
      var t := at;
      if t == 0 { t := now; }
      SortedSet.AddScores(cli.activity, Unix(t), id);
      var n := cli.Exists(id);
      if n != 1 { return Err(NotFound); }
      cli.ZAddActivity(Unix(t), id);
      return Ok(Unit);
    }
  }

  // ---- What sequences of operations keep ----

  // Every record is under its own ID and in both indexes, with its expiry second; nothing else is indexed.
  ghost predicate Agree(st: State) {
    && st.Valid()
    && SortedSet.Scores(st.expiry).Keys == st.keys.Keys
    && SortedSet.Scores(st.activity).Keys == st.keys.Keys
    && (forall id :: id in st.keys ==> st.keys[id].sessionId == id)
    && (forall id :: id in st.keys ==> SortedSet.Scores(st.expiry)[id] == Unix(st.keys[id].expiresAt))
  }

  // SETNX keeps an old record while ZADD moves its index entry, so storing a session again keeps
  // the agreement exactly when the expiry second is the same.
  lemma {:induction false} StoredAgreesIff(st: State, s: Info, now: Time)
    requires Agree(st)
    ensures Agree(Stored(st, s, now)) <==>
            (s.sessionId in st.keys ==> Unix(s.expiresAt) == Unix(st.keys[s.sessionId].expiresAt))
  {
    SortedSet.AddSpec(st.expiry, Unix(s.expiresAt), s.sessionId);
    SortedSet.AddSpec(st.activity, Unix(now), s.sessionId);
  }

  // UpdateSandbox never touches the indexes, so it keeps the agreement exactly when the expiry second is kept.
  lemma {:induction false} UpdatedAgreesIff(st: State, s: Info)
    requires Agree(st)
    ensures Agree(Updated(st, s)) <==>
            (s.sessionId in st.keys ==> Unix(s.expiresAt) == Unix(st.keys[s.sessionId].expiresAt))
  {
    if s.sessionId in st.keys {
      assert Updated(st, s).keys.Keys == st.keys.Keys;
    }
  }

  lemma {:induction false} ErasedAgrees(st: State, id: string)
    requires Agree(st)
    ensures Agree(Erased(st, id))
  {
    SortedSet.RemoveSpec(st.expiry, id);
    SortedSet.RemoveSpec(st.activity, id);
  }

  lemma {:induction false} TouchedAgrees(st: State, id: string, at: Time)
    requires Agree(st)
    ensures Agree(Touched(st, id, at))
  {
    SortedSet.AddSpec(st.activity, Unix(at), id);
  }

  // Storing a session before deleting it makes no difference.
  lemma {:induction false} EraseForgetsStore(st: State, s: Info, now: Time)
    requires st.Valid()
    ensures Erased(Stored(st, s, now), s.sessionId) == Erased(st, s.sessionId)
  {
    AddThenRemove(st.expiry, Unix(s.expiresAt), s.sessionId);
    AddThenRemove(st.activity, Unix(now), s.sessionId);
  }

  lemma {:induction false} AddThenRemove(z: SortedSet.ZSet, score: int, m: string)
    requires SortedSet.Valid(z)
    ensures SortedSet.Remove(SortedSet.Add(z, score, m), m) == SortedSet.Remove(z, m)
  {
    SortedSet.AddSpec(z, score, m);
    SortedSet.RemoveSpec(z, m);
    SortedSet.RemoveSpec(SortedSet.Add(z, score, m), m);
    SortedSet.Canonical(SortedSet.Remove(SortedSet.Add(z, score, m), m), SortedSet.Remove(z, m));
  }

  lemma {:induction false} EraseAbsent(st: State, id: string)
    requires Agree(st) && id !in st.keys
    ensures Erased(st, id) == st
  {
    SortedSet.RemoveSpec(st.expiry, id);
    SortedSet.RemoveSpec(st.activity, id);
    SortedSet.Canonical(SortedSet.Remove(st.expiry, id), st.expiry);
    SortedSet.Canonical(SortedSet.Remove(st.activity, id), st.activity);
  }

  // Deleting a session undoes its store completely, to the order of the indexes.
  lemma {:induction false} EraseUndoesStore(st: State, s: Info, now: Time)
    requires Agree(st) && s.sessionId !in st.keys
    ensures Erased(Stored(st, s, now), s.sessionId) == st
    ensures Stored(st, s, now).keys[s.sessionId] == Persisted(s)
  {
    EraseForgetsStore(st, s, now);
    EraseAbsent(st, s.sessionId);
  }

  // With agreeing indexes a list reports every session of the range, in index order ...
  lemma {:induction false} LoadAll(keys: map<string, Info>, ids: seq<string>)
    requires forall id :: id in ids ==> id in keys
    ensures |Load(keys, ids)| == |ids|
    ensures forall i :: 0 <= i < |ids| ==> Load(keys, ids)[i] == keys[ids[i]]
  {
    if ids != [] {
      assert ids == [ids[0]] + ids[1..];
      LoadAll(keys, ids[1..]);
    }
  }

  // ... which is to say: of the sessions indexed up to that second, the first ones up to the limit.
  lemma {:induction false} ExpiredReports(st: State, before: Time, limit: int, i: nat)
    requires Agree(st) && i < |st.expiry|
    ensures |Expired(st, before, limit)| <= if limit < 0 then 0 else limit
    ensures i < |Expired(st, before, limit)| <==> i < limit && st.expiry[i].score <= Unix(before)
    ensures i < |Expired(st, before, limit)| ==>
              st.expiry[i].member in st.keys && Expired(st, before, limit)[i] == st.keys[st.expiry[i].member]
  {
    if limit > 0 {
      ReportedFront(st, st.expiry, Unix(before), limit);
      FrontByRank(st.expiry, Unix(before), limit, i);
    }
  }

  lemma {:induction false} InactiveReports(st: State, before: Time, limit: int, i: nat)
    requires Agree(st) && i < |st.activity|
    ensures |Inactive(st, before, limit)| <= if limit < 0 then 0 else limit
    ensures i < |Inactive(st, before, limit)| <==> i < limit && st.activity[i].score <= Unix(before)
    ensures i < |Inactive(st, before, limit)| ==>
              var e := st.activity[i];
              e.member in st.keys &&
              Inactive(st, before, limit)[i] == st.keys[e.member].(lastActivityAt := FromUnix(e.score))
  {
    if limit > 0 {
      var range := SortedSet.RangeByScore(st.activity, Unix(before), limit);
      ReportedFront(st, st.activity, Unix(before), limit);
      FrontByRank(st.activity, Unix(before), limit, i);
      StampAllAt(Load(st.keys, SortedSet.Members(range)), SortedSet.Scores(range));
      if i < |range| { ScoreInFront(st.activity, Unix(before), limit, i); }
    }
  }

  lemma {:induction false} ScoreInFront(z: SortedSet.ZSet, max: int, limit: nat, i: nat)
    requires SortedSet.Valid(z) && i < |SortedSet.RangeByScore(z, max, limit)|
    ensures var range := SortedSet.RangeByScore(z, max, limit);
            && range[i].member in SortedSet.Scores(range)
            && SortedSet.Scores(range)[range[i].member] == range[i].score
  {
    var range := SortedSet.RangeByScore(z, max, limit);
    SortedSet.RangeValid(z, max, limit);
    SortedSet.ScoresOf(range);
    assert range[i] in range;
  }

  lemma {:induction false} ReportedFront(st: State, index: SortedSet.ZSet, max: int, limit: nat)
    requires Agree(st) && SortedSet.Valid(index) && SortedSet.Scores(index).Keys == st.keys.Keys
    ensures var range := SortedSet.RangeByScore(index, max, limit);
            var loaded := Load(st.keys, SortedSet.Members(range));
            && |loaded| == |range|
            && forall i :: 0 <= i < |range| ==> range[i].member in st.keys && loaded[i] == st.keys[range[i].member]
  {
    var range := SortedSet.RangeByScore(index, max, limit);
    SortedSet.RangeSpec(index, max, limit);
    SortedSet.ScoresOf(index);
    forall id | id in SortedSet.Members(range) ensures id in st.keys {
      var k :| 0 <= k < |range| && range[k].member == id;
      assert index[k] in index;
    }
    LoadAll(st.keys, SortedSet.Members(range));
  }

  // The front of an index is what has a rank below the limit and a score up to the maximum.
  lemma {:induction false} FrontByRank(z: SortedSet.ZSet, max: int, limit: nat, i: nat)
    requires SortedSet.Valid(z) && i < |z|
    ensures var front := SortedSet.RangeByScore(z, max, limit);
            && front <= z && |front| <= limit
            && (i < |front| <==> i < limit && z[i].score <= max)
  {
    var front := SortedSet.RangeByScore(z, max, limit);
    SortedSet.RangeSpec(z, max, limit);
    assert z[i] in z;
    if i < |front| {
      assert front[i] in front;
    } else if z[i] in front {
      var k :| 0 <= k < |front| && front[k] == z[i];
      SortedSet.Ordered(z, k, i);
    }
  }
}
