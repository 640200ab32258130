// The device's client: the token store, the refresh primitive (licensing/client/refresh.go),
// the heartbeat (licensing/client/heartbeat.go) and the easy client around them
// (licensing/easy/client.go). What the issuer answers is a parameter of each operation.
module Client {
  import opened Base
  import opened Validate
  import TokenCodec

  // An empty token means none is stored.
  datatype Stored = Stored(token: Text, graceStart: Option<int>)

  const EMPTY := Stored([], None)

  // What posting to the issuer comes back with.
  datatype Reply<+T> = Answered(value: T) | Failed(e: ClientError)

  datatype Outcome =
    | Refreshed(token: Text)
    | NotDue(token: Text)
    | GraceEntered(token: Text, start: int)
    | GraceContinued(token: Text, start: int)

  datatype RefreshOptions = RefreshOptions(codecs: seq<TokenCodec.Codec>, threshold: real, window: int)

  // ---------- the refresh primitive ----------

  function ShouldRefresh(p: Peeked, now: int, threshold: real): bool {
    var lifetime := p.exp - p.nbf;
    var remaining := p.exp - now;
    lifetime <= 0 || remaining <= 0 || remaining as real / lifetime as real < threshold
  }

  // What a refresh does before it would contact the issuer: fail, answer, or go online, forced
  // or not.
  datatype Plan = Fail(e: ClientError) | Skip | Online(forced: bool)

  ghost function PlanRefresh(o: RefreshOptions, s: Stored, now: int): Plan {
    if s.token == [] then Fail(NoToken)
    else
      match Peek(o.codecs, s.token)
      case Err(e) => Fail(e)
      case Ok(p) =>
        if s.graceStart.Some? && o.window > 0 && now >= s.graceStart.value + o.window then Fail(GraceExpired)
        else
          var forced := p.forceOnlineAfter.Some? && now >= p.forceOnlineAfter.value;
          if !forced && !ShouldRefresh(p, now, o.threshold) && s.graceStart.None? then Skip
          else Online(forced)
  }

  ghost function RefreshResult(o: RefreshOptions, s: Stored, now: int, reply: Reply<Text>)
    : (Stored, Result<Outcome, ClientError>)
  {
    match PlanRefresh(o, s, now)
    case Fail(e) => (s, Err(e))
    case Skip => (s, Ok(NotDue(s.token)))
    case Online(forced) =>
      match reply
      case Answered(token) => (Stored(token, None), Ok(Refreshed(token)))
      case Failed(e) =>
        if e != IssuerUnreachable then (s, Err(e))
        else if !forced then (s, Ok(NotDue(s.token)))
        else if o.window == 0 then (s, Err(RequiresOnlineRefresh))
        else if s.graceStart.Some? then (s, Ok(GraceContinued(s.token, s.graceStart.value)))
        else (Stored(s.token, Some(now)), Ok(GraceEntered(s.token, now)))
  }

  class MemoryTokenStore {
    var state: Stored

    constructor ()
      ensures state == EMPTY
    {
      state := EMPTY;
    }

    method Read() returns (s: Stored)
      ensures s == state
    {
      return state;
    }

    method Write(s: Stored)
      modifies this
      ensures state == s
    {
      state := s;
    }

    method Clear()
      modifies this
      ensures state == EMPTY
    {
      state := EMPTY;
    }
  }

  method Refresh(store: MemoryTokenStore, o: RefreshOptions, now: int, reply: Reply<Text>)
    returns (r: Result<Outcome, ClientError>)
    modifies store
    ensures (store.state, r) == RefreshResult(o, old(store.state), now, reply)
  {
    var state := store.Read();
    if state.token == [] {
      return Err(NoToken);
    }
    var peek :- PeekToken(o.codecs, state.token);
    if state.graceStart.Some? {
      if o.window > 0 && now >= state.graceStart.value + o.window {
        return Err(GraceExpired);
      }
    }
    var forced := peek.forceOnlineAfter.Some? && now >= peek.forceOnlineAfter.value;
    var proactive := ShouldRefresh(peek, now, o.threshold);
    var inGrace := state.graceStart.Some?;
    if !forced && !proactive && !inGrace {
      return Ok(NotDue(state.token));
    }
    if reply.Failed? {
      if reply.e != IssuerUnreachable {
        return Err(reply.e);
      }
      if forced {
        if o.window == 0 {
          return Err(RequiresOnlineRefresh);
        }
        if inGrace {
          return Ok(GraceContinued(state.token, state.graceStart.value));
        }
        store.Write(Stored(state.token, Some(now)));
        return Ok(GraceEntered(state.token, now));
      }
      return Ok(NotDue(state.token));
    }
    store.Write(Stored(reply.value, None));
    return Ok(Refreshed(reply.value));
  }

  // ---------- the heartbeat ----------

  ghost function HeartbeatResult(s: Stored, reply: Reply<()>): (Stored, bool) {
    if s.token == [] then (s, true)
    else
      match reply
      case Answered(_) => (Stored(s.token, None), true)
      case Failed(e) => (if e == LicenseRevoked || e == LicenseSuspended then EMPTY else s, false)
  }

  method SendOneHeartbeat(store: MemoryTokenStore?, reply: Reply<()>) returns (ok: bool)
    modifies store
    ensures store == null ==> ok
    ensures store != null ==> (store.state, ok) == HeartbeatResult(old(store.state), reply)
  {
    if store == null {
      return true;
    }
    var state := store.Read();
    if state.token == [] {
      return true;
    }
    if reply.Failed? {
      if reply.e == LicenseRevoked || reply.e == LicenseSuspended {
        var cur := store.Read();
        if cur.token == state.token {
          store.Clear();
        }
      }
      return false;
    }
    if state.graceStart.Some? {
      store.Write(Stored(state.token, None));
    }
    return true;
  }

  // ---------- the easy client ----------

  const DEFAULT_THRESHOLD: real := 0.25

  datatype Config = Config(window: int, verify: Options)

  function OptionsOf(c: Config): RefreshOptions {
    RefreshOptions(c.verify.trust.codecs, DEFAULT_THRESHOLD, c.window)
  }

  predicate InGrace(o: Outcome) {
    o.GraceEntered? || o.GraceContinued?
  }

  // A grace outcome stands only when the health probe fails too; otherwise a marker just
  // written is rolled back.
  ghost function EasyRefresh(c: Config, s: Stored, now: int, reply: Reply<Text>, healthy: bool)
    : (Stored, Result<Outcome, ClientError>)
  {
    var (next, r) := RefreshResult(OptionsOf(c), s, now, reply);
    if r.Err? || !InGrace(r.value) || !healthy then (next, r)
    else (if r.value.GraceEntered? then s else next, Err(IssuerProtocolError))
  }

  datatype Handle = Handle(accepted: Accepted, isInGrace: bool, graceStartedAt: int)

  // Guard reads the clock twice: to refresh and to verify.
  ghost function GuardResult(c: Config, fingerprint: Text, s: Stored, now: int, later: int, reply: Reply<Text>, healthy: bool)
    : (Stored, Result<Handle, ClientError>)
  {
    if s.token == [] then (s, Err(NoToken))
    else
      var (next, r) := EasyRefresh(c, s, now, reply, healthy);
      if r.Err? then (next, Err(r.error))
      else if next.token == [] then (next, Err(NoToken))
      else
        match Checked(next.token, c.verify.(fingerprint := fingerprint), later)
        case Err(e) => (next, Err(e))
        case Ok(a) =>
          (next, Ok(Handle(a, a.claims.status == GRACE || next.graceStart.Some?,
                           if next.graceStart.Some? then next.graceStart.value else 0)))
  }

  class EasyClient {
    const storage: MemoryTokenStore
    const config: Config

    constructor (storage: MemoryTokenStore, config: Config)
      ensures this.storage == storage && this.config == config
    {
      this.storage, this.config := storage, config;
    }

    method RefreshNow(now: int, reply: Reply<Text>, healthy: bool) returns (r: Result<Outcome, ClientError>)
      modifies storage
      ensures (storage.state, r) == EasyRefresh(config, old(storage.state), now, reply, healthy)
    {
      hide RefreshResult;
      var preState := storage.Read();
      var out :- Refresh(storage, OptionsOf(config), now, reply);
      if !out.GraceEntered? && !out.GraceContinued? {
        return Ok(out);
      }
      if !healthy {
        return Ok(out);
      }
      if out.GraceEntered? {
        storage.Write(Stored(preState.token, preState.graceStart));
      }
      return Err(IssuerProtocolError);
    }

    method Guard(fingerprint: Text, now: int, later: int, reply: Reply<Text>, healthy: bool)
      returns (r: Result<Handle, ClientError>)
      modifies storage
      ensures (storage.state, r) == GuardResult(config, fingerprint, old(storage.state), now, later, reply, healthy)
    {
      hide EasyRefresh, Checked;
      var state := storage.Read();
      if state.token == [] {
        return Err(NoToken);
      }
      var _ :- RefreshNow(now, reply, healthy);
      var next := storage.Read();
      if next.token == [] {
        return Err(NoToken);
      }
      var a :- ValidateToken(next.token, config.verify.(fingerprint := fingerprint), later, null);
      var isInGrace := a.claims.status == GRACE || next.graceStart.Some?;
      return Ok(Handle(a, isInGrace, if next.graceStart.Some? then next.graceStart.value else 0));
    }
  }
}
