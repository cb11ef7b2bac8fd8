/**
 Server-side authentication, session resumption and gating. Each event the transport reports
 is handled as one step on the token table and the connection pool.
 */
module ServerSessions {
  import opened Sequences

  type ClientId = string
  type Token = string

  datatype Profile = Profile(username: string, roles: set<string>, permissions: set<string>)
  datatype Session = Session(token: Token, clientId: ClientId, profile: Profile)
  datatype User = User(passwordHash: string, profile: Profile)

  /**
   What a method or handler demands of the caller's profile, beside its own gate callback. An
   absent or empty role or permission is no demand.
   */
  datatype Guard = Guard(hasGate: bool, role: Option<string>, permission: Option<string>)

  datatype Config = Config(
    maxConnections: nat,
    passwordHash: string,
    hasCredentials: bool,
    rateLimited: bool,
    rpcs: map<string, Guard>,
    handlers: map<string, seq<Guard>>)

  datatype Server = Server(
    validSessions: map<Token, Profile>,
    pool: map<ClientId, Option<Session>>,
    users: map<string, User>)

  /** Message contents, as far as the server looks at them; "" stands for an absent field. */
  datatype Body =
    | AuthRequest(passwordHash: string, username: string, token: Token)
    | RpcRequest(rpc: string)
    | Data(kind: string)
    | Ping
    | Pong
    | Reply
    | Control

  /** Sent to the server itself, through the mesh to the server, or through the mesh to another node. */
  datatype Route = Direct | ToServer | ToOther

  /**
   What the server asks its surroundings while handling a message: the identifier a new
   session would get, whether the rate limiter admits the message, and which of the gate
   callbacks it consults refuse.
   */
  datatype Surroundings = Surroundings(newToken: Token, admitted: bool, refusing: set<nat>)

  datatype Event =
    | Connect(cid: ClientId)
    | Disconnect(cid: ClientId)
    | Message(cid: ClientId, body: Body, route: Route, env: Surroundings)
    | AddUser(username: string, user: User)

  datatype Outcome =
    | Ignored
    | PoolChanged
    | UserAdded
    | AuthFailed
    | AuthOk(token: Token)
    | MeshHandled
    | RateLimited
    | RpcDenied
    | RpcDispatched(rpc: string)
    | HandlersRan(kind: string, ran: seq<nat>)
    | PongSent
    | PongRecorded

  const ADMIN := Profile("admin", {"admin"}, {"read", "write"})

  /** The profile a password or credentials check grants. */
  function CheckedProfile(cfg: Config, s: Server, body: Body): Option<Profile>
    requires body.AuthRequest?
  {
    if cfg.hasCredentials && body.username != "" then
      if body.username in s.users && s.users[body.username].passwordHash == body.passwordHash
      then Some(s.users[body.username].profile) else None
    else if body.passwordHash == cfg.passwordHash then Some(ADMIN) else None
  }

  predicate Resumes(s: Server, body: Body)
    requires body.AuthRequest?
  {
    body.token != "" && body.token in s.validSessions
  }

  function Authenticate(cfg: Config, s: Server, cid: ClientId, body: Body, newToken: Token): (Server, Outcome)
    requires body.AuthRequest?
  {
    if Resumes(s, body) then
      var session := Session(body.token, cid, s.validSessions[body.token]);
      (s.(pool := s.pool[cid := Some(session)]), AuthOk(body.token))
    else
      match CheckedProfile(cfg, s, body)
      case None => (s.(pool := s.pool - {cid}), AuthFailed)
      case Some(profile) =>
        (s.(validSessions := s.validSessions[newToken := profile],
            pool := s.pool[cid := Some(Session(newToken, cid, profile))]), AuthOk(newToken))
  }

  predicate Demands(demand: Option<string>) {
    demand.Some? && demand.value != ""
  }

  predicate Permits(guard: Guard, profile: Profile, gateRefuses: bool) {
    && !(guard.hasGate && gateRefuses)
    && (Demands(guard.role) ==> guard.role.value in profile.roles)
    && (Demands(guard.permission) ==> guard.permission.value in profile.permissions)
  }

  /**
   The mesh takes a packet for another node, and a handshake or encrypted packet for the server.
   Any other mesh packet for the server is handled like a direct one.
   */
  predicate MeshTakes(body: Body, route: Route) {
    route.ToOther? || (route.ToServer? && (body == Data("mesh_handshake") || body == Data("mesh_secure")))
  }

  /** Positions of the handlers that run for a message of an authenticated sender. */
  function Running(handlers: seq<Guard>, profile: Profile, refusing: set<nat>, n: nat): seq<nat>
    requires n <= |handlers|
  {
    if n == 0 then [] else
      var before := Running(handlers, profile, refusing, n - 1);
      if Permits(handlers[n - 1], profile, n - 1 in refusing) then before + [n - 1] else before
  }

  /** The answer to a message of a connection that holds a session, past the rate limiter. */
  function Respond(cfg: Config, profile: Profile, body: Body, env: Surroundings): Outcome {
    match body
    case RpcRequest(rpc) =>
      if rpc in cfg.rpcs && !Permits(cfg.rpcs[rpc], profile, 0 in env.refusing) then RpcDenied else RpcDispatched(rpc)
    case Data(kind) =>
      var handlers := if kind in cfg.handlers then cfg.handlers[kind] else [];
      HandlersRan(kind, Running(handlers, profile, env.refusing, |handlers|))
    case Ping => PongSent
    case Pong => PongRecorded
    case _ => Ignored
  }

  function Process(
      cfg: Config, s: Server, cid: ClientId, body: Body, route: Route, env: Surroundings): (Server, Outcome)
  {
    if cid !in s.pool then (s, Ignored)
    else if body.AuthRequest? then Authenticate(cfg, s, cid, body, env.newToken)
    else if MeshTakes(body, route) then (s, MeshHandled)
    else if s.pool[cid].None? then (s, Ignored)
    else if cfg.rateLimited && !env.admitted then (s, RateLimited)
    else (s, Respond(cfg, s.pool[cid].value.profile, body, env))
  }

  function Step(cfg: Config, s: Server, e: Event): (Server, Outcome) {
    match e
    case Connect(cid) =>
      (if |s.pool| >= cfg.maxConnections then s else s.(pool := s.pool[cid := None]), PoolChanged)
    case Disconnect(cid) => (s.(pool := s.pool - {cid}), PoolChanged)
    case Message(cid, body, route, env) => Process(cfg, s, cid, body, route, env)
    case AddUser(username, user) => (s.(users := s.users[username := user]), UserAdded)
  }

  class ConduitServer {
    const cfg: Config
    var validSessions: map<Token, Profile>
    var pool: map<ClientId, Option<Session>>
    var users: map<string, User>

    ghost function State(): Server
      reads this
    {
      Server(validSessions, pool, users)
    }

    constructor (cfg: Config)
      ensures this.cfg == cfg && State() == Server(map[], map[], map[])
    {
      this.cfg := cfg;
      validSessions, pool, users := map[], map[], map[];
    }

    method ProcessConnect(cid: ClientId)
      modifies this
      ensures State() == Step(cfg, old(State()), Connect(cid)).0
    {
      if |pool| < cfg.maxConnections {
        pool := pool[cid := None];
      }
    }

    method ProcessDisconnect(cid: ClientId)
      modifies this
      ensures State() == Step(cfg, old(State()), Disconnect(cid)).0
    {
      pool := pool - {cid};
    }

    method ProcessAuth(cid: ClientId, body: Body, newToken: Token) returns (outcome: Outcome)
      requires body.AuthRequest?
      modifies this
      ensures (State(), outcome) == Authenticate(cfg, old(State()), cid, body, newToken)
    {
      var profile: Option<Profile> := None;
      var token := body.token;
      if body.token != "" && body.token in validSessions {
        profile := Some(validSessions[body.token]);
      } else {
        if cfg.hasCredentials && body.username != "" {
          if body.username !in users || users[body.username].passwordHash != body.passwordHash {
            pool := pool - {cid};
            return AuthFailed;
          }
          profile := Some(users[body.username].profile);
        } else {
          if body.passwordHash != cfg.passwordHash {
            pool := pool - {cid};
            return AuthFailed;
          }
          profile := Some(ADMIN);
        }
        token := newToken;
        validSessions := validSessions[newToken := profile.value];
      }
      pool := pool[cid := Some(Session(token, cid, profile.value))];
      return AuthOk(token);
    }

    method RouteMessage(kind: string, profile: Profile, refusing: set<nat>) returns (ran: seq<nat>)
      ensures var handlers := if kind in cfg.handlers then cfg.handlers[kind] else [];
        ran == Running(handlers, profile, refusing, |handlers|)
    {
      var handlers := if kind in cfg.handlers then cfg.handlers[kind] else [];
      ran := [];
      for i := 0 to |handlers|
        invariant ran == Running(handlers, profile, refusing, i)
      {
        if Permits(handlers[i], profile, i in refusing) {
          ran := ran + [i];
        }
      }
    }

    method ProcessMessage(cid: ClientId, body: Body, route: Route, env: Surroundings) returns (outcome: Outcome)
      modifies this
      ensures (State(), outcome) == Process(cfg, old(State()), cid, body, route, env)
    {
      if cid !in pool { return Ignored; }
      if body.AuthRequest? {
        outcome := ProcessAuth(cid, body, env.newToken);
        return;
      }
      if route.ToOther? { return MeshHandled; }
      if route.ToServer? && body.Data? && (body.kind == "mesh_handshake" || body.kind == "mesh_secure") {
        return MeshHandled;
      }
      if pool[cid].None? { return Ignored; }
      if cfg.rateLimited && !env.admitted { return RateLimited; }
      var profile := pool[cid].value.profile;
      match body {
        case RpcRequest(rpc) =>
          if rpc in cfg.rpcs {
            var guard := cfg.rpcs[rpc];
            if guard.hasGate && 0 in env.refusing { return RpcDenied; }
            if Demands(guard.role) && guard.role.value !in profile.roles { return RpcDenied; }
            if Demands(guard.permission) && guard.permission.value !in profile.permissions { return RpcDenied; }
          }
          return RpcDispatched(rpc);
        case Data(kind) =>
          var ran := RouteMessage(kind, profile, env.refusing);
          return HandlersRan(kind, ran);
        case Ping => return PongSent;
        case Pong => return PongRecorded;
        case _ => return Ignored;
      }
    }
  }
}
