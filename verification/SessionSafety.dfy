/**
 Safety of the server's sessions over every run: who can get a handler or an RPC to run, and
 with which profile.
 */
module SessionSafety {
  import opened Sequences
  import opened ServerSessions

  /** The server's state just before event n of a run. */
  function Before(cfg: Config, evs: seq<Event>, n: nat): Server
    requires n <= |evs|
  {
    if n == 0 then Server(map[], map[], map[]) else Step(cfg, Before(cfg, evs, n - 1), evs[n - 1]).0
  }

  function Answer(cfg: Config, evs: seq<Event>, i: nat): Outcome
    requires i < |evs|
  {
    Step(cfg, Before(cfg, evs, i), evs[i]).1
  }

  /** New session identifiers are never empty and never repeat. */
  ghost predicate DistinctTokens(evs: seq<Event>) {
    && (forall i :: 0 <= i < |evs| && evs[i].Message? ==> evs[i].env.newToken != "")
    && (forall i, j :: 0 <= i < j < |evs| && evs[i].Message? && evs[j].Message? ==>
          evs[i].env.newToken != evs[j].env.newToken)
  }

  /** The profile granted when the event is a password or credentials check that succeeds. */
  function Grants(cfg: Config, s: Server, e: Event): Option<Profile> {
    if e.Message? && e.cid in s.pool && e.body.AuthRequest? && !Resumes(s, e.body)
    then CheckedProfile(cfg, s, e.body) else None
  }

  /** The request proves a password: the user's own where users are kept, else the server's. */
  ghost predicate ProvesPassword(cfg: Config, s: Server, body: Body, profile: Profile) {
    && body.AuthRequest?
    && if cfg.hasCredentials && body.username != ""
       then body.username in s.users && s.users[body.username] == User(body.passwordHash, profile)
       else body.passwordHash == cfg.passwordHash && profile == Profile("admin", {"admin"}, {"read", "write"})
  }

  /**
   Event j is an authentication request from a pooled connection that presents no recorded
   token and proves a password, and the new identifier is this token.
   */
  ghost predicate IssuedAt(cfg: Config, evs: seq<Event>, j: nat, token: Token, profile: Profile)
    requires j < |evs|
  {
    var s, e := Before(cfg, evs, j), evs[j];
    && e.Message? && e.cid in s.pool && ProvesPassword(cfg, s, e.body, profile)
    && e.body.token !in (s.validSessions.Keys - {""})
    && e.env.newToken == token
  }

  ghost predicate Issued(cfg: Config, evs: seq<Event>, n: nat, token: Token, profile: Profile)
    requires n <= |evs|
  {
    exists j :: 0 <= j < n && IssuedAt(cfg, evs, j, token, profile)
  }

  // ----- One step -----

  lemma StepRecords(cfg: Config, s: Server, e: Event)
    ensures Step(cfg, s, e).0.validSessions ==
      match Grants(cfg, s, e) case Some(p) => s.validSessions[e.env.newToken := p] case None => s.validSessions
  {}

  /** Every session in the pool holds a recorded token under the profile recorded for it. */
  ghost predicate SessionsRecorded(s: Server) {
    forall c :: c in s.pool && s.pool[c].Some? ==>
      s.pool[c].value.token in s.validSessions &&
      s.validSessions[s.pool[c].value.token] == s.pool[c].value.profile
  }

  lemma StepKeepsRecorded(cfg: Config, s: Server, e: Event)
    requires SessionsRecorded(s)
    requires Grants(cfg, s, e).Some? ==> e.env.newToken !in s.validSessions
    ensures SessionsRecorded(Step(cfg, s, e).0)
  {
    StepRecords(cfg, s, e);
  }

  lemma UpdateCard<K, V>(m: map<K, V>, k: K, v: V)
    ensures |m[k := v]| <= |m| + 1
    ensures k in m ==> |m[k := v]| == |m|
  {
    assert m[k := v].Keys == m.Keys + {k};
    if k in m { assert m.Keys + {k} == m.Keys; }
  }

  lemma RemoveCard<K, V>(m: map<K, V>, k: K)
    ensures |m - {k}| <= |m|
  {
    assert (m - {k}).Keys == m.Keys - {k};
    assert m.Keys == (m.Keys - {k}) + (m.Keys * {k});
  }

  lemma StepKeepsPoolBound(cfg: Config, s: Server, e: Event)
    requires |s.pool| <= cfg.maxConnections
    ensures |Step(cfg, s, e).0.pool| <= cfg.maxConnections
  {
    if !e.AddUser? {
      RemoveCard(s.pool, e.cid);
      UpdateCard(s.pool, e.cid, None);
      forall session ensures e.cid in s.pool ==> |s.pool[e.cid := Some(session)]| == |s.pool| {
        UpdateCard(s.pool, e.cid, Some(session));
      }
    }
  }

  // ----- Every run -----

  ghost predicate TokensIssued(cfg: Config, evs: seq<Event>, n: nat)
    requires n <= |evs|
  {
    forall t :: t in Before(cfg, evs, n).validSessions ==> Issued(cfg, evs, n, t, Before(cfg, evs, n).validSessions[t])
  }

  lemma {:induction false} AllTokensIssued(cfg: Config, evs: seq<Event>, n: nat)
    requires n <= |evs|
    ensures TokensIssued(cfg, evs, n)
  {
    if n == 0 {
    } else {
      AllTokensIssued(cfg, evs, n - 1);
      var s, e := Before(cfg, evs, n - 1), evs[n - 1];
      StepRecords(cfg, s, e);
      var t := Before(cfg, evs, n);
      forall k | k in t.validSessions ensures Issued(cfg, evs, n, k, t.validSessions[k]) {
        if k in s.validSessions && t.validSessions[k] == s.validSessions[k] {
          assert Issued(cfg, evs, n - 1, k, s.validSessions[k]);
        } else {
          assert IssuedAt(cfg, evs, n - 1, k, t.validSessions[k]);
        }
      }
    }
  }

  /** An identifier about to be used has not been recorded yet. */
  lemma NewTokenIsNew(cfg: Config, evs: seq<Event>, n: nat)
    requires DistinctTokens(evs) && n < |evs| && evs[n].Message?
    ensures evs[n].env.newToken !in Before(cfg, evs, n).validSessions
  {
    AllTokensIssued(cfg, evs, n);
    forall t | t in Before(cfg, evs, n).validSessions ensures t != evs[n].env.newToken {
      assert Issued(cfg, evs, n, t, Before(cfg, evs, n).validSessions[t]);
    }
  }

  lemma {:induction false} SessionsAlwaysRecorded(cfg: Config, evs: seq<Event>, n: nat)
    requires DistinctTokens(evs) && n <= |evs|
    ensures SessionsRecorded(Before(cfg, evs, n))
  {
    if n == 0 {
    } else {
      SessionsAlwaysRecorded(cfg, evs, n - 1);
      if evs[n - 1].Message? { NewTokenIsNew(cfg, evs, n - 1); }
      StepKeepsRecorded(cfg, Before(cfg, evs, n - 1), evs[n - 1]);
    }
  }

  lemma {:induction false} PoolNeverOverfull(cfg: Config, evs: seq<Event>, n: nat)
    requires n <= |evs|
    ensures |Before(cfg, evs, n).pool| <= cfg.maxConnections
  {
    if n == 0 {
    } else {
      PoolNeverOverfull(cfg, evs, n - 1);
      StepKeepsPoolBound(cfg, Before(cfg, evs, n - 1), evs[n - 1]);
    }
  }

  /**
   Event j is an authentication request of the client that was granted with this token, and
   until event n the client has neither disconnected nor failed another check.
   */
  ghost predicate EarnedAt(cfg: Config, evs: seq<Event>, j: nat, n: nat, cid: ClientId, token: Token)
    requires j < n <= |evs|
  {
    && evs[j].Message? && evs[j].cid == cid && evs[j].body.AuthRequest? && Answer(cfg, evs, j) == AuthOk(token)
    && forall m :: j < m < n ==> !Leaves(cfg, evs, m, cid)
  }

  ghost predicate Leaves(cfg: Config, evs: seq<Event>, m: nat, cid: ClientId)
    requires m < |evs|
  {
    evs[m] == Disconnect(cid) || (evs[m].Message? && evs[m].cid == cid && Answer(cfg, evs, m) == AuthFailed)
  }

  ghost predicate Earned(cfg: Config, evs: seq<Event>, n: nat, cid: ClientId, token: Token)
    requires n <= |evs|
  {
    exists j :: 0 <= j < n && EarnedAt(cfg, evs, j, n, cid, token)
  }

  /** A step leaves a client's session alone, or is the client's own successful authentication. */
  lemma StepGivesSession(cfg: Config, s: Server, e: Event, cid: ClientId)
    requires var t := Step(cfg, s, e).0; cid in t.pool && t.pool[cid].Some?
    ensures e != Disconnect(cid) && !(e.Message? && e.cid == cid && Step(cfg, s, e).1 == AuthFailed)
    ensures var session := Step(cfg, s, e).0.pool[cid].value;
      (cid in s.pool && s.pool[cid] == Some(session)) ||
      (e.Message? && e.cid == cid && e.body.AuthRequest? && Step(cfg, s, e).1 == AuthOk(session.token))
  {}

  /** Every session in the pool was earned by its own client. */
  lemma {:induction false} SessionsAreEarned(cfg: Config, evs: seq<Event>, n: nat, cid: ClientId)
    requires n <= |evs| && cid in Before(cfg, evs, n).pool && Before(cfg, evs, n).pool[cid].Some?
    ensures Earned(cfg, evs, n, cid, Before(cfg, evs, n).pool[cid].value.token)
  {
    var s, session := Before(cfg, evs, n - 1), Before(cfg, evs, n).pool[cid].value;
    StepGivesSession(cfg, s, evs[n - 1], cid);
    if cid in s.pool && s.pool[cid] == Some(session) {
      SessionsAreEarned(cfg, evs, n - 1, cid);
      var j :| 0 <= j < n - 1 && EarnedAt(cfg, evs, j, n - 1, cid, session.token);
      assert EarnedAt(cfg, evs, j, n, cid, session.token);
    } else {
      assert EarnedAt(cfg, evs, n - 1, n, cid, session.token);
    }
  }

  /** The answer means the message got past authentication. */
  predicate Handled(o: Outcome) {
    o.RpcDispatched? || o.RpcDenied? || o.HandlersRan? || o.PongSent? || o.PongRecorded? || o.RateLimited?
  }

  lemma HandledNeedsSession(cfg: Config, s: Server, e: Event)
    requires Handled(Step(cfg, s, e).1)
    ensures e.Message? && e.cid in s.pool && s.pool[e.cid].Some?
  {}

  /**
   A message that the mesh does not take is handled only for a pooled connection whose session
   token is on record. The sender was itself answered that its authentication with this token
   succeeded and has not disconnected since, and the profile it is handled under was granted for
   that token by an earlier password or credentials check, on whichever connection.
   */
  lemma OnlyAuthenticatedIsHandled(cfg: Config, evs: seq<Event>, i: nat)
    requires DistinctTokens(evs) && i < |evs| && Handled(Answer(cfg, evs, i))
    ensures evs[i].Message? && evs[i].cid in Before(cfg, evs, i).pool && Before(cfg, evs, i).pool[evs[i].cid].Some?
    ensures var session := Before(cfg, evs, i).pool[evs[i].cid].value;
      && session.token in Before(cfg, evs, i).validSessions
      && Earned(cfg, evs, i, evs[i].cid, session.token)
      && Issued(cfg, evs, i, session.token, session.profile)
  {
    HandledNeedsSession(cfg, Before(cfg, evs, i), evs[i]);
    SessionsAreEarned(cfg, evs, i, evs[i].cid);
    SessionsAlwaysRecorded(cfg, evs, i);
    AllTokensIssued(cfg, evs, i);
  }

  /** A role or permission that is demanded, and not by the empty name, is one of those held. */
  ghost predicate Meets(demand: Option<string>, held: set<string>) {
    demand == None || demand == Some("") || exists name :: name in held && demand == Some(name)
  }

  /** The gate, if there is one, does not refuse, and the profile holds what is demanded. */
  ghost predicate Passes(guard: Guard, profile: Profile, gateRefuses: bool) {
    (guard.hasGate ==> !gateRefuses) && Meets(guard.role, profile.roles) && Meets(guard.permission, profile.permissions)
  }

  lemma PassesExactly(guard: Guard, profile: Profile, gateRefuses: bool)
    ensures Permits(guard, profile, gateRefuses) <==> Passes(guard, profile, gateRefuses)
  {}

  /** The answer treats every guard exactly as the profile, the gates and the order demand. */
  ghost predicate GateRespected(cfg: Config, e: Event, o: Outcome, profile: Profile)
    requires e.Message?
  {
    match o
    case RpcDispatched(rpc) =>
      e.body == RpcRequest(rpc) && (rpc in cfg.rpcs ==> Passes(cfg.rpcs[rpc], profile, 0 in e.env.refusing))
    case RpcDenied =>
      e.body.RpcRequest? && e.body.rpc in cfg.rpcs && !Passes(cfg.rpcs[e.body.rpc], profile, 0 in e.env.refusing)
    case HandlersRan(kind, ran) =>
      var handlers := if kind in cfg.handlers then cfg.handlers[kind] else [];
      e.body == Data(kind) && RunsPermitted(handlers, profile, e.env.refusing, |handlers|, ran)
    case _ => true
  }

  /** `ran` lists, in ascending order, exactly those of the first n positions whose guard permits the profile. */
  ghost predicate RunsPermitted(handlers: seq<Guard>, profile: Profile, refusing: set<nat>, n: nat, ran: seq<nat>)
    requires n <= |handlers|
  {
    && (forall h: nat :: h in ran <==> h < n && Passes(handlers[h], profile, h in refusing))
    && (forall i, j :: 0 <= i < j < |ran| ==> ran[i] < ran[j])
  }

  lemma {:induction false} RunningPermits(handlers: seq<Guard>, profile: Profile, refusing: set<nat>, n: nat)
    requires n <= |handlers|
    ensures RunsPermitted(handlers, profile, refusing, n, Running(handlers, profile, refusing, n))
  {
    if n == 0 {
    } else {
      RunningPermits(handlers, profile, refusing, n - 1);
      var before := Running(handlers, profile, refusing, n - 1);
      forall i | 0 <= i < |before| ensures before[i] < n - 1 {
        assert before[i] in before;
      }
    }
  }

  /**
   Gating: a registered RPC is dispatched, and a registered handler runs, exactly when the
   sender's own session profile carries the role and permission demanded and the gate does not
   refuse; that profile was granted by the earlier check that issued the session's token, which
   the sender itself presented or obtained. Handlers run in their registered order.
   */
  lemma GatedByGrantedProfile(cfg: Config, evs: seq<Event>, i: nat)
    requires DistinctTokens(evs) && i < |evs| && Handled(Answer(cfg, evs, i))
    ensures evs[i].Message? && evs[i].cid in Before(cfg, evs, i).pool && Before(cfg, evs, i).pool[evs[i].cid].Some?
    ensures var session := Before(cfg, evs, i).pool[evs[i].cid].value;
      && Earned(cfg, evs, i, evs[i].cid, session.token)
      && Issued(cfg, evs, i, session.token, session.profile)
      && GateRespected(cfg, evs[i], Answer(cfg, evs, i), session.profile)
  {
    OnlyAuthenticatedIsHandled(cfg, evs, i);
    var session := Before(cfg, evs, i).pool[evs[i].cid].value;
    if evs[i].body.RpcRequest? && evs[i].body.rpc in cfg.rpcs {
      PassesExactly(cfg.rpcs[evs[i].body.rpc], session.profile, 0 in evs[i].env.refusing);
    }
    if evs[i].body.Data? {
      var handlers := if evs[i].body.kind in cfg.handlers then cfg.handlers[evs[i].body.kind] else [];
      RunningPermits(handlers, session.profile, evs[i].env.refusing, |handlers|);
    }
  }

  lemma AbsentStaysAbsent(cfg: Config, s: Server, e: Event, cid: ClientId)
    requires cid !in s.pool && e != Connect(cid)
    ensures cid !in Step(cfg, s, e).0.pool
    ensures e.Message? && e.cid == cid ==> Step(cfg, s, e) == (s, Ignored)
  {}

  lemma FailureRemoves(cfg: Config, s: Server, e: Event)
    requires e.Message? && Step(cfg, s, e).1 == AuthFailed
    ensures e.cid !in Step(cfg, s, e).0.pool
  {}

  /** After a failed check, everything from that client is ignored until it connects anew. */
  lemma {:induction false} FailedAuthSilences(cfg: Config, evs: seq<Event>, i: nat, k: nat)
    requires i < k <= |evs| && evs[i].Message? && Answer(cfg, evs, i) == AuthFailed
    requires forall m :: i < m < k ==> evs[m] != Connect(evs[i].cid)
    ensures evs[i].cid !in Before(cfg, evs, k).pool
    ensures k < |evs| && evs[k].Message? && evs[k].cid == evs[i].cid ==>
      Answer(cfg, evs, k) == Ignored && Before(cfg, evs, k + 1) == Before(cfg, evs, k)
  {
    if k == i + 1 {
      FailureRemoves(cfg, Before(cfg, evs, i), evs[i]);
    } else {
      FailedAuthSilences(cfg, evs, i, k - 1);
      AbsentStaysAbsent(cfg, Before(cfg, evs, k - 1), evs[k - 1], evs[i].cid);
    }
    if k < |evs| && evs[k] != Connect(evs[i].cid) {
      AbsentStaysAbsent(cfg, Before(cfg, evs, k), evs[k], evs[i].cid);
    }
  }

  ghost predicate RecordedFor(s: Server, t: Token, profile: Profile) {
    t in s.validSessions && s.validSessions[t] == profile
  }

  lemma StepKeepsToken(cfg: Config, s: Server, e: Event, t: Token, profile: Profile)
    requires RecordedFor(s, t, profile) && (Grants(cfg, s, e).Some? ==> e.env.newToken != t)
    ensures RecordedFor(Step(cfg, s, e).0, t, profile)
  {
    StepRecords(cfg, s, e);
  }

  ghost predicate NewAt(cfg: Config, evs: seq<Event>, k: nat)
    requires k < |evs|
  {
    evs[k].Message? ==> evs[k].env.newToken !in Before(cfg, evs, k).validSessions
  }

  lemma TokenKeptOnce(cfg: Config, evs: seq<Event>, k: nat, t: Token, profile: Profile)
    requires k < |evs| && NewAt(cfg, evs, k) && RecordedFor(Before(cfg, evs, k), t, profile)
    ensures RecordedFor(Before(cfg, evs, k + 1), t, profile)
  {
    StepKeepsToken(cfg, Before(cfg, evs, k), evs[k], t, profile);
  }

  lemma {:induction false} TokensKept(cfg: Config, evs: seq<Event>, j: nat, k: nat, t: Token, profile: Profile)
    requires j <= k <= |evs| && RecordedFor(Before(cfg, evs, j), t, profile)
    requires forall i :: 0 <= i < |evs| ==> NewAt(cfg, evs, i)
    ensures RecordedFor(Before(cfg, evs, k), t, profile)
    decreases k
  {
    if j == k {
    } else {
      TokensKept(cfg, evs, j, k - 1, t, profile);
      TokenKeptOnce(cfg, evs, k - 1, t, profile);
    }
  }

  /** A recorded token keeps its profile for the rest of the run. */
  lemma TokensStay(cfg: Config, evs: seq<Event>, j: nat, k: nat, t: Token, profile: Profile)
    requires DistinctTokens(evs) && j <= k <= |evs| && RecordedFor(Before(cfg, evs, j), t, profile)
    ensures RecordedFor(Before(cfg, evs, k), t, profile)
  {
    forall i | 0 <= i < |evs| ensures NewAt(cfg, evs, i) {
      if evs[i].Message? { NewTokenIsNew(cfg, evs, i); }
    }
    TokensKept(cfg, evs, j, k, t, profile);
  }

  lemma ResumptionWorks(cfg: Config, s: Server, e: Event)
    requires e.Message? && e.cid in s.pool && e.body.AuthRequest? && Resumes(s, e.body)
    ensures Step(cfg, s, e).1 == AuthOk(e.body.token)
    ensures Step(cfg, s, e).0 ==
      s.(pool := s.pool[e.cid := Some(Session(e.body.token, e.cid, s.validSessions[e.body.token]))])
  {}

  /**
   A token, once issued, resumes the session from any pooled connection at any later time and
   brings back the profile it was issued for, whatever password the request carries.
   */
  lemma TokenResumesProfile(cfg: Config, evs: seq<Event>, j: nat, k: nat, token: Token, profile: Profile)
    requires DistinctTokens(evs) && j < k < |evs| && IssuedAt(cfg, evs, j, token, profile)
    requires evs[k].Message? && evs[k].body.AuthRequest? && evs[k].body.token == token
    requires evs[k].cid in Before(cfg, evs, k).pool
    ensures Answer(cfg, evs, k) == AuthOk(token)
    ensures var pool := Before(cfg, evs, k + 1).pool;
      evs[k].cid in pool && pool[evs[k].cid] == Some(Session(token, evs[k].cid, profile))
  {
    StepRecords(cfg, Before(cfg, evs, j), evs[j]);
    TokensStay(cfg, evs, j + 1, k, token, profile);
    ResumptionWorks(cfg, Before(cfg, evs, k), evs[k]);
  }

  // ----- Every message is answered -----

  /** The mesh leaves the packet to the server. */
  ghost predicate ForServer(body: Body, route: Route) {
    route == Direct || (route == ToServer && body != Data("mesh_handshake") && body != Data("mesh_secure"))
  }

  /**
   What a client with this profile is answered, past authentication and the mesh: nothing but a
   refusal over the rate limit; else dispatch or denial of an RPC as its guard demands, an
   unregistered one always being dispatched; the permitted handlers; a pong; or a record of one.
   */
  ghost predicate IsAnswer(cfg: Config, profile: Profile, body: Body, env: Surroundings, o: Outcome) {
    if cfg.rateLimited && !env.admitted then o == RateLimited
    else
      match body
      case RpcRequest(rpc) =>
        if rpc !in cfg.rpcs || Passes(cfg.rpcs[rpc], profile, 0 in env.refusing) then o == RpcDispatched(rpc)
        else o == RpcDenied
      case Data(kind) =>
        var handlers := if kind in cfg.handlers then cfg.handlers[kind] else [];
        o.HandlersRan? && o.kind == kind && RunsPermitted(handlers, profile, env.refusing, |handlers|, o.ran)
      case Ping => o == PongSent
      case Pong => o == PongRecorded
      case _ => o == Ignored
  }

  /**
   A message that is not an authentication request changes nothing, and is answered exactly so: by
   the mesh if it takes it; not at all without a session; otherwise as the profile of that session
   deserves.
   */
  lemma MessageIsAnswered(cfg: Config, s: Server, cid: ClientId, body: Body, route: Route, env: Surroundings)
    requires !body.AuthRequest?
    ensures var (t, o) := Step(cfg, s, Message(cid, body, route, env));
      && t == s
      && (cid !in s.pool ==> o == Ignored)
      && (cid in s.pool && !ForServer(body, route) ==> o == MeshHandled)
      && (cid in s.pool && ForServer(body, route) && s.pool[cid].None? ==> o == Ignored)
      && (cid in s.pool && ForServer(body, route) && s.pool[cid].Some? ==>
            IsAnswer(cfg, s.pool[cid].value.profile, body, env, o))
  {
    if cid in s.pool && s.pool[cid].Some? {
      var profile := s.pool[cid].value.profile;
      if body.RpcRequest? && body.rpc in cfg.rpcs {
        PassesExactly(cfg.rpcs[body.rpc], profile, 0 in env.refusing);
      }
      if body.Data? {
        var handlers := if body.kind in cfg.handlers then cfg.handlers[body.kind] else [];
        RunningPermits(handlers, profile, env.refusing, |handlers|);
      }
    }
  }

  /** The server after a successful authentication: the client's session is new, all else as before. */
  ghost predicate SessionGiven(s: Server, t: Server, cid: ClientId, token: Token, profile: Profile) {
    && cid in t.pool && t.pool[cid] == Some(Session(token, cid, profile))
    && t.pool - {cid} == s.pool - {cid} && t.users == s.users
  }

  /**
   An authentication request of a pooled client is answered exactly so: a recorded token brings
   back its profile; without one, a proven password gives a session under the new token, which is
   recorded with the profile proven; without either it fails and the client leaves the pool.
   */
  lemma AuthenticationIsAnswered(cfg: Config, s: Server, cid: ClientId, body: Body, route: Route, env: Surroundings)
    requires cid in s.pool && body.AuthRequest?
    ensures var (t, o) := Step(cfg, s, Message(cid, body, route, env));
      if body.token != "" && body.token in s.validSessions then
        && o == AuthOk(body.token) && SessionGiven(s, t, cid, body.token, s.validSessions[body.token])
        && t.validSessions == s.validSessions
      else if exists profile :: ProvesPassword(cfg, s, body, profile) then
        && o == AuthOk(env.newToken)
        && (forall profile :: ProvesPassword(cfg, s, body, profile) ==>
              SessionGiven(s, t, cid, env.newToken, profile) &&
              t.validSessions == s.validSessions[env.newToken := profile])
      else
        o == AuthFailed && t == s.(pool := s.pool - {cid})
  {
    if cfg.hasCredentials && body.username != "" {
      if body.username in s.users && s.users[body.username].passwordHash == body.passwordHash {
        assert ProvesPassword(cfg, s, body, s.users[body.username].profile);
      }
    } else if body.passwordHash == cfg.passwordHash {
      assert ProvesPassword(cfg, s, body, ADMIN);
    }
  }

  /** The users added so far, the last one under each name. */
  function UsersAdded(evs: seq<Event>, n: nat): map<string, User>
    requires n <= |evs|
  {
    if n == 0 then map[] else
      match evs[n - 1]
      case AddUser(username, user) => UsersAdded(evs, n - 1)[username := user]
      case _ => UsersAdded(evs, n - 1)
  }

  lemma StepAddsUsers(cfg: Config, s: Server, e: Event)
    ensures Step(cfg, s, e).0.users == if e.AddUser? then s.users[e.username := e.user] else s.users
  {}

  /** In every run the users that credentials are checked against are those added. */
  lemma {:induction false} UsersAreThoseAdded(cfg: Config, evs: seq<Event>, n: nat)
    requires n <= |evs|
    ensures Before(cfg, evs, n).users == UsersAdded(evs, n)
  {
    if n == 0 {
    } else {
      UsersAreThoseAdded(cfg, evs, n - 1);
      StepAddsUsers(cfg, Before(cfg, evs, n - 1), evs[n - 1]);
    }
  }

  lemma ConnectAdmits(cfg: Config, s: Server, cid: ClientId)
    ensures Step(cfg, s, Connect(cid)).0 == if |s.pool| < cfg.maxConnections then s.(pool := s.pool[cid := None]) else s
  {}

  lemma {:induction false} BeforePrefix(cfg: Config, evs: seq<Event>, more: seq<Event>, n: nat)
    requires n <= |evs|
    ensures Before(cfg, evs + more, n) == Before(cfg, evs, n)
  {
    if n == 0 {
    } else {
      BeforePrefix(cfg, evs, more, n - 1);
    }
  }

  /**
   Service, end to end: after any run that leaves room in the pool, a client that connects and
   proves a password has its next RPC dispatched, if the profile proven passes its guard.
   */
  lemma PasswordGetsService(
      cfg: Config, evs: seq<Event>, cid: ClientId, body: Body, env: Surroundings, profile: Profile,
      rpc: string, later: Surroundings)
    requires |Before(cfg, evs, |evs|).pool| < cfg.maxConnections
    requires ProvesPassword(cfg, Before(cfg, evs, |evs|), body, profile)
    requires body.token !in (Before(cfg, evs, |evs|).validSessions.Keys - {""})
    requires rpc in cfg.rpcs ==> Passes(cfg.rpcs[rpc], profile, 0 in later.refusing)
    requires cfg.rateLimited ==> later.admitted
    ensures var all := evs +
        [Connect(cid), Message(cid, body, Direct, env), Message(cid, RpcRequest(rpc), Direct, later)];
      Answer(cfg, all, |evs| + 1) == AuthOk(env.newToken) && Answer(cfg, all, |evs| + 2) == RpcDispatched(rpc)
  {
    var more := [Connect(cid), Message(cid, body, Direct, env), Message(cid, RpcRequest(rpc), Direct, later)];
    var s := Before(cfg, evs, |evs|);
    BeforePrefix(cfg, evs, more, |evs|);
    ConnectAdmits(cfg, s, cid);
    var connected := s.(pool := s.pool[cid := None]);
    assert Before(cfg, evs + more, |evs| + 1) == connected;
    assert ProvesPassword(cfg, connected, body, profile);
    AuthenticationIsAnswered(cfg, connected, cid, body, Direct, env);
    MessageIsAnswered(cfg, Before(cfg, evs + more, |evs| + 2), cid, RpcRequest(rpc), Direct, later);
  }
}
