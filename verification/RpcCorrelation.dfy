/**
 Matching RPC responses to requests. A connection numbers its requests, keeps one future per
 request that is still open, and resolves a future when a response with its number arrives.
 */
module RpcCorrelation {
  import opened Sequences

  datatype Future<+R> = Waiting | Resolved(result: R) | Cancelled

  datatype Request<+M, +P> = Request(id: nat, rpc: M, params: P)
  datatype Response<+R> = Response(id: nat, result: R)

  /** The encoder's last correlation id, every future created, and the ids of the calls still open. */
  datatype Client<R> = Client(counter: nat, futures: map<nat, Future<R>>, pending: set<nat>)

  function Issue<R>(c: Client<R>): Client<R> {
    Client(c.counter + 1, c.futures[c.counter + 1 := Waiting], c.pending + {c.counter + 1})
  }

  predicate Awaited<R>(c: Client<R>, id: nat) {
    id in c.pending && id in c.futures && c.futures[id].Waiting?
  }

  /** A response resolves the future of its id if that is open and not done yet. */
  function Handle<R>(c: Client<R>, reply: Response<R>): (Client<R>, bool) {
    if Awaited(c, reply.id) then (c.(futures := c.futures[reply.id := Resolved(reply.result)]), true)
    else (c, false)
  }

  /** A waiter that is cancelled cancels its future too, if that is not done. */
  function Cancel<R>(c: Client<R>, id: nat): Client<R> {
    if id in c.futures && c.futures[id].Waiting? then c.(futures := c.futures[id := Cancelled]) else c
  }

  function Close<R>(c: Client<R>, id: nat): Client<R> {
    c.(pending := c.pending - {id})
  }

  class RpcFuture<R> {
    var state: Future<R>

    constructor ()
      ensures state == Waiting
    {
      state := Waiting;
    }
  }

  class Connection<M, P, R> {
    var correlationCounter: nat
    var pendingRpcs: map<nat, RpcFuture<R>>
    ghost var created: map<nat, RpcFuture<R>>

    ghost predicate Valid()
      reads this
    {
      && (forall id :: id in pendingRpcs ==> id in created && pendingRpcs[id] == created[id])
      && (forall id :: id in created ==> id <= correlationCounter)
      && (forall i, j :: i in created && j in created && i != j ==> created[i] != created[j])
    }

    ghost function State(): Client<R>
      reads this, created.Values
    {
      Client(correlationCounter, map id | id in created :: created[id].state, pendingRpcs.Keys)
    }

    constructor ()
      ensures Valid() && created == map[] && State() == Client(0, map[], {})
    {
      correlationCounter, pendingRpcs, created := 0, map[], map[];
    }

    method NextCorrelationId() returns (id: nat)
      requires Valid()
      modifies this`correlationCounter
      ensures Valid()
      ensures id == old(correlationCounter) + 1
      ensures State() == old(State()).(counter := id)
    {
      correlationCounter := correlationCounter + 1;
      id := correlationCounter;
    }

    method SendRpcRequest(rpc: M, params: P) returns (sent: Request<M, P>)
      requires Valid()
      modifies this
      ensures Valid() && forall id :: id in old(created) ==> id in created && created[id] == old(created)[id]
      ensures State() == Issue(old(State()))
      ensures sent == Request(correlationCounter, rpc, params)
    {
      var id := NextCorrelationId();
      var future := new RpcFuture();
      pendingRpcs := pendingRpcs[id := future];
      created := created[id := future];
      assert State().futures == old(State()).futures[id := Waiting];
      sent := Request(id, rpc, params);
    }

    /** A response nobody is waiting for is not intercepted. */
    method HandleDecodedMessage(reply: Response<R>) returns (intercepted: bool)
      requires Valid()
      modifies created.Values
      ensures Valid() && (State(), intercepted) == Handle(old(State()), reply)
    {
      if reply.id in pendingRpcs {
        var future := pendingRpcs[reply.id];
        if future.state.Waiting? {
          future.state := Resolved(reply.result);
          assert State().futures == old(State()).futures[reply.id := Resolved(reply.result)];
          return true;
        }
      }
      return false;
    }

    /** Waiting begins with looking up the future; an unknown id is an error. */
    method BeginWait(id: nat) returns (future: RpcFuture?<R>)
      requires Valid()
      ensures future == null <==> id !in State().pending
      ensures future != null ==> id in created && future == created[id]
    {
      if id !in pendingRpcs { return null; }
      return pendingRpcs[id];
    }

    /**
     One look at the future a waiter holds. A future that is not done keeps its waiter waiting;
     otherwise, or when the waiter is cancelled, the wait ends and closes the call. The future
     answers every waiter that holds it, also when another one has closed the call.
     */
    method EndWait(id: nat, future: RpcFuture<R>, cancelled: bool) returns (ended: bool, result: Option<R>)
      requires Valid() && id in created && future == created[id]
      modifies this`pendingRpcs, future
      ensures Valid() && ended == (cancelled || !old(future.state).Waiting?)
      ensures State() == if !ended then old(State())
                         else Close(if cancelled then Cancel(old(State()), id) else old(State()), id)
      ensures result == if !cancelled && old(future.state).Resolved? then Some(old(future.state).result) else None
    {
      ended, result := true, None;
      if cancelled {
        if future.state.Waiting? { future.state := Cancelled; }
      } else if future.state.Waiting? {
        return false, None;
      } else if future.state.Resolved? {
        result := Some(future.state.result);
      }
      pendingRpcs := pendingRpcs - {id};
    }
  }

  // ----- The whole system -----

  type Dispatch<!S, !M, !P, R> = (S, M, P) -> (S, R)

  /** One execution of a request by the server, with the server's state just before. */
  datatype Execution<+S, +M, +P> = Execution(request: Request<M, P>, before: S)

  /**
   Client, server and network. `waiting` holds an id as often as a caller waits for it, `finished`
   what waits have returned, `abandoned` the calls of which a wait was cancelled. The network
   keeps every message ever sent and may deliver any of them any number of times, in any order,
   or never.
   */
  datatype System<S, M, P, R> = System(
    client: Client<R>,
    server: S,
    calls: map<nat, (M, P)>,
    requests: seq<Request<M, P>>,
    responses: seq<Response<R>>,
    log: seq<Execution<S, M, P>>,
    waiting: multiset<nat>,
    finished: map<nat, R>,
    abandoned: set<nat>)

  datatype Action<+M, +P, +R> =
    | Call(rpc: M, params: P)
    | UseIdElsewhere
    | Serve(request: Request<M, P>)
    | Deliver(reply: Response<R>)
    | BeginWait(id: nat)
    | Finish(id: nat)
    | Abandon(id: nat)

  ghost function Init<S, M, P, R>(server: S): System<S, M, P, R> {
    System(Client(0, map[], {}), server, map[], [], [], [], multiset{}, map[], {})
  }

  ghost predicate Enabled<S, M, P, R>(s: System<S, M, P, R>, a: Action<M, P, R>) {
    match a
    case Serve(request) => request in s.requests
    case Deliver(reply) => reply in s.responses
    case BeginWait(id) => id in s.client.pending
    case Finish(id) => id in s.waiting && id in s.client.futures && s.client.futures[id].Resolved?
    case Abandon(id) => id in s.waiting
    case _ => true
  }

  ghost function Next<S, M, P, R>(
      dispatch: Dispatch<S, M, P, R>, s: System<S, M, P, R>, a: Action<M, P, R>): System<S, M, P, R>
    requires Enabled(s, a)
  {
    match a
    case Call(rpc, params) =>
      var c := Issue(s.client);
      s.(client := c, calls := s.calls[c.counter := (rpc, params)],
         requests := s.requests + [Request(c.counter, rpc, params)])
    case UseIdElsewhere => s.(client := s.client.(counter := s.client.counter + 1))
    case Serve(request) =>
      var (server, result) := dispatch(s.server, request.rpc, request.params);
      s.(server := server, log := s.log + [Execution(request, s.server)],
         responses := s.responses + [Response(request.id, result)])
    case Deliver(reply) => s.(client := Handle(s.client, reply).0)
    case BeginWait(id) => s.(waiting := s.waiting + multiset{id})
    case Finish(id) =>
      s.(client := Close(s.client, id), waiting := s.waiting - multiset{id},
         finished := s.finished[id := s.client.futures[id].result])
    case Abandon(id) =>
      s.(client := Close(Cancel(s.client, id), id), waiting := s.waiting - multiset{id},
         abandoned := s.abandoned + {id})
  }

  ghost function Run<S, M, P, R>(
      dispatch: Dispatch<S, M, P, R>, server: S, acts: seq<Action<M, P, R>>): Option<System<S, M, P, R>>
  {
    if acts == [] then Some(Init(server)) else
      match Run(dispatch, server, Front(acts))
      case None => None
      case Some(s) =>
        if Enabled(s, Last(acts)) then Some(Next(dispatch, s, Last(acts))) else None
  }

  // ----- What every run keeps -----

  /** The server's state after the executions in the log, in order. */
  ghost function Replay<S, M, P, R>(dispatch: Dispatch<S, M, P, R>, server: S, log: seq<Execution<S, M, P>>): S {
    if log == [] then server else
      var e := Last(log);
      dispatch(Replay(dispatch, server, Front(log)), e.request.rpc, e.request.params).0
  }

  /** The log is one sequential history of the server. */
  ghost predicate Sequential<S, M, P, R>(dispatch: Dispatch<S, M, P, R>, server: S, log: seq<Execution<S, M, P>>) {
    forall i :: 0 <= i < |log| ==> log[i].before == Replay(dispatch, server, log[..i])
  }

  ghost predicate IsExecutionOf<S, M, P>(e: Execution<S, M, P>, id: nat, call: (M, P)) {
    e.request == Request(id, call.0, call.1)
  }

  ghost function ResultOf<S, M, P, R>(dispatch: Dispatch<S, M, P, R>, e: Execution<S, M, P>): R {
    dispatch(e.before, e.request.rpc, e.request.params).1
  }

  /** The result comes from dispatching this very call, at its place in the server's history. */
  ghost predicate Answers<S, M, P, R>(dispatch: Dispatch<S, M, P, R>, s: System<S, M, P, R>, id: nat, result: R) {
    id in s.calls &&
    exists e :: e in s.log && IsExecutionOf(e, id, s.calls[id]) && result == ResultOf(dispatch, e)
  }

  /** A wait for the call has returned or was cancelled. */
  ghost predicate Ended<S, M, P, R>(s: System<S, M, P, R>, id: nat) {
    id in s.finished || id in s.abandoned
  }

  /**
   Ids are used up to the counter, and a call is open exactly until some wait for it has ended.
   No wait is for a future that nothing can complete: an open call still takes its reply, and
   the future of a call that is closed is done.
   */
  ghost predicate IdSorted<S, M, P, R>(s: System<S, M, P, R>, id: nat) {
    && (id in s.calls ==> 1 <= id <= s.client.counter)
    && (id in s.calls <==> id in s.client.futures)
    && (id in s.client.pending <==> id in s.calls && !Ended(s, id))
    && (id in s.waiting || Ended(s, id) ==> id in s.calls)
    && (id in s.calls && id !in s.client.pending ==> !s.client.futures[id].Waiting?)
  }

  ghost predicate IdsSorted<S, M, P, R>(s: System<S, M, P, R>) {
    forall id: nat :: IdSorted(s, id)
  }

  ghost predicate WireMatches<S, M, P, R>(dispatch: Dispatch<S, M, P, R>, s: System<S, M, P, R>) {
    && (forall q :: q in s.requests ==> q.id in s.calls && s.calls[q.id] == (q.rpc, q.params))
    && (forall q :: q in s.responses ==> Answers(dispatch, s, q.id, q.result))
  }

  /** Futures and finished waits hold answers. */
  ghost predicate ResultMatches<S, M, P, R>(dispatch: Dispatch<S, M, P, R>, s: System<S, M, P, R>, id: nat) {
    && (id in s.client.futures && s.client.futures[id].Resolved? ==>
          Answers(dispatch, s, id, s.client.futures[id].result))
    && (id in s.finished ==> id in s.client.futures && s.client.futures[id] == Resolved(s.finished[id]))
  }

  ghost predicate ResultsMatch<S, M, P, R>(dispatch: Dispatch<S, M, P, R>, s: System<S, M, P, R>) {
    forall id: nat :: ResultMatches(dispatch, s, id)
  }

  ghost predicate Invariant<S, M, P, R>(dispatch: Dispatch<S, M, P, R>, server: S, s: System<S, M, P, R>) {
    && IdsSorted(s) && WireMatches(dispatch, s) && ResultsMatch(dispatch, s)
    && Sequential(dispatch, server, s.log) && s.server == Replay(dispatch, server, s.log)
  }

  /** Answers stay answers while calls and executions are only added. */
  lemma AnswersKept<S, M, P, R>(
      dispatch: Dispatch<S, M, P, R>, s: System<S, M, P, R>, t: System<S, M, P, R>, id: nat, result: R)
    requires Answers(dispatch, s, id, result)
    requires s.log <= t.log && id in t.calls && t.calls[id] == s.calls[id]
    ensures Answers(dispatch, t, id, result)
  {
    var e :| e in s.log && IsExecutionOf(e, id, s.calls[id]) && result == ResultOf(dispatch, e);
    assert e in t.log;
  }

  lemma CallsKept<S, M, P, R>(dispatch: Dispatch<S, M, P, R>, server: S, s: System<S, M, P, R>, a: Action<M, P, R>)
    requires Invariant(dispatch, server, s) && Enabled(s, a)
    ensures var t := Next(dispatch, s, a);
      s.log <= t.log && forall id :: id in s.calls ==> id in t.calls && t.calls[id] == s.calls[id]
  {
    assert IdSorted(s, s.client.counter + 1);
  }

  lemma ServedAnswers<S, M, P, R>(dispatch: Dispatch<S, M, P, R>, server: S, s: System<S, M, P, R>, q: Request<M, P>)
    requires Invariant(dispatch, server, s) && q in s.requests
    ensures Answers(dispatch, Next(dispatch, s, Serve(q)), q.id, dispatch(s.server, q.rpc, q.params).1)
  {
    var t := Next(dispatch, s, Serve(q));
    assert t.log[|s.log|] == Execution(q, s.server);
    assert Execution(q, s.server) in t.log;
  }

  lemma LogStaysSequential<S, M, P, R>(
      dispatch: Dispatch<S, M, P, R>, server: S, s: System<S, M, P, R>, q: Request<M, P>)
    requires Sequential(dispatch, server, s.log) && s.server == Replay(dispatch, server, s.log)
    ensures var log := s.log + [Execution(q, s.server)];
      Sequential(dispatch, server, log) && Replay(dispatch, server, log) == dispatch(s.server, q.rpc, q.params).0
  {
    var log := s.log + [Execution(q, s.server)];
    assert Front(log) == s.log;
    forall i | 0 <= i < |log| ensures log[i].before == Replay(dispatch, server, log[..i]) {
      assert log[..i] == s.log[..i];
      if i == |s.log| { assert log[..i] == s.log; }
    }
  }

  lemma StepKeepsId<S, M, P, R>(dispatch: Dispatch<S, M, P, R>, s: System<S, M, P, R>, a: Action<M, P, R>, id: nat)
    requires IdsSorted(s) && Enabled(s, a)
    ensures IdSorted(Next(dispatch, s, a), id)
  {
    assert IdSorted(s, id) && IdSorted(s, s.client.counter + 1);
    if a.BeginWait? || a.Finish? || a.Abandon? { assert IdSorted(s, a.id); }
    if a.Deliver? { assert IdSorted(s, a.reply.id); }
  }

  lemma StepKeepsIds<S, M, P, R>(dispatch: Dispatch<S, M, P, R>, s: System<S, M, P, R>, a: Action<M, P, R>)
    requires IdsSorted(s) && Enabled(s, a)
    ensures IdsSorted(Next(dispatch, s, a))
  {
    forall id: nat ensures IdSorted(Next(dispatch, s, a), id) {
      StepKeepsId(dispatch, s, a, id);
    }
  }

  lemma StepKeepsWire<S, M, P, R>(
      dispatch: Dispatch<S, M, P, R>, server: S, s: System<S, M, P, R>, a: Action<M, P, R>)
    requires Invariant(dispatch, server, s) && Enabled(s, a)
    ensures WireMatches(dispatch, Next(dispatch, s, a))
  {
    var t := Next(dispatch, s, a);
    CallsKept(dispatch, server, s, a);
    if a.Serve? { ServedAnswers(dispatch, server, s, a.request); }
    forall q | q in s.responses ensures Answers(dispatch, t, q.id, q.result) {
      AnswersKept(dispatch, s, t, q.id, q.result);
    }
  }

  /** A step brings in none but answers. */
  lemma StepKeepsResult<S, M, P, R>(
      dispatch: Dispatch<S, M, P, R>, server: S, s: System<S, M, P, R>, a: Action<M, P, R>, id: nat)
    requires Invariant(dispatch, server, s) && Enabled(s, a)
    ensures ResultMatches(dispatch, Next(dispatch, s, a), id)
  {
    var t := Next(dispatch, s, a);
    CallsKept(dispatch, server, s, a);
    assert IdSorted(s, id) && IdSorted(s, s.client.counter + 1) && ResultMatches(dispatch, s, id);
    if id in t.client.futures && t.client.futures[id].Resolved? {
      AnswersKept(dispatch, s, t, id, t.client.futures[id].result);
    }
  }

  lemma StepKeepsInvariant<S, M, P, R>(
      dispatch: Dispatch<S, M, P, R>, server: S, s: System<S, M, P, R>, a: Action<M, P, R>)
    requires Invariant(dispatch, server, s) && Enabled(s, a)
    ensures Invariant(dispatch, server, Next(dispatch, s, a))
  {
    StepKeepsIds(dispatch, s, a);
    StepKeepsWire(dispatch, server, s, a);
    forall id: nat ensures ResultMatches(dispatch, Next(dispatch, s, a), id) {
      StepKeepsResult(dispatch, server, s, a, id);
    }
    if a.Serve? { LogStaysSequential(dispatch, server, s, a.request); }
  }

  /**
   An RPC refines a direct call: in every run, every wait that finished got the result of
   dispatching its call's own method and parameters at one place of the server's sequential
   history; every id was issued once, and a call is open or some wait for it has ended.
   */
  lemma {:induction false} RpcRefinesDirectCall<S, M, P, R>(
      dispatch: Dispatch<S, M, P, R>, server: S, acts: seq<Action<M, P, R>>)
    requires Run(dispatch, server, acts).Some?
    ensures Invariant(dispatch, server, Run(dispatch, server, acts).value)
    ensures var s := Run(dispatch, server, acts).value;
      forall id :: id in s.finished ==> Answers(dispatch, s, id, s.finished[id])
  {
    if acts == [] {
    } else {
      RpcRefinesDirectCall(dispatch, server, Front(acts));
      StepKeepsInvariant(dispatch, server, Run(dispatch, server, Front(acts)).value, Last(acts));
    }
    var s := Run(dispatch, server, acts).value;
    forall id | id in s.finished ensures Answers(dispatch, s, id, s.finished[id]) {
      assert ResultMatches(dispatch, s, id);
    }
  }

  /** With methods that depend on nothing else, a finished call holds what calling directly returns. */
  lemma StatelessCallsAreExact<S(!new), M(!new), P(!new), R>(
      dispatch: Dispatch<S, M, P, R>, direct: (M, P) -> R, server: S, acts: seq<Action<M, P, R>>, id: nat)
    requires Run(dispatch, server, acts).Some?
    requires forall s, m, p :: dispatch(s, m, p).1 == direct(m, p)
    requires id in Run(dispatch, server, acts).value.finished
    ensures var s := Run(dispatch, server, acts).value;
      id in s.calls && s.finished[id] == direct(s.calls[id].0, s.calls[id].1)
  {
    RpcRefinesDirectCall(dispatch, server, acts);
    var s := Run(dispatch, server, acts).value;
    assert Answers(dispatch, s, id, s.finished[id]);
  }

  /**
   A reply the server sent does what it is for: delivered to an open call whose future is not
   done, it resolves that future with its result, touches no other, and goes no further; every
   other reply changes nothing and is passed on.
   */
  lemma ReplyResolvesExactly<S, M, P, R>(
      dispatch: Dispatch<S, M, P, R>, server: S, acts: seq<Action<M, P, R>>, reply: Response<R>)
    requires Run(dispatch, server, acts).Some? && reply in Run(dispatch, server, acts).value.responses
    ensures var s := Run(dispatch, server, acts).value;
      var (after, intercepted) := Handle(s.client, reply);
      && Next(dispatch, s, Deliver(reply)) == s.(client := after)
      && (intercepted <==>
           reply.id in s.client.pending && reply.id in s.client.futures && s.client.futures[reply.id].Waiting?)
      && (if intercepted
          then after == s.client.(futures := s.client.futures[reply.id := Resolved(reply.result)])
          else after == s.client)
      && reply.id in s.calls
  {
    RpcRefinesDirectCall(dispatch, server, acts);
    var s := Run(dispatch, server, acts).value;
    assert Answers(dispatch, s, reply.id, reply.result);
  }

  lemma RunSnoc<S, M, P, R>(
      dispatch: Dispatch<S, M, P, R>, server: S, acts: seq<Action<M, P, R>>, a: Action<M, P, R>)
    requires Run(dispatch, server, acts).Some? && Enabled(Run(dispatch, server, acts).value, a)
    ensures Run(dispatch, server, acts + [a]) == Some(Next(dispatch, Run(dispatch, server, acts).value, a))
  {
    assert Front(acts + [a]) == acts;
  }

  /**
   No call is stuck: at any moment of any run, an open call that nobody has answered yet can be
   waited for, served and answered, and then finishes with the result of dispatching it now.
   */
  lemma OpenCallCanFinish<S, M, P, R>(
      dispatch: Dispatch<S, M, P, R>, server: S, acts: seq<Action<M, P, R>>, id: nat)
    returns (more: seq<Action<M, P, R>>)
    requires Run(dispatch, server, acts).Some?
    requires Awaited(Run(dispatch, server, acts).value.client, id)
    ensures Run(dispatch, server, acts + more).Some?
    ensures var s, t := Run(dispatch, server, acts).value, Run(dispatch, server, acts + more).value;
      && id in s.calls && id in t.finished && id !in t.client.pending
      && t.finished[id] == dispatch(s.server, s.calls[id].0, s.calls[id].1).1
  {
    RpcRefinesDirectCall(dispatch, server, acts);
    var s := Run(dispatch, server, acts).value;
    assert IdSorted(s, id);
    CallsAreRequested(dispatch, server, acts, id);
    var q := Request(id, s.calls[id].0, s.calls[id].1);
    var reply := Response(id, dispatch(s.server, q.rpc, q.params).1);
    var one := acts + [BeginWait(id)];
    var two := one + [Serve(q)];
    var three := two + [Deliver(reply)];
    RunSnoc(dispatch, server, acts, BeginWait(id));
    RunSnoc(dispatch, server, one, Serve(q));
    RunSnoc(dispatch, server, two, Deliver(reply));
    RunSnoc(dispatch, server, three, Finish(id));
    more := [BeginWait(id), Serve(q), Deliver(reply), Finish(id)];
    assert acts + more == three + [Finish(id)];
  }

  /** Every wait for a future that is resolved can finish with its result, also when the call is closed already. */
  lemma ResolvedWaitFinishes<S, M, P, R>(
      dispatch: Dispatch<S, M, P, R>, server: S, acts: seq<Action<M, P, R>>, id: nat, result: R)
    requires Run(dispatch, server, acts).Some?
    requires var s := Run(dispatch, server, acts).value;
      id in s.waiting && id in s.client.futures && s.client.futures[id] == Resolved(result)
    ensures Run(dispatch, server, acts + [Finish(id)]).Some?
    ensures var t := Run(dispatch, server, acts + [Finish(id)]).value;
      id in t.finished && t.finished[id] == result && id !in t.client.pending
  {
    RunSnoc(dispatch, server, acts, Finish(id));
  }

  /** Any wait can be cancelled at any moment; the call is closed then and its future done. */
  lemma WaitCanBeAbandoned<S, M, P, R>(
      dispatch: Dispatch<S, M, P, R>, server: S, acts: seq<Action<M, P, R>>, id: nat)
    requires Run(dispatch, server, acts).Some? && id in Run(dispatch, server, acts).value.waiting
    ensures Run(dispatch, server, acts + [Abandon(id)]).Some?
    ensures var t := Run(dispatch, server, acts + [Abandon(id)]).value;
      id in t.abandoned && id !in t.client.pending && id in t.client.futures && !t.client.futures[id].Waiting?
  {
    RpcRefinesDirectCall(dispatch, server, acts);
    assert IdSorted(Run(dispatch, server, acts).value, id);
    RunSnoc(dispatch, server, acts, Abandon(id));
  }

  /** Every call was sent as a request with its own id, method and parameters. */
  lemma {:induction false} CallsAreRequested<S, M, P, R>(
      dispatch: Dispatch<S, M, P, R>, server: S, acts: seq<Action<M, P, R>>, id: nat)
    requires Run(dispatch, server, acts).Some? && id in Run(dispatch, server, acts).value.calls
    ensures var s := Run(dispatch, server, acts).value;
      Request(id, s.calls[id].0, s.calls[id].1) in s.requests
  {
    var s, a := Run(dispatch, server, Front(acts)).value, Last(acts);
    RpcRefinesDirectCall(dispatch, server, Front(acts));
    CallsKept(dispatch, server, s, a);
    if id in s.calls {
      CallsAreRequested(dispatch, server, Front(acts), id);
    }
  }

  /** A reply to a call that is closed or whose future is done changes nothing at all. */
  lemma LateRepliesAreIgnored<S, M, P, R>(
      dispatch: Dispatch<S, M, P, R>, server: S, s: System<S, M, P, R>, reply: Response<R>)
    requires Invariant(dispatch, server, s) && reply in s.responses
    requires Ended(s, reply.id) || (reply.id in s.client.futures && !s.client.futures[reply.id].Waiting?)
    ensures Next(dispatch, s, Deliver(reply)) == s
  {
    assert IdSorted(s, reply.id);
  }

  /** What happened so far to a call is final: later steps only add to it. */
  ghost predicate CallExtends<S, M, P, R>(s: System<S, M, P, R>, t: System<S, M, P, R>, id: nat) {
    && (id in s.calls ==> id in t.calls && t.calls[id] == s.calls[id])
    && (id in s.finished ==> id in t.finished && t.finished[id] == s.finished[id])
    && (id in s.abandoned ==> id in t.abandoned)
    && (id in s.client.futures && !s.client.futures[id].Waiting? ==>
          id in t.client.futures && t.client.futures[id] == s.client.futures[id])
    && (id in s.calls && id in t.client.pending ==> id in s.client.pending)
    && (id in t.calls && id !in s.calls ==> id > s.client.counter)
  }

  ghost predicate Extends<S, M, P, R>(s: System<S, M, P, R>, t: System<S, M, P, R>) {
    s.client.counter <= t.client.counter && forall id: nat :: CallExtends(s, t, id)
  }

  lemma StepExtendsCall<S, M, P, R>(
      dispatch: Dispatch<S, M, P, R>, server: S, s: System<S, M, P, R>, a: Action<M, P, R>, id: nat)
    requires Invariant(dispatch, server, s) && Enabled(s, a)
    ensures CallExtends(s, Next(dispatch, s, a), id)
  {
    assert IdSorted(s, id) && IdSorted(s, s.client.counter + 1) && ResultMatches(dispatch, s, id);
  }

  lemma StepExtends<S, M, P, R>(
      dispatch: Dispatch<S, M, P, R>, server: S, first: System<S, M, P, R>, s: System<S, M, P, R>,
      a: Action<M, P, R>)
    requires Invariant(dispatch, server, s) && Enabled(s, a) && Extends(first, s)
    ensures Extends(first, Next(dispatch, s, a))
  {
    forall id: nat ensures CallExtends(first, Next(dispatch, s, a), id) {
      assert CallExtends(first, s, id);
      StepExtendsCall(dispatch, server, s, a, id);
    }
  }

  /**
   Every outcome is final. A future is done at most once and every wait that finishes gets that
   one result; a call that is closed never opens again; ids issued later are new.
   */
  lemma {:induction false} OutcomesAreFinal<S, M, P, R>(
      dispatch: Dispatch<S, M, P, R>, server: S, acts: seq<Action<M, P, R>>, n: nat)
    requires n <= |acts| && Run(dispatch, server, acts).Some?
    ensures Run(dispatch, server, acts[..n]).Some?
    ensures Extends(Run(dispatch, server, acts[..n]).value, Run(dispatch, server, acts).value)
  {
    if n == |acts| {
      assert acts[..n] == acts;
      RpcRefinesDirectCall(dispatch, server, acts);
    } else {
      assert Front(acts)[..n] == acts[..n];
      OutcomesAreFinal(dispatch, server, Front(acts), n);
      RpcRefinesDirectCall(dispatch, server, Front(acts));
      var first := Run(dispatch, server, acts[..n]).value;
      StepExtends(dispatch, server, first, Run(dispatch, server, Front(acts)).value, Last(acts));
    }
  }
}
