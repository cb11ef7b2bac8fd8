/**
 The message router: handlers registered per message type with a priority, kept sorted by
 descending priority, and called in that order as far as the sender's authentication allows.
 */
module MessageRouter {
  import opened Sequences

  /** A registered handler; `handler` identifies the callable. */
  datatype Registered<+H> = Registered(handler: H, requiresAuth: bool, priority: int)

  /** Inserting behind every entry whose priority is at least as high. */
  function InsertSorted<H>(s: seq<Registered<H>>, x: Registered<H>): seq<Registered<H>> {
    if s == [] then [x]
    else if s[0].priority < x.priority then [x] + s
    else [s[0]] + InsertSorted(s[1..], x)
  }

  /** Sorting by descending priority, keeping the order of equal priorities. */
  function StableSort<H>(s: seq<Registered<H>>): seq<Registered<H>> {
    if s == [] then [] else InsertSorted(StableSort(Front(s)), Last(s))
  }

  predicate Permitted<H>(h: Registered<H>, authenticated: bool) {
    h.requiresAuth ==> authenticated
  }

  /**
   The handlers called, in order, and the response: that of the last call that did not raise.
   What the n-th call answers, or whether it raises, may depend on n as well as on the handler.
   */
  function Dispatch<H, R>(
      handlers: seq<Registered<H>>, authenticated: bool, call: (nat, H) -> Option<R>): (seq<H>, Option<R>)
  {
    if handlers == [] then ([], None) else
      var last := Last(handlers);
      var (called, result) := Dispatch(Front(handlers), authenticated, call);
      if !Permitted(last, authenticated) then (called, result)
      else
        var response := call(|called|, last.handler);
        (called + [last.handler], if response.Some? then response else result)
  }

  function HandlersFor<H>(
      handlers: map<string, seq<Registered<H>>>, default: Option<H>, kind: string): seq<Registered<H>>
  {
    if kind in handlers && handlers[kind] != [] then handlers[kind]
    else if default.Some? then [Registered(default.value, false, 0)]
    else []
  }

  class MessageRouter<H> {
    var handlers: map<string, seq<Registered<H>>>
    var defaultHandler: Option<H>

    constructor ()
      ensures handlers == map[] && defaultHandler == None
    {
      handlers, defaultHandler := map[], None;
    }

    method Register(kind: string, handler: H, requiresAuth: bool, priority: int)
      modifies this
      ensures defaultHandler == old(defaultHandler)
      ensures handlers == old(handlers)[kind := StableSort(
        (if kind in old(handlers) then old(handlers)[kind] else []) + [Registered(handler, requiresAuth, priority)])]
    {
      if kind !in handlers {
        handlers := handlers[kind := []];
      }
      handlers := handlers[kind := handlers[kind] + [Registered(handler, requiresAuth, priority)]];
      handlers := handlers[kind := StableSort(handlers[kind])];
    }

    method Unregister(kind: string) returns (removed: bool)
      modifies this
      ensures defaultHandler == old(defaultHandler)
      ensures removed == (kind in old(handlers)) && handlers == old(handlers) - {kind}
    {
      if kind in handlers {
        handlers := handlers - {kind};
        return true;
      }
      return false;
    }

    method SetDefaultHandler(handler: H)
      modifies this
      ensures handlers == old(handlers) && defaultHandler == Some(handler)
    {
      defaultHandler := Some(handler);
    }

    method Route<R>(kind: string, authenticated: bool, call: (nat, H) -> Option<R>)
      returns (called: seq<H>, result: Option<R>)
      ensures (called, result) == Dispatch(HandlersFor(handlers, defaultHandler, kind), authenticated, call)
    {
      var list := HandlersFor(handlers, defaultHandler, kind);
      called, result := [], None;
      for i := 0 to |list|
        invariant (called, result) == Dispatch(list[..i], authenticated, call)
      {
        assert list[..i + 1][..i] == list[..i];
        if list[i].requiresAuth && !authenticated { continue; }
        var response := call(|called|, list[i].handler);
        called := called + [list[i].handler];
        if response.Some? {
          result := response;
        }
      }
      assert list[..|list|] == list;
    }
  }

  // ----- The order of handlers -----

  ghost predicate Descending<H>(s: seq<Registered<H>>) {
    forall i, j :: 0 <= i < j < |s| ==> s[i].priority >= s[j].priority
  }

  /** The entries of one priority, in order. */
  ghost function OfPriority<H>(s: seq<Registered<H>>, p: int): seq<Registered<H>> {
    if s == [] then [] else (if s[0].priority == p then [s[0]] else []) + OfPriority(s[1..], p)
  }

  /** A descending list holding, priority by priority, the same entries in the same order. */
  ghost predicate IsStableSort<H>(reg: seq<Registered<H>>, s: seq<Registered<H>>) {
    Descending(s) && forall p :: OfPriority(s, p) == OfPriority(reg, p)
  }

  lemma {:induction false} OfPriorityConcat<H>(a: seq<Registered<H>>, b: seq<Registered<H>>, p: int)
    ensures OfPriority(a + b, p) == OfPriority(a, p) + OfPriority(b, p)
  {
    if a == [] {
      assert a + b == b;
    } else {
      assert (a + b)[1..] == a[1..] + b;
      OfPriorityConcat(a[1..], b, p);
      var first := if a[0].priority == p then [a[0]] else [];
      assert first + (OfPriority(a[1..], p) + OfPriority(b, p)) == first + OfPriority(a[1..], p) + OfPriority(b, p);
    }
  }

  lemma {:induction false} OfPriorityNone<H>(s: seq<Registered<H>>, p: int)
    requires forall i :: 0 <= i < |s| ==> s[i].priority != p
    ensures OfPriority(s, p) == []
  {
    if s == [] {
    } else {
      OfPriorityNone(s[1..], p);
    }
  }

  lemma {:induction false} InsertKeepsOrder<H>(s: seq<Registered<H>>, x: Registered<H>)
    requires Descending(s)
    ensures Descending(InsertSorted(s, x))
    ensures forall i :: 0 <= i < |InsertSorted(s, x)| ==>
      InsertSorted(s, x)[i].priority == x.priority || (s != [] && InsertSorted(s, x)[i].priority <= s[0].priority)
    ensures forall p :: OfPriority(InsertSorted(s, x), p) == OfPriority(s + [x], p)
  {
    if s == [] {
      assert s + [x] == [x];
    } else if s[0].priority < x.priority {
      forall p ensures OfPriority([x] + s, p) == OfPriority(s + [x], p) {
        OfPriorityConcat([x], s, p);
        OfPriorityConcat(s, [x], p);
        if p == x.priority { OfPriorityNone(s, p); }
      }
    } else {
      var rest := InsertSorted(s[1..], x);
      InsertKeepsOrder(s[1..], x);
      assert ([s[0]] + rest)[1..] == rest && (s + [x])[1..] == s[1..] + [x];
    }
  }

  lemma {:induction false} SortIsStable<H>(s: seq<Registered<H>>)
    ensures IsStableSort(s, StableSort(s))
  {
    if s == [] {
    } else {
      var front, last := Front(s), Last(s);
      assert s == front + [last];
      SortIsStable(front);
      InsertKeepsOrder(StableSort(front), last);
      forall p ensures OfPriority(StableSort(s), p) == OfPriority(s, p) {
        OfPriorityConcat(StableSort(front), [last], p);
        OfPriorityConcat(front, [last], p);
      }
    }
  }

  lemma HighestOccurs<H>(a: seq<Registered<H>>, b: seq<Registered<H>>)
    requires a != [] && Descending(b) && OfPriority(a, a[0].priority) == OfPriority(b, a[0].priority)
    ensures b != [] && b[0].priority >= a[0].priority
  {
    var p := a[0].priority;
    assert OfPriority(a, p)[0] == a[0];
    if b != [] && b[0].priority < p { OfPriorityNone(b, p); }
  }

  lemma FirstIsHighest<H>(a: seq<Registered<H>>, b: seq<Registered<H>>)
    requires Descending(a) && Descending(b) && forall p :: OfPriority(a, p) == OfPriority(b, p)
    requires a != []
    ensures b != [] && b[0] == a[0]
  {
    HighestOccurs(a, b);
    HighestOccurs(b, a);
    assert OfPriority(a, a[0].priority)[0] == a[0];
  }

  /** There is only one stable sort. */
  lemma {:induction false} StableSortIsUnique<H>(a: seq<Registered<H>>, b: seq<Registered<H>>)
    requires Descending(a) && Descending(b) && forall p :: OfPriority(a, p) == OfPriority(b, p)
    ensures a == b
    decreases a
  {
    if a == [] {
      if b != [] { FirstIsHighest(b, a); }
    } else {
      FirstIsHighest(a, b);
      forall p ensures OfPriority(a[1..], p) == OfPriority(b[1..], p) {
        if a[0].priority == p {
          assert OfPriority(a, p)[1..] == OfPriority(a[1..], p) && OfPriority(b, p)[1..] == OfPriority(b[1..], p);
        } else {
          assert OfPriority(a, p) == OfPriority(a[1..], p) && OfPriority(b, p) == OfPriority(b[1..], p);
        }
      }
      StableSortIsUnique(a[1..], b[1..]);
      assert a == [a[0]] + a[1..] && b == [b[0]] + b[1..];
    }
  }

  datatype Event<+H> = Add(kind: string, entry: Registered<H>) | Remove(kind: string)

  /** The table after a sequence of registrations and removals. */
  function Table<H>(evs: seq<Event<H>>): map<string, seq<Registered<H>>> {
    if evs == [] then map[] else
      var table := Table(Front(evs));
      match Last(evs)
      case Add(kind, entry) => table[kind := StableSort((if kind in table then table[kind] else []) + [entry])]
      case Remove(kind) => table - {kind}
  }

  /** What was registered for a type since it was last removed, in registration order. */
  function RegisteredFor<H>(evs: seq<Event<H>>, kind: string): seq<Registered<H>> {
    if evs == [] then [] else
      var before := RegisteredFor(Front(evs), kind);
      match Last(evs)
      case Add(k, entry) => if k == kind then before + [entry] else before
      case Remove(k) => if k == kind then [] else before
  }

  /** After any registrations, each list is the stable sort of its registrations by descending priority. */
  lemma {:induction false} TableIsSorted<H>(evs: seq<Event<H>>, kind: string)
    ensures var table := Table(evs);
      IsStableSort(RegisteredFor(evs, kind), if kind in table then table[kind] else [])
  {
    if evs == [] {
    } else {
      var front, e := Front(evs), Last(evs);
      TableIsSorted(front, kind);
      if e.Add? && e.kind == kind {
        var list := if kind in Table(front) then Table(front)[kind] else [];
        SortIsStable(list + [e.entry]);
        forall p ensures OfPriority(StableSort(list + [e.entry]), p) == OfPriority(RegisteredFor(evs, kind), p) {
          OfPriorityConcat(list, [e.entry], p);
          OfPriorityConcat(RegisteredFor(front, kind), [e.entry], p);
        }
      }
    }
  }

  // ----- Routing -----

  ghost function PermittedHandlers<H>(s: seq<Registered<H>>, authenticated: bool): seq<H> {
    if s == [] then [] else
      (if s[0].requiresAuth && !authenticated then [] else [s[0].handler]) + PermittedHandlers(s[1..], authenticated)
  }

  lemma {:induction false} PermittedConcat<H>(a: seq<Registered<H>>, b: seq<Registered<H>>, authenticated: bool)
    ensures PermittedHandlers(a + b, authenticated)
         == PermittedHandlers(a, authenticated) + PermittedHandlers(b, authenticated)
  {
    if a == [] {
      assert a + b == b;
    } else {
      assert (a + b)[1..] == a[1..] + b;
      PermittedConcat(a[1..], b, authenticated);
      var first := if Permitted(a[0], authenticated) then [a[0].handler] else [];
      assert first + (PermittedHandlers(a[1..], authenticated) + PermittedHandlers(b, authenticated))
          == first + PermittedHandlers(a[1..], authenticated) + PermittedHandlers(b, authenticated);
    }
  }

  /** The response is that of a call after which every call raised; none if all raised. */
  ghost predicate IsLastResponse<H, R>(called: seq<H>, call: (nat, H) -> Option<R>, result: Option<R>) {
    if result.None? then forall i :: 0 <= i < |called| ==> call(i, called[i]).None?
    else
      exists i :: 0 <= i < |called| && call(i, called[i]) == result &&
        forall j :: i < j < |called| ==> call(j, called[j]).None?
  }

  /** Routing calls exactly the permitted handlers, in order, and returns the last response. */
  lemma {:induction false} DispatchCallsPermitted<H, R>(
      handlers: seq<Registered<H>>, authenticated: bool, call: (nat, H) -> Option<R>)
    ensures var (called, result) := Dispatch(handlers, authenticated, call);
      called == PermittedHandlers(handlers, authenticated) && IsLastResponse(called, call, result)
  {
    if handlers == [] {
    } else {
      var front, last := Front(handlers), Last(handlers);
      assert handlers == front + [last];
      DispatchCallsPermitted(front, authenticated, call);
      PermittedConcat(front, [last], authenticated);
      var (before, result) := Dispatch(front, authenticated, call);
      if Permitted(last, authenticated) {
        var called := before + [last.handler];
        assert called[|before|] == last.handler;
        if call(|before|, last.handler).None? && result.Some? {
          var i :| 0 <= i < |before| && call(i, before[i]) == result &&
            forall j :: i < j < |before| ==> call(j, before[j]).None?;
          assert call(i, called[i]) == result;
        }
      }
    }
  }

  /** With no handler for the type, the default handler is called alone, whoever sends, or nothing is. */
  lemma DefaultAlone<H, R>(
      handlers: map<string, seq<Registered<H>>>, default: Option<H>, kind: string, authenticated: bool,
      call: (nat, H) -> Option<R>)
    requires kind in handlers ==> handlers[kind] == []
    ensures Dispatch(HandlersFor(handlers, default, kind), authenticated, call) ==
      match default case None => ([], None) case Some(h) => ([h], call(0, h))
  {
    if default.Some? {
      var list := HandlersFor(handlers, default, kind);
      assert Front(list) == [] && [] + [default.value] == [default.value];
    }
  }

  /**
   From registration to routing: the handlers called are the permitted ones of the stable sort,
   and where nothing is registered the default handler alone, if there is one.
   */
  lemma RoutingFollowsRegistration<H, R>(
      evs: seq<Event<H>>, default: Option<H>, kind: string, authenticated: bool, call: (nat, H) -> Option<R>)
    ensures var reg := RegisteredFor(evs, kind);
      var (called, result) := Dispatch(HandlersFor(Table(evs), default, kind), authenticated, call);
      && IsLastResponse(called, call, result)
      && called == if reg != [] then PermittedHandlers(StableSort(reg), authenticated)
                   else if default.Some? then [default.value] else []
  {
    var reg, table := RegisteredFor(evs, kind), Table(evs);
    TableIsSorted(evs, kind);
    SortIsStable(reg);
    StableSortIsUnique(if kind in table then table[kind] else [], StableSort(reg));
    if reg != [] && StableSort(reg) == [] {
      assert OfPriority(reg, reg[0].priority) == OfPriority(StableSort(reg), reg[0].priority);
    }
    DispatchCallsPermitted(HandlersFor(table, default, kind), authenticated, call);
  }
}
