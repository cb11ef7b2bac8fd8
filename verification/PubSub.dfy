/**
 Publish/subscribe streams: every push is offered to the bounded queue of each subscriber, and
 a full queue drops what it is offered. Queues are identified by the order in which they were
 created, so that a subscriber can go on reading a queue after unsubscribing or closing.
 */
module PubSub {
  import opened Sequences

  type Subscriber = string

  datatype Message<+D> = Data(data: D, seqNo: nat) | ClosedMark

  datatype Stream<D> = Stream(
    subscribers: map<Subscriber, nat>,
    queues: seq<seq<Message<D>>>,
    running: bool,
    count: nat)

  /** A buffer size that is not positive means no bound. */
  predicate HasRoom(bufferSize: int, used: int) {
    bufferSize <= 0 || used < bufferSize
  }

  function Offer<D>(bufferSize: int, queue: seq<Message<D>>, msg: Message<D>): seq<Message<D>> {
    if HasRoom(bufferSize, |queue|) then queue + [msg] else queue
  }

  /** Offering a message to the queue of every subscriber in `to`. */
  function OfferAll<D>(
      bufferSize: int, s: Stream<D>, to: set<Subscriber>, msg: Message<D>): (queues: seq<seq<Message<D>>>)
    ensures |queues| == |s.queues|
  {
    seq(|s.queues|, h requires 0 <= h < |s.queues| =>
      if exists id :: id in to && id in s.subscribers && s.subscribers[id] == h
      then Offer(bufferSize, s.queues[h], msg) else s.queues[h])
  }

  /** The subscribers whose queue has room. */
  function Receivers<D>(bufferSize: int, s: Stream<D>, to: set<Subscriber>): set<Subscriber> {
    set id | id in to && id in s.subscribers && s.subscribers[id] < |s.queues| &&
      HasRoom(bufferSize, |s.queues[s.subscribers[id]]|)
  }

  /** Every subscriber has a queue of its own. */
  predicate Valid<D>(s: Stream<D>) {
    && (forall id :: id in s.subscribers ==> s.subscribers[id] < |s.queues|)
    && (forall a, b :: a in s.subscribers && b in s.subscribers && a != b ==> s.subscribers[a] != s.subscribers[b])
  }

  /** Offering to one subscriber more changes that subscriber's queue only. */
  lemma OfferOneMore<D>(bufferSize: int, s: Stream<D>, done: set<Subscriber>, id: Subscriber, msg: Message<D>)
    requires Valid(s) && done <= s.subscribers.Keys && id in s.subscribers && id !in done
    ensures var h := s.subscribers[id];
      var now := OfferAll(bufferSize, s, done, msg);
      now[h] == s.queues[h] &&
      OfferAll(bufferSize, s, done + {id}, msg) == now[h := Offer(bufferSize, s.queues[h], msg)]
  {
    var h := s.subscribers[id];
    var now, next := OfferAll(bufferSize, s, done, msg), OfferAll(bufferSize, s, done + {id}, msg);
    assert id in done + {id};
    forall k | 0 <= k < |s.queues| && k != h ensures next[k] == now[k] {
      if exists i :: i in done && i in s.subscribers && s.subscribers[i] == k {
        var i :| i in done && i in s.subscribers && s.subscribers[i] == k;
        assert i in done + {id};
      }
    }
  }

  lemma ReceiversOneMore<D>(bufferSize: int, s: Stream<D>, done: set<Subscriber>, id: Subscriber)
    requires Valid(s) && done <= s.subscribers.Keys && id in s.subscribers && id !in done
    ensures |Receivers(bufferSize, s, done + {id})| ==
      |Receivers(bufferSize, s, done)| + (if HasRoom(bufferSize, |s.queues[s.subscribers[id]]|) then 1 else 0)
  {
    var before, after := Receivers(bufferSize, s, done), Receivers(bufferSize, s, done + {id});
    if HasRoom(bufferSize, |s.queues[s.subscribers[id]]|) {
      assert after == before + {id};
    } else {
      assert after == before;
    }
  }

  function Subscribed<D>(s: Stream<D>, id: Subscriber): Stream<D> {
    if id in s.subscribers then s
    else s.(subscribers := s.subscribers[id := |s.queues|], queues := s.queues + [[]])
  }

  function Pushed<D>(bufferSize: int, s: Stream<D>, data: D): (Stream<D>, nat) {
    if !s.running || s.subscribers == map[] then (s, 0)
    else
      (s.(queues := OfferAll(bufferSize, s, s.subscribers.Keys, Data(data, s.count)), count := s.count + 1),
       |Receivers(bufferSize, s, s.subscribers.Keys)|)
  }

  function Closed<D>(bufferSize: int, s: Stream<D>): Stream<D> {
    s.(queues := OfferAll(bufferSize, s, s.subscribers.Keys, ClosedMark), subscribers := map[], running := false)
  }

  class BidirectionalStream<D> {
    const bufferSize: int
    var subscribers: map<Subscriber, nat>
    var queues: seq<seq<Message<D>>>
    var running: bool
    var messageCount: nat

    ghost function State(): Stream<D>
      reads this
    {
      Stream(subscribers, queues, running, messageCount)
    }

    constructor (bufferSize: int)
      ensures this.bufferSize == bufferSize && State() == Stream(map[], [], true, 0)
    {
      this.bufferSize := bufferSize;
      subscribers, queues, running, messageCount := map[], [], true, 0;
    }

    method Subscribe(id: Subscriber) returns (queue: nat)
      modifies this
      ensures State() == Subscribed(old(State()), id)
      ensures id in subscribers && queue == subscribers[id]
    {
      if id in subscribers { return subscribers[id]; }
      subscribers := subscribers[id := |queues|];
      queues := queues + [[]];
      return |queues| - 1;
    }

    method Unsubscribe(id: Subscriber)
      modifies this
      ensures State() == old(State()).(subscribers := old(subscribers) - {id})
    {
      if id in subscribers {
        subscribers := subscribers - {id};
      } else {
        assert subscribers - {id} == subscribers;
      }
    }

    /** One round over a snapshot of the subscribers. */
    method OfferToAll(msg: Message<D>) returns (sent: nat)
      requires Valid(State())
      modifies this`queues
      ensures queues == OfferAll(bufferSize, old(State()), subscribers.Keys, msg)
      ensures sent == |Receivers(bufferSize, old(State()), subscribers.Keys)|
    {
      sent := 0;
      ghost var s0 := State();
      var todo := subscribers.Keys;
      ghost var done: set<Subscriber> := {};
      while todo != {}
        invariant todo <= subscribers.Keys && done == subscribers.Keys - todo
        invariant queues == OfferAll(bufferSize, s0, done, msg)
        invariant sent == |Receivers(bufferSize, s0, done)|
        decreases todo
      {
        var id :| id in todo;
        var queue := subscribers[id];
        OfferOneMore(bufferSize, s0, done, id, msg);
        ReceiversOneMore(bufferSize, s0, done, id);
        if HasRoom(bufferSize, |queues[queue]|) {
          queues := queues[queue := queues[queue] + [msg]];
          sent := sent + 1;
        }
        todo := todo - {id};
        done := done + {id};
      }
      assert done == subscribers.Keys;
    }

    method Push(data: D) returns (sent: nat)
      requires Valid(State())
      modifies this
      ensures (State(), sent) == Pushed(bufferSize, old(State()), data)
    {
      if !running { return 0; }
      if subscribers == map[] { return 0; }
      sent := OfferToAll(Data(data, messageCount));
      messageCount := messageCount + 1;
    }

    method Close()
      requires Valid(State())
      modifies this
      ensures State() == Closed(bufferSize, old(State()))
    {
      running := false;
      ghost var s := State();
      var _ := OfferToAll(ClosedMark);
      assert OfferAll(bufferSize, s, subscribers.Keys, ClosedMark)
          == OfferAll(bufferSize, old(State()), subscribers.Keys, ClosedMark);
      subscribers := map[];
    }

    /** A reader takes the front of its queue; an empty one keeps it waiting. */
    method Consume(queue: nat) returns (taken: seq<Message<D>>)
      requires queue < |queues|
      modifies this`queues
      ensures old(queues)[queue] == [] ==> taken == [] && queues == old(queues)
      ensures old(queues)[queue] != [] ==>
        taken == [old(queues)[queue][0]] && queues == old(queues)[queue := old(queues)[queue][1..]]
    {
      if queues[queue] == [] { return []; }
      taken := [queues[queue][0]];
      queues := queues[queue := queues[queue][1..]];
    }
  }

  // ----- Runs -----

  datatype Event<+D> =
    | Subscribe(id: Subscriber)
    | Unsubscribe(id: Subscriber)
    | Push(data: D)
    | Consume(queue: nat)
    | Close

  function Step<D>(bufferSize: int, s: Stream<D>, e: Event<D>): Stream<D> {
    match e
    case Subscribe(id) => Subscribed(s, id)
    case Unsubscribe(id) => s.(subscribers := s.subscribers - {id})
    case Push(data) => Pushed(bufferSize, s, data).0
    case Consume(h) =>
      if h < |s.queues| && s.queues[h] != [] then s.(queues := s.queues[h := s.queues[h][1..]]) else s
    case Close => Closed(bufferSize, s)
  }

  /** The stream just before event n of a run. */
  function Before<D>(bufferSize: int, evs: seq<Event<D>>, n: nat): Stream<D>
    requires n <= |evs|
  {
    if n == 0 then Stream(map[], [], true, 0) else Step(bufferSize, Before(bufferSize, evs, n - 1), evs[n - 1])
  }

  lemma StepKeepsValid<D>(bufferSize: int, s: Stream<D>, e: Event<D>)
    requires Valid(s)
    ensures Valid(Step(bufferSize, s, e))
  {}

  lemma {:induction false} AlwaysValid<D>(bufferSize: int, evs: seq<Event<D>>, n: nat)
    requires n <= |evs|
    ensures Valid(Before(bufferSize, evs, n))
  {
    if n == 0 {
    } else {
      AlwaysValid(bufferSize, evs, n - 1);
      StepKeepsValid(bufferSize, Before(bufferSize, evs, n - 1), evs[n - 1]);
    }
  }

  // ----- What the events alone say -----

  /** How many queues were created: one for each subscription of someone not subscribed at the time. */
  function Created<D>(evs: seq<Event<D>>, n: nat): nat
    requires n <= |evs|
  {
    if n == 0 then 0 else
      Created(evs, n - 1) +
      (if evs[n - 1].Subscribe? && QueueOf(evs, n - 1, evs[n - 1].id).None? then 1 else 0)
  }

  /** The queue a subscriber is subscribed with: created by its subscription, until it unsubscribes or all is closed. */
  function QueueOf<D>(evs: seq<Event<D>>, n: nat, id: Subscriber): Option<nat>
    requires n <= |evs|
  {
    if n == 0 then None else
      var before := QueueOf(evs, n - 1, id);
      match evs[n - 1]
      case Subscribe(who) => if who == id && before.None? then Some(Created(evs, n - 1)) else before
      case Unsubscribe(who) => if who == id then None else before
      case Close => None
      case _ => before
  }

  ghost predicate Attached<D>(evs: seq<Event<D>>, n: nat, h: nat)
    requires n <= |evs|
  {
    exists id :: QueueOf(evs, n, id) == Some(h)
  }

  ghost predicate Heard<D>(evs: seq<Event<D>>, n: nat)
    requires n <= |evs|
  {
    exists id :: QueueOf(evs, n, id).Some?
  }

  predicate Running<D>(evs: seq<Event<D>>, n: nat)
    requires n <= |evs|
  {
    n == 0 || (!evs[n - 1].Close? && Running(evs, n - 1))
  }

  /** How many pushes were made before any close while someone was subscribed. */
  ghost function PushCount<D>(evs: seq<Event<D>>, n: nat): nat
    requires n <= |evs|
  {
    if n == 0 then 0 else
      PushCount(evs, n - 1) + (if evs[n - 1].Push? && Running(evs, n - 1) && Heard(evs, n - 1) then 1 else 0)
  }

  /** The message event n sends to those subscribed, if it sends one. */
  ghost function Sends<D>(evs: seq<Event<D>>, n: nat): (msgs: seq<Message<D>>)
    requires n < |evs|
    ensures |msgs| <= 1
  {
    if evs[n].Push? && Running(evs, n) then [Data(evs[n].data, PushCount(evs, n))]
    else if evs[n].Close? then [ClosedMark]
    else []
  }

  /**
   What a queue is given: every message sent while its subscriber is subscribed, less those sent
   while what it was given and its reader has not taken fills the buffer.
   */
  ghost function Accepted<D>(bufferSize: int, evs: seq<Event<D>>, n: nat, h: nat): seq<Message<D>>
    requires n <= |evs|
    decreases n, 1
  {
    if n == 0 then [] else
      var before := Accepted(bufferSize, evs, n - 1, h);
      if Attached(evs, n - 1, h) &&
         (bufferSize > 0 ==> |before| - TakenCount(bufferSize, evs, n - 1, h) < bufferSize)
      then before + Sends(evs, n - 1) else before
  }

  /** How many of them its reader has taken: one with each attempt, unless it has taken all. */
  ghost function TakenCount<D>(bufferSize: int, evs: seq<Event<D>>, n: nat, h: nat): nat
    requires n <= |evs|
    decreases n, 0
  {
    if n == 0 then 0 else
      TakenCount(bufferSize, evs, n - 1, h) +
      (if evs[n - 1] == Consume(h) &&
          TakenCount(bufferSize, evs, n - 1, h) < |Accepted(bufferSize, evs, n - 1, h)| then 1 else 0)
  }

  /** The stream's fields are what the events say. */
  ghost predicate Agrees<D>(evs: seq<Event<D>>, n: nat, s: Stream<D>)
    requires n <= |evs|
  {
    && |s.queues| == Created(evs, n) && s.running == Running(evs, n) && s.count == PushCount(evs, n)
    && forall id :: QueueOf(evs, n, id) == if id in s.subscribers then Some(s.subscribers[id]) else None
  }

  lemma AgreesMeans<D>(evs: seq<Event<D>>, n: nat, s: Stream<D>)
    requires n <= |evs| && Agrees(evs, n, s)
    ensures Heard(evs, n) <==> s.subscribers != map[]
    ensures forall h: nat :: Attached(evs, n, h) <==> HoldsQueue(s, h)
    ensures n < |evs| ==> Sends(evs, n) == Outgoing(s, evs[n])
  {
    if s.subscribers != map[] {
      var id :| id in s.subscribers;
      assert QueueOf(evs, n, id).Some?;
    }
    forall h: nat | HoldsQueue(s, h) ensures Attached(evs, n, h) {
      var id :| id in s.subscribers && s.subscribers[id] == h;
      assert QueueOf(evs, n, id) == Some(h);
    }
  }

  /** In every run the stream's subscriptions, numbering and state are what the events say. */
  lemma {:induction false} HistoryAgrees<D>(bufferSize: int, evs: seq<Event<D>>, n: nat)
    requires n <= |evs|
    ensures Agrees(evs, n, Before(bufferSize, evs, n))
  {
    if n == 0 {
    } else {
      HistoryAgrees(bufferSize, evs, n - 1);
      AgreesMeans(evs, n - 1, Before(bufferSize, evs, n - 1));
    }
  }

  // ----- Delivery -----

  ghost function TakenStep<D>(s: Stream<D>, e: Event<D>, h: nat, taken: seq<Message<D>>): seq<Message<D>> {
    if e == Consume(h) && h < |s.queues| && s.queues[h] != [] then taken + [s.queues[h][0]] else taken
  }

  /** What the reader of a queue has taken from it. */
  ghost function Taken<D>(bufferSize: int, evs: seq<Event<D>>, n: nat, h: nat): seq<Message<D>>
    requires n <= |evs|
  {
    if n == 0 then [] else TakenStep(Before(bufferSize, evs, n - 1), evs[n - 1], h, Taken(bufferSize, evs, n - 1, h))
  }

  predicate HoldsQueue<D>(s: Stream<D>, h: nat) {
    exists id :: id in s.subscribers && s.subscribers[id] == h
  }

  /** The message an event sends to the subscribers, if it sends one. */
  function Outgoing<D>(s: Stream<D>, e: Event<D>): seq<Message<D>> {
    if e.Push? && s.running then [Data(e.data, s.count)] else if e.Close? then [ClosedMark] else []
  }

  /** What a step does to one queue. */
  lemma StepOnQueue<D>(bufferSize: int, s: Stream<D>, e: Event<D>, h: nat)
    requires Valid(s) && h < |s.queues|
    ensures h < |Step(bufferSize, s, e).queues|
    ensures Step(bufferSize, s, e).queues[h] ==
      if e == Consume(h) && s.queues[h] != [] then s.queues[h][1..]
      else s.queues[h] + (if HoldsQueue(s, h) && HasRoom(bufferSize, |s.queues[h]|) then Outgoing(s, e) else [])
  {
    assert s.queues[h] + [] == s.queues[h];
    if HoldsQueue(s, h) {
      var id :| id in s.subscribers && s.subscribers[id] == h;
      assert id in s.subscribers.Keys;
    }
  }

  /** What a reader has taken and what its queue still holds make up what the queue was given. */
  ghost predicate Delivers<D>(bufferSize: int, evs: seq<Event<D>>, n: nat, h: nat)
    requires n <= |evs|
  {
    var taken, accepted := Taken(bufferSize, evs, n, h), Accepted(bufferSize, evs, n, h);
    && h < |Before(bufferSize, evs, n).queues|
    && taken + Before(bufferSize, evs, n).queues[h] == accepted
    && |taken| == TakenCount(bufferSize, evs, n, h)
    && (bufferSize > 0 ==> |Before(bufferSize, evs, n).queues[h]| <= bufferSize)
  }

  lemma QueueIsGiven<D>(bufferSize: int, evs: seq<Event<D>>, n: nat, h: nat)
    requires n < |evs| && h < |Before(bufferSize, evs, n).queues|
    ensures h < |Before(bufferSize, evs, n + 1).queues|
    ensures var queue := Before(bufferSize, evs, n).queues[h];
      && Outgoing(Before(bufferSize, evs, n), evs[n]) == Sends(evs, n)
      && Before(bufferSize, evs, n + 1).queues[h] ==
         (if evs[n] == Consume(h) && queue != [] then queue[1..]
          else queue + (if Attached(evs, n, h) && HasRoom(bufferSize, |queue|) then Sends(evs, n) else []))
  {
    AlwaysValid(bufferSize, evs, n);
    HistoryAgrees(bufferSize, evs, n);
    AgreesMeans(evs, n, Before(bufferSize, evs, n));
    StepOnQueue(bufferSize, Before(bufferSize, evs, n), evs[n], h);
  }

  lemma MovesMessages<D>(taken: seq<Message<D>>, queue: seq<Message<D>>, sent: seq<Message<D>>)
    ensures taken + (queue + sent) == taken + queue + sent
    ensures queue + [] == queue && (taken + queue) + [] == taken + queue
    ensures queue != [] ==> (taken + [queue[0]]) + queue[1..] == taken + queue
  {}

  lemma DeliveryStep<D>(bufferSize: int, evs: seq<Event<D>>, n: nat, h: nat)
    requires 0 < n <= |evs| && Delivers(bufferSize, evs, n - 1, h)
    ensures Delivers(bufferSize, evs, n, h)
  {
    var s, e := Before(bufferSize, evs, n - 1), evs[n - 1];
    QueueIsGiven(bufferSize, evs, n - 1, h);
    MovesMessages(Taken(bufferSize, evs, n - 1, h), s.queues[h], Sends(evs, n - 1));
    if e == Consume(h) && s.queues[h] != [] {
      assert Sends(evs, n - 1) == [];
    }
  }

  /**
   Delivery: what a reader has taken followed by what its queue still holds is exactly what
   the events say was sent while it was subscribed, except for what was sent while its queue
   was full. The queue never exceeds the buffer size.
   */
  lemma {:induction false} DeliveryIsExact<D>(bufferSize: int, evs: seq<Event<D>>, n: nat, h: nat)
    requires n <= |evs| && h < Created(evs, n)
    ensures Delivers(bufferSize, evs, n, h)
  {
    HistoryAgrees(bufferSize, evs, n);
    if h < Created(evs, n - 1) {
      DeliveryIsExact(bufferSize, evs, n - 1, h);
      DeliveryStep(bufferSize, evs, n, h);
    } else {
      HistoryAgrees(bufferSize, evs, n - 1);
      NothingBeforeCreation(bufferSize, evs, n - 1, h);
      NewQueueIsEmpty(bufferSize, Before(bufferSize, evs, n - 1), evs[n - 1], h);
    }
  }

  lemma NewQueueIsEmpty<D>(bufferSize: int, s: Stream<D>, e: Event<D>, h: nat)
    requires |s.queues| <= h < |Step(bufferSize, s, e).queues|
    ensures Step(bufferSize, s, e).queues[h] == []
  {}

  lemma {:induction false} NothingBeforeCreation<D>(bufferSize: int, evs: seq<Event<D>>, n: nat, h: nat)
    requires n <= |evs| && h >= Created(evs, n)
    ensures Taken(bufferSize, evs, n, h) == [] && Accepted(bufferSize, evs, n, h) == []
    ensures TakenCount(bufferSize, evs, n, h) == 0 && !Attached(evs, n, h)
  {
    AlwaysValid(bufferSize, evs, n);
    HistoryAgrees(bufferSize, evs, n);
    AgreesMeans(evs, n, Before(bufferSize, evs, n));
    if n == 0 {
    } else {
      HistoryAgrees(bufferSize, evs, n - 1);
      NothingBeforeCreation(bufferSize, evs, n - 1, h);
    }
  }

  /** Data messages are numbered in increasing order, below the count. */
  ghost predicate Numbered<D>(msgs: seq<Message<D>>, count: nat) {
    && (forall i :: 0 <= i < |msgs| && msgs[i].Data? ==> msgs[i].seqNo < count)
    && (forall i, j :: 0 <= i < j < |msgs| && msgs[i].Data? && msgs[j].Data? ==> msgs[i].seqNo < msgs[j].seqNo)
  }

  /** A queue's data messages carry strictly increasing sequence numbers, below the stream's count. */
  lemma {:induction false} SequenceNumbersIncrease<D>(bufferSize: int, evs: seq<Event<D>>, n: nat, h: nat)
    requires n <= |evs|
    ensures Numbered(Accepted(bufferSize, evs, n, h), PushCount(evs, n))
    ensures PushCount(evs, n) == Before(bufferSize, evs, n).count
  {
    HistoryAgrees(bufferSize, evs, n);
    if n == 0 {
    } else {
      SequenceNumbersIncrease(bufferSize, evs, n - 1, h);
      if Attached(evs, n - 1, h) {
        var id :| QueueOf(evs, n - 1, id) == Some(h);
        assert Heard(evs, n - 1);
      }
    }
  }

  /** A push returns the number of queues that grew, each of them by the message pushed. */
  lemma PushCountsReceivers<D>(bufferSize: int, evs: seq<Event<D>>, n: nat)
    requires n < |evs| && evs[n].Push?
    ensures var s := Before(bufferSize, evs, n);
      var (t, sent) := Pushed(bufferSize, s, evs[n].data);
      && |t.queues| == |s.queues|
      && sent == |set h | 0 <= h < |s.queues| && t.queues[h] == s.queues[h] + [Data(evs[n].data, s.count)]|
      && forall h :: 0 <= h < |s.queues| ==>
           t.queues[h] == s.queues[h] || t.queues[h] == s.queues[h] + [Data(evs[n].data, s.count)]
  {
    AlwaysValid(bufferSize, evs, n);
    var s := Before(bufferSize, evs, n);
    var (t, sent) := Pushed(bufferSize, s, evs[n].data);
    var grown := set h | 0 <= h < |s.queues| && t.queues[h] == s.queues[h] + [Data(evs[n].data, s.count)];
    if !s.running || s.subscribers == map[] {
      assert grown == {};
    } else {
      var receivers := Receivers(bufferSize, s, s.subscribers.Keys);
      assert grown == set id | id in receivers :: s.subscribers[id];
      ImageCard(s.subscribers, receivers);
    }
  }

  lemma ImageCard(m: map<Subscriber, nat>, ids: set<Subscriber>)
    requires ids <= m.Keys
    requires forall a, b :: a in ids && b in ids && a != b ==> m[a] != m[b]
    ensures |set id | id in ids :: m[id]| == |ids|
    decreases ids
  {
    if ids == {} {
    } else {
      var id :| id in ids;
      ImageCard(m, ids - {id});
      assert (set i | i in ids :: m[i]) == (set i | i in ids - {id} :: m[i]) + {m[id]};
    }
  }
}
