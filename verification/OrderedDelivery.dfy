/**
 End-to-end ordered delivery. A sender numbers its messages with the sequence counter, an
 adversarial network reorders and duplicates them, and the receiver pushes what arrives
 into the reorder buffer and drains it at moments of its choosing.
 */
module OrderedDelivery {
  import opened DrainSpec
  import opened ReorderBuffer
  import opened ReorderRuns
  import opened Sequences

  // ----- One stream under a window -----

  /** Every pushed packet is one of those sent, unaltered. */
  ghost predicate Genuine<P>(sent: seq<P>, evs: seq<Event<P>>) {
    forall e :: e in evs && e.Push? ==> e.seqNo < |sent| && e.payload == sent[e.seqNo]
  }

  /** No push runs further than `window` ahead of the receiver's cursor. */
  ghost predicate Windowed<P>(cfg: Config, window: nat, evs: seq<Event<P>>) {
    forall i :: 0 <= i < |evs| && evs[i].Push? ==>
      evs[i].seqNo < Run(cfg, Start(), evs[..i]).stream.next + window
  }

  /** The window fits the buffer and never provokes a jump. */
  ghost predicate WindowFits(cfg: Config, window: nat) {
    window <= cfg.maxBuf && window <= cfg.maxGap + 1
  }

  function PacketsOf<P>(sent: seq<P>, from: nat, to: nat): (out: seq<Packet<P>>)
    requires from <= to <= |sent| < TWO_64
  {
    seq(to - from, i requires 0 <= i < to - from => Packet(from + i, sent[from + i]))
  }

  ghost predicate StreamInWindow<P>(window: nat, sent: seq<P>, s: Stream<P>) {
    && s.next <= |sent| < TWO_64
    && forall k :: k in s.queue ==> s.next <= k < s.next + window && k < |sent| && s.queue[k] == sent[k]
  }

  lemma {:induction false} DrainInWindow<P>(cfg: Config, window: nat, sent: seq<P>, s: Stream<P>)
    requires StreamInWindow(window, sent, s) && window <= cfg.maxGap + 1 && ClearOfWrap(cfg, |sent|)
    ensures var (t, out) := DrainStep(cfg, s);
      && StreamInWindow(window, sent, t) && s.next <= t.next && t.next !in t.queue
      && out == PacketsOf(sent, s.next, t.next)
      && forall k :: k in s.queue ==> k < t.next || k in t.queue
    decreases |s.queue|
  {
    if s.next in s.queue {
      var mid := Stream(Add64(s.next, 1), s.queue - {s.next});
      assert mid.queue.Keys == s.queue.Keys - {s.next};
      DrainInWindow(cfg, window, sent, mid);
    } else if s.queue != map[] {
      assert Least(s.queue) in s.queue;
      assert !JumpsGap(cfg, s);
    }
  }

  /** Everything pushed so far is delivered or held. */
  ghost predicate NothingLost<P>(evs: seq<Event<P>>, s: Stream<P>) {
    forall e :: e in evs && e.Push? ==> e.seqNo < s.next || e.seqNo in s.queue
  }

  ghost predicate InWindow<P>(window: nat, sent: seq<P>, evs: seq<Event<P>>, st: State<P>) {
    && StreamInWindow(window, sent, st.stream)
    && st.out == PacketsOf(sent, 0, st.stream.next)
    && NothingLost(evs, st.stream)
  }

  function Interval(lo: int, n: nat): (s: set<int>)
    ensures |s| == n && forall k :: k in s <==> lo <= k < lo + n
  {
    if n == 0 then {} else Interval(lo, n - 1) + {lo + n - 1}
  }

  /** A queue that refuses a packet of the window holds the whole window already. */
  lemma FullQueueIsWindow<P>(cfg: Config, window: nat, sent: seq<P>, s: Stream<P>)
    requires StreamInWindow(window, sent, s) && |s.queue| >= cfg.maxBuf && window <= cfg.maxBuf
    ensures forall k :: s.next <= k < s.next + window ==> k in s.queue
  {
    var keys: set<int> := set k | k in s.queue;
    assert keys == s.queue.Keys;
    SubsetCard(keys, Interval(s.next, window));
  }

  /** Traffic on one stream that stays inside the window, whatever the network does. */
  ghost predicate WindowRun<P>(cfg: Config, window: nat, sent: seq<P>, evs: seq<Event<P>>) {
    && ClearOfWrap(cfg, |sent|)
    && NoReset(evs) && Genuine(sent, evs) && Windowed(cfg, window, evs)
  }

  lemma WindowRunPrefix<P>(cfg: Config, window: nat, sent: seq<P>, evs: seq<Event<P>>, n: nat)
    requires WindowRun(cfg, window, sent, evs) && n <= |evs|
    ensures WindowRun(cfg, window, sent, evs[..n])
    ensures n < |evs| ==> !evs[n].Reset?
    ensures n < |evs| && evs[n].Push? ==> (
      evs[n].seqNo < |sent| && evs[n].payload == sent[evs[n].seqNo] &&
      evs[n].seqNo < Run(cfg, Start(), evs[..n]).stream.next + window)
  {
    forall i | 0 <= i < n && evs[i].Push?
      ensures evs[..n][i].seqNo < Run(cfg, Start(), evs[..n][..i]).stream.next + window
    {
      assert evs[..n][..i] == evs[..i];
    }
  }

  lemma StepInWindow<P>(cfg: Config, window: nat, sent: seq<P>, evs: seq<Event<P>>, st: State<P>)
    requires evs != [] && WindowFits(cfg, window) && ClearOfWrap(cfg, |sent|)
    requires InWindow(window, sent, Front(evs), st)
    requires !Last(evs).Reset?
    requires Last(evs).Push? ==> (
      Last(evs).seqNo < |sent| && Last(evs).payload == sent[Last(evs).seqNo] &&
      Last(evs).seqNo < st.stream.next + window)
    ensures InWindow(window, sent, evs, Step(cfg, st, Last(evs)))
    ensures st.stream.next <= Step(cfg, st, Last(evs)).stream.next
    ensures Last(evs).Drain? ==> Step(cfg, st, Drain).stream.next !in Step(cfg, st, Drain).stream.queue
  {
    var s := st.stream;
    assert evs == Front(evs) + [Last(evs)];
    if Last(evs).Drain? {
      DrainInWindow(cfg, window, sent, s);
      var t := DrainStep(cfg, s).0;
      assert PacketsOf(sent, 0, s.next) + PacketsOf(sent, s.next, t.next) == PacketsOf(sent, 0, t.next);
    } else if |s.queue| >= cfg.maxBuf {
      FullQueueIsWindow(cfg, window, sent, s);
    }
  }

  lemma {:induction false} WindowInvariant<P>(cfg: Config, window: nat, sent: seq<P>, evs: seq<Event<P>>)
    requires WindowFits(cfg, window)
    requires WindowRun(cfg, window, sent, evs)
    ensures InWindow(window, sent, evs, Run(cfg, Start(), evs))
    ensures evs != [] ==> Run(cfg, Start(), Front(evs)).stream.next <= Run(cfg, Start(), evs).stream.next
    ensures evs != [] && Last(evs).Drain? ==>
      Run(cfg, Start(), evs).stream.next !in Run(cfg, Start(), evs).stream.queue
  {
    if evs == [] {
      assert Start<P>().out == PacketsOf(sent, 0, 0);
    } else {
      WindowRunPrefix(cfg, window, sent, evs, |evs| - 1);
      WindowInvariant(cfg, window, sent, Front(evs));
      StepInWindow(cfg, window, sent, evs, Run(cfg, Start(), Front(evs)));
    }
  }

  lemma {:induction false} NextOnlyGrows<P>(cfg: Config, window: nat, sent: seq<P>, evs: seq<Event<P>>, n: nat)
    requires WindowFits(cfg, window)
    requires WindowRun(cfg, window, sent, evs) && n <= |evs|
    ensures Run(cfg, Start(), evs[..n]).stream.next <= Run(cfg, Start(), evs).stream.next
  {
    if n == |evs| {
      assert evs[..n] == evs;
    } else {
      WindowRunPrefix(cfg, window, sent, evs, |evs| - 1);
      NextOnlyGrows(cfg, window, sent, Front(evs), n);
      assert Front(evs)[..n] == evs[..n];
      WindowInvariant(cfg, window, sent, evs);
    }
  }

  /** Delivery is a prefix of what was sent, at every moment of every run under the window. */
  lemma PrefixDelivery<P>(cfg: Config, window: nat, sent: seq<P>, evs: seq<Event<P>>)
    requires WindowFits(cfg, window)
    requires WindowRun(cfg, window, sent, evs)
    ensures var st := Run(cfg, Start(), evs);
      st.stream.next <= |sent| && st.out == PacketsOf(sent, 0, st.stream.next)
  {
    WindowInvariant(cfg, window, sent, evs);
  }

  /** A push refused under the window carries a packet that is held already. */
  lemma RefusedIsDuplicate<P>(cfg: Config, window: nat, sent: seq<P>, evs: seq<Event<P>>, i: nat)
    requires WindowFits(cfg, window)
    requires WindowRun(cfg, window, sent, evs) && i < |evs| && evs[i].Push?
    ensures var s := Run(cfg, Start(), evs[..i]).stream;
      !PushStep(cfg, s, evs[i].seqNo, evs[i].payload).1 ==>
        evs[i].seqNo in s.queue && s.queue[evs[i].seqNo] == evs[i].payload
  {
    WindowRunPrefix(cfg, window, sent, evs, i);
    WindowInvariant(cfg, window, sent, evs[..i]);
    var s := Run(cfg, Start(), evs[..i]).stream;
    if |s.queue| >= cfg.maxBuf {
      FullQueueIsWindow(cfg, window, sent, s);
    }
  }

  ghost predicate AllPushed<P>(sent: seq<P>, evs: seq<Event<P>>) {
    |sent| < TWO_64 && forall k :: 0 <= k < |sent| ==> Push(k, sent[k]) in evs
  }

  /** Once every packet has been pushed and a drain has followed, everything is delivered. */
  lemma CompleteDelivery<P>(cfg: Config, window: nat, sent: seq<P>, a: seq<Event<P>>, b: seq<Event<P>>)
    requires WindowFits(cfg, window)
    requires WindowRun(cfg, window, sent, a + [Drain] + b)
    requires AllPushed(sent, a)
    ensures Run(cfg, Start(), a + [Drain] + b).out == PacketsOf(sent, 0, |sent|)
  {
    var evs := a + [Drain] + b;
    WindowRunPrefix(cfg, window, sent, evs, |a| + 1);
    assert evs[..|a| + 1] == a + [Drain];
    WindowInvariant(cfg, window, sent, a + [Drain]);
    var s := Run(cfg, Start(), a + [Drain]).stream;
    forall k | 0 <= k < |sent| ensures k < s.next || k in s.queue {
      assert Push(k, sent[k]) in a + [Drain];
    }
    NextOnlyGrows(cfg, window, sent, evs, |a| + 1);
    WindowInvariant(cfg, window, sent, evs);
  }

  // ----- The window is exactly right -----

  /** All windowed traffic is delivered in order, and in full once it is pushed and drained. */
  ghost predicate DeliversInOrder<P(!new)>(cfg: Config, window: nat) {
    forall sent: seq<P>, evs: seq<Event<P>> :: WindowRun(cfg, window, sent, evs) ==>
      OrderedSoFar(cfg, sent, evs) &&
      forall a, b :: evs == a + [Drain] + b && AllPushed(sent, a) ==> Delivered(cfg, sent, evs)
  }

  ghost predicate OrderedSoFar<P>(cfg: Config, sent: seq<P>, evs: seq<Event<P>>) {
    |sent| < TWO_64 && Run(cfg, Start(), evs).out <= PacketsOf(sent, 0, |sent|)
  }

  ghost predicate Delivered<P>(cfg: Config, sent: seq<P>, evs: seq<Event<P>>) {
    |sent| < TWO_64 && Run(cfg, Start(), evs).out == PacketsOf(sent, 0, |sent|)
  }

  /** The packets 1, 2, ..., n, leaving out the one wanted first. */
  function SkipFirst<P>(n: nat, p: P): (evs: seq<Event<P>>)
    requires n < TWO_64
    ensures |evs| == n && forall i :: 0 <= i < n ==> evs[i] == Push(i + 1, p)
  {
    seq(n, i requires 0 <= i < n => Push(i + 1, p))
  }

  function EarlyQueue<P>(n: nat, p: P): (q: map<U64, P>)
    requires n < TWO_64
    ensures |q| == n && forall k :: k in q <==> 1 <= k <= n
  {
    if n == 0 then map[] else
      var q := EarlyQueue(n - 1, p);
      assert q[n := p].Keys == q.Keys + {n};
      q[n := p]
  }

  lemma {:induction false} SkipFirstFills<P>(cfg: Config, n: nat, p: P)
    requires n <= cfg.maxBuf && n < TWO_64
    ensures Run(cfg, Start(), SkipFirst(n, p)) == State(Stream(0, EarlyQueue(n, p)), [])
  {
    if n == 0 {
    } else {
      SkipFirstFills(cfg, n - 1, p);
      assert SkipFirst(n, p) == SkipFirst(n - 1, p) + [Push(n, p)];
      RunSnoc(cfg, Start(), SkipFirst(n - 1, p), Push(n, p));
    }
  }

  /** Packets 1 to maxBuf fill the buffer, so packet 0 is refused and never delivered. */
  lemma CrowdedOut<P>(cfg: Config, p: P, evs: seq<Event<P>>)
    requires cfg.maxBuf < TWO_64 && evs == SkipFirst(cfg.maxBuf, p) + [Push(0, p)] + [Drain]
    ensures var out := Run(cfg, Start(), evs).out; out == [] || out[0].seqNo != 0
  {
    var n := cfg.maxBuf;
    SkipFirstFills(cfg, n, p);
    RunSnoc(cfg, Start(), SkipFirst(n, p), Push(0, p));
    RunSnoc(cfg, Start(), SkipFirst(n, p) + [Push(0, p)], Drain);
    var s := Stream(0, EarlyQueue(n, p));
    DrainMeetsSpec(cfg, s);
    var out := DrainStep(cfg, s).1;
    assert Run(cfg, Start(), evs).out == out;
    assert out != [] ==> out[0] in out;
  }

  lemma CrowdIsWindowed<P>(cfg: Config, window: nat, p: P, sent: seq<P>, a: seq<Event<P>>)
    requires window > cfg.maxBuf && ClearOfWrap(cfg, cfg.maxBuf + 1)
    requires sent == seq(cfg.maxBuf + 1, i => p) && a == SkipFirst(cfg.maxBuf, p) + [Push(0, p)]
    ensures WindowRun(cfg, window, sent, a + [Drain]) && AllPushed(sent, a)
  {
    var n := cfg.maxBuf;
    assert forall i :: 0 <= i < n ==> a[i] == Push(i + 1, p);
    assert a[n] == Push(0, p);
    forall k | 0 <= k < |sent| ensures Push(k, sent[k]) in a {
      if k > 0 { assert a[k - 1] == Push(k, p); }
    }
  }

  /** A window wider than the buffer lets early packets crowd out the one wanted first. */
  lemma WiderThanBufferFails<P(!new)>(cfg: Config, window: nat, p: P)
    requires window > cfg.maxBuf && ClearOfWrap(cfg, cfg.maxBuf + 1)
    ensures !DeliversInOrder<P>(cfg, window)
  {
    var sent := seq(cfg.maxBuf + 1, i => p);
    var a := SkipFirst(cfg.maxBuf, p) + [Push(0, p)];
    CrowdIsWindowed(cfg, window, p, sent, a);
    CrowdedOut(cfg, p, a + [Drain]);
    assert a + [Drain] == a + [Drain] + [];
    assert PacketsOf(sent, 0, |sent|)[0].seqNo == 0;
    assert !Delivered(cfg, sent, a + [Drain]);
  }

  /** A window wider than the gap tolerance plus one lets a drain jump over packets. */
  lemma WiderThanGapFails<P(!new)>(cfg: Config, window: nat, p: P)
    requires cfg.maxBuf > 0 && window > cfg.maxGap + 1 && ClearOfWrap(cfg, cfg.maxGap + 2)
    ensures !DeliversInOrder<P>(cfg, window)
  {
    var k := cfg.maxGap + 1;
    var sent := seq(k + 1, i => p);
    var none: seq<Event<P>> := [];
    var evs := none + [Push(k, p)] + [Drain];
    RunSnoc(cfg, Start(), none, Push(k, p));
    RunSnoc(cfg, Start(), none + [Push(k, p)], Drain);
    DrainOne(cfg, 0, k, p);
    assert Run(cfg, Start(), evs).out == [Packet(k, p)];
    assert evs[..0] == none;
    assert WindowRun(cfg, window, sent, evs);
    assert PacketsOf(sent, 0, |sent|)[0].seqNo == 0;
    assert !OrderedSoFar(cfg, sent, evs);
  }

  /** The most messages a stream can carry with its numbers clear of the wrap. */
  function Longest(cfg: Config): (n: nat)
    ensures forall m: nat :: m <= n <==> ClearOfWrap(cfg, m)
  {
    if cfg.maxGap <= 2 then TWO_64 - 1 else TWO_64 + 1 - cfg.maxGap
  }

  function Min(a: nat, b: nat): nat {
    if a <= b then a else b
  }

  /** No window can be wider than the stream is long. */
  lemma NarrowerWindow<P>(cfg: Config, window: nat, sent: seq<P>, evs: seq<Event<P>>)
    requires WindowRun(cfg, window, sent, evs)
    ensures WindowRun(cfg, Min(window, Longest(cfg)), sent, evs)
  {
    forall i | 0 <= i < |evs| && evs[i].Push?
      ensures evs[i].seqNo < Run(cfg, Start(), evs[..i]).stream.next + Min(window, Longest(cfg))
    {
      assert evs[i] in evs;
    }
  }

  /**
   In-order delivery holds for all windowed traffic exactly when the window fits; of a window
   wider than a stream can be long, that length counts.
   */
  lemma WindowIsExact<P(!new)>(cfg: Config, window: nat, p: P)
    ensures DeliversInOrder<P>(cfg, window) <==> WindowFits(cfg, Min(window, Longest(cfg)))
  {
    var w := Min(window, Longest(cfg));
    if WindowFits(cfg, w) {
      forall sent: seq<P>, evs: seq<Event<P>> | WindowRun(cfg, window, sent, evs)
        ensures OrderedSoFar(cfg, sent, evs)
        ensures forall a, b :: evs == a + [Drain] + b && AllPushed(sent, a) ==> Delivered(cfg, sent, evs)
      {
        NarrowerWindow(cfg, window, sent, evs);
        PrefixDelivery(cfg, w, sent, evs);
        forall a, b | evs == a + [Drain] + b && AllPushed(sent, a) ensures Delivered(cfg, sent, evs) {
          CompleteDelivery(cfg, w, sent, a, b);
        }
      }
    } else if w > cfg.maxBuf {
      WiderThanBufferFails(cfg, window, p);
    } else {
      WiderThanGapFails(cfg, window, p);
    }
  }

  // ----- From the sequence counter to the receiver -----

  datatype Message<+P> = Message(id: U32, payload: P)

  /** The sender's counters after numbering the messages in order. */
  function NumberRun<P>(msgs: seq<Message<P>>): map<U32, U64> {
    if msgs == [] then map[] else
      var counters := NumberRun(Front(msgs));
      counters[Last(msgs).id := Add64(Peek(counters, Last(msgs).id), 1)]
  }

  /** The packet message j travels in. */
  function Wire<P>(msgs: seq<Message<P>>, j: nat): Packet<P>
    requires j < |msgs|
  {
    Packet(Peek(NumberRun(msgs[..j]), msgs[j].id), msgs[j].payload)
  }

  /** The payloads sent on one stream, in order. */
  function Sent<P>(msgs: seq<Message<P>>, id: U32): seq<P> {
    if msgs == [] then [] else
      var sent := Sent(Front(msgs), id);
      if Last(msgs).id == id then sent + [Last(msgs).payload] else sent
  }

  lemma {:induction false} CountersCount<P>(msgs: seq<Message<P>>, id: U32)
    requires |Sent(msgs, id)| < TWO_64
    ensures |Sent(msgs, id)| == Peek(NumberRun(msgs), id)
  {
    if msgs == [] {
    } else {
      CountersCount(Front(msgs), id);
    }
  }

  /** Numbers are gapless per stream: packet n of a stream carries its n-th payload. */
  lemma {:induction false} WireIsSent<P>(msgs: seq<Message<P>>, j: nat)
    requires j < |msgs| && |Sent(msgs, msgs[j].id)| < TWO_64
    ensures var sent, p := Sent(msgs, msgs[j].id), Wire(msgs, j);
      p.seqNo < |sent| && sent[p.seqNo] == p.payload
  {
    if j == |msgs| - 1 {
      CountersCount(Front(msgs), msgs[j].id);
    } else {
      WireIsSent(Front(msgs), j);
      assert Front(msgs)[..j] == msgs[..j];
    }
  }

  lemma {:induction false} SentIsWired<P>(msgs: seq<Message<P>>, id: U32, n: nat) returns (j: nat)
    requires n < |Sent(msgs, id)| < TWO_64
    ensures j < |msgs| && msgs[j].id == id
    ensures Wire(msgs, j).seqNo == n && msgs[j].payload == Sent(msgs, id)[n]
  {
    if n < |Sent(Front(msgs), id)| {
      j := SentIsWired(Front(msgs), id, n);
      assert Front(msgs)[..j] == msgs[..j];
    } else {
      j := |msgs| - 1;
      CountersCount(Front(msgs), id);
    }
  }

  /** Every push on the stream delivers, unaltered, the packet of some message sent on it. */
  ghost predicate FromWire<P>(msgs: seq<Message<P>>, id: U32, evs: seq<Event<P>>) {
    forall e :: e in evs && e.Push? ==>
      exists j :: 0 <= j < |msgs| && msgs[j].id == id && Wire(msgs, j) == Packet(e.seqNo, e.payload)
  }

  ghost predicate AllArrived<P>(msgs: seq<Message<P>>, id: U32, evs: seq<Event<P>>) {
    forall j :: 0 <= j < |msgs| && msgs[j].id == id ==> Push(Wire(msgs, j).seqNo, msgs[j].payload) in evs
  }

  function Payloads<P>(out: seq<Packet<P>>): seq<P> {
    seq(|out|, i requires 0 <= i < |out| => out[i].payload)
  }

  /**
   The sender numbers any messages on any streams; the network reorders and duplicates them
   and interleaves streams and drains. On each non-zero stream kept within a fitting window,
   the receiver's drains return exactly the first payloads sent on that stream, in order, and
   all of them once everything has arrived and been drained.
   */
  lemma EndToEnd<P>(cfg: Config, window: nat, msgs: seq<Message<P>>, net: seq<NetEvent<P>>, id: U32)
    requires WindowFits(cfg, window) && ClearOfWrap(cfg, |Sent(msgs, id)|)
    requires var evs := Project(net, id);
      NoReset(evs) && FromWire(msgs, id, evs) && Windowed(cfg, window, evs)
    ensures Payloads(NetOutput(cfg, net, id)) <= Sent(msgs, id)
    ensures |NetOutput(cfg, net, id)| == Lookup(NetRun(cfg, net), id).next
    ensures forall a, b :: Project(net, id) == a + [Drain] + b && AllArrived(msgs, id, a) ==>
      Payloads(NetOutput(cfg, net, id)) == Sent(msgs, id)
  {
    var evs, sent := Project(net, id), Sent(msgs, id);
    StreamsAreIndependent(cfg, net, id);
    CountersCount(msgs, id);
    forall e | e in evs && e.Push? ensures e.seqNo < |sent| && e.payload == sent[e.seqNo] {
      var j :| 0 <= j < |msgs| && msgs[j].id == id && Wire(msgs, j) == Packet(e.seqNo, e.payload);
      WireIsSent(msgs, j);
    }
    PrefixDelivery(cfg, window, sent, evs);
    forall a, b | evs == a + [Drain] + b && AllArrived(msgs, id, a)
      ensures Payloads(NetOutput(cfg, net, id)) == sent
    {
      forall k | 0 <= k < |sent| ensures Push(k, sent[k]) in a {
        var j := SentIsWired(msgs, id, k);
      }
      CompleteDelivery(cfg, window, sent, a, b);
      assert Payloads(PacketsOf(sent, 0, |sent|)) == sent;
    }
  }
}
