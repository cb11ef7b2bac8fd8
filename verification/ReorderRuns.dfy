/**
 Runs of pushes, drains and resets on the reorder buffer: what every run keeps, that the
 streams of one buffer never affect each other, and when a stream is stuck for good.
 */
module ReorderRuns {
  import opened DrainSpec
  import opened ReorderBuffer
  import opened Sequences

  datatype Event<+P> = Push(seqNo: U64, payload: P) | Drain | Reset

  /** A stream together with everything its drains have returned so far. */
  datatype State<P> = State(stream: Stream<P>, out: seq<Packet<P>>)

  function Start<P>(): State<P> {
    State(Fresh(), [])
  }

  ghost function Step<P>(cfg: Config, st: State<P>, e: Event<P>): State<P> {
    match e
    case Push(n, p) => st.(stream := PushStep(cfg, st.stream, n, p).0)
    case Drain => State(DrainStep(cfg, st.stream).0, st.out + DrainStep(cfg, st.stream).1)
    case Reset => st.(stream := Fresh())
  }

  ghost function Run<P>(cfg: Config, st: State<P>, evs: seq<Event<P>>): State<P> {
    if evs == [] then st else Step(cfg, Run(cfg, st, Front(evs)), Last(evs))
  }

  lemma RunSnoc<P>(cfg: Config, st: State<P>, evs: seq<Event<P>>, e: Event<P>)
    ensures Run(cfg, st, evs + [e]) == Step(cfg, Run(cfg, st, evs), e)
  {
    assert Front(evs + [e]) == evs;
  }

  ghost predicate NoReset<P>(evs: seq<Event<P>>) {
    forall e :: e in evs ==> !e.Reset?
  }

  /** Every pushed sequence number is below the bound. */
  ghost predicate PushesBelow<P>(bound: nat, evs: seq<Event<P>>) {
    forall e :: e in evs && e.Push? ==> e.seqNo < bound
  }

  lemma FrontKeeps<P>(bound: nat, evs: seq<Event<P>>)
    requires evs != []
    ensures NoReset(evs) ==> NoReset(Front(evs)) && !Last(evs).Reset?
    ensures PushesBelow(bound, evs) ==> PushesBelow(bound, Front(evs))
    ensures PushesBelow(bound, evs) && Last(evs).Push? ==> Last(evs).seqNo < bound
  {
    assert evs == Front(evs) + [Last(evs)];
  }

  // ----- What every run keeps, with no assumption at all -----

  /** At most maxBuf packets are held and none of them is late. */
  ghost predicate Sound<P>(cfg: Config, s: Stream<P>) {
    |s.queue| <= cfg.maxBuf && NoneLate(s)
  }

  lemma StepKeepsSound<P>(cfg: Config, st: State<P>, e: Event<P>)
    requires Sound(cfg, st.stream)
    ensures Sound(cfg, Step(cfg, st, e).stream)
  {
    match e
    case Push(n, p) => InsertCard(st.stream.queue, n, p);
    case Drain =>
      DrainMeetsSpec(cfg, st.stream);
      SubsetCard(DrainStep(cfg, st.stream).0.queue.Keys, st.stream.queue.Keys);
    case Reset =>
  }

  /** Every stream of every run, resets and wraps included, is one whose drains meet their specification. */
  lemma {:induction false} AlwaysSound<P>(cfg: Config, evs: seq<Event<P>>)
    ensures Sound(cfg, Run(cfg, Start(), evs).stream)
  {
    if evs == [] {
    } else {
      AlwaysSound(cfg, Front(evs));
      StepKeepsSound(cfg, Run(cfg, Start(), Front(evs)), Last(evs));
    }
  }

  // ----- Trace safety, with no assumption on the network -----

  /** The payload most recently taken into the queue for sequence number k. */
  ghost function LastKept<P>(cfg: Config, evs: seq<Event<P>>, k: U64): Option<P> {
    if evs == [] then None else
      var s := Run(cfg, Start(), Front(evs)).stream;
      var e := Last(evs);
      if e.Push? && e.seqNo == k && s.next <= k && |s.queue| < cfg.maxBuf then Some(e.payload)
      else LastKept(cfg, Front(evs), k)
  }

  /** Everything kept is still held, with the payload last kept, or has been delivered. */
  ghost predicate KeptIsAccounted<P>(cfg: Config, evs: seq<Event<P>>, st: State<P>) {
    && (forall p :: p in st.out ==> p.seqNo < st.stream.next && LastKept(cfg, evs, p.seqNo) == Some(p.payload))
    && (forall k :: k in st.stream.queue ==> LastKept(cfg, evs, k) == Some(st.stream.queue[k]))
    && (forall k :: LastKept(cfg, evs, k).Some? ==>
          k in st.stream.queue || Packet(k, LastKept(cfg, evs, k).value) in st.out)
  }

  /** The last number, behind which the cursor wraps, is not held. */
  ghost predicate BelowTop<P>(s: Stream<P>) {
    forall k :: k in s.queue ==> k < TWO_64 - 1
  }

  lemma DrainKeepsAccount<P>(cfg: Config, evs: seq<Event<P>>, st: State<P>)
    requires evs != [] && Last(evs).Drain? && NoneLate(st.stream) && BelowTop(st.stream)
    requires KeptIsAccounted(cfg, Front(evs), st)
    ensures KeptIsAccounted(cfg, evs, Step(cfg, st, Drain))
  {
    DrainMeetsSpec(cfg, st.stream);
    DrainStaysBelowTop(cfg, st.stream);
    ChainedIncreases(cfg.maxGap, st.stream.next, DrainStep(cfg, st.stream).1);
    assert forall k: U64 :: LastKept(cfg, evs, k) == LastKept(cfg, Front(evs), k);
  }

  lemma DrainStaysBelowTop<P>(cfg: Config, s: Stream<P>)
    requires NoneLate(s) && BelowTop(s)
    ensures var (t, out) := DrainStep(cfg, s); BelowTop(t) && t.next == Cursor(s.next, out)
  {
    DrainMeetsSpec(cfg, s);
    var out := DrainStep(cfg, s).1;
    if out != [] { assert out[|out| - 1] in out; }
  }

  lemma PushKeepsAccount<P>(cfg: Config, evs: seq<Event<P>>, st: State<P>)
    requires evs != [] && Last(evs).Push? && st == Run(cfg, Start(), Front(evs))
    requires KeptIsAccounted(cfg, Front(evs), st)
    ensures KeptIsAccounted(cfg, evs, Step(cfg, st, Last(evs)))
  {
    var n := Last(evs).seqNo;
    assert forall k: U64 :: k != n ==> LastKept(cfg, evs, k) == LastKept(cfg, Front(evs), k);
  }

  ghost predicate TraceInvariant<P>(cfg: Config, evs: seq<Event<P>>, st: State<P>) {
    && Chained(cfg.maxGap, 0, st.out)
    && st.stream.next == Cursor(0, st.out)
    && Sound(cfg, st.stream) && BelowTop(st.stream)
    && KeptIsAccounted(cfg, evs, st)
  }

  lemma SubsetCard<T>(a: set<T>, b: set<T>)
    requires a <= b
    ensures |a| <= |b|
    ensures |a| == |b| ==> a == b
  {
    assert b == a + (b - a);
  }

  lemma InsertCard<P>(q: map<U64, P>, k: U64, p: P)
    ensures |q[k := p]| <= |q| + 1
  {
    assert q[k := p].Keys == q.Keys + {k};
  }

  lemma DrainKeepsTrace<P>(cfg: Config, evs: seq<Event<P>>, st: State<P>)
    requires evs != [] && Last(evs).Drain?
    requires TraceInvariant(cfg, Front(evs), st)
    ensures TraceInvariant(cfg, evs, Step(cfg, st, Drain))
  {
    DrainMeetsSpec(cfg, st.stream);
    DrainStaysBelowTop(cfg, st.stream);
    StepKeepsSound(cfg, st, Last(evs));
    ChainedConcat(cfg.maxGap, 0, st.out, DrainStep(cfg, st.stream).1);
    DrainKeepsAccount(cfg, evs, st);
  }

  lemma PushKeepsTrace<P>(cfg: Config, evs: seq<Event<P>>, st: State<P>)
    requires evs != [] && Last(evs).Push? && st == Run(cfg, Start(), Front(evs))
    requires Last(evs).seqNo < TWO_64 - 1
    requires TraceInvariant(cfg, Front(evs), st)
    ensures TraceInvariant(cfg, evs, Step(cfg, st, Last(evs)))
  {
    PushKeepsAccount(cfg, evs, st);
    StepKeepsSound(cfg, st, Last(evs));
  }

  ghost predicate Increasing<P>(out: seq<Packet<P>>) {
    forall i, j :: 0 <= i < j < |out| ==> out[i].seqNo < out[j].seqNo
  }

  /**
   In every run that does not push the last 64-bit number, deliveries strictly increase,
   carry the payload last kept for their number, and lose nothing that was kept.
   */
  lemma {:induction false} TraceSafety<P>(cfg: Config, evs: seq<Event<P>>)
    requires NoReset(evs) && PushesBelow(TWO_64 - 1, evs)
    ensures TraceInvariant(cfg, evs, Run(cfg, Start(), evs))
    ensures Increasing(Run(cfg, Start(), evs).out)
  {
    if evs == [] {
    } else {
      FrontKeeps(TWO_64 - 1, evs);
      TraceSafety(cfg, Front(evs));
      if Last(evs).Drain? {
        DrainKeepsTrace(cfg, evs, Run(cfg, Start(), Front(evs)));
      } else {
        PushKeepsTrace(cfg, evs, Run(cfg, Start(), Front(evs)));
      }
    }
    ChainedIncreases(cfg.maxGap, 0, Run(cfg, Start(), evs).out);
  }

  // ----- What the answer to a push means -----

  /** Late, and swallowed as accepted; held from now on, with the payload pushed; or refused by a full queue. */
  ghost predicate PushVerdict<P>(cfg: Config, s: Stream<P>, n: U64, p: P, t: Stream<P>, ok: bool) {
    if n < s.next then ok && t == s
    else if ok then
      && |s.queue| < cfg.maxBuf && t.next == s.next && n in t.queue && t.queue[n] == p
      && forall k :: k != n ==> (k in t.queue <==> k in s.queue) && (k in s.queue ==> t.queue[k] == s.queue[k])
    else |s.queue| >= cfg.maxBuf && t == s
  }

  /** On every stream, held packets included, a push has the outcome its answer stands for, and no other. */
  lemma PushVerdictExactly<P>(cfg: Config, s: Stream<P>, n: U64, p: P, t: Stream<P>, ok: bool)
    ensures PushVerdict(cfg, s, n, p, t, ok) <==> PushStep(cfg, s, n, p) == (t, ok)
  {
    if PushVerdict(cfg, s, n, p, t, ok) && n >= s.next && ok {
      assert t.queue == s.queue[n := p];
    }
  }

  /** Number k is held, or has been delivered. */
  ghost predicate HeldOrDelivered<P>(st: State<P>, k: U64) {
    k in st.stream.queue || exists p :: p in st.out && p.seqNo == k
  }

  lemma StepKeepsHeld<P>(cfg: Config, st: State<P>, e: Event<P>, k: U64)
    requires !e.Reset? && NoneLate(st.stream) && HeldOrDelivered(st, k)
    ensures HeldOrDelivered(Step(cfg, st, e), k)
  {
    if e.Drain? {
      DrainMeetsSpec(cfg, st.stream);
      var (t, out) := DrainStep(cfg, st.stream);
      if k in st.stream.queue && k !in t.queue {
        assert Packet(k, st.stream.queue[k]) in out;
      }
    }
  }

  /**
   In every run without reset, a push that is not late is accepted exactly while the queue has
   room, and an accepted packet is never lost: its number is held or delivered ever after.
   */
  lemma {:induction false} AcceptedIsNeverLost<P>(cfg: Config, evs: seq<Event<P>>, i: nat)
    requires NoReset(evs) && i < |evs| && evs[i].Push?
    ensures var s := Run(cfg, Start(), evs[..i]).stream;
      var ok := PushStep(cfg, s, evs[i].seqNo, evs[i].payload).1;
      && (ok <==> evs[i].seqNo < s.next || |s.queue| < cfg.maxBuf)
      && (ok && s.next <= evs[i].seqNo ==> HeldOrDelivered(Run(cfg, Start(), evs), evs[i].seqNo))
      && (ok && s.next <= evs[i].seqNo ==> LastKept(cfg, evs[..i + 1], evs[i].seqNo) == Some(evs[i].payload))
  {
    var st := Run(cfg, Start(), Front(evs));
    assert Front(evs[..i + 1]) == evs[..i] && Last(evs[..i + 1]) == evs[i];
    if i == |evs| - 1 {
      assert evs[..i] == Front(evs) && evs[..i + 1] == evs;
    } else {
      assert Front(evs)[..i] == evs[..i] && Front(evs)[..i + 1] == evs[..i + 1];
      FrontKeeps(TWO_64, evs);
      AcceptedIsNeverLost(cfg, Front(evs), i);
      AlwaysSound(cfg, Front(evs));
      if HeldOrDelivered(st, evs[i].seqNo) { StepKeepsHeld(cfg, st, Last(evs), evs[i].seqNo); }
    }
  }

  // ----- Where the 64-bit range matters, exactly -----

  /** Each delivery follows the one before it or lies more than `gap` numbers further on. */
  ghost predicate SkipsOnlyWideGaps<P>(gap: nat, start: nat, out: seq<Packet<P>>) {
    forall i {:trigger CursorAt(start, out, i)} ::
      0 <= i < |out| ==> AfterCursor(gap, CursorAt(start, out, i), out[i].seqNo)
  }

  /** Where the cursor stands before delivery i. */
  ghost function CursorAt<P>(start: nat, out: seq<Packet<P>>, i: nat): nat
    requires i < |out|
  {
    if i == 0 then start else out[i - 1].seqNo + 1
  }

  ghost predicate AfterCursor(gap: nat, cursor: nat, seqNo: nat) {
    seqNo == cursor || seqNo > cursor + gap
  }

  lemma {:induction false} ChainedSkipsWide<P>(gap: U64, start: nat, out: seq<Packet<P>>)
    requires Chained(gap, start, out) && forall p :: p in out ==> p.seqNo + gap <= TWO_64
    ensures SkipsOnlyWideGaps(gap, start, out)
    decreases out
  {
    if out == [] {
    } else {
      var cursor, rest := out[0].seqNo + 1, out[1..];
      assert out[0] in out;
      ChainedSkipsWide(gap, cursor, rest);
      forall i | 0 <= i < |out| ensures AfterCursor(gap, CursorAt(start, out, i), out[i].seqNo) {
        if i > 0 {
          assert out[i] == rest[i - 1] && AfterCursor(gap, CursorAt(cursor, rest, i - 1), rest[i - 1].seqNo);
        }
      }
    }
  }

  /** Sequence numbers below the bound never make an addition of the drain wrap. */
  ghost predicate ClearOfWrap(cfg: Config, bound: nat) {
    bound < TWO_64 && bound + cfg.maxGap <= TWO_64 + 1
  }

  lemma {:induction false} DeliveredBelow<P>(cfg: Config, bound: nat, evs: seq<Event<P>>)
    requires PushesBelow(bound, evs)
    ensures forall p :: p in Run(cfg, Start(), evs).out ==> p.seqNo < bound
    ensures forall k :: k in Run(cfg, Start(), evs).stream.queue ==> k < bound
  {
    if evs == [] {
    } else {
      FrontKeeps(bound, evs);
      DeliveredBelow(cfg, bound, Front(evs));
      AlwaysSound(cfg, Front(evs));
      if Last(evs).Drain? { DrainMeetsSpec(cfg, Run(cfg, Start(), Front(evs)).stream); }
    }
  }

  /** With numbers clear of the wrap, whatever is skipped lies in a gap wider than the tolerance. */
  lemma SkippedGapsAreWide<P>(cfg: Config, bound: nat, evs: seq<Event<P>>)
    requires NoReset(evs) && PushesBelow(bound, evs) && ClearOfWrap(cfg, bound)
    ensures SkipsOnlyWideGaps(cfg.maxGap, 0, Run(cfg, Start(), evs).out)
  {
    TraceSafety(cfg, evs);
    DeliveredBelow(cfg, bound, evs);
    ChainedSkipsWide(cfg.maxGap, 0, Run(cfg, Start(), evs).out);
  }

  lemma {:induction false} NoBufferNoDelivery<P>(cfg: Config, evs: seq<Event<P>>)
    requires cfg.maxBuf == 0
    ensures Run(cfg, Start(), evs).out == []
  {
    if evs == [] {
    } else {
      NoBufferNoDelivery(cfg, Front(evs));
      AlwaysSound(cfg, Front(evs));
      assert Run(cfg, Start(), Front(evs)).stream.queue == map[];
    }
  }

  /** Pushing a packet that a stream holding nothing can deliver, and draining it. */
  lemma PassOne<P>(cfg: Config, evs: seq<Event<P>>, next: U64, out: seq<Packet<P>>, k: U64, p: P)
    requires Run(cfg, Start(), evs) == State(Stream(next, map[]), out)
    requires cfg.maxBuf > 0 && next <= k && (k == next || k > Add64(next, cfg.maxGap))
    ensures Run(cfg, Start(), evs + [Push(k, p)] + [Drain])
         == State(Stream(Add64(k, 1), map[]), out + [Packet(k, p)])
  {
    RunSnoc(cfg, Start(), evs, Push(k, p));
    RunSnoc(cfg, Start(), evs + [Push(k, p)], Drain);
    DrainOne(cfg, next, k, p);
  }

  lemma DrainOne<P>(cfg: Config, next: U64, k: U64, p: P)
    requires k == next || k > Add64(next, cfg.maxGap)
    ensures DrainStep(cfg, Stream(next, map[k := p])) == (Stream(Add64(k, 1), map[]), [Packet(k, p)])
  {
    var s := Stream(next, map[k := p]);
    var mid := Stream(Add64(k, 1), s.queue - {k});
    assert mid.queue == map[];
    assert DrainStep(cfg, mid) == (mid, []);
    DrainTakesLeast(cfg, s, k, mid);
    assert [Packet(k, p)] + [] == [Packet(k, p)];
  }

  /** Behind the last number the cursor wraps to 0: a run delivers 2^64 - 1 and then 0. */
  lemma WrapBreaksOrder<P>(cfg: Config, p: P) returns (evs: seq<Event<P>>)
    requires cfg.maxBuf > 0
    ensures NoReset(evs) && !Increasing(Run(cfg, Start(), evs).out)
  {
    var top := TWO_64 - 1;
    var none: seq<Event<P>> := [];
    evs := none;
    if cfg.maxGap == top {
      PassOne(cfg, evs, 0, [], 0, p);
      evs := evs + [Push(0, p)] + [Drain];
    }
    var st := Run(cfg, Start(), evs);
    PassOne(cfg, evs, st.stream.next, st.out, top, p);
    evs := evs + [Push(top, p)] + [Drain];
    PassOne(cfg, evs, 0, st.out + [Packet(top, p)], 0, p);
    evs := evs + [Push(0, p)] + [Drain];
    EndsOutOfOrder(st.out, Packet(top, p), Packet(0, p));
  }

  lemma EndsOutOfOrder<P>(out: seq<Packet<P>>, a: Packet<P>, b: Packet<P>)
    requires a.seqNo >= b.seqNo
    ensures !Increasing(out + [a] + [b])
  {
    var all := out + [a] + [b];
    assert all[|out|] == a && all[|out| + 1] == b;
  }

  /** With a tolerance of 2^64 - 1, meant never to skip, packet 1 is skipped. */
  lemma UnlimitedToleranceSkips<P>(maxBuf: nat, p: P)
    requires maxBuf > 0
    ensures Run(Config(TWO_64 - 1, maxBuf), Start(), [Push(0, p), Drain, Push(2, p), Drain]).out
         == [Packet(0, p), Packet(2, p)]
  {
    var cfg := Config(TWO_64 - 1, maxBuf);
    var none: seq<Event<P>> := [];
    PassOne(cfg, none, 0, [], 0, p);
    PassOne(cfg, none + [Push(0, p)] + [Drain], 1, [Packet(0, p)], 2, p);
    assert none + [Push(0, p)] + [Drain] + [Push(2, p)] + [Drain] == [Push(0, p), Drain, Push(2, p), Drain];
    assert [Packet(0, p)] + [Packet(2, p)] == [Packet(0, p), Packet(2, p)];
  }

  /** Packets 0 to n - 1, each drained as it arrives. */
  lemma {:induction false} OneByOne<P>(cfg: Config, n: nat, p: P) returns (evs: seq<Event<P>>)
    requires cfg.maxBuf > 0 && n < TWO_64
    ensures NoReset(evs) && PushesBelow(n, evs)
    ensures var st := Run(cfg, Start(), evs);
      st.stream == Stream(n, map[]) && |st.out| == n && (n > 0 ==> st.out[n - 1].seqNo == n - 1)
  {
    evs := [];
    if n == 0 {
    } else {
      evs := OneByOne(cfg, n - 1, p);
      PassOne(cfg, evs, n - 1, Run(cfg, Start(), evs).out, n - 1, p);
      evs := evs + [Push(n - 1, p)] + [Drain];
    }
  }

  /** Where cursor and tolerance add up to 2^64 the sum wraps, and a single missing packet is skipped. */
  lemma WrapSkipsNarrowGap<P>(cfg: Config, p: P) returns (evs: seq<Event<P>>)
    requires cfg.maxBuf > 0 && cfg.maxGap >= 3
    ensures NoReset(evs) && PushesBelow(TWO_64 - cfg.maxGap + 2, evs)
    ensures !SkipsOnlyWideGaps(cfg.maxGap, 0, Run(cfg, Start(), evs).out)
  {
    var n := TWO_64 - cfg.maxGap;
    evs := OneByOne(cfg, n, p);
    var out := Run(cfg, Start(), evs).out;
    PassOne(cfg, evs, n, out, n + 1, p);
    evs := evs + [Push(n + 1, p)] + [Drain];
    assert (out + [Packet(n + 1, p)])[n - 1].seqNo == n - 1;
    assert CursorAt(0, out + [Packet(n + 1, p)], n) == n;
    assert !AfterCursor(cfg.maxGap, n, (out + [Packet(n + 1, p)])[n].seqNo);
  }

  ghost predicate AlwaysInOrder<P(!new)>(cfg: Config, bound: nat) {
    forall evs: seq<Event<P>> :: NoReset(evs) && PushesBelow(bound, evs) ==> Increasing(Run(cfg, Start(), evs).out)
  }

  ghost predicate AlwaysSkipsOnlyWideGaps<P(!new)>(cfg: Config, bound: nat) {
    forall evs: seq<Event<P>> :: NoReset(evs) && PushesBelow(bound, evs) ==>
      SkipsOnlyWideGaps(cfg.maxGap, 0, Run(cfg, Start(), evs).out)
  }

  /** Deliveries strictly increase in every run exactly when the last 64-bit number is never pushed. */
  lemma OrderExactly<P(!new)>(cfg: Config, bound: nat, p: P)
    ensures AlwaysInOrder<P>(cfg, bound) <==> cfg.maxBuf == 0 || bound < TWO_64
  {
    if cfg.maxBuf == 0 || bound < TWO_64 {
      forall evs: seq<Event<P>> | NoReset(evs) && PushesBelow(bound, evs)
        ensures Increasing(Run(cfg, Start(), evs).out)
      {
        if cfg.maxBuf == 0 { NoBufferNoDelivery(cfg, evs); } else { TraceSafety(cfg, evs); }
      }
    } else {
      var evs := WrapBreaksOrder(cfg, p);
      assert PushesBelow(bound, evs);
    }
  }

  /** Only gaps wider than the tolerance are skipped in every run exactly when numbers stay clear of the wrap. */
  lemma ToleranceExactly<P(!new)>(cfg: Config, bound: nat, p: P)
    ensures AlwaysSkipsOnlyWideGaps<P>(cfg, bound) <==> cfg.maxBuf == 0 || ClearOfWrap(cfg, bound)
  {
    if cfg.maxBuf == 0 || ClearOfWrap(cfg, bound) {
      forall evs: seq<Event<P>> | NoReset(evs) && PushesBelow(bound, evs)
        ensures SkipsOnlyWideGaps(cfg.maxGap, 0, Run(cfg, Start(), evs).out)
      {
        if cfg.maxBuf == 0 { NoBufferNoDelivery(cfg, evs); } else { SkippedGapsAreWide(cfg, bound, evs); }
      }
    } else if bound >= TWO_64 {
      var evs := WrapBreaksOrder(cfg, p);
      assert PushesBelow(bound, evs);
      var out := Run(cfg, Start(), evs).out;
      if SkipsOnlyWideGaps(cfg.maxGap, 0, out) {
        forall i, j | 0 <= i < j < |out| ensures out[i].seqNo < out[j].seqNo {
          SkipsUpwards(cfg.maxGap, out, i, j);
        }
      }
    } else {
      var evs := WrapSkipsNarrowGap(cfg, p);
      assert PushesBelow(bound, evs);
    }
  }

  lemma {:induction false} SkipsUpwards<P>(gap: nat, out: seq<Packet<P>>, i: nat, j: nat)
    requires SkipsOnlyWideGaps(gap, 0, out) && i < j < |out|
    ensures out[i].seqNo < out[j].seqNo
    decreases j
  {
    assert AfterCursor(gap, CursorAt(0, out, j), out[j].seqNo);
    if i == j - 1 {
    } else {
      SkipsUpwards(gap, out, i, j - 1);
    }
  }

  // ----- Streams that are stuck -----

  /** Full, without the packet wanted, and with a gap too narrow to jump. */
  ghost predicate Wedged<P>(cfg: Config, s: Stream<P>) {
    |s.queue| >= cfg.maxBuf && s.next !in s.queue && !JumpsGap(cfg, s)
  }

  lemma {:induction false} WedgedStays<P>(cfg: Config, st: State<P>, evs: seq<Event<P>>)
    requires Wedged(cfg, st.stream) && NoReset(evs)
    ensures Run(cfg, st, evs) == st
  {
    if evs == [] {
    } else {
      FrontKeeps(TWO_64, evs);
      WedgedStays(cfg, st, Front(evs));
      assert st.out + [] == st.out;
    }
  }

  lemma DrainProgress<P>(cfg: Config, s: Stream<P>)
    requires s.next in s.queue || JumpsGap(cfg, s)
    ensures DrainStep(cfg, s).1 != []
  {
    if s.next !in s.queue {
      assert DrainStep(cfg, s.(next := Least(s.queue))).1 != [];
    }
  }

  /** Unless the stream is wedged, one push and one drain at most get something delivered. */
  lemma UnwedgedDelivers<P>(cfg: Config, st: State<P>, p: P) returns (evs: seq<Event<P>>)
    requires !Wedged(cfg, st.stream)
    ensures NoReset(evs) && |Run(cfg, st, evs).out| > |st.out|
  {
    var s := st.stream;
    evs := [];
    if s.next !in s.queue && !JumpsGap(cfg, s) {
      RunSnoc(cfg, st, evs, Push(s.next, p));
      s := s.(queue := s.queue[s.next := p]);
      evs := [Push(s.next, p)];
    }
    DrainProgress(cfg, s);
    RunSnoc(cfg, st, evs, Drain);
    evs := evs + [Drain];
  }

  /** A stream delivers nothing ever again, short of a reset, exactly when it is wedged. */
  lemma StuckForeverExactly<P(!new)>(cfg: Config, st: State<P>, p: P)
    ensures Wedged(cfg, st.stream) <==>
      forall evs: seq<Event<P>> :: NoReset(evs) ==> Run(cfg, st, evs).out == st.out
  {
    if Wedged(cfg, st.stream) {
      forall evs: seq<Event<P>> | NoReset(evs) ensures Run(cfg, st, evs).out == st.out {
        WedgedStays(cfg, st, evs);
      }
    } else {
      var evs := UnwedgedDelivers(cfg, st, p);
    }
  }

  // ----- Many streams in one buffer -----

  datatype NetEvent<+P> =
    | NetPush(id: U32, seqNo: U64, payload: P)
    | NetDrain(id: U32)
    | NetReset(id: U32)
    | NetResetAll

  ghost function NetStep<P>(cfg: Config, m: map<U32, Stream<P>>, e: NetEvent<P>): map<U32, Stream<P>> {
    match e
    case NetPush(id, n, p) => if id == 0 then m else m[id := PushStep(cfg, Lookup(m, id), n, p).0]
    case NetDrain(id) => m[id := DrainStep(cfg, Lookup(m, id)).0]
    case NetReset(id) => m - {id}
    case NetResetAll => map[]
  }

  ghost function NetRun<P>(cfg: Config, evs: seq<NetEvent<P>>): map<U32, Stream<P>> {
    if evs == [] then map[] else NetStep(cfg, NetRun(cfg, Front(evs)), Last(evs))
  }

  /** Everything the drains of one stream returned, in order. */
  ghost function NetOutput<P>(cfg: Config, evs: seq<NetEvent<P>>, id: U32): seq<Packet<P>> {
    if evs == [] then [] else
      var out := NetOutput(cfg, Front(evs), id);
      if Last(evs) == NetDrain(id) then out + DrainStep(cfg, Lookup(NetRun(cfg, Front(evs)), id)).1 else out
  }

  /** What one event on the buffer means for a single stream. */
  function OnStream<P>(e: NetEvent<P>, id: U32): seq<Event<P>> {
    match e
    case NetPush(i, n, p) => if i == id && id != 0 then [Push(n, p)] else []
    case NetDrain(i) => if i == id then [Drain] else []
    case NetReset(i) => if i == id then [Reset] else []
    case NetResetAll => [Reset]
  }

  function Project<P>(evs: seq<NetEvent<P>>, id: U32): seq<Event<P>> {
    if evs == [] then [] else Project(Front(evs), id) + OnStream(Last(evs), id)
  }

  /** A stream of the shared buffer behaves as if it were alone with its own events. */
  lemma {:induction false} StreamsAreIndependent<P>(cfg: Config, evs: seq<NetEvent<P>>, id: U32)
    ensures Run(cfg, Start(), Project(evs, id)) == State(Lookup(NetRun(cfg, evs), id), NetOutput(cfg, evs, id))
  {
    if evs == [] {
    } else {
      StreamsAreIndependent(cfg, Front(evs), id);
      var before, now := Project(Front(evs), id), OnStream(Last(evs), id);
      if now == [] {
        assert before + now == before;
      } else {
        RunSnoc(cfg, Start(), before, now[0]);
      }
    }
  }
}
