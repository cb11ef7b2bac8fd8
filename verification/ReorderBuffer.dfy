/**
 The per-stream reorder buffer and the sequence counter that feeds it.

 Each stream keeps the next sequence number it wants to deliver and a bounded, ordered
 map of packets that arrived early. Sequence numbers are unsigned 64-bit values whose
 additions wrap around, as in a release build of the source.
 */
module ReorderBuffer {

  const TWO_64 := 0x1_0000_0000_0000_0000
  type U64 = n: int | 0 <= n < TWO_64
  type U32 = n: int | 0 <= n < 0x1_0000_0000

  /** Wrapping addition. */
  function Add64(a: U64, b: U64): U64 {
    if a + b < TWO_64 then a + b else a + b - TWO_64
  }

  datatype Config = Config(maxGap: U64, maxBuf: nat)

  datatype Packet<+P> = Packet(seqNo: U64, payload: P)

  /** One stream: the next sequence number to deliver and the packets held back. */
  datatype Stream<P> = Stream(next: U64, queue: map<U64, P>)

  function Fresh<P>(): Stream<P> {
    Stream(0, map[])
  }

  ghost predicate IsLeast<P>(k: U64, q: map<U64, P>) {
    k in q && forall j :: j in q ==> k <= j
  }

  lemma LeastExists<P>(q: map<U64, P>)
    requires q != map[]
    ensures exists k :: IsLeast(k, q)
    decreases |q|
  {
    var k: U64 :| k in q;
    var rest := q - {k};
    assert rest.Keys == q.Keys - {k};
    if rest == map[] {
      assert forall j :: j in q ==> j == k || j in rest.Keys;
      assert IsLeast(k, q);
    } else {
      LeastExists(rest);
      var m :| IsLeast(m, rest);
      assert forall j :: j in q ==> j == k || j in rest.Keys;
      assert IsLeast(if k <= m then k else m, q);
    }
  }

  ghost function Least<P>(q: map<U64, P>): (k: U64)
    requires q != map[]
    ensures IsLeast(k, q)
  {
    LeastExists(q);
    var k :| IsLeast(k, q);
    k
  }

  /** A push: late packets are swallowed, a full queue refuses, anything else is held. */
  function PushStep<P>(cfg: Config, s: Stream<P>, seqNo: U64, payload: P): (Stream<P>, bool) {
    if seqNo < s.next then (s, true)
    else if |s.queue| >= cfg.maxBuf then (s, false)
    else (s.(queue := s.queue[seqNo := payload]), true)
  }

  ghost predicate JumpsGap<P>(cfg: Config, s: Stream<P>) {
    s.queue != map[] && Least(s.queue) > Add64(s.next, cfg.maxGap)
  }

  /** A drain: deliver while the wanted packet is held, jumping over gaps that are too wide. */
  ghost function DrainStep<P>(cfg: Config, s: Stream<P>): (Stream<P>, seq<Packet<P>>)
    decreases |s.queue|, if s.next in s.queue then 0 else 1
  {
    if s.next in s.queue then
      var left := s.queue - {s.next};
      assert left.Keys == s.queue.Keys - {s.next};
      var (t, out) := DrainStep(cfg, Stream(Add64(s.next, 1), left));
      (t, [Packet(s.next, s.queue[s.next])] + out)
    else if JumpsGap(cfg, s) then
      DrainStep(cfg, s.(next := Least(s.queue)))
    else
      (s, [])
  }

  function Lookup<P>(streams: map<U32, Stream<P>>, id: U32): Stream<P> {
    if id in streams then streams[id] else Fresh()
  }

  class ConduitReorderBuffer<P> {
    var streams: map<U32, Stream<P>>
    const cfg: Config

    constructor (maxGap: U64, maxBuf: nat)
      ensures streams == map[] && cfg == Config(maxGap, maxBuf)
    {
      streams := map[];
      cfg := Config(maxGap, maxBuf);
    }

    /** Stream 0 is the unordered stream: nothing is ever held for it. */
    method Push(id: U32, seqNo: U64, payload: P) returns (accepted: bool)
      modifies this
      ensures id == 0 ==> accepted && streams == old(streams)
      ensures id != 0 ==>
        var (s, ok) := PushStep(cfg, Lookup(old(streams), id), seqNo, payload);
        accepted == ok && streams == old(streams)[id := s]
    {
      if id == 0 { return true; }
      var entry := Lookup(streams, id);
      streams := streams[id := entry];
      if seqNo < entry.next { return true; }
      if |entry.queue| >= cfg.maxBuf { return false; }
      streams := streams[id := entry.(queue := entry.queue[seqNo := payload])];
      return true;
    }

    method DrainReady(id: U32) returns (list: seq<Packet<P>>)
      modifies this
      ensures var (s, out) := DrainStep(cfg, Lookup(old(streams), id));
        list == out && streams == old(streams)[id := s]
    {
      list := [];
      ghost var s0 := Lookup(streams, id);
      var next: U64 := Lookup(streams, id).next;
      var queue: map<U64, P> := Lookup(streams, id).queue;
      assert Stream(next, queue) == s0 && [] + DrainStep(cfg, s0).1 == DrainStep(cfg, s0).1;
      while true
        invariant streams == old(streams)
        invariant DrainStep(cfg, s0) ==
          (DrainStep(cfg, Stream(next, queue)).0, list + DrainStep(cfg, Stream(next, queue)).1)
        decreases |queue|, if next in queue then 0 else 1
      {
        if next in queue {
          var seqNo, payload := next, queue[next];
          assert (queue - {next}).Keys == queue.Keys - {next};
          ghost var later := DrainStep(cfg, Stream(Add64(next, 1), queue - {next})).1;
          assert list + ([Packet(seqNo, payload)] + later) == list + [Packet(seqNo, payload)] + later;
          queue := queue - {next};
          next := Add64(next, 1);
          list := list + [Packet(seqNo, payload)];
        } else {
          if queue != map[] {
            LeastExists(queue);
            var first: U64 :| first in queue && forall k :: k in queue ==> first <= k;
            assert first == Least(queue);
            if first > Add64(next, cfg.maxGap) {
              next := first;
              continue;
            }
          }
          assert DrainStep(cfg, Stream(next, queue)) == (Stream(next, queue), []);
          break;
        }
      }
      assert list + [] == list;
      streams := streams[id := Stream(next, queue)];
    }

    method NextExpected(id: U32) returns (n: U64)
      ensures n == Lookup(streams, id).next
    {
      n := if id in streams then streams[id].next else 0;
    }

    method BufferedCount(id: U32) returns (n: nat)
      ensures n == |Lookup(streams, id).queue|
    {
      n := if id in streams then |streams[id].queue| else 0;
    }

    method ResetStream(id: U32)
      modifies this
      ensures streams == old(streams) - {id} && Lookup(streams, id) == Fresh()
      ensures forall other :: other != id ==> Lookup(streams, other) == Lookup(old(streams), other)
    {
      streams := streams - {id};
    }

    method ResetAll()
      modifies this
      ensures streams == map[]
    {
      streams := map[];
    }
  }

  /** Numbering of outgoing packets: one wrapping counter per stream. */
  function Peek(counters: map<U32, U64>, id: U32): U64 {
    if id in counters then counters[id] else 0
  }

  class ConduitSequenceCounter {
    var counters: map<U32, U64>

    constructor ()
      ensures counters == map[]
    {
      counters := map[];
    }

    method Next(id: U32) returns (seqNo: U64)
      modifies this
      ensures seqNo == Peek(old(counters), id)
      ensures counters == old(counters)[id := Add64(seqNo, 1)]
    {
      seqNo := Peek(counters, id);
      counters := counters[id := Add64(seqNo, 1)];
    }

    method ResetStream(id: U32)
      modifies this
      ensures counters == old(counters) - {id} && Peek(counters, id) == 0
      ensures forall other :: other != id ==> Peek(counters, other) == Peek(old(counters), other)
    {
      counters := counters - {id};
    }
  }
}
