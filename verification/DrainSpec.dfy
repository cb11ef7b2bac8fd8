/**
 What one drain of a stream returns, said without an algorithm: a relation between the
 stream before, the stream after and the packets handed over. The relation has exactly one
 solution, the one the drain loop computes.
 */
module DrainSpec {
  import opened ReorderBuffer

  /**
   The deliveries run upwards from `start`: each is the packet at the cursor, or lies beyond
   what the cursor and the gap add up to in 64 bits.
   */
  ghost predicate Chained<P>(gap: U64, start: nat, out: seq<Packet<P>>)
    decreases out
  {
    out == [] ||
    (start <= out[0].seqNo && (out[0].seqNo == start || out[0].seqNo > Add64(start, gap)) &&
     Chained(gap, out[0].seqNo + 1, out[1..]))
  }

  /** Where the cursor stands once `out` has been delivered, before it wraps. */
  ghost function Cursor<P>(start: int, out: seq<Packet<P>>): int {
    if out == [] then start else out[|out| - 1].seqNo + 1
  }

  /** What is delivered was held, and what was held is either delivered or held still. */
  ghost predicate Accounts<P>(q: map<U64, P>, left: map<U64, P>, out: seq<Packet<P>>) {
    && (forall p :: p in out ==> p.seqNo in q && q[p.seqNo] == p.payload)
    && (forall k :: k in left ==> k in q && left[k] == q[k])
    && (forall k :: k in q && k !in left ==> Packet(k, q[k]) in out)
  }

  /** Nothing can be delivered: the cursor is missing and the gap is within tolerance. */
  ghost predicate Settled<P>(gap: U64, s: Stream<P>) {
    s.next !in s.queue && (s.queue == map[] || exists k :: k in s.queue && k <= Add64(s.next, gap))
  }

  /** No packet is held that the cursor has passed. */
  ghost predicate NoneLate<P>(s: Stream<P>) {
    forall k :: k in s.queue ==> s.next <= k
  }

  /** The outcome of a drain, without saying how it is computed. */
  ghost predicate IsDrain<P>(gap: U64, s: Stream<P>, t: Stream<P>, out: seq<Packet<P>>) {
    && Chained(gap, s.next, out)
    && t.next == (if Cursor(s.next, out) == TWO_64 then 0 else Cursor(s.next, out))
    && Accounts(s.queue, t.queue, out)
    && (forall k :: k in t.queue ==> k >= Cursor(s.next, out))
    && Settled(gap, t)
  }

  /** Chained deliveries strictly increase and stay between the two cursors. */
  lemma {:induction false} ChainedIncreases<P>(gap: U64, start: nat, out: seq<Packet<P>>)
    requires Chained(gap, start, out)
    ensures forall i :: 0 <= i < |out| ==> start <= out[i].seqNo < Cursor(start, out)
    ensures forall i, j :: 0 <= i < j < |out| ==> out[i].seqNo < out[j].seqNo
    ensures start <= Cursor(start, out)
    decreases out
  {
    if out == [] {
    } else {
      var rest := out[1..];
      ChainedIncreases(gap, out[0].seqNo + 1, rest);
      assert forall i :: 0 < i < |out| ==> out[i] == rest[i - 1];
      assert Cursor(start, out) == Cursor(out[0].seqNo + 1, rest);
    }
  }

  lemma {:induction false} ChainedConcat<P>(gap: U64, start: nat, a: seq<Packet<P>>, b: seq<Packet<P>>)
    requires Chained(gap, start, a) && Chained(gap, Cursor(start, a), b)
    ensures Chained(gap, start, a + b) && Cursor(start, a + b) == Cursor(Cursor(start, a), b)
    decreases a
  {
    if a == [] {
      assert a + b == b;
    } else {
      assert Cursor(start, a) == Cursor(a[0].seqNo + 1, a[1..]);
      ChainedConcat(gap, a[0].seqNo + 1, a[1..], b);
      assert (a + b)[1..] == a[1..] + b;
    }
  }

  lemma AccountsCons<P>(q: map<U64, P>, left: map<U64, P>, out: seq<Packet<P>>, k: U64)
    requires k in q && Accounts(q - {k}, left, out)
    ensures Accounts(q, left, [Packet(k, q[k])] + out)
  {
  }

  lemma SpecNext<P>(cfg: Config, s: Stream<P>, mid: Stream<P>, t: Stream<P>, out: seq<Packet<P>>)
    requires s.next in s.queue && mid == Stream(Add64(s.next, 1), s.queue - {s.next})
    requires NoneLate(s)
    requires IsDrain(cfg.maxGap, mid, t, out)
    ensures IsDrain(cfg.maxGap, s, t, [Packet(s.next, s.queue[s.next])] + out)
  {
    AccountsCons(s.queue, t.queue, out, s.next);
    var all := [Packet(s.next, s.queue[s.next])] + out;
    assert all[1..] == out;
  }

  lemma SpecJump<P>(cfg: Config, s: Stream<P>, mid: Stream<P>, t: Stream<P>, out: seq<Packet<P>>)
    requires IsLeast(mid.next, s.queue) && mid.next > Add64(s.next, cfg.maxGap) && mid.next >= s.next
    requires mid.queue == s.queue && IsDrain(cfg.maxGap, mid, t, out)
    ensures IsDrain(cfg.maxGap, s, t, out)
  {
    ChainedIncreases(cfg.maxGap, mid.next, out);
    assert mid.next !in t.queue;
    assert Packet(mid.next, s.queue[mid.next]) in out;
    assert out[0].seqNo == mid.next;
  }

  /** Whenever nothing late is held, a drain has the outcome specified and leaves nothing late. */
  lemma {:induction false} DrainMeetsSpec<P>(cfg: Config, s: Stream<P>)
    requires NoneLate(s)
    ensures NoneLate(DrainStep(cfg, s).0)
    ensures IsDrain(cfg.maxGap, s, DrainStep(cfg, s).0, DrainStep(cfg, s).1)
    decreases |s.queue|, if s.next in s.queue then 0 else 1
  {
    var (t, all) := DrainStep(cfg, s);
    if s.next in s.queue {
      var mid := Stream(Add64(s.next, 1), s.queue - {s.next});
      assert mid.queue.Keys == s.queue.Keys - {s.next};
      DrainMeetsSpec(cfg, mid);
      SpecNext(cfg, s, mid, t, DrainStep(cfg, mid).1);
    } else if JumpsGap(cfg, s) {
      var mid := s.(next := Least(s.queue));
      DrainMeetsSpec(cfg, mid);
      SpecJump(cfg, s, mid, t, all);
    } else if s.queue != map[] {
      assert Least(s.queue) in s.queue && Least(s.queue) <= Add64(s.next, cfg.maxGap);
    }
  }

  lemma FirstIsLeast<P>(gap: U64, s: Stream<P>, t: Stream<P>, out: seq<Packet<P>>)
    requires IsDrain(gap, s, t, out) && out != []
    ensures IsLeast(out[0].seqNo, s.queue)
  {
    ChainedIncreases(gap, s.next, out);
    forall k | k in s.queue ensures out[0].seqNo <= k {
      if k !in t.queue {
        var i :| 0 <= i < |out| && out[i] == Packet(k, s.queue[k]);
      }
    }
  }

  lemma AccountsTail<P>(q: map<U64, P>, left: map<U64, P>, out: seq<Packet<P>>)
    requires out != [] && Accounts(q, left, out) && out[0].seqNo !in left
    requires forall i, j :: 0 <= i < j < |out| ==> out[i].seqNo < out[j].seqNo
    ensures Accounts(q - {out[0].seqNo}, left, out[1..])
  {
    var first, rest := out[0], out[1..];
    assert out == [first] + rest && first in out;
    forall p | p in rest ensures p.seqNo != first.seqNo && p in out {
      var i :| 0 <= i < |rest| && rest[i] == p;
      assert out[0].seqNo < out[i + 1].seqNo;
    }
    forall k | k in q && k !in left && k != first.seqNo ensures Packet(k, q[k]) in rest {
      assert Packet(k, q[k]) in out;
    }
  }

  lemma ChainTail<P>(gap: U64, start: nat, out: seq<Packet<P>>)
    requires Chained(gap, start, out) && out != []
    ensures Chained(gap, out[0].seqNo + 1, out[1..]) && Cursor(out[0].seqNo + 1, out[1..]) == Cursor(start, out)
    ensures out[0].seqNo < Cursor(start, out) && forall i, j :: 0 <= i < j < |out| ==> out[i].seqNo < out[j].seqNo
  {
    ChainedIncreases(gap, start, out);
  }

  lemma TailIsNotLate<P>(gap: U64, s: Stream<P>, t: Stream<P>, out: seq<Packet<P>>, mid: Stream<P>)
    requires NoneLate(s) && IsDrain(gap, s, t, out) && out != []
    requires mid == Stream(Add64(out[0].seqNo, 1), s.queue - {out[0].seqNo})
    ensures NoneLate(mid)
  {
    FirstIsLeast(gap, s, t, out);
  }

  lemma TailAccounts<P>(gap: U64, s: Stream<P>, t: Stream<P>, out: seq<Packet<P>>)
    requires IsDrain(gap, s, t, out) && out != []
    ensures Accounts(s.queue - {out[0].seqNo}, t.queue, out[1..])
  {
    ChainTail(gap, s.next, out);
    AccountsTail(s.queue, t.queue, out);
  }

  /** What remains of a drain's outcome after its first delivery is the outcome of draining the rest. */
  lemma DrainTail<P>(cfg: Config, s: Stream<P>, t: Stream<P>, out: seq<Packet<P>>, mid: Stream<P>)
    requires NoneLate(s) && IsDrain(cfg.maxGap, s, t, out) && out != []
    requires mid == Stream(Add64(out[0].seqNo, 1), s.queue - {out[0].seqNo})
    ensures NoneLate(mid) && IsDrain(cfg.maxGap, mid, t, out[1..])
  {
    TailIsNotLate(cfg.maxGap, s, t, out, mid);
    TailAccounts(cfg.maxGap, s, t, out);
    ChainTail(cfg.maxGap, s.next, out);
    if out[0].seqNo == TWO_64 - 1 {
      assert out[1..] == [];
    }
  }

  lemma DrainTakesLeast<P>(cfg: Config, s: Stream<P>, k: U64, mid: Stream<P>)
    requires IsLeast(k, s.queue) && (k == s.next || k > Add64(s.next, cfg.maxGap))
    requires s.next in s.queue ==> k == s.next
    requires mid == Stream(Add64(k, 1), s.queue - {k})
    ensures DrainStep(cfg, s) == (DrainStep(cfg, mid).0, [Packet(k, s.queue[k])] + DrainStep(cfg, mid).1)
  {
    if s.next !in s.queue {
      assert Least(s.queue) == k;
      assert DrainStep(cfg, s) == DrainStep(cfg, s.(next := k));
    }
  }

  lemma DrainOfNothing<P>(cfg: Config, s: Stream<P>, t: Stream<P>)
    requires NoneLate(s) && IsDrain(cfg.maxGap, s, t, [])
    ensures DrainStep(cfg, s) == (t, [])
  {
    assert t.queue.Keys == s.queue.Keys;
    assert t == s;
  }

  /** If the rest of the outcome is what draining the rest gives, the outcome is what the drain gives. */
  lemma DrainFirst<P>(cfg: Config, s: Stream<P>, t: Stream<P>, out: seq<Packet<P>>, mid: Stream<P>)
    requires NoneLate(s) && IsDrain(cfg.maxGap, s, t, out) && out != []
    requires mid == Stream(Add64(out[0].seqNo, 1), s.queue - {out[0].seqNo})
    requires DrainStep(cfg, mid) == (t, out[1..])
    ensures DrainStep(cfg, s) == (t, out)
  {
    var first := out[0].seqNo;
    FirstIsLeast(cfg.maxGap, s, t, out);
    assert out[0] in out;
    DrainTakesLeast(cfg, s, first, mid);
    assert out == [Packet(first, s.queue[first])] + out[1..];
  }

  lemma {:induction false} DrainIsOnly<P>(cfg: Config, s: Stream<P>, t: Stream<P>, out: seq<Packet<P>>)
    requires NoneLate(s) && IsDrain(cfg.maxGap, s, t, out)
    ensures DrainStep(cfg, s) == (t, out)
    decreases |s.queue|
  {
    if out == [] {
      DrainOfNothing(cfg, s, t);
    } else {
      var mid := Stream(Add64(out[0].seqNo, 1), s.queue - {out[0].seqNo});
      assert out[0] in out && mid.queue.Keys == s.queue.Keys - {out[0].seqNo};
      DrainTail(cfg, s, t, out, mid);
      DrainIsOnly(cfg, mid, t, out[1..]);
      DrainFirst(cfg, s, t, out, mid);
    }
  }

  /** The specification leaves no choice: a drain returns its only outcome. */
  lemma DrainIsUnique<P>(cfg: Config, s: Stream<P>, t: Stream<P>, out: seq<Packet<P>>)
    requires NoneLate(s)
    ensures IsDrain(cfg.maxGap, s, t, out) <==> DrainStep(cfg, s) == (t, out)
  {
    DrainMeetsSpec(cfg, s);
    if IsDrain(cfg.maxGap, s, t, out) {
      DrainIsOnly(cfg, s, t, out);
    }
  }
}
