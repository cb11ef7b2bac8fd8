/**
 The incremental decoder of length-prefixed frames. Bytes arrive in chunks of any size; the
 decoder buffers them and takes complete frames off the front. Parsing the body of a frame
 is a parameter that either yields a message or fails.
 */
module FrameDecoder {
  import opened Bytes
  import opened Sequences

  /** Longest body the decoder accepts: 100 MiB. */
  const LIMIT := 100 * 1024 * 1024

  /** A frame as the encoder writes it; a length that does not fit four bytes is an error. */
  function EncodeFrame(body: seq<byte>): Option<seq<byte>> {
    if |body| < TWO_32 then Some(ToBE32(|body|) + body) else None
  }

  datatype Outcome<+M> = Idle | Got(msg: M) | Failed

  function DecodeOne<M>(parse: seq<byte> -> Option<M>, buffer: seq<byte>): (seq<byte>, Outcome<M>) {
    if |buffer| < 4 then (buffer, Idle) else
      var length := FromBE32(buffer[..4]);
      if length > LIMIT then ([], Idle)
      else if |buffer| < 4 + length then (buffer, Idle)
      else
        (buffer[4 + length..],
         match parse(buffer[4..4 + length]) case Some(m) => Got(m) case None => Failed)
  }

  datatype AllResult<+M> = Messages(msgs: seq<M>) | Raised

  /** Decoding until nothing is left; a failure discards the messages of the same call. */
  function DecodeAll<M>(parse: seq<byte> -> Option<M>, buffer: seq<byte>): (r: (seq<byte>, AllResult<M>))
    ensures r.1.Raised? ==> |r.0| < |buffer|
    decreases |buffer|
  {
    var (rest, outcome) := DecodeOne(parse, buffer);
    match outcome
    case Idle => (rest, Messages([]))
    case Failed => (rest, Raised)
    case Got(m) =>
      var (left, result) := DecodeAll(parse, rest);
      (left, if result.Raised? then Raised else Messages([m] + result.msgs))
  }

  class ProtocolDecoder<M> {
    const parse: seq<byte> -> Option<M>
    var buffer: seq<byte>

    constructor (parse: seq<byte> -> Option<M>)
      ensures this.parse == parse && buffer == []
    {
      this.parse := parse;
      buffer := [];
    }

    method Feed(data: seq<byte>)
      modifies this
      ensures buffer == old(buffer) + data
    {
      buffer := buffer + data;
    }

    method TakeOne() returns (outcome: Outcome<M>)
      modifies this
      ensures (buffer, outcome) == DecodeOne(parse, old(buffer))
    {
      if |buffer| < 4 { return Idle; }
      var length := FromBE32(buffer[..4]);
      if length > LIMIT {
        buffer := [];
        return Idle;
      }
      if |buffer| < 4 + length { return Idle; }
      var body := buffer[4..4 + length];
      buffer := buffer[4 + length..];
      var parsed := parse(body);
      return match parsed case Some(m) => Got(m) case None => Failed;
    }

    method TakeAll() returns (result: AllResult<M>)
      modifies this
      ensures (buffer, result) == DecodeAll(parse, old(buffer))
    {
      var messages := [];
      ghost var whole := DecodeAll(parse, buffer);
      assert whole.1.Messages? ==> [] + whole.1.msgs == whole.1.msgs;
      while true
        invariant whole.0 == DecodeAll(parse, buffer).0
        invariant whole.1 == if DecodeAll(parse, buffer).1.Raised? then Raised
                             else Messages(messages + DecodeAll(parse, buffer).1.msgs)
        decreases |buffer|
      {
        ghost var later := DecodeAll(parse, DecodeOne(parse, buffer).0).1;
        var outcome := TakeOne();
        match outcome {
          case Idle =>
            assert messages + [] == messages;
            return Messages(messages);
          case Failed => return Raised;
          case Got(m) =>
            assert later.Messages? ==> messages + ([m] + later.msgs) == messages + [m] + later.msgs;
            messages := messages + [m];
        }
      }
    }
  }

  // ----- One frame -----

  /** A body is framed if its length fits four bytes, most significant first; then it follows them. */
  lemma FramedExactly(body: seq<byte>)
    ensures EncodeFrame(body).Some? <==> |body| < 0x1_0000_0000
    ensures EncodeFrame(body).Some? ==>
      var f := EncodeFrame(body).value;
      && |f| == 4 + |body| && f[4..] == body
      && ((f[0] as int * 256 + f[1] as int) * 256 + f[2] as int) * 256 + f[3] as int == |body|
  {
    if |body| < TWO_32 {
      BE32RoundTrip(|body|);
      BigEndian(ToBE32(|body|));
    }
  }

  lemma FrameHeader(body: seq<byte>, rest: seq<byte>)
    requires |body| < TWO_32
    ensures var bytes := EncodeFrame(body).value + rest;
      FromBE32(bytes[..4]) == |body| && |bytes| == 4 + |body| + |rest| &&
      bytes[4..4 + |body|] == body && bytes[4 + |body|..] == rest
  {
    BE32RoundTrip(|body|);
    var bytes := EncodeFrame(body).value + rest;
    assert bytes[..4] == ToBE32(|body|);
  }

  /**
   A frame within the limit is consumed exactly, whether or not its body parses, so decoding
   resumes at the next frame. A longer one empties the buffer and yields nothing.
   */
  lemma FrameIsConsumed<M>(parse: seq<byte> -> Option<M>, body: seq<byte>, rest: seq<byte>)
    requires |body| < TWO_32
    ensures var result := DecodeOne(parse, EncodeFrame(body).value + rest);
      if |body| <= LIMIT
      then result == (rest, match parse(body) case Some(m) => Got(m) case None => Failed)
      else result == ([], Idle)
  {
    FrameHeader(body, rest);
  }

  /**
   The first four bytes decide, before any of the body has arrived: fewer wait for more, a length
   over 100 MiB empties the buffer, and a lesser one waits for as many bytes.
   */
  lemma HeaderDecides<M>(parse: seq<byte> -> Option<M>, buffer: seq<byte>)
    ensures |buffer| < 4 ==> DecodeOne(parse, buffer) == (buffer, Idle)
    ensures |buffer| >= 4 ==>
      var length := ((buffer[0] as int * 256 + buffer[1] as int) * 256 + buffer[2] as int) * 256 + buffer[3] as int;
      var rest := DecodeOne(parse, buffer);
      if length > 104_857_600 then rest == ([], Idle)
      else if |buffer| - 4 < length then rest == (buffer, Idle)
      else rest.0 == buffer[4 + length..] && !rest.1.Idle?
  {
    if |buffer| >= 4 { BigEndian(buffer[..4]); }
  }

  // ----- Chunking -----

  /**
   Taking one frame after the other until none is complete, going on after a frame that does
   not parse: the frame is lost and nothing else.
   */
  function DecodeEach<M>(parse: seq<byte> -> Option<M>, buffer: seq<byte>): (seq<byte>, seq<M>)
    decreases |buffer|
  {
    var (rest, outcome) := DecodeOne(parse, buffer);
    match outcome
    case Idle => (rest, [])
    case Failed => DecodeEach(parse, rest)
    case Got(m) => var (left, msgs) := DecodeEach(parse, rest); (left, [m] + msgs)
  }

  /** Decoding everything, again each time it raises. */
  function DecodeRetrying<M>(parse: seq<byte> -> Option<M>, buffer: seq<byte>): (seq<byte>, seq<M>)
    decreases |buffer|
  {
    var (rest, result) := DecodeAll(parse, buffer);
    if result.Raised? then DecodeRetrying(parse, rest) else (rest, result.msgs)
  }

  /** Feeding the chunks one by one, taking every frame after each. */
  function FeedEach<M>(
      parse: seq<byte> -> Option<M>, buffer: seq<byte>, chunks: seq<seq<byte>>): (seq<byte>, seq<M>)
    decreases chunks
  {
    if chunks == [] then (buffer, []) else
      var (rest, now) := DecodeEach(parse, buffer + chunks[0]);
      var (left, later) := FeedEach(parse, rest, chunks[1..]);
      (left, now + later)
  }

  /** Feeding the chunks one by one, decoding everything after each, again when it raises. */
  function FeedChunks<M>(
      parse: seq<byte> -> Option<M>, buffer: seq<byte>, chunks: seq<seq<byte>>): (seq<byte>, seq<M>)
    decreases chunks
  {
    if chunks == [] then (buffer, []) else
      var (rest, now) := DecodeRetrying(parse, buffer + chunks[0]);
      var (left, later) := FeedChunks(parse, rest, chunks[1..]);
      (left, now + later)
  }

  predicate HasFrame(bytes: seq<byte>) {
    |bytes| >= 4 && |bytes| >= 4 + FromBE32(bytes[..4])
  }

  function FirstBody(bytes: seq<byte>): seq<byte>
    requires HasFrame(bytes)
  {
    bytes[4..4 + FromBE32(bytes[..4])]
  }

  function AfterFrame(bytes: seq<byte>): seq<byte>
    requires HasFrame(bytes)
  {
    bytes[4 + FromBE32(bytes[..4])..]
  }

  /** Every frame announced, the incomplete one at the end included, is within the limit. */
  ghost predicate Sized(bytes: seq<byte>)
    decreases |bytes|
  {
    (|bytes| >= 4 ==> FromBE32(bytes[..4]) <= LIMIT) && (HasFrame(bytes) ==> Sized(AfterFrame(bytes)))
  }

  /** Every complete frame parses. */
  ghost predicate Parses<M>(parse: seq<byte> -> Option<M>, bytes: seq<byte>)
    decreases |bytes|
  {
    HasFrame(bytes) ==> parse(FirstBody(bytes)).Some? && Parses(parse, AfterFrame(bytes))
  }

  /** No complete frame that parses comes before one that does not. */
  ghost predicate FailuresLead<M>(parse: seq<byte> -> Option<M>, bytes: seq<byte>)
    decreases |bytes|
  {
    HasFrame(bytes) ==>
      if parse(FirstBody(bytes)).Some? then Parses(parse, AfterFrame(bytes)) else FailuresLead(parse, AfterFrame(bytes))
  }

  /** What is decoded early plus what the leftover decodes to later is what decoding late gives. */
  ghost predicate SplitsWell<M>(parse: seq<byte> -> Option<M>, a: seq<byte>, b: seq<byte>) {
    var (rest, now) := DecodeEach(parse, a);
    var (left, later) := DecodeEach(parse, rest + b);
    && DecodeEach(parse, rest) == (rest, [])
    && DecodeEach(parse, a + b) == (left, now + later)
    && Sized(a) && Sized(rest + b)
    && (Parses(parse, a + b) ==> Parses(parse, a) && Parses(parse, rest + b))
    && (FailuresLead(parse, a + b) ==> FailuresLead(parse, a) && FailuresLead(parse, rest + b))
  }

  lemma FrontFrame(a: seq<byte>, b: seq<byte>)
    requires HasFrame(a)
    ensures HasFrame(a + b) && FirstBody(a + b) == FirstBody(a) && AfterFrame(a + b) == AfterFrame(a) + b
    ensures FromBE32((a + b)[..4]) == FromBE32(a[..4])
  {
    assert (a + b)[..4] == a[..4];
  }

  lemma IncompleteSplits<M>(parse: seq<byte> -> Option<M>, a: seq<byte>, b: seq<byte>)
    requires Sized(a + b) && !HasFrame(a)
    ensures SplitsWell(parse, a, b)
  {
    if |a| >= 4 { assert (a + b)[..4] == a[..4]; }
    assert DecodeEach(parse, a) == (a, []);
    var late := DecodeEach(parse, a + b).1;
    assert [] + late == late;
  }

  lemma {:induction false} EachSplits<M>(parse: seq<byte> -> Option<M>, a: seq<byte>, b: seq<byte>)
    requires Sized(a + b)
    ensures SplitsWell(parse, a, b)
    decreases |a|
  {
    if !HasFrame(a) {
      IncompleteSplits(parse, a, b);
    } else {
      FrontFrame(a, b);
      EachSplits(parse, AfterFrame(a), b);
      var (rest, now) := DecodeEach(parse, AfterFrame(a));
      var later := DecodeEach(parse, rest + b).1;
      if parse(FirstBody(a)).Some? {
        var m := parse(FirstBody(a)).value;
        assert [m] + (now + later) == [m] + now + later;
      }
    }
  }

  lemma {:induction false} EachFrom<M>(parse: seq<byte> -> Option<M>, buffer: seq<byte>, chunks: seq<seq<byte>>)
    requires Sized(buffer + Concat(chunks)) && DecodeEach(parse, buffer) == (buffer, [])
    ensures FeedEach(parse, buffer, chunks) == DecodeEach(parse, buffer + Concat(chunks))
    decreases chunks
  {
    if chunks == [] {
      assert buffer + [] == buffer;
    } else {
      var fed := buffer + chunks[0];
      assert buffer + Concat(chunks) == fed + Concat(chunks[1..]);
      EachSplits(parse, fed, Concat(chunks[1..]));
      EachFrom(parse, DecodeEach(parse, fed).0, chunks[1..]);
    }
  }

  /** Where every frame parses, decoding everything at once is taking each frame. */
  lemma {:induction false} CleanIsEach<M>(parse: seq<byte> -> Option<M>, bytes: seq<byte>)
    requires Sized(bytes) && Parses(parse, bytes)
    ensures DecodeAll(parse, bytes) == (DecodeEach(parse, bytes).0, Messages(DecodeEach(parse, bytes).1))
    decreases |bytes|
  {
    if !HasFrame(bytes) {
    } else {
      CleanIsEach(parse, AfterFrame(bytes));
    }
  }

  lemma ParsingLeadsNoFailure<M>(parse: seq<byte> -> Option<M>, bytes: seq<byte>)
    requires Parses(parse, bytes)
    ensures FailuresLead(parse, bytes)
  {}

  /** Where failures lead, decoding everything, again when it raises, is taking each frame. */
  lemma {:induction false} RetryIsEach<M>(parse: seq<byte> -> Option<M>, bytes: seq<byte>)
    requires Sized(bytes) && FailuresLead(parse, bytes)
    ensures DecodeRetrying(parse, bytes) == DecodeEach(parse, bytes)
    decreases |bytes|
  {
    if !HasFrame(bytes) || parse(FirstBody(bytes)).Some? {
      CleanIsEach(parse, bytes);
    } else {
      RetryIsEach(parse, AfterFrame(bytes));
    }
  }

  lemma {:induction false} ChunksFrom<M>(parse: seq<byte> -> Option<M>, buffer: seq<byte>, chunks: seq<seq<byte>>)
    requires Sized(buffer + Concat(chunks)) && FailuresLead(parse, buffer + Concat(chunks))
    ensures FeedChunks(parse, buffer, chunks) == FeedEach(parse, buffer, chunks)
    decreases chunks
  {
    if chunks == [] {
    } else {
      var fed := buffer + chunks[0];
      assert buffer + Concat(chunks) == fed + Concat(chunks[1..]);
      EachSplits(parse, fed, Concat(chunks[1..]));
      RetryIsEach(parse, fed);
      ChunksFrom(parse, DecodeEach(parse, fed).0, chunks[1..]);
    }
  }

  /** However a clean stream is cut into chunks, the messages and the bytes left over are the same. */
  lemma ChunkingInvariance<M>(parse: seq<byte> -> Option<M>, chunks: seq<seq<byte>>)
    requires Sized(Concat(chunks)) && Parses(parse, Concat(chunks))
    ensures var (rest, msgs) := FeedChunks(parse, [], chunks);
      DecodeAll(parse, Concat(chunks)) == (rest, Messages(msgs))
  {
    assert [] + Concat(chunks) == Concat(chunks);
    ParsingLeadsNoFailure(parse, Concat(chunks));
    ChunksFrom(parse, [], chunks);
    EachFrom(parse, [], chunks);
    CleanIsEach(parse, Concat(chunks));
  }

  ghost predicate AllWithinLimit(bodies: seq<seq<byte>>) {
    forall body :: body in bodies ==> |body| <= LIMIT
  }

  /** The frames of all the bodies, one after the other. */
  function Frames(bodies: seq<seq<byte>>): seq<byte>
    requires forall body :: body in bodies ==> |body| <= LIMIT
  {
    if bodies == [] then [] else EncodeFrame(bodies[0]).value + Frames(bodies[1..])
  }

  /** A frame has begun but is not complete. */
  predicate Incomplete(tail: seq<byte>) {
    !HasFrame(tail) && (|tail| >= 4 ==> FromBE32(tail[..4]) <= LIMIT)
  }

  /** The messages of the bodies that parse. */
  function Parsable<M>(parse: seq<byte> -> Option<M>, bodies: seq<seq<byte>>): seq<M> {
    if bodies == [] then [] else
      (match parse(bodies[0]) case Some(m) => [m] case None => []) + Parsable(parse, bodies[1..])
  }

  lemma FirstOfFrames(bodies: seq<seq<byte>>, tail: seq<byte>)
    requires AllWithinLimit(bodies) && bodies != []
    ensures var bytes, rest := Frames(bodies) + tail, Frames(bodies[1..]) + tail;
      && bytes == EncodeFrame(bodies[0]).value + rest && HasFrame(bytes)
      && FirstBody(bytes) == bodies[0] && AfterFrame(bytes) == rest && FromBE32(bytes[..4]) <= LIMIT
  {
    var rest := Frames(bodies[1..]) + tail;
    assert Frames(bodies) + tail == EncodeFrame(bodies[0]).value + rest;
    FrameHeader(bodies[0], rest);
  }

  lemma EachUnfold<M>(parse: seq<byte> -> Option<M>, bytes: seq<byte>)
    requires HasFrame(bytes) && FromBE32(bytes[..4]) <= LIMIT
    ensures Sized(bytes) <==> Sized(AfterFrame(bytes))
    ensures Parses(parse, bytes) <==> parse(FirstBody(bytes)).Some? && Parses(parse, AfterFrame(bytes))
    ensures var (rest, msgs) := DecodeEach(parse, AfterFrame(bytes));
      DecodeEach(parse, bytes) == (rest, (match parse(FirstBody(bytes)) case Some(m) => [m] case None => []) + msgs)
  {
    var msgs := DecodeEach(parse, AfterFrame(bytes)).1;
    assert [] + msgs == msgs;
  }

  /** Taking each frame always yields the messages that parse, and decoding resumes behind those that do not. */
  lemma {:induction false} EachResynchronises<M>(
      parse: seq<byte> -> Option<M>, bodies: seq<seq<byte>>, tail: seq<byte>)
    requires AllWithinLimit(bodies) && Incomplete(tail)
    ensures Sized(Frames(bodies) + tail)
    ensures DecodeEach(parse, Frames(bodies) + tail) == (tail, Parsable(parse, bodies))
    ensures (forall body :: body in bodies ==> parse(body).Some?) ==> Parses(parse, Frames(bodies) + tail)
  {
    var bytes := Frames(bodies) + tail;
    if bodies == [] {
      assert bytes == tail;
    } else {
      FirstOfFrames(bodies, tail);
      EachUnfold(parse, bytes);
      EachResynchronises(parse, bodies[1..], tail);
      assert bodies[0] in bodies;
    }
  }

  /**
   Frames within the limit followed by part of another, cut anywhere into chunks and taken one
   at a time, yield exactly the messages of those that parse, in order, and leave the part.
   */
  lemma ChunkedFramesResynchronise<M>(
      parse: seq<byte> -> Option<M>, bodies: seq<seq<byte>>, tail: seq<byte>, chunks: seq<seq<byte>>)
    requires AllWithinLimit(bodies) && Incomplete(tail)
    requires Concat(chunks) == Frames(bodies) + tail
    ensures FeedEach(parse, [], chunks) == (tail, Parsable(parse, bodies))
  {
    EachResynchronises(parse, bodies, tail);
    assert [] + Concat(chunks) == Concat(chunks);
    EachFrom(parse, [], chunks);
  }

  /** Where all parse, decoding everything after each chunk yields the same. */
  lemma ChunkedFramesDecode<M>(
      parse: seq<byte> -> Option<M>, bodies: seq<seq<byte>>, tail: seq<byte>, chunks: seq<seq<byte>>)
    requires AllWithinLimit(bodies) && Incomplete(tail)
    requires forall body :: body in bodies ==> parse(body).Some?
    requires Concat(chunks) == Frames(bodies) + tail
    ensures FeedChunks(parse, [], chunks) == (tail, Parsable(parse, bodies))
  {
    EachResynchronises(parse, bodies, tail);
    ChunkedFramesResynchronise(parse, bodies, tail, chunks);
    assert [] + Concat(chunks) == Concat(chunks);
    ParsingLeadsNoFailure(parse, Concat(chunks));
    ChunksFrom(parse, [], chunks);
  }

  // ----- Frames that do not parse -----

  ghost predicate AllParse<M>(parse: seq<byte> -> Option<M>, bodies: seq<seq<byte>>) {
    forall body :: body in bodies ==> parse(body).Some?
  }

  /** The messages behind the last body that does not parse. */
  ghost function SinceLastFailure<M>(parse: seq<byte> -> Option<M>, bodies: seq<seq<byte>>): seq<M> {
    if AllParse(parse, bodies) then Parsable(parse, bodies) else SinceLastFailure(parse, bodies[1..])
  }

  /** One frame that does not parse makes the call raise, whatever was decoded before it. */
  lemma {:induction false} FailureLosesCall<M>(
      parse: seq<byte> -> Option<M>, bodies: seq<seq<byte>>, tail: seq<byte>)
    requires AllWithinLimit(bodies) && !AllParse(parse, bodies)
    ensures DecodeAll(parse, Frames(bodies) + tail).1 == Raised
  {
    FirstOfFrames(bodies, tail);
    if parse(bodies[0]).None? {
    } else {
      var body :| body in bodies && parse(body).None?;
      assert body in bodies[1..];
      FailureLosesCall(parse, bodies[1..], tail);
    }
  }

  lemma RetryDropsFirst<M>(parse: seq<byte> -> Option<M>, bodies: seq<seq<byte>>, tail: seq<byte>)
    requires AllWithinLimit(bodies) && !AllParse(parse, bodies)
    ensures DecodeRetrying(parse, Frames(bodies) + tail) == DecodeRetrying(parse, Frames(bodies[1..]) + tail)
  {
    FirstOfFrames(bodies, tail);
    FailureLosesCall(parse, bodies, tail);
    if parse(bodies[0]).Some? {
      var body :| body in bodies && parse(body).None?;
      assert body in bodies[1..];
      FailureLosesCall(parse, bodies[1..], tail);
    }
  }

  /** Decoding everything, again when it raises, yields what lies behind the last failure, and leaves the tail. */
  lemma {:induction false} RetryYieldsSinceFailure<M>(
      parse: seq<byte> -> Option<M>, bodies: seq<seq<byte>>, tail: seq<byte>)
    requires AllWithinLimit(bodies) && Incomplete(tail)
    ensures DecodeRetrying(parse, Frames(bodies) + tail) == (tail, SinceLastFailure(parse, bodies))
  {
    if AllParse(parse, bodies) {
      EachResynchronises(parse, bodies, tail);
      CleanIsEach(parse, Frames(bodies) + tail);
    } else {
      RetryDropsFirst(parse, bodies, tail);
      RetryYieldsSinceFailure(parse, bodies[1..], tail);
    }
  }

  /** Every body that does not parse comes before all those that do. */
  ghost predicate FailuresFirst<M>(parse: seq<byte> -> Option<M>, bodies: seq<seq<byte>>) {
    forall i, j :: 0 <= i < j < |bodies| && parse(bodies[i]).Some? ==> parse(bodies[j]).Some?
  }

  lemma {:induction false} NothingLostExactly<M>(parse: seq<byte> -> Option<M>, bodies: seq<seq<byte>>)
    ensures SinceLastFailure(parse, bodies) == Parsable(parse, bodies) <==> FailuresFirst(parse, bodies)
    ensures |SinceLastFailure(parse, bodies)| <= |Parsable(parse, bodies)|
  {
    if AllParse(parse, bodies) {
    } else {
      NothingLostExactly(parse, bodies[1..]);
      if parse(bodies[0]).None? {
        FailureInFront(parse, bodies);
      } else {
        var j :| 0 <= j < |bodies| && parse(bodies[j]).None?;
        assert !FailuresFirst(parse, bodies);
      }
    }
  }

  lemma FailureInFront<M>(parse: seq<byte> -> Option<M>, bodies: seq<seq<byte>>)
    requires bodies != [] && parse(bodies[0]).None?
    ensures FailuresFirst(parse, bodies) <==> FailuresFirst(parse, bodies[1..])
  {
    var rest := bodies[1..];
    assert forall i :: 0 <= i < |rest| ==> rest[i] == bodies[i + 1];
    if FailuresFirst(parse, rest) {
      forall i, j | 0 <= i < j < |bodies| && parse(bodies[i]).Some? ensures parse(bodies[j]).Some? {
        assert bodies[i] == rest[i - 1] && bodies[j] == rest[j - 1];
      }
    }
  }

  /**
   A failure loses the messages decoded before it in the same call, and nothing else: decoding
   everything, again when it raises, yields all messages that parse exactly when none of them
   comes before a body that does not. The bytes left over are the incomplete tail either way.
   */
  lemma RetryLosesNothingExactly<M>(parse: seq<byte> -> Option<M>, bodies: seq<seq<byte>>, tail: seq<byte>)
    requires AllWithinLimit(bodies) && Incomplete(tail)
    ensures DecodeRetrying(parse, Frames(bodies) + tail).0 == tail
    ensures DecodeRetrying(parse, Frames(bodies) + tail).1 == Parsable(parse, bodies) <==> FailuresFirst(parse, bodies)
  {
    RetryYieldsSinceFailure(parse, bodies, tail);
    NothingLostExactly(parse, bodies);
  }

  function EachFrame(bodies: seq<seq<byte>>): seq<seq<byte>>
    requires forall body :: body in bodies ==> |body| <= LIMIT
  {
    if bodies == [] then [] else [EncodeFrame(bodies[0]).value] + EachFrame(bodies[1..])
  }

  lemma SingleFrame<M>(parse: seq<byte> -> Option<M>, body: seq<byte>)
    requires |body| <= LIMIT
    ensures DecodeRetrying(parse, EncodeFrame(body).value) == ([], Parsable(parse, [body]))
  {
    var frame := EncodeFrame(body).value;
    assert Frames([body]) + [] == frame;
    RetryYieldsSinceFailure(parse, [body], []);
    NothingLostExactly(parse, [body]);
  }

  lemma FeedFirst<M>(
      parse: seq<byte> -> Option<M>, chunk: seq<byte>, chunks: seq<seq<byte>>, now: seq<M>, later: seq<M>)
    requires DecodeRetrying(parse, chunk) == ([], now) && FeedChunks(parse, [], chunks) == ([], later)
    ensures FeedChunks(parse, [], [chunk] + chunks) == ([], now + later)
  {
    assert [] + chunk == chunk;
    assert ([chunk] + chunks)[1..] == chunks;
  }

  lemma ParsableCons<M>(parse: seq<byte> -> Option<M>, bodies: seq<seq<byte>>)
    requires bodies != []
    ensures Parsable(parse, bodies) == Parsable(parse, [bodies[0]]) + Parsable(parse, bodies[1..])
  {
    var first := match parse(bodies[0]) case Some(m) => [m] case None => [];
    assert first + [] == first;
  }

  lemma {:induction false} FrameByFrame<M>(parse: seq<byte> -> Option<M>, bodies: seq<seq<byte>>)
    requires AllWithinLimit(bodies)
    ensures FeedChunks(parse, [], EachFrame(bodies)) == ([], Parsable(parse, bodies))
  {
    if bodies == [] {
    } else {
      FrameByFrame(parse, bodies[1..]);
      SingleFrame(parse, bodies[0]);
      ParsableCons(parse, bodies);
      FeedFirst(parse, EncodeFrame(bodies[0]).value, EachFrame(bodies[1..]),
                Parsable(parse, [bodies[0]]), Parsable(parse, bodies[1..]));
    }
  }

  lemma {:induction false} FailuresFirstLead<M>(
      parse: seq<byte> -> Option<M>, bodies: seq<seq<byte>>, tail: seq<byte>)
    requires AllWithinLimit(bodies) && Incomplete(tail) && FailuresFirst(parse, bodies)
    ensures FailuresLead(parse, Frames(bodies) + tail)
  {
    if bodies == [] {
      assert [] + tail == tail;
    } else {
      FirstOfFrames(bodies, tail);
      var rest := bodies[1..];
      if parse(bodies[0]).Some? {
        forall body | body in rest ensures parse(body).Some? {
          var j :| 0 <= j < |rest| && rest[j] == body;
          assert bodies[j + 1] == body;
        }
        EachResynchronises(parse, rest, tail);
      } else {
        FailureInFront(parse, bodies);
        FailuresFirstLead(parse, rest, tail);
      }
    }
  }

  /** However the bytes are cut, decoding everything after each chunk yields every message that parses. */
  ghost predicate CompleteUnderAnyCut<M>(parse: seq<byte> -> Option<M>, bodies: seq<seq<byte>>, tail: seq<byte>)
    requires forall body :: body in bodies ==> |body| <= LIMIT
  {
    forall chunks: seq<seq<byte>> :: Concat(chunks) == Frames(bodies) + tail ==>
      FeedChunks(parse, [], chunks) == (tail, Parsable(parse, bodies))
  }

  /**
   With frames that do not parse, chunking shows. Decoding everything after each chunk yields
   all messages that parse, whatever the chunks, exactly when failures come first; cut frame by
   frame (FrameByFrame) it does so always.
   */
  lemma ChunkingShowsFailures<M>(parse: seq<byte> -> Option<M>, bodies: seq<seq<byte>>, tail: seq<byte>)
    requires AllWithinLimit(bodies) && Incomplete(tail)
    ensures CompleteUnderAnyCut(parse, bodies, tail) <==> FailuresFirst(parse, bodies)
  {
    var whole := Frames(bodies) + tail;
    if FailuresFirst(parse, bodies) {
      FailuresFirstLead(parse, bodies, tail);
      EachResynchronises(parse, bodies, tail);
      forall chunks: seq<seq<byte>> | Concat(chunks) == whole
        ensures FeedChunks(parse, [], chunks) == (tail, Parsable(parse, bodies))
      {
        assert [] + Concat(chunks) == Concat(chunks);
        ChunksFrom(parse, [], chunks);
        ChunkedFramesResynchronise(parse, bodies, tail, chunks);
      }
    } else {
      RetryLosesNothingExactly(parse, bodies, tail);
      assert Concat([whole]) == whole + [] == whole;
      FeedOnce(parse, whole);
    }
  }

  lemma FeedOnce<M>(parse: seq<byte> -> Option<M>, chunk: seq<byte>)
    ensures FeedChunks(parse, [], [chunk]) == DecodeRetrying(parse, chunk)
  {
    assert [] + chunk == chunk;
    var now := DecodeRetrying(parse, chunk).1;
    assert now + [] == now;
  }
}
