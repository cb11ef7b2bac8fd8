/**
 Chunked file transfer. The handler keeps one open file per transfer; uploads append chunks to
 a temporary file that is checked against the declared digest on completion, and downloads
 read chunks by index. Files are byte sequences; the digest is a parameter.
 */
module FileTransfer {
  import opened Bytes
  import opened Sequences

  type Content = seq<byte>
  type Id = string
  type Path = string

  /**
   An open temporary file or an open file being served. Writes are buffered: `content` is what
   the temporary file holds once everything has reached it, `pending` are the bytes that did
   not yet, and `flushed` is the position they go to.
   */
  datatype Transfer =
    | Upload(path: Path, digest: string, content: Content, flushed: nat, pending: Content, received: nat)
    | Download(file: Content, closed: bool)

  datatype Handler = Handler(active: map<Id, Transfer>, stored: map<Path, Content>)

  datatype Reply =
    | Started(totalChunks: nat)
    | NotFound
    | Raised
    | Received(chunks: nat)
    | DigestMismatch
    | Completed(path: Path)
    | Chunk(data: Content)

  function Min(a: nat, b: nat): nat {
    if a <= b then a else b
  }

  function TotalChunks(size: nat, chunkSize: nat): nat
    requires chunkSize > 0
  {
    (size + chunkSize - 1) / chunkSize
  }

  function Zeros(n: nat): Content {
    seq(n, i => 0)
  }

  /** Writing at a position: bytes under it are replaced, a gap before it is filled with zeros. */
  function WriteAt(content: Content, position: nat, chunk: Content): Content {
    if chunk == [] then content
    else if position > |content| then content + Zeros(position - |content|) + chunk
    else content[..position] + chunk + content[Min(position + |chunk|, |content|)..]
  }

  function ReadChunk(file: Content, index: nat, chunkSize: nat): Content {
    file[Min(index * chunkSize, |file|)..Min((index + 1) * chunkSize, |file|)]
  }

  /** Where the next chunk is written. */
  function Position(t: Transfer): nat
    requires t.Upload?
  {
    t.flushed + |t.pending|
  }

  /** Writing a chunk, after which at most the last `held` bytes have not reached the file. */
  function Write(t: Transfer, chunk: Content, held: nat): Transfer
    requires t.Upload?
  {
    var buffer := t.pending + chunk;
    var reached := |buffer| - Min(held, |buffer|);
    t.(content := WriteAt(t.content, Position(t), chunk),
       flushed := t.flushed + reached, pending := buffer[reached..], received := t.received + 1)
  }

  /** Moving the write position, for which everything held back is written first. */
  function Seek(t: Transfer, position: nat): Transfer
    requires t.Upload?
  {
    t.(flushed := position, pending := [])
  }

  /**
   What a temporary file just emptied for a new upload holds when the handle of the upload it
   replaces under the same id has been dropped, and has written what it held back.
   */
  function Residue(active: map<Id, Transfer>, id: Id): Content {
    if id in active && active[id].Upload? then WriteAt([], active[id].flushed, active[id].pending) else []
  }

  /** `held` is what the buffering of writes holds back, up to all of it. */
  datatype Event =
    | StartReceive(id: Id, path: Path, size: nat, digest: string)
    | ReceiveChunk(id: Id, chunk: Content, held: nat)
    | CompleteReceive(id: Id, altPath: Path)
    | StartDownload(id: Id, path: Path)
    | GetChunk(id: Id, index: nat)

  /** `altPath` is the name used when the final path is taken; ids of transfers are given. */
  function Step(digestOf: Content -> string, chunkSize: nat, s: Handler, e: Event): (Handler, Reply)
    requires chunkSize > 0
  {
    match e
    case StartReceive(id, path, size, digest) =>
      (s.(active := s.active[id := Upload(path, digest, Residue(s.active, id), 0, [], 0)]),
       Started(TotalChunks(size, chunkSize)))
    case ReceiveChunk(id, chunk, held) =>
      if id !in s.active then (s, NotFound)
      else if s.active[id].Download? then (s, Raised)
      else
        var t := Write(s.active[id], chunk, held);
        (s.(active := s.active[id := t]), Received(t.received))
    case CompleteReceive(id, altPath) =>
      if id !in s.active then (s, NotFound)
      else if s.active[id].Download? then (s.(active := s.active[id := s.active[id].(closed := true)]), Raised)
      else
        var t := s.active[id];
        if digestOf(t.content) != t.digest then (s.(active := s.active - {id}), DigestMismatch)
        else
          var path := if t.path in s.stored then altPath else t.path;
          (Handler(s.active - {id}, s.stored[path := t.content]), Completed(path))
    case StartDownload(id, path) =>
      if path !in s.stored then (s, NotFound)
      else
        (s.(active := s.active[id := Download(s.stored[path], false)]),
         Started(TotalChunks(|s.stored[path]|, chunkSize)))
    case GetChunk(id, index) =>
      if id !in s.active then (s, NotFound)
      else
        match s.active[id]
        case Upload(_, _, _, _, _, _) => (s.(active := s.active[id := Seek(s.active[id], index * chunkSize)]), Raised)
        case Download(file, closed) => (s, if closed then Raised else Chunk(ReadChunk(file, index, chunkSize)))
  }

  class FileTransferHandler {
    const digestOf: Content -> string
    const chunkSize: nat
    var activeTransfers: map<Id, Transfer>
    var stored: map<Path, Content>

    ghost function State(): Handler
      reads this
    {
      Handler(activeTransfers, stored)
    }

    constructor (digestOf: Content -> string, chunkSize: nat, stored: map<Path, Content>)
      requires chunkSize > 0
      ensures this.digestOf == digestOf && this.chunkSize == chunkSize && State() == Handler(map[], stored)
    {
      this.digestOf, this.chunkSize := digestOf, chunkSize;
      activeTransfers, this.stored := map[], stored;
    }

    method Start(id: Id, path: Path, size: nat, digest: string) returns (reply: Reply)
      requires chunkSize > 0
      modifies this
      ensures (State(), reply) == Step(digestOf, chunkSize, old(State()), StartReceive(id, path, size, digest))
    {
      var emptied := Residue(activeTransfers, id);
      activeTransfers := activeTransfers[id := Upload(path, digest, emptied, 0, [], 0)];
      reply := Started(TotalChunks(size, chunkSize));
    }

    method Write(id: Id, chunk: Content, held: nat) returns (reply: Reply)
      requires chunkSize > 0
      modifies this
      ensures (State(), reply) == Step(digestOf, chunkSize, old(State()), ReceiveChunk(id, chunk, held))
    {
      if id !in activeTransfers { return NotFound; }
      var transfer := activeTransfers[id];
      if transfer.Download? { return Raised; }
      var buffer := transfer.pending + chunk;
      var reached := |buffer| - Min(held, |buffer|);
      transfer := transfer.(content := WriteAt(transfer.content, transfer.flushed + |transfer.pending|, chunk),
                            flushed := transfer.flushed + reached, pending := buffer[reached..]);
      transfer := transfer.(received := transfer.received + 1);
      activeTransfers := activeTransfers[id := transfer];
      return Received(transfer.received);
    }

    method Complete(id: Id, altPath: Path) returns (reply: Reply)
      requires chunkSize > 0
      modifies this
      ensures (State(), reply) == Step(digestOf, chunkSize, old(State()), CompleteReceive(id, altPath))
    {
      if id !in activeTransfers { return NotFound; }
      var transfer := activeTransfers[id];
      if transfer.Download? {
        activeTransfers := activeTransfers[id := transfer.(closed := true)];
        return Raised;
      }
      var computed := digestOf(transfer.content);
      activeTransfers := activeTransfers - {id};
      if computed != transfer.digest { return DigestMismatch; }
      var path := transfer.path;
      if path in stored { path := altPath; }
      stored := stored[path := transfer.content];
      return Completed(path);
    }

    method Open(id: Id, path: Path) returns (reply: Reply)
      requires chunkSize > 0
      modifies this
      ensures (State(), reply) == Step(digestOf, chunkSize, old(State()), StartDownload(id, path))
    {
      if path !in stored { return NotFound; }
      activeTransfers := activeTransfers[id := Download(stored[path], false)];
      return Started(TotalChunks(|stored[path]|, chunkSize));
    }

    /** The file position is moved before the read is attempted, also on a file open for writing. */
    method Read(id: Id, index: nat) returns (reply: Reply)
      requires chunkSize > 0
      modifies this
      ensures (State(), reply) == Step(digestOf, chunkSize, old(State()), GetChunk(id, index))
    {
      if id !in activeTransfers { return NotFound; }
      match activeTransfers[id] {
        case Upload(path, digest, content, _, _, received) =>
          activeTransfers := activeTransfers[id := Upload(path, digest, content, index * chunkSize, [], received)];
          return Raised;
        case Download(file, closed) =>
          return if closed then Raised else Chunk(ReadChunk(file, index, chunkSize));
      }
    }

    /** The downloading client's loop: it asks for the chunks in turn and gives up on any other reply. */
    method Fetch(id: Id, totalChunks: nat) returns (file: Option<Content>)
      requires chunkSize > 0
      modifies this
      ensures Serving(old(State()), id) ==>
        var source := old(activeTransfers)[id].file;
        State() == old(State()) && file == Some(source[..Min(totalChunks * chunkSize, |source|)]) &&
        (totalChunks == TotalChunks(|source|, chunkSize) ==> file == Some(source))
      ensures !Serving(old(State()), id) ==> file == if totalChunks == 0 then Some([]) else None
    {
      ghost var source := if Serving(State(), id) then activeTransfers[id].file else [];
      var written: Content := [];
      for index := 0 to totalChunks
        invariant State() == old(State()) && (index > 0 ==> Serving(State(), id))
        invariant written == source[..Min(index * chunkSize, |source|)]
      {
        var reply := Read(id, index);
        if !reply.Chunk? { return None; }
        NextChunk(source, index, chunkSize);
        written := written + reply.data;
      }
      ChunksCover(|source|, chunkSize);
      assert source[..|source|] == source;
      return Some(written);
    }
  }

  /** The id belongs to a file open for download. */
  predicate Serving(s: Handler, id: Id) {
    id in s.active && s.active[id].Download? && !s.active[id].closed
  }

  // ----- Downloads -----

  lemma NextChunk(file: Content, index: nat, chunkSize: nat)
    ensures file[..Min(index * chunkSize, |file|)] + ReadChunk(file, index, chunkSize)
         == file[..Min((index + 1) * chunkSize, |file|)]
  {
    assert (index + 1) * chunkSize == index * chunkSize + chunkSize;
  }

  lemma ChunksCover(size: nat, chunkSize: nat)
    requires chunkSize > 0
    ensures TotalChunks(size, chunkSize) * chunkSize >= size
  {
    var n := size + chunkSize - 1;
    assert n == n / chunkSize * chunkSize + n % chunkSize;
  }

  function ChunksOf(file: Content, chunkSize: nat, n: nat): seq<Content> {
    seq(n, i requires 0 <= i < n => ReadChunk(file, i, chunkSize))
  }

  lemma {:induction false} ChunksConcat(file: Content, chunkSize: nat, n: nat)
    ensures Concat(ChunksOf(file, chunkSize, n)) == file[..Min(n * chunkSize, |file|)]
  {
    if n == 0 {
    } else {
      var chunks := ChunksOf(file, chunkSize, n);
      assert chunks == ChunksOf(file, chunkSize, n - 1) + [ReadChunk(file, n - 1, chunkSize)];
      ConcatSnoc(ChunksOf(file, chunkSize, n - 1), ReadChunk(file, n - 1, chunkSize));
      ChunksConcat(file, chunkSize, n - 1);
      NextChunk(file, n - 1, chunkSize);
    }
  }

  /** The indexed chunks of a file, put together in order, are the file. */
  lemma ChunksReassemble(file: Content, chunkSize: nat)
    requires chunkSize > 0
    ensures Concat(ChunksOf(file, chunkSize, TotalChunks(|file|, chunkSize))) == file
  {
    ChunksConcat(file, chunkSize, TotalChunks(|file|, chunkSize));
    ChunksCover(|file|, chunkSize);
  }

  lemma ChunksFit(size: nat, chunkSize: nat)
    requires chunkSize > 0
    ensures TotalChunks(size, chunkSize) * chunkSize < size + chunkSize
  {
    var n := size + chunkSize - 1;
    assert n == n / chunkSize * chunkSize + n % chunkSize;
  }

  lemma MoreCovers(a: nat, b: nat, chunkSize: nat)
    requires a <= b
    ensures a * chunkSize <= b * chunkSize
    ensures a < b ==> a * chunkSize + chunkSize <= b * chunkSize
  {
    assert b * chunkSize == a * chunkSize + (b - a) * chunkSize;
    if a < b { assert (b - a) * chunkSize == chunkSize + (b - a - 1) * chunkSize; }
  }

  /** The number of chunks announced is the least that covers the size. */
  lemma ChunksNeeded(size: nat, chunkSize: nat, n: nat)
    requires chunkSize > 0
    ensures n >= TotalChunks(size, chunkSize) <==> n * chunkSize >= size
  {
    var k := TotalChunks(size, chunkSize);
    ChunksCover(size, chunkSize);
    ChunksFit(size, chunkSize);
    if n >= k {
      MoreCovers(k, n, chunkSize);
    } else {
      MoreCovers(n, k, chunkSize);
    }
  }

  /**
   Starting a download of a stored file announces a number of chunks and serves them: each index
   below that number is answered with a chunk and changes nothing, and those chunks put together
   are the file. Without such a file nothing is started.
   */
  lemma DownloadServesFile(digestOf: Content -> string, chunkSize: nat, s: Handler, id: Id, path: Path)
    requires chunkSize > 0
    ensures var (t, reply) := Step(digestOf, chunkSize, s, StartDownload(id, path));
      if path !in s.stored then t == s && reply == NotFound
      else
        && reply.Started? && Serving(t, id) && t.stored == s.stored && t.active - {id} == s.active - {id}
        && exists chunks: seq<Content> ::
             |chunks| == reply.totalChunks && Concat(chunks) == s.stored[path] &&
             forall i :: 0 <= i < |chunks| ==> Step(digestOf, chunkSize, t, GetChunk(id, i)) == (t, Chunk(chunks[i]))
  {
    if path in s.stored {
      var file := s.stored[path];
      var t := Step(digestOf, chunkSize, s, StartDownload(id, path)).0;
      var chunks := ChunksOf(file, chunkSize, TotalChunks(|file|, chunkSize));
      ChunksReassemble(file, chunkSize);
      assert t.active - {id} == s.active - {id};
      assert forall i :: 0 <= i < |chunks| ==>
        Step(digestOf, chunkSize, t, GetChunk(id, i)) == (t, Chunk(chunks[i]));
    }
  }

  /** The event asks for a chunk, offers one, or is about another transfer. */
  predicate LeavesDownload(e: Event, id: Id) {
    e.id == id ==> e.GetChunk? || e.ReceiveChunk?
  }

  /** A download goes on serving the file as it was when it was started, whatever happens to other transfers. */
  lemma {:induction false} DownloadGoesOn(
      digestOf: Content -> string, chunkSize: nat, stored: map<Path, Content>, evs: seq<Event>, i: nat, n: nat)
    requires chunkSize > 0 && i < n <= |evs| && evs[i].StartDownload?
    requires evs[i].path in Before(digestOf, chunkSize, stored, evs, i).stored
    requires forall m :: i < m < n ==> LeavesDownload(evs[m], evs[i].id)
    ensures var s := Before(digestOf, chunkSize, stored, evs, n);
      && evs[i].id in s.active
      && s.active[evs[i].id] == Download(Before(digestOf, chunkSize, stored, evs, i).stored[evs[i].path], false)
  {
    if n == i + 1 {
    } else {
      DownloadGoesOn(digestOf, chunkSize, stored, evs, i, n - 1);
    }
  }

  /** A request for one of the chunks, with no event disturbing the download before it, is answered with it. */
  ghost predicate ServedAt(
      digestOf: Content -> string, chunkSize: nat, stored: map<Path, Content>, evs: seq<Event>, i: nat, n: nat,
      chunks: seq<Content>)
    requires chunkSize > 0 && i < n < |evs|
  {
    evs[n].GetChunk? && evs[n].id == evs[i].id && evs[n].index < |chunks| &&
    (forall m :: i < m < n ==> LeavesDownload(evs[m], evs[i].id)) ==>
      Answer(digestOf, chunkSize, stored, evs, n) == Chunk(chunks[evs[n].index])
  }

  /**
   Over runs: the announced chunks are what later requests under the id are answered with, in any
   order, however often, and with any events of other transfers in between.
   */
  lemma DownloadServesRuns(
      digestOf: Content -> string, chunkSize: nat, stored: map<Path, Content>, evs: seq<Event>, i: nat)
    returns (chunks: seq<Content>)
    requires chunkSize > 0 && i < |evs| && evs[i].StartDownload?
    requires evs[i].path in Before(digestOf, chunkSize, stored, evs, i).stored
    ensures Answer(digestOf, chunkSize, stored, evs, i) == Started(|chunks|)
    ensures Concat(chunks) == Before(digestOf, chunkSize, stored, evs, i).stored[evs[i].path]
    ensures forall n :: i < n < |evs| ==> ServedAt(digestOf, chunkSize, stored, evs, i, n, chunks)
  {
    var file := Before(digestOf, chunkSize, stored, evs, i).stored[evs[i].path];
    chunks := ChunksOf(file, chunkSize, TotalChunks(|file|, chunkSize));
    ChunksReassemble(file, chunkSize);
    forall n | i < n < |evs| ensures ServedAt(digestOf, chunkSize, stored, evs, i, n, chunks) {
      ChunkIsServed(digestOf, chunkSize, stored, evs, i, n, chunks);
    }
  }

  lemma ChunkIsServed(
      digestOf: Content -> string, chunkSize: nat, stored: map<Path, Content>, evs: seq<Event>, i: nat, n: nat,
      chunks: seq<Content>)
    requires chunkSize > 0 && i < n < |evs| && evs[i].StartDownload?
    requires evs[i].path in Before(digestOf, chunkSize, stored, evs, i).stored
    requires var file := Before(digestOf, chunkSize, stored, evs, i).stored[evs[i].path];
      chunks == ChunksOf(file, chunkSize, TotalChunks(|file|, chunkSize))
    ensures ServedAt(digestOf, chunkSize, stored, evs, i, n, chunks)
  {
    if forall m :: i < m < n ==> LeavesDownload(evs[m], evs[i].id) {
      DownloadGoesOn(digestOf, chunkSize, stored, evs, i, n);
    }
  }

  /**
   Requests for a transfer that is not open, or is of the other kind, are refused, and completing a
   download closes it for good; a chunk request behind the end yields nothing.
   */
  lemma OtherAnswers(digestOf: Content -> string, chunkSize: nat, s: Handler, e: Event)
    requires chunkSize > 0
    ensures (e.ReceiveChunk? || e.CompleteReceive? || e.GetChunk?) && e.id !in s.active ==>
      Step(digestOf, chunkSize, s, e) == (s, NotFound)
    ensures e.ReceiveChunk? && e.id in s.active && s.active[e.id].Download? ==>
      Step(digestOf, chunkSize, s, e) == (s, Raised)
    ensures e.GetChunk? && Serving(s, e.id) && e.index * chunkSize >= |s.active[e.id].file| ==>
      Step(digestOf, chunkSize, s, e) == (s, Chunk([]))
    ensures e.GetChunk? && e.id in s.active && !Serving(s, e.id) ==> Step(digestOf, chunkSize, s, e).1 == Raised
    ensures e.GetChunk? && e.id in s.active && s.active[e.id].Download? && s.active[e.id].closed ==>
      Step(digestOf, chunkSize, s, e).0 == s
    ensures e.CompleteReceive? && e.id in s.active && s.active[e.id].Download? ==>
      var (t, reply) := Step(digestOf, chunkSize, s, e);
      reply == Raised && e.id in t.active && !Serving(t, e.id) && t.active - {e.id} == s.active - {e.id} &&
      t.stored == s.stored
    ensures e.StartReceive? ==>
      var reply := Step(digestOf, chunkSize, s, e).1;
      reply.Started? && forall n: nat :: n >= reply.totalChunks <==> n * chunkSize >= e.size
  {
    if e.StartReceive? {
      forall n: nat ensures n >= TotalChunks(e.size, chunkSize) <==> n * chunkSize >= e.size {
        ChunksNeeded(e.size, chunkSize, n);
      }
    }
    if e.GetChunk? && Serving(s, e.id) && e.index * chunkSize >= |s.active[e.id].file| {
      MoreCovers(e.index, e.index + 1, chunkSize);
      assert ReadChunk(s.active[e.id].file, e.index, chunkSize) == [];
    }
  }

  // ----- Uploads -----

  /** The handler just before event n of a run. */
  function Before(
      digestOf: Content -> string, chunkSize: nat, stored: map<Path, Content>, evs: seq<Event>, n: nat): Handler
    requires chunkSize > 0 && n <= |evs|
  {
    if n == 0 then Handler(map[], stored)
    else Step(digestOf, chunkSize, Before(digestOf, chunkSize, stored, evs, n - 1), evs[n - 1]).0
  }

  function Answer(
      digestOf: Content -> string, chunkSize: nat, stored: map<Path, Content>, evs: seq<Event>, n: nat): Reply
    requires chunkSize > 0 && n < |evs|
  {
    Step(digestOf, chunkSize, Before(digestOf, chunkSize, stored, evs, n), evs[n]).1
  }

  predicate IsStart(e: Event, id: Id) {
    e.StartReceive? && e.id == id
  }

  predicate IsChunk(e: Event, id: Id) {
    e.ReceiveChunk? && e.id == id
  }

  /** The position in the run of the last start of the upload, 0 if there is none. */
  function LastStart(evs: seq<Event>, n: nat, id: Id): (m: nat)
    requires n <= |evs|
    ensures n > 0 ==> m < n
  {
    if n == 0 then 0 else if IsStart(evs[n - 1], id) then n - 1 else LastStart(evs, n - 1, id)
  }

  /** The chunks sent under an id since its upload was last started, in arrival order. */
  function ChunksSince(evs: seq<Event>, n: nat, id: Id): seq<Content>
    requires n <= |evs|
  {
    if n == 0 || IsStart(evs[n - 1], id) then []
    else ChunksSince(evs, n - 1, id) + (if IsChunk(evs[n - 1], id) then [evs[n - 1].chunk] else [])
  }

  /** The digest declared when the upload was last started. */
  function Declared(evs: seq<Event>, n: nat, id: Id): string
    requires n <= |evs|
  {
    if n == 0 then "" else if IsStart(evs[n - 1], id) then evs[n - 1].digest else Declared(evs, n - 1, id)
  }

  /** Where the next chunk is written: behind the chunk before it, unless a download request intervened. */
  function WritePosition(chunkSize: nat, evs: seq<Event>, n: nat, id: Id): nat
    requires n <= |evs|
  {
    if n == 0 || IsStart(evs[n - 1], id) then 0
    else if evs[n - 1].GetChunk? && evs[n - 1].id == id then evs[n - 1].index * chunkSize
    else WritePosition(chunkSize, evs, n - 1, id) + (if IsChunk(evs[n - 1], id) then |evs[n - 1].chunk| else 0)
  }

  /** The path declared when the upload was last started. */
  function Destination(evs: seq<Event>, n: nat, id: Id): Path
    requires n <= |evs|
  {
    if n == 0 then "" else if IsStart(evs[n - 1], id) then evs[n - 1].path else Destination(evs, n - 1, id)
  }

  /**
   What the events alone put into the temporary file: each chunk written where it falls, over
   what the file held when the upload was started.
   */
  function Overlay(chunkSize: nat, evs: seq<Event>, n: nat, id: Id, residue: Content): Content
    requires n <= |evs|
  {
    if n == 0 || IsStart(evs[n - 1], id) then residue
    else
      var before := Overlay(chunkSize, evs, n - 1, id, residue);
      if IsChunk(evs[n - 1], id) then WriteAt(before, WritePosition(chunkSize, evs, n - 1, id), evs[n - 1].chunk)
      else before
  }

  /** Since the upload was last started, every chunk with anything in it came with the position at the end. */
  predicate Aligned(chunkSize: nat, evs: seq<Event>, n: nat, id: Id)
    requires n <= |evs|
  {
    n == 0 || IsStart(evs[n - 1], id) ||
    (Aligned(chunkSize, evs, n - 1, id) &&
     (IsChunk(evs[n - 1], id) && evs[n - 1].chunk != [] ==>
        WritePosition(chunkSize, evs, n - 1, id) == |Concat(ChunksSince(evs, n - 1, id))|))
  }

  predicate Uploading(s: Handler, id: Id) {
    id in s.active && s.active[id].Upload?
  }

  /** An upload is open under the id and has bytes that did not reach its file yet. */
  predicate HoldsBack(s: Handler, id: Id) {
    Uploading(s, id) && s.active[id].pending != []
  }

  /** The file holds the transfer's own chunks in arrival order. */
  ghost predicate HoldsChunks(s: Handler, evs: seq<Event>, n: nat, id: Id)
    requires n <= |evs|
  {
    Uploading(s, id) && s.active[id].content == Concat(ChunksSince(evs, n, id))
  }

  /** Writing appends exactly when there is nothing to write or the position is at the end. */
  lemma AppendsExactly(content: Content, position: nat, chunk: Content)
    ensures WriteAt(content, position, chunk) == content + chunk <==> chunk == [] || position == |content|
  {
    if chunk == [] {
      assert content + chunk == content;
    } else if position != |content| {
      assert |WriteAt(content, position, chunk)| != |content + chunk|;
    }
  }

  /** One step on an upload that is not restarted. */
  lemma UploadStep(digestOf: Content -> string, chunkSize: nat, s: Handler, e: Event, id: Id)
    requires chunkSize > 0 && !IsStart(e, id) && Uploading(Step(digestOf, chunkSize, s, e).0, id)
    ensures Uploading(s, id)
    ensures var before, after := s.active[id], Step(digestOf, chunkSize, s, e).0.active[id];
      && after.digest == before.digest && after.path == before.path
      && after.content == (if IsChunk(e, id) then WriteAt(before.content, Position(before), e.chunk)
                           else before.content)
      && Position(after) == (if IsChunk(e, id) then Position(before) + |e.chunk|
                             else if e.GetChunk? && e.id == id then e.index * chunkSize else Position(before))
      && after.received == before.received + (if IsChunk(e, id) then 1 else 0)
  {}

  /** What was held back under the id when the upload was last started. */
  function ResidueAtStart(
      digestOf: Content -> string, chunkSize: nat, stored: map<Path, Content>, evs: seq<Event>, n: nat, id: Id): Content
    requires chunkSize > 0 && n <= |evs|
  {
    Residue(Before(digestOf, chunkSize, stored, evs, LastStart(evs, n, id)).active, id)
  }

  /** Content, position, count and digest of an open upload are what the events say, given what its start found. */
  lemma {:induction false} UploadTracks(
      digestOf: Content -> string, chunkSize: nat, stored: map<Path, Content>, evs: seq<Event>, n: nat, id: Id)
    requires chunkSize > 0 && n <= |evs| && Uploading(Before(digestOf, chunkSize, stored, evs, n), id)
    ensures n > 0
    ensures var t := Before(digestOf, chunkSize, stored, evs, n).active[id];
      && t.content == Overlay(chunkSize, evs, n, id, ResidueAtStart(digestOf, chunkSize, stored, evs, n, id))
      && Position(t) == WritePosition(chunkSize, evs, n, id)
      && t.received == |ChunksSince(evs, n, id)|
      && t.digest == Declared(evs, n, id) && t.path == Destination(evs, n, id)
  {
    if IsStart(evs[n - 1], id) {
    } else {
      UploadStep(digestOf, chunkSize, Before(digestOf, chunkSize, stored, evs, n - 1), evs[n - 1], id);
      UploadTracks(digestOf, chunkSize, stored, evs, n - 1, id);
    }
  }

  /** The bytes of the old content that new bytes written over its beginning do not cover. */
  function Uncovered(written: Content, previous: Content): Content {
    if |written| < |previous| then previous[|written|..] else []
  }

  lemma WriteOver(written: Content, previous: Content, chunk: Content)
    ensures WriteAt(written + Uncovered(written, previous), |written|, chunk)
         == written + chunk + Uncovered(written + chunk, previous)
  {
    if chunk == [] { assert written + chunk == written; }
  }

  /** Aligned chunks lie in the file one after the other, followed by what of the old content they do not cover. */
  lemma {:induction false} AlignedOverlay(chunkSize: nat, evs: seq<Event>, n: nat, id: Id, residue: Content)
    requires n <= |evs| && Aligned(chunkSize, evs, n, id)
    ensures var own := Concat(ChunksSince(evs, n, id));
      Overlay(chunkSize, evs, n, id, residue) == own + Uncovered(own, residue)
  {
    if n == 0 || IsStart(evs[n - 1], id) {
      assert [] + residue == residue;
    } else {
      AlignedOverlay(chunkSize, evs, n - 1, id, residue);
      var before := ChunksSince(evs, n - 1, id);
      assert before + [] == before;
      if IsChunk(evs[n - 1], id) {
        ConcatSnoc(before, evs[n - 1].chunk);
        WriteOver(Concat(before), residue, evs[n - 1].chunk);
        if evs[n - 1].chunk == [] { assert Concat(before) + [] == Concat(before); }
      }
    }
  }

  /**
   An aligned upload is its own chunks exactly when they are together at least as long as what
   its start found held back under its id.
   */
  lemma AlignedUploadExactly(
      digestOf: Content -> string, chunkSize: nat, stored: map<Path, Content>, evs: seq<Event>, n: nat, id: Id)
    requires chunkSize > 0 && n <= |evs| && Aligned(chunkSize, evs, n, id)
    requires Uploading(Before(digestOf, chunkSize, stored, evs, n), id)
    ensures var own := Concat(ChunksSince(evs, n, id));
      var residue := ResidueAtStart(digestOf, chunkSize, stored, evs, n, id);
      && Before(digestOf, chunkSize, stored, evs, n).active[id].content == own + Uncovered(own, residue)
      && (HoldsChunks(Before(digestOf, chunkSize, stored, evs, n), evs, n, id) <==> |own| >= |residue|)
  {
    var residue := ResidueAtStart(digestOf, chunkSize, stored, evs, n, id);
    UploadTracks(digestOf, chunkSize, stored, evs, n, id);
    AlignedOverlay(chunkSize, evs, n, id, residue);
    var own := Concat(ChunksSince(evs, n, id));
    assert |own + Uncovered(own, residue)| == |own| + |Uncovered(own, residue)|;
    assert own + [] == own;
  }

  /** How many of the bytes written are held back, by the events alone. */
  function HeldBack(evs: seq<Event>, n: nat, id: Id): nat
    requires n <= |evs|
  {
    if n == 0 || IsStart(evs[n - 1], id) || (evs[n - 1].GetChunk? && evs[n - 1].id == id) then 0
    else if IsChunk(evs[n - 1], id) then Min(evs[n - 1].held, HeldBack(evs, n - 1, id) + |evs[n - 1].chunk|)
    else HeldBack(evs, n - 1, id)
  }

  /** What is held back is the end of what was written, before the write position. */
  ghost predicate HoldsTail(t: Transfer, held: nat) {
    && t.Upload? && |t.pending| == held
    && (held > 0 ==> Position(t) <= |t.content| && t.content[t.flushed..Position(t)] == t.pending)
  }

  lemma WriteKeepsTail(t: Transfer, chunk: Content, held: nat, limit: nat)
    requires HoldsTail(t, held)
    ensures HoldsTail(Write(t, chunk, limit), Min(limit, held + |chunk|))
  {
    var after, buffer := Write(t, chunk, limit), t.pending + chunk;
    if chunk == [] {
      assert buffer == t.pending;
    } else {
      assert Position(after) == Position(t) + |chunk|;
      assert after.content[Position(t)..Position(after)] == chunk;
      if t.pending != [] {
        assert after.content[..Position(t)] == t.content[..Position(t)];
        assert after.content[t.flushed..Position(t)] == t.pending;
      }
      assert after.content[t.flushed..Position(after)]
          == after.content[t.flushed..Position(t)] + after.content[Position(t)..Position(after)];
    }
  }

  lemma {:induction false} UploadHoldsBack(
      digestOf: Content -> string, chunkSize: nat, stored: map<Path, Content>, evs: seq<Event>, n: nat, id: Id)
    requires chunkSize > 0 && n <= |evs| && Uploading(Before(digestOf, chunkSize, stored, evs, n), id)
    ensures n > 0 && HoldsTail(Before(digestOf, chunkSize, stored, evs, n).active[id], HeldBack(evs, n, id))
  {
    var s := Before(digestOf, chunkSize, stored, evs, n - 1);
    if IsStart(evs[n - 1], id) {
    } else {
      UploadStep(digestOf, chunkSize, s, evs[n - 1], id);
      UploadHoldsBack(digestOf, chunkSize, stored, evs, n - 1, id);
      if IsChunk(evs[n - 1], id) {
        WriteKeepsTail(s.active[id], evs[n - 1].chunk, HeldBack(evs, n - 1, id), evs[n - 1].held);
      }
    }
  }

  /**
   What a start finds under its id: if an upload is open there, the last bytes it wrote that were
   held back, in their place, and zeros before them; nothing otherwise.
   */
  lemma ResidueExactly(
      digestOf: Content -> string, chunkSize: nat, stored: map<Path, Content>, evs: seq<Event>, n: nat, id: Id)
    requires chunkSize > 0 && n <= |evs|
    ensures var s, held := Before(digestOf, chunkSize, stored, evs, n), HeldBack(evs, n, id);
      var residue := Residue(s.active, id);
      if !Uploading(s, id) || held == 0 then residue == []
      else
        var end := WritePosition(chunkSize, evs, n, id);
        && held <= |residue| == end <= |s.active[id].content|
        && residue[end - held..] == s.active[id].content[end - held..end]
        && forall k :: 0 <= k < end - held ==> residue[k] == 0
  {
    if Uploading(Before(digestOf, chunkSize, stored, evs, n), id) {
      UploadTracks(digestOf, chunkSize, stored, evs, n, id);
      UploadHoldsBack(digestOf, chunkSize, stored, evs, n, id);
      var t := Before(digestOf, chunkSize, stored, evs, n).active[id];
      if t.pending != [] && t.flushed == 0 {
        assert WriteAt([], 0, t.pending) == t.pending;
      }
    }
  }

  /** Each chunk of an open upload is acknowledged with the number that arrived since its start. */
  lemma ChunksAreCounted(
      digestOf: Content -> string, chunkSize: nat, stored: map<Path, Content>, evs: seq<Event>, n: nat)
    requires chunkSize > 0 && n < |evs| && evs[n].ReceiveChunk?
    requires Uploading(Before(digestOf, chunkSize, stored, evs, n), evs[n].id)
    ensures Uploading(Before(digestOf, chunkSize, stored, evs, n + 1), evs[n].id)
    ensures Answer(digestOf, chunkSize, stored, evs, n) == Received(|ChunksSince(evs, n + 1, evs[n].id)|)
  {
    UploadTracks(digestOf, chunkSize, stored, evs, n, evs[n].id);
  }

  /** At every moment since the upload was last started, its file holds its chunks. */
  ghost predicate AlwaysHoldsChunks(
      digestOf: Content -> string, chunkSize: nat, stored: map<Path, Content>, evs: seq<Event>, n: nat, id: Id)
    requires chunkSize > 0 && n <= |evs|
  {
    forall k :: LastStart(evs, n, id) < k <= n ==> HoldsChunks(Before(digestOf, chunkSize, stored, evs, k), evs, k, id)
  }

  lemma ChunkKeepsExactly(
      digestOf: Content -> string, chunkSize: nat, stored: map<Path, Content>, evs: seq<Event>, n: nat, id: Id)
    requires chunkSize > 0 && 0 < n <= |evs| && !IsStart(evs[n - 1], id)
    requires Uploading(Before(digestOf, chunkSize, stored, evs, n), id)
    requires HoldsChunks(Before(digestOf, chunkSize, stored, evs, n - 1), evs, n - 1, id)
    ensures HoldsChunks(Before(digestOf, chunkSize, stored, evs, n), evs, n, id) <==>
      (IsChunk(evs[n - 1], id) && evs[n - 1].chunk != [] ==>
         WritePosition(chunkSize, evs, n - 1, id) == |Concat(ChunksSince(evs, n - 1, id))|)
  {
    var s, e, chunks := Before(digestOf, chunkSize, stored, evs, n - 1), evs[n - 1], ChunksSince(evs, n - 1, id);
    UploadStep(digestOf, chunkSize, s, e, id);
    UploadTracks(digestOf, chunkSize, stored, evs, n - 1, id);
    if IsChunk(e, id) {
      ConcatSnoc(chunks, e.chunk);
      AppendsExactly(Concat(chunks), WritePosition(chunkSize, evs, n - 1, id), e.chunk);
    } else {
      assert chunks + [] == chunks;
    }
  }

  /**
   Whatever other transfers do meanwhile, an open upload is at every moment since its start the
   concatenation of its own chunks exactly when the start found no upload holding back bytes
   under its id, and every chunk came with the write position at the end.
   */
  lemma {:induction false} UploadIsConcatenationExactly(
      digestOf: Content -> string, chunkSize: nat, stored: map<Path, Content>, evs: seq<Event>, n: nat, id: Id)
    requires chunkSize > 0 && n <= |evs| && Uploading(Before(digestOf, chunkSize, stored, evs, n), id)
    ensures AlwaysHoldsChunks(digestOf, chunkSize, stored, evs, n, id) <==>
      Aligned(chunkSize, evs, n, id) &&
      !HoldsBack(Before(digestOf, chunkSize, stored, evs, LastStart(evs, n, id)), id)
  {
    UploadTracks(digestOf, chunkSize, stored, evs, n, id);
    if IsStart(evs[n - 1], id) {
      assert HoldsChunks(Before(digestOf, chunkSize, stored, evs, n), evs, n, id) <==>
        !HoldsBack(Before(digestOf, chunkSize, stored, evs, n - 1), id);
    } else {
      UploadStep(digestOf, chunkSize, Before(digestOf, chunkSize, stored, evs, n - 1), evs[n - 1], id);
      UploadTracks(digestOf, chunkSize, stored, evs, n - 1, id);
      UploadIsConcatenationExactly(digestOf, chunkSize, stored, evs, n - 1, id);
      var m := LastStart(evs, n, id);
      assert AlwaysHoldsChunks(digestOf, chunkSize, stored, evs, n, id) <==>
        AlwaysHoldsChunks(digestOf, chunkSize, stored, evs, n - 1, id) &&
        HoldsChunks(Before(digestOf, chunkSize, stored, evs, n), evs, n, id);
      if AlwaysHoldsChunks(digestOf, chunkSize, stored, evs, n - 1, id) {
        assert HoldsChunks(Before(digestOf, chunkSize, stored, evs, n - 1), evs, n - 1, id);
        ChunkKeepsExactly(digestOf, chunkSize, stored, evs, n, id);
      }
    }
  }

  /**
   Completing an upload closes it, and succeeds exactly when what was written under its id has
   the digest declared for it, and then that is stored, at the path declared for it unless that
   is taken. What was written is its own chunks in
   arrival order if it is aligned and at least as long as what its start found held back.
   */
  lemma CompletionIsChecked(
      digestOf: Content -> string, chunkSize: nat, stored: map<Path, Content>, evs: seq<Event>, n: nat)
    requires chunkSize > 0 && n < |evs| && evs[n].CompleteReceive?
    requires Uploading(Before(digestOf, chunkSize, stored, evs, n), evs[n].id)
    ensures var id := evs[n].id;
      var residue, own := ResidueAtStart(digestOf, chunkSize, stored, evs, n, id), Concat(ChunksSince(evs, n, id));
      var content := Overlay(chunkSize, evs, n, id, residue);
      var reply := Answer(digestOf, chunkSize, stored, evs, n);
      var before := Before(digestOf, chunkSize, stored, evs, n);
      var after := Before(digestOf, chunkSize, stored, evs, n + 1);
      && after.active == before.active - {id}
      && (reply.Completed? <==> digestOf(content) == Declared(evs, n, id))
      && (reply.Completed? ==>
            reply.path == if Destination(evs, n, id) in before.stored then evs[n].altPath else Destination(evs, n, id))
      && (reply.Completed? ==> after.stored == before.stored[reply.path := content])
      && (!reply.Completed? ==> reply == DigestMismatch && after.stored == before.stored)
      && (Aligned(chunkSize, evs, n, id) ==> (content == own <==> |own| >= |residue|))
  {
    var id := evs[n].id;
    UploadTracks(digestOf, chunkSize, stored, evs, n, id);
    if Aligned(chunkSize, evs, n, id) { AlignedUploadExactly(digestOf, chunkSize, stored, evs, n, id); }
  }

  /** In every run, a transfer reported as completed has stored a file with the digest declared for it. */
  lemma CompletedHasDigest(
      digestOf: Content -> string, chunkSize: nat, stored: map<Path, Content>, evs: seq<Event>, n: nat)
    requires chunkSize > 0 && n < |evs| && Answer(digestOf, chunkSize, stored, evs, n).Completed?
    ensures evs[n].CompleteReceive?
    ensures var after := Before(digestOf, chunkSize, stored, evs, n + 1);
      var path := Answer(digestOf, chunkSize, stored, evs, n).path;
      path in after.stored && digestOf(after.stored[path]) == Declared(evs, n, evs[n].id)
  {
    UploadTracks(digestOf, chunkSize, stored, evs, n, evs[n].id);
  }

  /**
   A download request under the id of an upload fails, but first moves the write position, so
   that the next chunk replaces earlier bytes.
   */
  lemma DisturbedUploadIsOverwritten(digestOf: Content -> string, a: byte, b: byte)
    ensures var evs := [StartReceive("u", "f", 2, "d"), ReceiveChunk("u", [a], 0),
                        GetChunk("u", 0), ReceiveChunk("u", [b], 0)];
      var s := Before(digestOf, 1, map[], evs, 4);
      Uploading(s, "u") && s.active["u"].content == [b] && ChunksSince(evs, 4, "u") == [[a], [b]]
  {
    var evs := [StartReceive("u", "f", 2, "d"), ReceiveChunk("u", [a], 0),
                GetChunk("u", 0), ReceiveChunk("u", [b], 0)];
    assert Before(digestOf, 1, map[], evs, 1).active["u"] == Upload("f", "d", [], 0, [], 0);
    assert Before(digestOf, 1, map[], evs, 2).active["u"] == Upload("f", "d", [a], 1, [], 1);
    assert Before(digestOf, 1, map[], evs, 3).active["u"] == Upload("f", "d", [a], 0, [], 1);
    assert WriteAt([a], 0, [b]) == [b];
    assert ChunksSince(evs, 2, "u") == [[a]];
    assert [[a]] + [] == [[a]] && [[a]] + [[b]] == [[a], [b]];
  }

  /**
   Starting an upload under the id of one that still holds back bytes leaves those bytes in the
   new file: the shorter second upload does not cover them.
   */
  lemma RestartMixesUploads(digestOf: Content -> string, a: byte, b: byte, c: byte)
    ensures var evs := [StartReceive("u", "f", 2, "d"), ReceiveChunk("u", [a, b], 2),
                        StartReceive("u", "f", 1, "d"), ReceiveChunk("u", [c], 1)];
      var s := Before(digestOf, 1, map[], evs, 4);
      Uploading(s, "u") && s.active["u"].content == [c, b] && ChunksSince(evs, 4, "u") == [[c]]
  {
    var evs := [StartReceive("u", "f", 2, "d"), ReceiveChunk("u", [a, b], 2),
                StartReceive("u", "f", 1, "d"), ReceiveChunk("u", [c], 1)];
    assert Before(digestOf, 1, map[], evs, 1).active["u"] == Upload("f", "d", [], 0, [], 0);
    assert Before(digestOf, 1, map[], evs, 2).active["u"] == Upload("f", "d", [a, b], 0, [a, b], 1);
    assert Before(digestOf, 1, map[], evs, 3).active["u"] == Upload("f", "d", [a, b], 0, [], 0);
    assert WriteAt([a, b], 0, [c]) == [c, b];
    assert [] + [[c]] == [[c]];
  }
}
