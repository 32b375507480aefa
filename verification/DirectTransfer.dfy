/** Approach A, one connection: what each side puts on the wire and does with what it hears.
    `sha` is any function of byte strings with 32-byte results. */
module DirectStream {
  import opened Prelude
  import opened BigEndian
  import opened Files
  import opened Framing

  type Sha = h: Bytes -> Bytes | forall m :: |h(m)| == SHA256_LEN
    ghost witness m => Zeros(SHA256_LEN)

  const HEADER_LEN: nat := 16

  // ---- sender ----

  function SplitChunks(data: Bytes): seq<Bytes>
    decreases |data|
  {
    if data == [] then []
    else if |data| <= CHUNK_SIZE then [data]
    else [data[..CHUNK_SIZE]] + SplitChunks(data[CHUNK_SIZE..])
  }

  lemma {:induction false} SplitIsLossless(data: Bytes)
    ensures DataChunks(SplitChunks(data))
    ensures Concat(SplitChunks(data)) == data
    decreases |data|
  {
    if |data| > CHUNK_SIZE {
      SplitIsLossless(data[CHUNK_SIZE..]);
      assert SplitChunks(data)[1..] == SplitChunks(data[CHUNK_SIZE..]);
    }
  }

  /** The first `j` blocks are the first `j` MiB of the data, or all of it, and so many frames take eight
      bytes each on top. */
  lemma {:induction false} LeadingBlocks(data: Bytes, j: nat)
    requires j <= |SplitChunks(data)|
    ensures DataChunks(SplitChunks(data))
    ensures Concat(SplitChunks(data)[..j]) == data[..Min(j * 1048576, |data|)]
    ensures |Frames(SplitChunks(data)[..j])| == 8 * j + Min(j * 1048576, |data|)
    ensures j == |SplitChunks(data)| ==> |data| <= j * 1048576
    ensures j < |SplitChunks(data)| ==> j * 1048576 < |data|
    decreases |data|
  {
    hide Frame;
    SplitIsLossless(data);
    var chunks := SplitChunks(data);
    if j > 0 {
      FramesStep(chunks, j);
      FrameLayout(chunks[0]);
      if |data| > CHUNK_SIZE {
        var rest := data[CHUNK_SIZE..];
        assert chunks[1..] == SplitChunks(rest);
        LeadingBlocks(rest, j - 1);
        assert data[..CHUNK_SIZE] + rest[..Min((j - 1) * 1048576, |rest|)] == data[..Min(j * 1048576, |data|)];
      } else {
        var none: seq<Bytes> := [];
        assert chunks == [data] && chunks[1..][..j - 1] == none;
        assert chunks[0] + [] == data;
      }
    }
  }

  function Accepted(size: nat, claim: nat): nat {
    if claim <= size then claim else 0
  }

  function Header(size: nat, offset: nat): (h: Bytes)
    requires size < LIMIT && offset < LIMIT
    ensures |h| == HEADER_LEN
  {
    Pack64(size) + Pack64(offset)
  }

  /** The header says the file size and then the accepted offset. */
  lemma HeaderLayout(size: nat, offset: nat)
    requires size < LIMIT && offset < LIMIT
    ensures |Header(size, offset)| == 16
    ensures Unpack(Header(size, offset)[..8]) == size && Unpack(Header(size, offset)[8..]) == offset
  {
    assert Header(size, offset)[..8] == Pack64(size) && Header(size, offset)[8..] == Pack64(offset);
  }

  /** Everything the sender writes once it has read the claimed offset. */
  function SenderOutput(sha: Sha, source: Bytes, claim: nat): Bytes
    requires |source| < LIMIT
  {
    SplitIsLossless(source[Accepted(|source|, claim)..]);
    Frame(Header(|source|, Accepted(|source|, claim)))
    + StreamOf(SplitChunks(source[Accepted(|source|, claim)..]), sha(source))
  }

  datatype SenderEnding = Sent | ClaimLost | BadClaim

  /** The sender's whole output as a function of what it heard from the receiver. */
  function SenderReply(sha: Sha, source: Bytes, heard: Bytes): Bytes
    requires |source| < LIMIT
  {
    match TakeFrame(heard)
    case Closed(_) => []
    case Got(claim, _) => if |claim| == 8 then SenderOutput(sha, source, Unpack(claim)) else []
  }

  /** What the sender says, and to what: nothing unless it hears eight bytes of claim in a frame; otherwise a
      header with the file size and the claim, or 0 if the claim is past the end, the blocks from there on,
      and the digest of the whole file. */
  lemma SenderExactly(sha: Sha, source: Bytes, claim: nat, rest: Bytes)
    requires |source| < LIMIT && claim < LIMIT
    ensures TakeFrame(rest).Closed? || |TakeFrame(rest).value| != 8 ==> SenderReply(sha, source, rest) == []
    ensures var offset := if claim <= |source| then claim else 0;
            && DataChunks(SplitChunks(source[offset..]))
            && SenderReply(sha, source, Frame(Pack64(claim)) + rest)
               == Frame(Header(|source|, offset)) + StreamOf(SplitChunks(source[offset..]), sha(source))
  {
    hide Frame, TakeFrame, StreamOf, SplitChunks;
    TakeFrameOfFrame(Pack64(claim), rest);
    SplitIsLossless(source[if claim <= |source| then claim else 0..]);
  }

  // ---- receiver ----

  datatype Disk = Disk(part: Option<Bytes>, out: Option<Bytes>)

  /** How one run of the receiver ends. `SetupLost`: the connection ended before the header;
      `BadHeader`: a header of the wrong size, which `struct` refuses. */
  datatype Ending = SetupLost | BadHeader | Interrupted | Rejected | Promoted

  datatype RunResult = RunResult(disk: Disk, ending: Ending, written: nat)

  function PartBytes(disk: Disk): Bytes {
    if disk.part.Some? then disk.part.value else []
  }

  ghost predicate Claimable(disk: Disk) {
    |PartBytes(disk)| < LIMIT
  }

  function ClaimFrame(disk: Disk): Bytes
    requires |PartBytes(disk)| < LIMIT
  {
    Frame(Pack64(|PartBytes(disk)|))
  }

  /** The bytes of `.part` the receiver keeps, given the offset the sender accepted. */
  function Kept(disk: Disk, accepted: nat): Bytes {
    if accepted == |PartBytes(disk)| then PartBytes(disk) else []
  }

  function Conclude(sha: Sha, disk: Disk, base: Bytes, total: nat, e: StreamEnd): RunResult {
    var bytes := base + e.data;
    match e
    case Dropped(data) => RunResult(disk.(part := Some(bytes)), Interrupted, |data|)
    case Finished(data, digest, _) =>
      if |bytes| == total && sha(bytes) == digest then
        RunResult(Disk(None, Some(bytes)), Promoted, |data|)
      else
        RunResult(disk.(part := None), Rejected, |data|)
  }

  function ReceiveRun(sha: Sha, disk: Disk, heard: Bytes): RunResult {
    match TakeFrame(heard)
    case Closed(_) => RunResult(disk, SetupLost, 0)
    case Got(header, rest) =>
      if |header| != HEADER_LEN then RunResult(disk, BadHeader, 0)
      else
        Conclude(sha, disk, Kept(disk, Unpack(header[8..])), Unpack(header[..8]), ReadStream(rest))
  }
}

/** Approach A, the two programs as they run. */
module DirectPrograms {
  import opened Prelude
  import opened BigEndian
  import opened Files
  import opened Framing
  import opened DirectStream

  /** The hash-only loop over the bytes the receiver already has. */
  method SkipPrefix(f: Reader, n: nat) returns (h: Bytes)
    requires f.Valid() && f.pos == 0 && n <= |f.content|
    modifies f
    ensures f.Valid() && f.pos == n
    ensures h == f.content[..n]
  {
    h := [];
    var remainingPrefix := n;
    while remainingPrefix > 0
      invariant f.Valid() && remainingPrefix >= 0
      invariant f.pos + remainingPrefix == n
      invariant h == f.content[..f.pos]
    {
      var block := f.Read(Min(CHUNK_SIZE, remainingPrefix));
      h := h + block;
      remainingPrefix := remainingPrefix - |block|;
    }
  }

  /** The hash-and-send loop over the rest of the file. */
  method SendRest(f: Reader, prefix: Bytes, wire: Wire) returns (h: Bytes)
    requires f.Valid() && prefix == f.content[..f.pos]
    modifies f, wire
    ensures h == f.content
    ensures DataChunks(SplitChunks(f.content[old(f.pos)..]))
    ensures wire.sent == old(wire.sent) + Frames(SplitChunks(f.content[old(f.pos)..]))
  {
    h := prefix;
    ghost var chunks := SplitChunks(f.content[f.pos..]);
    SplitIsLossless(f.content[f.pos..]);
    ghost var sentNow: Bytes := [];
    var more := true;
    while more
      invariant f.Valid()
      invariant h == f.content[..f.pos]
      invariant DataChunks(SplitChunks(f.content[f.pos..]))
      invariant wire.sent == old(wire.sent) + sentNow
      invariant sentNow + Frames(SplitChunks(f.content[f.pos..])) == Frames(chunks)
      invariant !more ==> f.pos == |f.content|
      decreases |f.content| - f.pos, more
    {
      ghost var at := f.pos;
      var chunk := f.Read(CHUNK_SIZE);
      if chunk == [] {
        more := false;
      } else {
        NextChunk(f.content, at, f.pos);
        Extend(f.content, at, f.pos);
        Regroup(sentNow, Frame(chunk), Frames(SplitChunks(f.content[f.pos..])));
        Regroup(old(wire.sent), sentNow, Frame(chunk));
        h := h + chunk;
        wire.SendFrame(chunk);
        sentNow := sentNow + Frame(chunk);
      }
    }
  }

  method Stream(sha: Sha, source: Bytes, conn: Channel, wire: Wire) returns (ending: SenderEnding)
    requires |source| < LIMIT
    modifies conn, wire
    ensures wire.sent == old(wire.sent) + SenderReply(sha, source, old(conn.pending))
    ensures ending == match TakeFrame(old(conn.pending))
                      case Closed(_) => ClaimLost
                      case Got(claim, _) => if |claim| == 8 then Sent else BadClaim
  {
    var frame := conn.RecvFrame();
    if frame.Closed? {
      return ClaimLost;
    }
    if |frame.value| != 8 {
      return BadClaim;
    }
    var accepted := Accepted(|source|, Unpack(frame.value));
    wire.SendFrame(Header(|source|, accepted));
    ghost var body := SendBody(sha, source, accepted, wire);
    Regroup(old(wire.sent), Frame(Header(|source|, accepted)), body);
    ending := Sent;
  }

  /** Both loops, the end marker and the trailer. */
  method SendBody(sha: Sha, source: Bytes, accepted: nat, wire: Wire) returns (ghost body: Bytes)
    requires accepted <= |source| < LIMIT
    modifies wire
    ensures DataChunks(SplitChunks(source[accepted..]))
    ensures body == StreamOf(SplitChunks(source[accepted..]), sha(source))
    ensures wire.sent == old(wire.sent) + body
  {
    var f := new Reader(source);
    var h := SkipPrefix(f, accepted);
    h := SendRest(f, h, wire);
    ghost var frames := Frames(SplitChunks(source[accepted..]));
    wire.SendFrame([]);
    wire.SendAll(sha(h));
    Regroup(old(wire.sent), frames, Frame([]));
    Regroup(old(wire.sent), frames + Frame([]), sha(source));
    body := frames + Frame([]) + sha(source);
  }

  lemma Regroup(a: Bytes, b: Bytes, c: Bytes)
    ensures (a + b) + c == a + (b + c)
  {
  }

  lemma Extend(content: Bytes, at: nat, next: nat)
    requires at <= next <= |content|
    ensures content[..at] + content[at..next] == content[..next]
  {
  }

  lemma NextChunk(source: Bytes, at: nat, next: nat)
    requires at < |source| && next == Min(at + CHUNK_SIZE, |source|)
    requires DataChunks(SplitChunks(source[at..]))
    ensures DataChunks(SplitChunks(source[next..]))
    ensures 0 < |source[at..next]| < LIMIT
    ensures Frames(SplitChunks(source[at..])) == Frame(source[at..next]) + Frames(SplitChunks(source[next..]))
  {
    var data := source[at..];
    var chunk := source[at..next];
    SplitIsLossless(source[next..]);
    if |data| <= CHUNK_SIZE {
      assert chunk == data;
      assert SplitChunks(data) == [chunk];
      assert source[next..] == [];
    } else {
      assert data[..CHUNK_SIZE] == chunk;
      assert data[CHUNK_SIZE..] == source[next..];
    }
    assert SplitChunks(data) == [chunk] + SplitChunks(source[next..]);
    assert SplitChunks(data)[1..] == SplitChunks(source[next..]);
  }

  /** What the rest of the stream yields once a frame has been read. */
  ghost function Continue(frame: Received): StreamEnd {
    match frame
    case Closed(_) => Dropped([])
    case Got(payload, rest) =>
      if payload != [] then Prepend(payload, ReadStream(rest))
      else
        match TakeExact(rest, SHA256_LEN)
        case Closed(_) => Dropped([])
        case Got(digest, tail) => Finished([], digest, tail)
  }

  lemma ContinueIsReadStream(s: Bytes)
    ensures ReadStream(s) == Continue(TakeFrame(s))
  {
  }

  lemma ContinuePast(data: Bytes, frame: Received)
    requires frame.Got? && frame.value != []
    ensures Prepend(data, Continue(frame)) == Prepend(data + frame.value, Continue(TakeFrame(frame.rest)))
  {
    ContinueIsReadStream(frame.rest);
    PrependTwice(data, frame.value, ReadStream(frame.rest));
  }

  lemma WriteAtEnd(file: Bytes, data: Bytes)
    ensures WriteAt(file, |file|, data) == file + data
  {
  }

  lemma PrependTwice(a: Bytes, b: Bytes, e: StreamEnd)
    ensures Prepend(a, Prepend(b, e)) == Prepend(a + b, e)
  {
    assert a + (b + e.data) == (a + b) + e.data;
  }

  /** The receiving host: `.part` and the final name, `None` when the file does not exist. */
  class Receiver {
    var part: Option<Bytes>
    var out: Option<Bytes>

    ghost function State(): Disk
      reads this
    {
      Disk(part, out)
    }

    constructor (disk: Disk)
      ensures State() == disk
    {
      part, out := disk.part, disk.out;
    }

    method Receive(sha: Sha, conn: Channel, wire: Wire) returns (ending: Ending, written: nat)
      requires Claimable(State())
      modifies this, conn, wire
      ensures wire.sent == old(wire.sent) + ClaimFrame(old(State()))
      ensures RunResult(State(), ending, written) == ReceiveRun(sha, old(State()), old(conn.pending))
    {
      var claimedOffset := if part.Some? then |part.value| else 0;
      wire.SendFrame(Pack64(claimedOffset));
      var frame := conn.RecvFrame();
      if frame.Closed? {
        return SetupLost, 0;
      }
      if |frame.value| != HEADER_LEN {
        return BadHeader, 0;
      }
      var totalSize, acceptedOffset := Unpack(frame.value[..8]), Unpack(frame.value[8..]);
      ending, written := ReceiveBody(sha, conn, claimedOffset, acceptedOffset, totalSize);
    }

    /** Everything after the header: resume or restart, read the stream, verify, promote. */
    method ReceiveBody(sha: Sha, conn: Channel, claimed: nat, accepted: nat, total: nat)
      returns (ending: Ending, written: nat)
      requires claimed == |PartBytes(State())|
      modifies this, conn
      ensures RunResult(State(), ending, written)
           == Conclude(sha, old(State()), Kept(old(State()), accepted), total, ReadStream(old(conn.pending)))
    {
      var h := OpenPart(claimed, accepted);
      var digest: Option<Bytes>;
      h, digest, written := ReceiveFrames(conn, h, |h|);
      if digest.None? {
        return Interrupted, written;
      }
      if |h| == total && sha(h) == digest.value {
        out := part;
        part := None;
        return Promoted, written;
      }
      part := None;
      return Rejected, written;
    }

    /** Keep and re-hash the partial file, or discard it, and open it for writing. */
    method OpenPart(claimed: nat, accepted: nat) returns (h: Bytes)
      requires claimed == |PartBytes(State())|
      modifies this`part
      ensures h == Kept(old(State()), accepted)
      ensures part == Some(h)
    {
      h := [];
      var offset := accepted;
      if accepted != claimed {
        part := None;
        offset := 0;
      } else if accepted > 0 {
        var fed := FeedPrefix(part.value, accepted);
        h := fed.value;
      }
      if offset == 0 {
        part := Some([]);
      }
    }

    /** The frame loop and the trailer; no digest means the connection dropped. */
    method ReceiveFrames(conn: Channel, base: Bytes, offset: nat)
      returns (h: Bytes, digest: Option<Bytes>, written: nat)
      requires part == Some(base) && offset == |base|
      modifies this`part, conn
      ensures part == Some(h)
      ensures match ReadStream(old(conn.pending))
              case Dropped(data) => h == base + data && digest == None && written == |data|
              case Finished(data, d, _) => h == base + data && digest == Some(d) && written == |data|
    {
      h := base;
      written := 0;
      var received := offset;
      ghost var start := conn.pending;
      ghost var data: Bytes := [];
      var frame := conn.RecvFrame();
      while frame.Got? && frame.value != []
        invariant h == base + data && part == Some(h)
        invariant received == |h| && written == |data|
        invariant frame.Got? ==> conn.pending == frame.rest
        invariant Continue(TakeFrame(start)) == Prepend(data, Continue(frame))
        decreases if frame.Got? then 1 + |frame.rest| else 0
      {
        var chunk := frame.value;
        ContinuePast(data, frame);
        Regroup(base, data, chunk);
        WriteAtEnd(h, chunk);
        part := Some(WriteAt(part.value, received, chunk));
        h := h + chunk;
        received := received + |chunk|;
        written := written + |chunk|;
        frame := conn.RecvFrame();
        data := data + chunk;
      }
      ContinueIsReadStream(start);
      digest := None;
      if frame.Got? {
        var trailer := conn.RecvExact(SHA256_LEN);
        if trailer.Got? {
          digest := Some(trailer.value);
        }
      }
    }
  }
}
