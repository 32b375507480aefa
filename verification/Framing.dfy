/** The length-prefixed framing of common/util.py, over a connection that may close after any byte. */
module Framing {
  import opened Prelude
  import opened BigEndian

  const RECV_SIZE: nat := 65536
  const SHA256_LEN: nat := 32

  /** What a read of the connection yields: a value and what is left, or the ConnectionError
      that reports how many bytes of the message had arrived. */
  datatype Received = Got(value: Bytes, rest: Bytes) | Closed(arrived: nat)

  function TakeExact(s: Bytes, n: nat): Received {
    if n <= |s| then Got(s[..n], s[n..]) else Closed(|s|)
  }

  function TakeFrame(s: Bytes): Received {
    match TakeExact(s, 8)
    case Closed(k) => Closed(k)
    case Got(header, rest) => TakeExact(rest, Unpack(header))
  }

  function Frame(payload: Bytes): Bytes
    requires |payload| < LIMIT
  {
    Pack64(|payload|) + payload
  }

  lemma TakeFrameOfFrame(payload: Bytes, tail: Bytes)
    requires |payload| < LIMIT
    ensures TakeFrame(Frame(payload) + tail) == Got(payload, tail)
  {
    var s := Frame(payload) + tail;
    assert s[..8] == Pack64(|payload|);
    assert s[8..] == payload + tail;
    assert (payload + tail)[..|payload|] == payload;
    assert (payload + tail)[|payload|..] == tail;
  }

  lemma TakeFrameOfCut(payload: Bytes, k: nat)
    requires |payload| < LIMIT
    requires k < |Frame(payload)|
    ensures TakeFrame(Frame(payload)[..k]).Closed?
  {
    var s := Frame(payload)[..k];
    if k >= 8 {
      assert s[..8] == Pack64(|payload|);
    }
  }

  /** The reading end of a connection: the bytes that will still arrive before it ends. */
  class Channel {
    var pending: Bytes

    constructor (bytes: Bytes)
      ensures pending == bytes
    {
      pending := bytes;
    }

    /** One `recv`: any non-empty part of what is pending, or nothing once the peer has closed. */
    method Recv(limit: nat) returns (block: Bytes)
      requires limit > 0
      modifies this
      ensures block + pending == old(pending)
      ensures |block| <= limit
      ensures block == [] <==> old(pending) == []
    {
      if pending == [] {
        return [];
      }
      var k :| 1 <= k <= |pending| && k <= limit;
      block := pending[..k];
      pending := pending[k..];
    }

    /** `recv_exact`: however `recv` fragments the bytes, exactly `n` of them or an error. */
    method RecvExact(n: nat) returns (r: Received)
      modifies this
      ensures r == TakeExact(old(pending), n)
      ensures pending == if r.Got? then r.rest else []
    {
      var buf: Bytes := [];
      while |buf| < n
        invariant |buf| <= n
        invariant buf + pending == old(pending)
      {
        var block := Recv(Min(RECV_SIZE, n - |buf|));
        if block == [] {
          return Closed(|buf|);
        }
        buf := buf + block;
      }
      assert old(pending)[..n] == buf;
      assert old(pending)[n..] == pending;
      r := Got(buf, pending);
    }

    method RecvFrame() returns (r: Received)
      modifies this
      ensures r == TakeFrame(old(pending))
      ensures pending == if r.Got? then r.rest else []
    {
      r := RecvExact(8);
      if r.Got? {
        r := RecvExact(Unpack(r.value));
      }
    }
  }

  /** The writing end of a connection: everything handed to `sendall`, in order. */
  class Wire {
    var sent: Bytes

    constructor ()
      ensures sent == []
    {
      sent := [];
    }

    method SendAll(data: Bytes)
      modifies this
      ensures sent == old(sent) + data
    {
      sent := sent + data;
    }

    method SendFrame(payload: Bytes)
      requires |payload| < LIMIT
      modifies this
      ensures sent == old(sent) + Frame(payload)
    {
      SendAll(Pack64(|payload|));
      SendAll(payload);
    }
  }

  // ---- a stream: data frames, an empty frame, a 32-byte digest ----

  function Concat(chunks: seq<Bytes>): Bytes {
    if chunks == [] then [] else chunks[0] + Concat(chunks[1..])
  }

  ghost predicate DataChunks(chunks: seq<Bytes>) {
    forall i :: 0 <= i < |chunks| ==> 0 < |chunks[i]| < LIMIT
  }

  function Frames(chunks: seq<Bytes>): Bytes
    requires DataChunks(chunks)
  {
    if chunks == [] then [] else Frame(chunks[0]) + Frames(chunks[1..])
  }

  function StreamOf(chunks: seq<Bytes>, digest: Bytes): Bytes
    requires DataChunks(chunks)
  {
    Frames(chunks) + Frame([]) + digest
  }

  /** What the receiving loop gets out of a byte string: the data delivered, and whether the
      end marker and the digest followed it or the connection dropped first. */
  datatype StreamEnd =
    | Finished(data: Bytes, digest: Bytes, rest: Bytes)
    | Dropped(data: Bytes)

  function Prepend(data: Bytes, e: StreamEnd): StreamEnd {
    e.(data := data + e.data)
  }

  function ReadStream(s: Bytes): StreamEnd
    decreases |s|
  {
    match TakeFrame(s)
    case Closed(_) => Dropped([])
    case Got(payload, rest) =>
      if payload != [] then Prepend(payload, ReadStream(rest))
      else
        match TakeExact(rest, SHA256_LEN)
        case Closed(_) => Dropped([])
        case Got(digest, tail) => Finished([], digest, tail)
  }

  /** What is on the wire: eight bytes of length, most significant first, then the payload. */
  lemma FrameLayout(payload: Bytes)
    requires |payload| < LIMIT
    ensures |Frame(payload)| == 8 + |payload|
    ensures Unpack(Frame(payload)[..8]) == |payload| && Frame(payload)[8..] == payload
  {
    assert Frame(payload)[..8] == Pack64(|payload|);
  }

  lemma {:induction false} UnpackZeros(n: nat)
    ensures Unpack(Zeros(n)) == 0
  {
    if n > 0 {
      UnpackZeros(n - 1);
      assert Zeros(n)[..n - 1] == Zeros(n - 1);
    }
  }

  /** A stream is its data frames one after the other, eight zero bytes, and the digest. */
  lemma StreamLayout(chunks: seq<Bytes>, digest: Bytes)
    requires DataChunks(chunks)
    ensures StreamOf(chunks, digest) == Frames(chunks) + Zeros(8) + digest
    ensures chunks == [] ==> Frames(chunks) == []
    ensures chunks != [] ==> Frames(chunks) == Frame(chunks[0]) + Frames(chunks[1..])
  {
    UnpackZeros(8);
    Pack64OfUnpack(Zeros(8));
    assert Frame([]) == Zeros(8) + [];
  }

  /** Data frames that arrive whole are delivered, whatever follows them. */
  lemma {:induction false} FramesAreDelivered(chunks: seq<Bytes>, rest: Bytes)
    requires DataChunks(chunks)
    ensures ReadStream(Frames(chunks) + rest) == Prepend(Concat(chunks), ReadStream(rest))
  {
    hide Frame, TakeFrame, ReadStream;
    if chunks == [] {
      assert Frames(chunks) + rest == rest;
      assert [] + ReadStream(rest).data == ReadStream(rest).data;
    } else {
      var tail := Frames(chunks[1..]);
      assert Frames(chunks) + rest == Frame(chunks[0]) + (tail + rest);
      ReadDataFrame(chunks[0], tail + rest);
      FramesAreDelivered(chunks[1..], rest);
      assert chunks[0] + (Concat(chunks[1..]) + ReadStream(rest).data) == Concat(chunks) + ReadStream(rest).data;
    }
  }

  /** What can be left of a stream after its whole data frames when the connection drops: less than a
      frame, or the end marker and less than a digest. */
  ghost predicate Fragment(rest: Bytes) {
    || |rest| < 8
    || (|rest| - 8 < Unpack(rest[..8]))
    || (Unpack(rest[..8]) == 0 && |rest| - 8 < 32)
  }

  lemma FragmentDelivers(rest: Bytes)
    requires Fragment(rest)
    ensures ReadStream(rest) == Dropped([])
  {
  }

  /** Reading back what was sent gives exactly the data and the digest, and leaves what follows. */
  lemma {:induction false} StreamIsExact(chunks: seq<Bytes>, digest: Bytes, tail: Bytes)
    requires DataChunks(chunks)
    requires |digest| == SHA256_LEN
    ensures ReadStream(StreamOf(chunks, digest) + tail) == Finished(Concat(chunks), digest, tail)
  {
    hide StreamOf, Frame, TakeFrame;
    if chunks == [] {
      EndOfStream(digest, tail);
    } else {
      var rest := StreamOf(chunks[1..], digest);
      StreamOfCons(chunks, digest);
      assert (Frame(chunks[0]) + rest) + tail == Frame(chunks[0]) + (rest + tail);
      ReadDataFrame(chunks[0], rest + tail);
      StreamIsExact(chunks[1..], digest, tail);
    }
  }

  lemma EndOfStream(digest: Bytes, tail: Bytes)
    requires |digest| == SHA256_LEN
    ensures ReadStream(StreamOf([], digest) + tail) == Finished([], digest, tail)
  {
    assert StreamOf([], digest) + tail == Frame([]) + (digest + tail);
    TakeFrameOfFrame([], digest + tail);
    assert (digest + tail)[..SHA256_LEN] == digest;
    assert (digest + tail)[SHA256_LEN..] == tail;
  }

  /** A stream cut after `k` bytes delivers exactly the data frames that fit whole into `k` bytes. */
  lemma {:induction false} CutStreamDeliversWholeFrames(chunks: seq<Bytes>, digest: Bytes, k: nat) returns (j: nat)
    requires DataChunks(chunks)
    requires |digest| == SHA256_LEN
    requires k < |StreamOf(chunks, digest)|
    ensures j <= |chunks|
    ensures |Frames(chunks[..j])| <= k
    ensures j < |chunks| ==> k < |Frames(chunks[..j + 1])|
    ensures ReadStream(StreamOf(chunks, digest)[..k]) == Dropped(Concat(chunks[..j]))
  {
    hide Frame, TakeFrame, ReadStream, StreamOf, Frames, Concat;
    EmptyStream(digest);
    assert chunks[..0] == [];
    if chunks == [] {
      j := 0;
      CutTrailer(digest, k);
    } else if k < |Frame(chunks[0])| {
      j := 0;
      CutFirstFrame(chunks, digest, k);
    } else {
      var n := |Frame(chunks[0])|;
      StreamStep(chunks, digest, k);
      var i := CutStreamDeliversWholeFrames(chunks[1..], digest, k - n);
      j := i + 1;
      FramesStep(chunks, j);
      if j < |chunks| {
        FramesStep(chunks, j + 1);
      }
    }
  }

  lemma EmptyStream(digest: Bytes)
    ensures StreamOf([], digest) == Frame([]) + digest
    ensures Frames([]) == [] && Concat([]) == []
  {
  }

  lemma CutFirstFrame(chunks: seq<Bytes>, digest: Bytes, k: nat)
    requires DataChunks(chunks) && chunks != []
    requires k < |Frame(chunks[0])|
    ensures ReadStream(StreamOf(chunks, digest)[..k]) == Dropped([])
    ensures k < |Frames(chunks[..1])|
  {
    assert StreamOf(chunks, digest)[..k] == Frame(chunks[0])[..k];
    TakeFrameOfCut(chunks[0], k);
    FramesStep(chunks, 1);
  }

  lemma FramesStep(chunks: seq<Bytes>, j: nat)
    requires DataChunks(chunks) && 0 < j <= |chunks|
    ensures Frames(chunks[..j]) == Frame(chunks[0]) + Frames(chunks[1..][..j - 1])
    ensures Concat(chunks[..j]) == chunks[0] + Concat(chunks[1..][..j - 1])
  {
    assert chunks[..j][1..] == chunks[1..][..j - 1];
  }

  lemma StreamStep(chunks: seq<Bytes>, digest: Bytes, k: nat)
    requires DataChunks(chunks) && chunks != []
    requires |Frame(chunks[0])| <= k <= |StreamOf(chunks, digest)|
    ensures |StreamOf(chunks, digest)| == |Frame(chunks[0])| + |StreamOf(chunks[1..], digest)|
    ensures ReadStream(StreamOf(chunks, digest)[..k])
         == Prepend(chunks[0], ReadStream(StreamOf(chunks[1..], digest)[..k - |Frame(chunks[0])|]))
  {
    hide StreamOf, ReadStream, TakeFrame, Frame;
    StreamOfCons(chunks, digest);
    var rest := StreamOf(chunks[1..], digest);
    var more := rest[..k - |Frame(chunks[0])|];
    assert StreamOf(chunks, digest)[..k] == Frame(chunks[0]) + more;
    ReadDataFrame(chunks[0], more);
  }

  lemma StreamOfCons(chunks: seq<Bytes>, digest: Bytes)
    requires DataChunks(chunks) && chunks != []
    ensures StreamOf(chunks, digest) == Frame(chunks[0]) + StreamOf(chunks[1..], digest)
  {
    hide Frame;
    var head, frames := Frame(chunks[0]), Frames(chunks[1..]);
    assert (head + frames) + Frame([]) == head + (frames + Frame([]));
    assert (head + (frames + Frame([]))) + digest == head + ((frames + Frame([])) + digest);
  }

  lemma ReadDataFrame(payload: Bytes, more: Bytes)
    requires 0 < |payload| < LIMIT
    ensures ReadStream(Frame(payload) + more) == Prepend(payload, ReadStream(more))
  {
    TakeFrameOfFrame(payload, more);
  }

  lemma CutTrailer(digest: Bytes, k: nat)
    requires |digest| == SHA256_LEN
    requires k < |Frame([]) + digest|
    ensures ReadStream((Frame([]) + digest)[..k]) == Dropped([])
  {
    var s := (Frame([]) + digest)[..k];
    if k < 8 {
      assert s == Frame([])[..k];
      TakeFrameOfCut([], k);
    } else {
      assert s == Frame([]) + digest[..k - 8];
      TakeFrameOfFrame([], digest[..k - 8]);
    }
  }

  /** Whatever is read as a frame was a frame, followed by what is left. */
  lemma FrameOfTakeFrame(s: Bytes)
    requires TakeFrame(s).Got?
    ensures var Got(payload, rest) := TakeFrame(s);
            |payload| < LIMIT && s == Frame(payload) + rest && |rest| < |s|
  {
    hide Pack64, Unpack;
    var Got(payload, rest) := TakeFrame(s);
    Pack64OfUnpack(s[..8]);
    assert |payload| == Unpack(s[..8]);
    assert s[8..] == payload + rest;
    assert s[..8] + (payload + rest) == (s[..8] + payload) + rest;
  }

  lemma EndMarkerThenDigest(s: Bytes)
    requires TakeFrame(s).Got? && TakeFrame(s).value == []
    requires TakeExact(TakeFrame(s).rest, SHA256_LEN).Got?
    ensures var Got(digest, rest) := TakeExact(TakeFrame(s).rest, SHA256_LEN);
            ReadStream(s) == Finished([], digest, rest) && |digest| == SHA256_LEN
            && s == StreamOf([], digest) + rest
  {
    hide Frame;
    FrameOfTakeFrame(s);
    var Got(digest, rest) := TakeExact(TakeFrame(s).rest, SHA256_LEN);
    assert TakeFrame(s).rest == digest + rest;
    assert Frame([]) + (digest + rest) == ([] + Frame([]) + digest) + rest;
  }

  /** The converse of StreamIsExact: whatever is read to the end was the stream of some data frames,
      so nothing but an encoded stream is ever accepted as complete. */
  lemma {:induction false} StreamIsCanonical(s: Bytes) returns (chunks: seq<Bytes>)
    requires ReadStream(s).Finished?
    ensures var Finished(data, digest, rest) := ReadStream(s);
            && |digest| == SHA256_LEN && DataChunks(chunks) && Concat(chunks) == data
            && s == StreamOf(chunks, digest) + rest
    decreases |s|
  {
    hide StreamOf, Frame, TakeFrame;
    var Finished(data, digest, rest) := ReadStream(s);
    FrameOfTakeFrame(s);
    var Got(payload, more) := TakeFrame(s);
    if payload == [] {
      chunks := [];
      EndMarkerThenDigest(s);
    } else {
      var tail := StreamIsCanonical(more);
      chunks := [payload] + tail;
      assert chunks[1..] == tail;
      StreamOfCons(chunks, digest);
      assert Frame(payload) + (StreamOf(tail, digest) + rest) == (Frame(payload) + StreamOf(tail, digest)) + rest;
    }
  }

  /** No stream is a strict prefix of another: the code is prefix-free. */
  lemma StreamsArePrefixFree(c: seq<Bytes>, d: Bytes, c': seq<Bytes>, d': Bytes)
    requires DataChunks(c) && DataChunks(c')
    requires |d| == |d'| == SHA256_LEN
    requires StreamOf(c, d) <= StreamOf(c', d')
    ensures StreamOf(c, d) == StreamOf(c', d')
    ensures Concat(c) == Concat(c') && d == d'
  {
    var tail := StreamOf(c', d')[|StreamOf(c, d)|..];
    assert StreamOf(c', d') + [] == StreamOf(c, d) + tail;
    StreamIsExact(c, d, tail);
    StreamIsExact(c', d', []);
  }
}
