/** Approach A over many connections, each cut after any number of bytes in either direction. */
module DirectHistory {
  import opened Prelude
  import opened BigEndian
  import opened Framing
  import opened DirectStream

  /** How many bytes of the claim and of the stream arrive before the connection ends. */
  datatype Cut = Cut(claimBytes: nat, streamBytes: nat)

  ghost predicate Manageable(source: Bytes, disk: Disk) {
    |source| < LIMIT && |PartBytes(disk)| < LIMIT
  }

  /** One connection between the two programs. */
  function Connection(sha: Sha, source: Bytes, disk: Disk, cut: Cut): RunResult
    requires Manageable(source, disk)
  {
    var claim := ClaimFrame(disk);
    var sent := SenderReply(sha, source, claim[..Min(cut.claimBytes, |claim|)]);
    ReceiveRun(sha, disk, sent[..Min(cut.streamBytes, |sent|)])
  }

  ghost predicate Undisturbed(sha: Sha, source: Bytes, disk: Disk, cut: Cut)
    requires Manageable(source, disk)
  {
    cut.claimBytes >= |ClaimFrame(disk)|
    && cut.streamBytes >= |SenderOutput(sha, source, |PartBytes(disk)|)|
  }

  /** The partial file the receiver keeps after negotiation: its own, unless longer than the source. */
  function Resumed(source: Bytes, disk: Disk): (kept: Bytes)
    ensures |kept| <= |source|
  {
    if |PartBytes(disk)| <= |source| then PartBytes(disk) else []
  }

  /** The file a complete run assembles. */
  function Assembled(source: Bytes, disk: Disk): Bytes {
    Resumed(source, disk) + source[|Resumed(source, disk)|..]
  }

  lemma WholeClaim(sha: Sha, source: Bytes, disk: Disk, cut: Cut)
    requires Manageable(source, disk)
    ensures var claim := ClaimFrame(disk);
            SenderReply(sha, source, claim[..Min(cut.claimBytes, |claim|)])
            == if cut.claimBytes >= |claim| then SenderOutput(sha, source, |PartBytes(disk)|) else []
  {
    var claim := ClaimFrame(disk);
    if cut.claimBytes >= |claim| {
      assert claim[..|claim|] == claim + [];
      TakeFrameOfFrame(Pack64(|PartBytes(disk)|), []);
    } else {
      TakeFrameOfCut(Pack64(|PartBytes(disk)|), cut.claimBytes);
    }
  }

  lemma {:induction false} ConcatOfPrefix(chunks: seq<Bytes>, j: nat)
    requires j <= |chunks|
    ensures Concat(chunks[..j]) <= Concat(chunks)
  {
    if j > 0 {
      assert chunks[..j][1..] == chunks[1..][..j - 1];
      ConcatOfPrefix(chunks[1..], j - 1);
    }
  }

  /** What follows the header decides the run. */
  lemma AfterHeader(sha: Sha, disk: Disk, size: nat, offset: nat, heard: Bytes)
    requires size < LIMIT && offset < LIMIT
    ensures ReceiveRun(sha, disk, Frame(Header(size, offset)) + heard)
         == Conclude(sha, disk, Kept(disk, offset), size, ReadStream(heard))
  {
    hide Frame, TakeFrame, ReadStream, Conclude, Pack64;
    var header := Header(size, offset);
    TakeFrameOfFrame(header, heard);
    assert header[..8] == Pack64(size) && header[8..] == Pack64(offset);
  }

  /** What the stream loop makes of the first `k` bytes of a body. */
  lemma HeardBody(data: Bytes, digest: Bytes, k: nat) returns (n: nat)
    requires |digest| == SHA256_LEN
    requires DataChunks(SplitChunks(data))
    requires k <= |StreamOf(SplitChunks(data), digest)|
    ensures n <= |data|
    ensures ReadStream(StreamOf(SplitChunks(data), digest)[..k])
         == if k == |StreamOf(SplitChunks(data), digest)| then Finished(data, digest, [])
            else Dropped(data[..n])
  {
    hide StreamOf, ReadStream, SplitChunks, Concat;
    n := 0;
    SplitIsLossless(data);
    var chunks := SplitChunks(data);
    var body := StreamOf(chunks, digest);
    if k == |body| {
      assert body[..k] == body + [];
      StreamIsExact(chunks, digest, []);
    } else {
      var j := CutStreamDeliversWholeFrames(chunks, digest, k);
      ConcatOfPrefix(chunks, j);
      n := |Concat(chunks[..j])|;
      assert Concat(chunks[..j]) == data[..n];
    }
  }

  /** What the receiver makes of the first `k` bytes of the sender's output. */
  lemma HeardStream(sha: Sha, source: Bytes, disk: Disk, k: nat) returns (n: nat)
    requires Manageable(source, disk)
    requires k <= |SenderOutput(sha, source, |PartBytes(disk)|)|
    ensures n <= |source| - |Resumed(source, disk)|
    ensures var base := Resumed(source, disk);
            var r := ReceiveRun(sha, disk, SenderOutput(sha, source, |PartBytes(disk)|)[..k]);
            if k == |SenderOutput(sha, source, |PartBytes(disk)|)| then
              r == Conclude(sha, disk, base, |source|, Finished(source[|base|..], sha(source), []))
            else
              r == RunResult(disk, SetupLost, 0)
              || r == Conclude(sha, disk, base, |source|, Dropped(source[|base|..][..n]))
  {
    hide StreamOf, ReadStream, SplitChunks, Concat, Frame, TakeFrame, Conclude;
    n := 0;
    var base := Resumed(source, disk);
    var accepted := Accepted(|source|, |PartBytes(disk)|);
    assert accepted == |base| && Kept(disk, accepted) == base;
    var header := Header(|source|, accepted);
    var rest := source[accepted..];
    SplitIsLossless(rest);
    var body := StreamOf(SplitChunks(rest), sha(source));
    var m := |Frame(header)|;
    if k < m {
      hide ReceiveRun;
      assert (Frame(header) + body)[..k] == Frame(header)[..k];
      HeaderCut(sha, disk, header, k);
    } else {
      hide ReceiveRun;
      assert (Frame(header) + body)[..k] == Frame(header) + body[..k - m];
      AfterHeader(sha, disk, |source|, accepted, body[..k - m]);
      n := HeardBody(rest, sha(source), k - m);
    }
  }

  lemma HeaderCut(sha: Sha, disk: Disk, header: Bytes, k: nat)
    requires |header| < LIMIT && k < |Frame(header)|
    ensures ReceiveRun(sha, disk, Frame(header)[..k]) == RunResult(disk, SetupLost, 0)
  {
    hide Frame, TakeFrame;
    TakeFrameOfCut(header, k);
  }

  /** Every connection does one of three things: nothing, an append, or a complete run. */
  lemma ConnectionCases(sha: Sha, source: Bytes, disk: Disk, cut: Cut) returns (n: nat)
    requires Manageable(source, disk)
    ensures n <= |source| - |Resumed(source, disk)|
    ensures var base := Resumed(source, disk);
            var r := Connection(sha, source, disk, cut);
            var complete := Conclude(sha, disk, base, |source|, Finished(source[|base|..], sha(source), []));
            if Undisturbed(sha, source, disk, cut) then r == complete
            else
              r == RunResult(disk, SetupLost, 0)
              || r == Conclude(sha, disk, base, |source|, Dropped(source[|base|..][..n]))
  {
    hide SenderOutput, ReceiveRun, Conclude, SenderReply, ClaimFrame;
    n := 0;
    WholeClaim(sha, source, disk, cut);
    if cut.claimBytes >= |ClaimFrame(disk)| {
      var output := SenderOutput(sha, source, |PartBytes(disk)|);
      n := HeardStream(sha, source, disk, Min(cut.streamBytes, |output|));
    } else {
      HeaderCut(sha, disk, [], 0);
    }
  }

  /** The prefix invariant of one connection: `.part` stays a prefix of the source, grows by exactly
      the bytes written, is never rejected, and is promoted only when it is the source. */
  lemma ConnectionKeepsPrefix(sha: Sha, source: Bytes, disk: Disk, cut: Cut)
    requires Manageable(source, disk)
    requires PartBytes(disk) <= source
    ensures var r := Connection(sha, source, disk, cut);
            && Manageable(source, r.disk)
            && (Undisturbed(sha, source, disk, cut) <==> r.ending == Promoted)
            && if r.ending == Promoted then
                 r.disk == Disk(None, Some(source)) && |PartBytes(disk)| + r.written == |source|
               else
                 && (r.ending == SetupLost || r.ending == Interrupted)
                 && r.disk.out == disk.out
                 && PartBytes(r.disk) <= source
                 && |PartBytes(r.disk)| == |PartBytes(disk)| + r.written
  {
    hide Connection, Undisturbed;
    var base := Resumed(source, disk);
    assert base == PartBytes(disk) == source[..|base|];
    assert base + source[|base|..] == source;
    var n := ConnectionCases(sha, source, disk, cut);
    assert base + source[|base|..][..n] == source[..|base| + n];
  }

  lemma PartStaysManageable(sha: Sha, source: Bytes, disk: Disk, cut: Cut)
    requires Manageable(source, disk)
    ensures Manageable(source, Connection(sha, source, disk, cut).disk)
  {
    hide Connection;
    var n := ConnectionCases(sha, source, disk, cut);
  }

  /** Fail-closed whatever the peer sends: the final name changes only if what was heard is, byte for
      byte, a header and a complete stream that announce the size and the digest of the very file that
      is promoted, made of the partial file that was kept and the streamed data. */
  lemma FailsClosed(sha: Sha, disk: Disk, heard: Bytes)
    returns (file: Bytes, offset: nat, chunks: seq<Bytes>, rest: Bytes)
    ensures |file| < LIMIT && offset < LIMIT && DataChunks(chunks)
    ensures var r := ReceiveRun(sha, disk, heard);
            if r.ending == Promoted then
              && heard == Frame(Header(|file|, offset)) + (StreamOf(chunks, sha(file)) + rest)
              && file == Kept(disk, offset) + Concat(chunks)
              && r.disk == Disk(None, Some(file)) && r.written == |Concat(chunks)|
            else
              r.disk.out == disk.out
  {
    hide Frame, TakeFrame, StreamOf, ReadStream, Concat;
    file, offset, chunks, rest := [], 0, [], [];
    var r := ReceiveRun(sha, disk, heard);
    if r.ending == Promoted {
      var Got(header, more) := TakeFrame(heard);
      FrameOfTakeFrame(heard);
      Pack64OfUnpack(header[..8]);
      Pack64OfUnpack(header[8..]);
      file, offset, rest := r.disk.out.value, Unpack(header[8..]), ReadStream(more).rest;
      assert header == Header(|file|, offset);
      chunks := StreamIsCanonical(more);
    }
  }

  /** The part of `.part` that goes on being used, given the offset in the header. */
  function Base(disk: Disk, offset: nat): Bytes {
    if offset == |PartBytes(disk)| then PartBytes(disk) else []
  }

  /** What a run makes of everything it can hear. Without a whole header nothing changes; of a stream that
      breaks off every whole data frame is kept in `.part`; and a stream that ends decides between
      promotion and deletion by the size and the digest. */
  lemma ReceiverExactly(
    sha: Sha, disk: Disk, size: nat, offset: nat, chunks: seq<Bytes>, digest: Bytes, rest: Bytes)
    requires size < LIMIT && offset < LIMIT && DataChunks(chunks) && |digest| == 32
    ensures TakeFrame(rest).Closed? ==> ReceiveRun(sha, disk, rest) == RunResult(disk, SetupLost, 0)
    ensures TakeFrame(rest).Got? && |TakeFrame(rest).value| != 16 ==>
      ReceiveRun(sha, disk, rest) == RunResult(disk, BadHeader, 0)
    ensures Fragment(rest) ==>
      ReceiveRun(sha, disk, Frame(Header(size, offset)) + (Frames(chunks) + rest))
      == RunResult(Disk(Some(Base(disk, offset) + Concat(chunks)), disk.out), Interrupted, |Concat(chunks)|)
    ensures var file := Base(disk, offset) + Concat(chunks);
      ReceiveRun(sha, disk, Frame(Header(size, offset)) + (StreamOf(chunks, digest) + rest))
      == if |file| == size && sha(file) == digest then RunResult(Disk(None, Some(file)), Promoted, |Concat(chunks)|)
         else RunResult(Disk(None, disk.out), Rejected, |Concat(chunks)|)
  {
    hide Frame, TakeFrame, ReadStream, Concat, Frames, StreamOf, Fragment;
    AfterHeader(sha, disk, size, offset, StreamOf(chunks, digest) + rest);
    StreamIsExact(chunks, digest, rest);
    if Fragment(rest) {
      AfterHeader(sha, disk, size, offset, Frames(chunks) + rest);
      FramesAreDelivered(chunks, rest);
      FragmentDelivers(rest);
      assert Concat(chunks) + [] == Concat(chunks);
    }
  }

  /** What the sender says after a claim: a header frame of 24 bytes, and the stream. */
  lemma OutputParts(sha: Sha, source: Bytes, disk: Disk) returns (header: Bytes, body: Bytes)
    requires Manageable(source, disk)
    ensures |ClaimFrame(disk)| == 16
    ensures |header| < LIMIT && |Frame(header)| == 24
    ensures header == Header(|source|, |Resumed(source, disk)|)
    ensures DataChunks(SplitChunks(source[|Resumed(source, disk)|..]))
    ensures body == StreamOf(SplitChunks(source[|Resumed(source, disk)|..]), sha(source))
    ensures SenderOutput(sha, source, |PartBytes(disk)|) == Frame(header) + body
  {
    hide Frame, StreamOf, SplitChunks;
    header := Header(|source|, |Resumed(source, disk)|);
    FrameLayout(header);
    FrameLayout(Pack64(|PartBytes(disk)|));
    SplitIsLossless(source[|Resumed(source, disk)|..]);
    body := StreamOf(SplitChunks(source[|Resumed(source, disk)|..]), sha(source));
  }

  /** What the receiver keeps of a header and the first `k` bytes of the stream. */
  lemma CutBody(sha: Sha, source: Bytes, disk: Disk, k: nat) returns (j: nat)
    requires Manageable(source, disk)
    requires var rest := source[|Resumed(source, disk)|..];
             DataChunks(SplitChunks(rest)) && k < |StreamOf(SplitChunks(rest), sha(source))|
    ensures var base, rest := Resumed(source, disk), source[|Resumed(source, disk)|..];
            var kept := Min(j * 1048576, |rest|);
            && 8 * j + kept <= k
            && (kept < |rest| ==> k < 8 * (j + 1) + Min((j + 1) * 1048576, |rest|))
            && ReceiveRun(sha, disk, Frame(Header(|source|, |base|)) + StreamOf(SplitChunks(rest), sha(source))[..k])
               == RunResult(Disk(Some(base + rest[..kept]), disk.out), Interrupted, kept)
  {
    hide StreamOf, ReadStream, SplitChunks, Concat, Frame, TakeFrame, Conclude, ReceiveRun, Frames;
    var base, rest := Resumed(source, disk), source[|Resumed(source, disk)|..];
    var chunks := SplitChunks(rest);
    var body := StreamOf(chunks, sha(source));
    AfterHeader(sha, disk, |source|, |base|, body[..k]);
    j := CutStreamDeliversWholeFrames(chunks, sha(source), k);
    LeadingBlocks(rest, j);
    if j < |chunks| {
      LeadingBlocks(rest, j + 1);
    }
    DropKeeps(sha, disk, base, |source|, rest[..Min(j * 1048576, |rest|)]);
  }

  lemma NothingHeard(sha: Sha, disk: Disk)
    ensures ReceiveRun(sha, disk, []) == RunResult(disk, SetupLost, 0)
  {
  }

  /** One connection in numbers. It does nothing unless the 16 bytes of the claim and the 24 of the header
      get through. Otherwise, if it is cut, exactly the whole data frames that fit in what follows the
      header are added to the partial file, each of 1 MiB and eight bytes but for the last. */
  lemma CutKeepsWholeFrames(sha: Sha, source: Bytes, disk: Disk, cut: Cut) returns (j: nat)
    requires Manageable(source, disk) && !Undisturbed(sha, source, disk, cut)
    ensures cut.claimBytes < 16 || cut.streamBytes < 24 ==>
      Connection(sha, source, disk, cut) == RunResult(disk, SetupLost, 0)
    ensures cut.claimBytes >= 16 && cut.streamBytes >= 24 ==>
      var base := if |PartBytes(disk)| <= |source| then PartBytes(disk) else [];
      var rest := source[|base|..];
      var kept := Min(j * 1048576, |rest|);
      && 24 + 8 * j + kept <= cut.streamBytes
      && (kept < |rest| ==> cut.streamBytes < 24 + 8 * (j + 1) + Min((j + 1) * 1048576, |rest|))
      && Connection(sha, source, disk, cut)
         == RunResult(Disk(Some(base + rest[..kept]), disk.out), Interrupted, kept)
  {
    hide StreamOf, SplitChunks, Frame, ReceiveRun, SenderOutput, SenderReply, ClaimFrame;
    j := 0;
    var header, body := OutputParts(sha, source, disk);
    WholeClaim(sha, source, disk, cut);
    var k := cut.streamBytes;
    if cut.claimBytes < 16 {
      NothingHeard(sha, disk);
    } else if k < 24 {
      assert (Frame(header) + body)[..k] == Frame(header)[..k];
      HeaderCut(sha, disk, header, k);
    } else {
      assert (Frame(header) + body)[..k] == Frame(header) + body[..k - 24];
      j := CutBody(sha, source, disk, k - 24);
    }
  }

  lemma DropKeeps(sha: Sha, disk: Disk, base: Bytes, size: nat, data: Bytes)
    ensures Conclude(sha, disk, base, size, Dropped(data))
         == RunResult(Disk(Some(base + data), disk.out), Interrupted, |data|)
  {
  }

  /** Progress: a connection that carries one more whole frame leaves strictly more of the file behind. */
  lemma ProgressIsKept(sha: Sha, source: Bytes, disk: Disk, cut: Cut)
    requires Manageable(source, disk) && !Undisturbed(sha, source, disk, cut)
    requires PartBytes(disk) <= source && |PartBytes(disk)| < |source|
    requires cut.claimBytes >= 16
    requires cut.streamBytes >= 24 + 8 + Min(1048576, |source| - |PartBytes(disk)|)
    ensures PartBytes(disk) < PartBytes(Connection(sha, source, disk, cut).disk) <= source
  {
    hide Connection, Undisturbed;
    var j := CutKeepsWholeFrames(sha, source, disk, cut);
    var n := |PartBytes(disk)|;
    var kept := Min(j * 1048576, |source| - n);
    assert j > 0;
    Lengthens(source, n, kept);
  }

  lemma Lengthens(source: Bytes, n: nat, kept: nat)
    requires kept > 0 && n + kept <= |source|
    ensures source[..n] < source[..n] + source[n..][..kept] <= source
  {
    assert source[..n] + source[n..][..kept] == source[..n + kept];
  }

  /** Successive connections until the file is promoted or the list of cuts is exhausted. */
  function Runs(sha: Sha, source: Bytes, disk: Disk, cuts: seq<Cut>): (rs: seq<RunResult>)
    requires Manageable(source, disk)
    ensures |rs| <= |cuts|
    ensures cuts != [] ==> rs != []
    decreases |cuts|
  {
    if cuts == [] then []
    else
      var r := Connection(sha, source, disk, cuts[0]);
      PartStaysManageable(sha, source, disk, cuts[0]);
      [r] + if r.ending == Promoted then [] else Runs(sha, source, r.disk, cuts[1..])
  }

  function FinalDisk(disk: Disk, rs: seq<RunResult>): Disk {
    if rs == [] then disk else rs[|rs| - 1].disk
  }

  function TotalWritten(rs: seq<RunResult>): nat {
    if rs == [] then 0 else rs[0].written + TotalWritten(rs[1..])
  }

  ghost predicate Delivered(rs: seq<RunResult>) {
    rs != [] && rs[|rs| - 1].ending == Promoted
  }

  /** One run that starts with `before` on disk. */
  ghost predicate KeepsPrefix(source: Bytes, out: Option<Bytes>, before: Disk, r: RunResult) {
    && r.ending != Rejected && r.ending != BadHeader
    && (r.ending != Promoted ==>
          && PartBytes(r.disk) <= source && r.disk.out == out
          && |PartBytes(before)| <= |PartBytes(r.disk)|)
  }

  /** What holds of every history that starts from a prefix of the source: no run is rejected;
      before promotion the final name is untouched and `.part` is a prefix that never shrinks; the
      bytes written add up to what is in `.part`, and to the whole file once it is promoted. */
  ghost predicate PrefixHistory(source: Bytes, disk: Disk, rs: seq<RunResult>) {
    && (forall i :: 0 <= i < |rs| ==> KeepsPrefix(source, disk.out, FinalDisk(disk, rs[..i]), rs[i]))
    && Conserves(source, disk, rs)
  }

  ghost predicate Conserves(source: Bytes, disk: Disk, rs: seq<RunResult>) {
    var end := FinalDisk(disk, rs);
    if Delivered(rs) then
      end == Disk(None, Some(source)) && |PartBytes(disk)| + TotalWritten(rs) == |source|
    else
      |PartBytes(disk)| + TotalWritten(rs) == |PartBytes(end)|
  }

  lemma KeepsPrefixOne(source: Bytes, disk: Disk, r: RunResult)
    requires r.ending == SetupLost || r.ending == Interrupted
    requires r.disk.out == disk.out && PartBytes(r.disk) <= source
    requires |PartBytes(r.disk)| == |PartBytes(disk)| + r.written
    ensures KeepsPrefix(source, disk.out, disk, r)
  {
  }

  lemma PrefixHistoryCons(source: Bytes, disk: Disk, r: RunResult, tail: seq<RunResult>)
    requires r.ending == SetupLost || r.ending == Interrupted
    requires r.disk.out == disk.out && PartBytes(r.disk) <= source
    requires |PartBytes(r.disk)| == |PartBytes(disk)| + r.written
    requires PrefixHistory(source, r.disk, tail)
    ensures PrefixHistory(source, disk, [r] + tail)
  {
    hide KeepsPrefix, Conserves;
    var rs := [r] + tail;
    KeepsPrefixOne(source, disk, r);
    forall i | 0 <= i < |rs| ensures KeepsPrefix(source, disk.out, FinalDisk(disk, rs[..i]), rs[i]) {
      if i > 0 {
        LaterDisk(disk, r, tail, i);
        assert KeepsPrefix(source, disk.out, FinalDisk(r.disk, tail[..i - 1]), tail[i - 1]);
      }
    }
    ConservesCons(source, disk, r, tail);
  }

  lemma LaterDisk(disk: Disk, r: RunResult, tail: seq<RunResult>, i: nat)
    requires 0 < i <= |tail| + 1
    ensures FinalDisk(disk, ([r] + tail)[..i]) == FinalDisk(r.disk, tail[..i - 1])
  {
    assert ([r] + tail)[..i] == [r] + tail[..i - 1];
  }

  lemma ConservesCons(source: Bytes, disk: Disk, r: RunResult, tail: seq<RunResult>)
    requires r.ending == SetupLost || r.ending == Interrupted
    requires |PartBytes(r.disk)| == |PartBytes(disk)| + r.written
    requires Conserves(source, r.disk, tail)
    ensures Conserves(source, disk, [r] + tail)
  {
    hide PartBytes;
    assert ([r] + tail)[1..] == tail;
  }

  lemma PrefixHistoryEnds(source: Bytes, disk: Disk, r: RunResult)
    requires PartBytes(disk) <= source
    requires r.ending == Promoted && r.disk == Disk(None, Some(source))
    requires |PartBytes(disk)| + r.written == |source|
    ensures PrefixHistory(source, disk, [])
    ensures PrefixHistory(source, disk, [r])
  {
    assert [r][1..] == [];
  }

  /** Prefix invariant and conservation over a whole history. */
  lemma {:induction false} PrefixAndConservation(sha: Sha, source: Bytes, disk: Disk, cuts: seq<Cut>)
    requires Manageable(source, disk)
    requires PartBytes(disk) <= source
    ensures PrefixHistory(source, disk, Runs(sha, source, disk, cuts))
    decreases |cuts|
  {
    hide Connection, Undisturbed, PrefixHistory;
    if cuts == [] {
      PrefixHistoryEnds(source, disk, RunResult(Disk(None, Some(source)), Promoted, |source| - |PartBytes(disk)|));
    } else {
      hide Runs;
      var r := RunsStep(sha, source, disk, cuts);
      ConnectionKeepsPrefix(sha, source, disk, cuts[0]);
      if r.ending == Promoted {
        PrefixHistoryEnds(source, disk, r);
      } else {
        PrefixAndConservation(sha, source, r.disk, cuts[1..]);
        PrefixHistoryCons(source, disk, r, Runs(sha, source, r.disk, cuts[1..]));
      }
    }
  }

  lemma RunsStep(sha: Sha, source: Bytes, disk: Disk, cuts: seq<Cut>) returns (r: RunResult)
    requires Manageable(source, disk)
    requires cuts != []
    ensures r == Connection(sha, source, disk, cuts[0])
    ensures Manageable(source, r.disk)
    ensures Runs(sha, source, disk, cuts)
         == if r.ending == Promoted then [r] else [r] + Runs(sha, source, r.disk, cuts[1..])
  {
    hide Connection;
    r := Connection(sha, source, disk, cuts[0]);
    PartStaysManageable(sha, source, disk, cuts[0]);
  }

  /** The first transfer: from no partial file, the bytes written over all runs add up to the file. */
  lemma TransferWritesEachByteOnce(sha: Sha, source: Bytes, out: Option<Bytes>, cuts: seq<Cut>)
    requires |source| < LIMIT
    ensures var rs := Runs(sha, source, Disk(None, out), cuts);
            Delivered(rs) ==>
              FinalDisk(Disk(None, out), rs) == Disk(None, Some(source)) && TotalWritten(rs) == |source|
  {
    PrefixAndConservation(sha, source, Disk(None, out), cuts);
  }

  /** An undisturbed run from any partial file: it promotes exactly when the assembled file has the
      source's digest, and otherwise deletes `.part`. */
  lemma UndisturbedRun(sha: Sha, source: Bytes, disk: Disk, cut: Cut)
    requires Manageable(source, disk)
    requires Undisturbed(sha, source, disk, cut)
    ensures var r := Connection(sha, source, disk, cut);
            && (r.ending == Promoted <==> sha(Assembled(source, disk)) == sha(source))
            && (r.ending == Promoted ==> r.disk == Disk(None, Some(Assembled(source, disk))))
            && (r.ending != Promoted ==> r.ending == Rejected && r.disk == Disk(None, disk.out))
  {
    hide Connection, Undisturbed;
    var n := ConnectionCases(sha, source, disk, cut);
  }

  /** The assembled file is the source exactly when `.part` is a prefix of it or longer than it. */
  lemma AssembledIsSource(source: Bytes, disk: Disk)
    ensures Assembled(source, disk) == source
      <==> PartBytes(disk) <= source || |PartBytes(disk)| > |source|
  {
    var base := Resumed(source, disk);
    if Assembled(source, disk) == source && |PartBytes(disk)| <= |source| {
      assert base == Assembled(source, disk)[..|base|];
    }
  }

  lemma {:induction false} HistoryStaysManageable(sha: Sha, source: Bytes, disk: Disk, cuts: seq<Cut>)
    requires Manageable(source, disk)
    ensures Manageable(source, FinalDisk(disk, Runs(sha, source, disk, cuts)))
    decreases |cuts|
  {
    hide Connection;
    if cuts != [] {
      var r := Connection(sha, source, disk, cuts[0]);
      PartStaysManageable(sha, source, disk, cuts[0]);
      if r.ending != Promoted {
        HistoryStaysManageable(sha, source, r.disk, cuts[1..]);
      }
    }
  }

  /** The disk that a history of connections leaves. */
  function DiskAfter(sha: Sha, source: Bytes, disk: Disk, cuts: seq<Cut>): (d: Disk)
    requires Manageable(source, disk)
    ensures Manageable(source, d)
  {
    HistoryStaysManageable(sha, source, disk, cuts);
    FinalDisk(disk, Runs(sha, source, disk, cuts))
  }

  /** Convergence: after any history at all, from any partial file, two undisturbed runs promote.
      The first suffices when `.part` is then a prefix of the source or longer than it; otherwise,
      unless the wrong file collides with the source under SHA-256, the first run rejects. */
  lemma Converges(sha: Sha, source: Bytes, disk: Disk, cuts: seq<Cut>, first: Cut, second: Cut)
    requires Manageable(source, disk)
    requires var d := DiskAfter(sha, source, disk, cuts);
             Undisturbed(sha, source, d, first) && Undisturbed(sha, source, Disk(None, d.out), second)
    ensures var d := DiskAfter(sha, source, disk, cuts);
            var r1 := Connection(sha, source, d, first);
            var r2 := Connection(sha, source, Disk(None, d.out), second);
            && (PartBytes(d) <= source || |PartBytes(d)| > |source| ==>
                  r1.ending == Promoted && r1.disk == Disk(None, Some(source)))
            && (r1.ending == Promoted ==>
                  r1.disk.out == Some(source) || Collides(sha, source, Assembled(source, d)))
            && (r1.ending != Promoted ==>
                  && r1.ending == Rejected && r1.disk == Disk(None, d.out)
                  && r2.ending == Promoted && r2.disk == Disk(None, Some(source)))
            && (Assembled(source, d) != source && !Collides(sha, source, Assembled(source, d)) ==>
                  r1.ending == Rejected)
  {
    hide Connection, Undisturbed, DiskAfter;
    var d := DiskAfter(sha, source, disk, cuts);
    UndisturbedRun(sha, source, d, first);
    AssembledIsSource(source, d);
    UndisturbedRun(sha, source, Disk(None, d.out), second);
    AssembledIsSource(source, Disk(None, d.out));
  }

  ghost predicate Collides(sha: Sha, a: Bytes, b: Bytes) {
    a != b && sha(a) == sha(b)
  }
}
