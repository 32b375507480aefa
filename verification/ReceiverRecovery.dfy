/** Approach B receiver from any disk at all: exactly when a resumed transfer still completes. */
module ReceiverRecovery {
  import opened Prelude
  import opened BlobNames
  import opened ChunkArithmetic
  import opened Files
  import opened Envelope
  import opened EnvelopeReceiver
  import opened ReceiverSafety
  import opened ReceiverResume

  /** A byte of a file that reads as zeros past its end, as it would once something is written there. */
  function ByteAt(file: Bytes, q: nat): Byte {
    if q < |file| then file[q] else 0
  }

  /** With the chunks in `done` taken to be in place, writing the others makes the file the source: it
      agrees with the source on the chunks in `done`, it is no longer than the source, and it is no
      shorter if the last chunk is one of them. */
  ghost predicate Recoverable(file: Bytes, source: Bytes, done: set<nat>) {
    && |file| <= |source|
    && (source != [] && CeilDiv(|source|) - 1 in done ==> |file| == |source|)
    && forall q :: 0 <= q < |source| && q / CHUNK_SIZE in done ==> source[q] == ByteAt(file, q)
  }

  /** What the next run believes to be in `.part` is there. */
  ghost predicate Recovers(d: Disk, t: Transfer) {
    Believed(d, t.id) == {} || Recoverable(d.part.value, t.source, Believed(d, t.id))
  }

  lemma ChunkWritten(file: Bytes, source: Bytes, i: nat)
    requires i < CeilDiv(|source|)
    ensures var g := WriteAt(file, i * CHUNK_SIZE, Chunk(source, i));
            && |g| == Max(|file|, Min((i + 1) * CHUNK_SIZE, |source|))
            && forall q :: 0 <= q < |source| ==>
                  ByteAt(g, q) == if q / CHUNK_SIZE == i then source[q] else ByteAt(file, q)
  {
    hide WriteAt, Chunk;
    ChunkIndexed(source, i);
    WriteAtIndexed(file, i * CHUNK_SIZE, Chunk(source, i));
    var g := WriteAt(file, i * CHUNK_SIZE, Chunk(source, i));
    forall q | 0 <= q < |source|
      ensures ByteAt(g, q) == if q / CHUNK_SIZE == i then source[q] else ByteAt(file, q)
    {
      if q / CHUNK_SIZE == i {
        assert g[q] == Chunk(source, i)[q - i * CHUNK_SIZE];
      }
    }
  }

  /** Writing a chunk of the source where it belongs never does harm; and if the chunk was not believed
      to be in place, it makes no difference, whether it is then believed or not. */
  lemma WriteAnyChunk(file: Bytes, source: Bytes, done: set<nat>, i: nat)
    requires i < CeilDiv(|source|)
    ensures var g := WriteAt(file, i * CHUNK_SIZE, Chunk(source, i));
            && (Recoverable(file, source, done) ==> Recoverable(g, source, done))
            && (i !in done ==>
                  && (Recoverable(g, source, done) <==> Recoverable(file, source, done))
                  && (Recoverable(g, source, done + {i}) <==> Recoverable(file, source, done)))
  {
    hide WriteAt, Chunk, ByteAt;
    ChunkWritten(file, source, i);
    var g := WriteAt(file, i * CHUNK_SIZE, Chunk(source, i));
    assert forall q :: 0 <= q < |source| && q / CHUNK_SIZE == i ==> ByteAt(g, q) == source[q];
    assert forall q :: 0 <= q < |source| && q / CHUNK_SIZE != i ==> ByteAt(g, q) == ByteAt(file, q);
    Lengths(source, i);
  }

  lemma Lengths(source: Bytes, i: nat)
    requires i < CeilDiv(|source|)
    ensures source != []
    ensures i == CeilDiv(|source|) - 1 ==> Min((i + 1) * CHUNK_SIZE, |source|) == |source|
    ensures i != CeilDiv(|source|) - 1 ==> Min((i + 1) * CHUNK_SIZE, |source|) < |source|
  {
  }

  /** When every chunk is believed to be in place, only the source itself will do. */
  lemma AllBelieved(file: Bytes, source: Bytes, done: set<nat>)
    requires Upto(CeilDiv(|source|)) <= done
    ensures Recoverable(file, source, done) <==> file == source
  {
    forall q | 0 <= q < |source| ensures q / CHUNK_SIZE in done {
      assert q / CHUNK_SIZE in Upto(CeilDiv(|source|));
    }
    if Recoverable(file, source, done) {
      if source != [] {
        Lengths(source, CeilDiv(|source|) - 1);
        assert CeilDiv(|source|) - 1 in Upto(CeilDiv(|source|));
      }
      forall q | 0 <= q < |source| ensures file[q] == source[q] {
        assert source[q] == ByteAt(file, q);
      }
    }
  }

  // ---- one run ----

  /** The progress file is the loop's own record of what is done. */
  ghost predicate InStep(d: Disk, t: Transfer, done: set<nat>) {
    d.part.Some? && d.progress == Some(Progress(t.id, done)) && done != {}
  }

  /** A state that the next run will judge as `verdict`, with `--out` as it was. */
  ghost predicate Judged(s: Disk, d: Disk, t: Transfer, verdict: bool) {
    s.out == d.out && (Recovers(s, t) <==> verdict)
  }

  /** The broker answers with the stored blob for every chunk from `index` on that is not done. */
  ghost predicate ServesRest(me: Identity, t: Transfer, a: Answers, done: set<nat>, index: nat)
    requires |t.source| < TWO_63
  {
    forall i :: index <= i < Total(t.source) && i !in done ==> ReplyTo(a, i) == Blob(Cipher(me, t, i))
  }

  lemma InStepVerdict(d: Disk, t: Transfer, done: set<nat>)
    requires InStep(d, t, done)
    ensures Recovers(d, t) <==> Recoverable(d.part.value, t.source, done)
  {
    hide Recoverable;
  }

  /** The loop from any file, any set of chunks taken to be done, against any answers. */
  lemma {:induction false} LoopKeepsVerdict(keys: Keys, me: Identity, t: Transfer, signed: set<Message>, a: Answers,
      d: Disk, done: set<nat>, index: nat)
    requires Setting(keys, me, t, signed) && CompleteList(ManifestOf(me, t))
    requires d.part.Some? && index <= Total(t.source) && Upto(index) <= done
    ensures var loop := FetchChunks(keys, ManifestOf(me, t), a, d, done, index);
            && (Recoverable(loop.disk.part.value, t.source, loop.done) <==> Recoverable(d.part.value, t.source, done))
            && loop.disk.out == d.out && loop.disk.ledger == d.ledger
            && loop.stop != Some(Delivered)
            && (loop.stop == None ==> Upto(Total(t.source)) <= loop.done)
            && (loop.stop == None <==> ServesRest(me, t, a, done, index))
            && (InStep(d, t, done) ==>
                  && InStep(loop.disk, t, loop.done)
                  && forall s :: s in loop.trace ==> Judged(s, d, t, Recoverable(d.part.value, t.source, done)))
    decreases Total(t.source) - index
  {
    hide FetchChunks, CompleteList, ManifestOf, RecordMap, RecordOf, Cipher, CheckChunk, ChunkKeyOf, Chunk, Total,
         WriteAt, Upto, Recoverable, Recovers;
    var m := ManifestOf(me, t);
    ManifestIsComplete(me, t);
    UptoStep(index);
    if index == Total(t.source) {
      LoopStops(keys, m, a, d, done);
    } else {
      FetchStep(keys, m, a, d, done, index);
      if index in done {
        LoopKeepsVerdict(keys, me, t, signed, a, d, done, index + 1);
      } else {
        CheckedChunk(keys, me, t, signed, ReplyTo(a, index), index);
        var checked := CheckChunk(ChunkKeyOf(keys, m), m, RecordOf(me, t, index), ReplyTo(a, index), index);
        if checked.Good? {
          TotalIsExact(t);
          WriteAnyChunk(d.part.value, t.source, done, index);
          var d1 := Written(d, index, checked.plain);
          var d2 := Record(d1, t.id, done + {index});
          LoopKeepsVerdict(keys, me, t, signed, a, d2, done + {index}, index + 1);
          InStepVerdict(d2, t, done + {index});
          if InStep(d, t, done) {
            InStepVerdict(d1, t, done);
          }
        }
      }
    }
  }

  lemma FinishDecides(me: Identity, t: Transfer, d: Disk, done: set<nat>)
    requires |t.source| < TWO_63 && CountIsExact(|t.source|) && d.part.Some?
    ensures var run := Finish(ManifestOf(me, t), d, done);
            if d.part.value == t.source then
              && run.outcome == Delivered
              && EndDisk(d, run.trace) == Disk(Some(t.source), None, None, d.ledger + {t.id})
              && |run.trace| == 4
              && run.trace[1] == Disk(Some(t.source), None, Some(Progress(t.id, done)), d.ledger)
              && run.trace[2] == Disk(Some(t.source), None, None, d.ledger)
            else
              && run.outcome == Rejected(if |d.part.value| != |t.source| then BadSize else BadHash)
              && run.trace == [Record(d, t.id, done)]
  {
    hide RecordsOf, Total, Leading, Upto;
    TotalIsExact(t);
    LeadingAll(t.source, Total(t.source));
  }

  /** The whole of a run past the manifest check. */
  lemma FetchDecides(keys: Keys, me: Identity, t: Transfer, signed: set<Message>, d: Disk, a: Answers)
    requires Setting(keys, me, t, signed) && CompleteList(ManifestOf(me, t))
    ensures var run := FetchAndFinish(keys, ManifestOf(me, t), a, d);
            && (run.outcome == Delivered <==> Recovers(d, t) && ServesRest(me, t, a, Believed(d, t.id), 0))
            && (run.outcome == Delivered ==>
                  EndDisk(d, run.trace) == Disk(Some(t.source), None, None, d.ledger + {t.id}))
            && (run.outcome == Delivered ==> PromotedState(t, d, run.trace))
            && (!Recovers(d, t) ==> forall s :: s in run.trace ==> Judged(s, d, t, false))
            && (!Recovers(d, t) && ServesRest(me, t, a, Believed(d, t.id), 0) ==>
                  run.outcome == Rejected(BadSize) || run.outcome == Rejected(BadHash))
  {
    hide FetchChunks, CompleteList, ManifestOf, Cipher, Finish, Total, EndDisk, Upto, Recoverable, ChunkKeyOf,
         PromotedState;
    var m := ManifestOf(me, t);
    ManifestIsComplete(me, t);
    NothingBelieved(t.source);
    var believed := Believed(d, t.id);
    var r := Repaired(d, t.id);
    LoopKeepsVerdict(keys, me, t, signed, a, r, believed, 0);
    var loop := FetchChunks(keys, m, a, r, believed, 0);
    TraceEnds(keys, m, a, d);
    assert believed != {} ==> InStep(r, t, believed);
    if loop.stop == None {
      FinishDecides(me, t, loop.disk, loop.done);
      TotalIsExact(t);
      AllBelieved(loop.disk.part.value, t.source, loop.done);
      var before, end := RepairTrace(d, t.id) + loop.trace, Finish(m, loop.disk, loop.done);
      EndOfBoth(d, before, end.trace);
      if end.outcome == Delivered {
        PromotedAt(t, d, before, end.trace, loop.done, loop.disk.ledger);
      } else if InStep(loop.disk, t, loop.done) {
        InStepVerdict(Record(loop.disk, t.id, loop.done), t, loop.done);
      }
    }
  }

  lemma NothingBelieved(source: Bytes)
    ensures Upto(0) == {} && Recoverable([], source, {})
  {
  }

  /** The last states of a delivering run: after the promotion, then with the progress file gone, and last,
      at the end, with the id in the ledger. */
  ghost predicate PromotedState(t: Transfer, d: Disk, trace: seq<Disk>)
    requires |t.source| < TWO_63
  {
    && |trace| >= 2
    && exists done :: Upto(Total(t.source)) <= done
         && StateAfter(d, trace, |trace| - 2) == Disk(Some(t.source), None, Some(Progress(t.id, done)), d.ledger)
         && StateAfter(d, trace, |trace| - 1) == Disk(Some(t.source), None, None, d.ledger)
  }

  lemma PromotedAt(t: Transfer, d: Disk, before: seq<Disk>, end: seq<Disk>, done: set<nat>, ledger: set<TransferId>)
    requires |t.source| < TWO_63 && |end| == 4
    requires end[1] == Disk(Some(t.source), None, Some(Progress(t.id, done)), ledger)
    requires end[2] == Disk(Some(t.source), None, None, ledger)
    requires Upto(Total(t.source)) <= done && ledger == d.ledger
    ensures PromotedState(t, d, before + end)
  {
    hide Total, Upto;
    var trace := before + end;
    assert trace[..|trace| - 2] == before + end[..2];
    assert StateAfter(d, trace, |trace| - 2) == end[1];
    assert trace[..|trace| - 1] == before + end[..3];
    assert StateAfter(d, trace, |trace| - 1) == end[2];
  }

  /** Exactly when a run delivers, for every disk and any answers about the chunks: an admissible run that
      gets the manifest delivers if and only if it gets the stored blob of every chunk it does not believe
      to be in `.part`, and those it believes in are there, and the file is no longer than the source and
      no shorter when the last chunk is one of them. */
  lemma RecoversExactly(keys: Keys, me: Identity, t: Transfer, signed: set<Message>, d: Disk, req: Request, a: Answers)
    requires Setting(keys, me, t, signed)
    requires ServesManifest(me, t, a) && Admissible(t, req, d.ledger)
    ensures var run := ReceiveRun(keys, d, req, a);
            && (run.outcome == Delivered <==> Recovers(d, t) && ServesRest(me, t, a, Believed(d, t.id), 0))
            && (ServesRest(me, t, a, Believed(d, t.id), 0) && !Recovers(d, t) ==>
                  run.outcome == Rejected(BadSize) || run.outcome == Rejected(BadHash))
            && (run.outcome == Delivered ==>
                  && EndDisk(d, run.trace) == Disk(Some(t.source), None, None, d.ledger + {t.id})
                  && PromotedState(t, d, run.trace))
  {
    hide FetchAndFinish, FetchManifest, ManifestOf, CompleteList, Recovers, Total, Cipher, EndDisk, PromotedState;
    ServedManifest(keys, me, t, d, req, a);
    ManifestIsComplete(me, t);
    FetchDecides(keys, me, t, signed, d, a);
  }

  /** The chunks from `index` up to, not including, `end` that are not done, in order. */
  function Wanted(done: set<nat>, index: nat, end: nat): (r: seq<nat>)
    requires index <= end
    ensures forall i :: i in r <==> index <= i < end && i !in done
    decreases end - index
  {
    if index == end then []
    else if index in done then Wanted(done, index + 1, end)
    else [index] + Wanted(done, index + 1, end)
  }

  ghost predicate Ascending(r: seq<nat>) {
    forall j, k :: 0 <= j < k < |r| ==> r[j] < r[k]
  }

  lemma {:induction false} WantedInOrder(done: set<nat>, index: nat, end: nat)
    requires index <= end
    ensures Ascending(Wanted(done, index, end))
    decreases end - index
  {
    if index < end {
      WantedInOrder(done, index + 1, end);
      ConsAscends(index, Wanted(done, index + 1, end));
    }
  }

  lemma ConsAscends(i: nat, r: seq<nat>)
    requires Ascending(r) && forall k :: k in r ==> i < k
    ensures Ascending([i] + r)
  {
    var s := [i] + r;
    forall j, k | 0 <= j < k < |s| ensures s[j] < s[k] {
      assert s[k] == r[k - 1] && r[k - 1] in r;
    }
  }

  lemma {:induction false} WantedWithout(done: set<nat>, i: nat, index: nat, end: nat)
    requires i < index <= end
    ensures Wanted(done + {i}, index, end) == Wanted(done, index, end)
    decreases end - index
  {
    if index < end {
      WantedWithout(done, i, index + 1, end);
      assert index in done + {i} <==> index in done;
    }
  }

  /** What a wrong answer about a chunk does to a run. */
  function Verdict(reply: Reply): Outcome {
    match reply
    case Unreachable => Interrupted
    case Missing => Rejected(MissingChunk)
    case Blob(_) => Rejected(CipherMismatch)
  }

  /** Up to chunk `k`, which is not served, or past the last one: the chunks not done are written, in order,
      and then the loop stops for the reason that the answer about `k` gives. */
  lemma {:induction false} LoopStopsAt(
    keys: Keys, me: Identity, t: Transfer, signed: set<Message>, a: Answers, d: Disk, done: set<nat>, index: nat,
    k: nat)
    requires Setting(keys, me, t, signed) && CompleteList(ManifestOf(me, t)) && d.part.Some?
    requires index <= k <= Total(t.source)
    requires forall i :: index <= i < k && i !in done ==> ReplyTo(a, i) == Blob(Cipher(me, t, i))
    requires k < Total(t.source) ==> k !in done && ReplyTo(a, k) != Blob(Cipher(me, t, k))
    ensures var loop := FetchChunks(keys, ManifestOf(me, t), a, d, done, index);
            && loop.writes == Wanted(done, index, k)
            && loop.stop == if k < Total(t.source) then Some(Verdict(ReplyTo(a, k))) else None
    decreases k - index
  {
    hide FetchChunks, CompleteList, ManifestOf, RecordMap, RecordOf, Cipher, CheckChunk, ChunkKeyOf, Chunk, Total,
         WriteAt;
    var m := ManifestOf(me, t);
    ManifestIsComplete(me, t);
    if index == Total(t.source) {
      LoopStops(keys, m, a, d, done);
    } else {
      FetchStep(keys, m, a, d, done, index);
      if index in done {
        LoopStopsAt(keys, me, t, signed, a, d, done, index + 1, k);
      } else {
        CheckedChunk(keys, me, t, signed, ReplyTo(a, index), index);
        if index < k {
          var d1 := Written(d, index, Chunk(t.source, index));
          LoopStopsAt(keys, me, t, signed, a, Record(d1, t.id, done + {index}), done + {index}, index + 1, k);
          WantedWithout(done, index, index + 1, k);
        }
      }
    }
  }

  /** What a run fetches and where it stops, from every disk: the chunks it does not believe in, in order, up
      to the first whose stored blob it does not get, and that answer is the reason it gives. */
  lemma StopsAtFirstWrong(
    keys: Keys, me: Identity, t: Transfer, signed: set<Message>, d: Disk, req: Request, a: Answers, k: nat)
    requires Setting(keys, me, t, signed) && k <= Total(t.source)
    requires ServesManifest(me, t, a) && Admissible(t, req, d.ledger)
    requires forall i :: 0 <= i < k && i !in Believed(d, t.id) ==> ReplyTo(a, i) == Blob(Cipher(me, t, i))
    requires k < Total(t.source) ==> k !in Believed(d, t.id) && ReplyTo(a, k) != Blob(Cipher(me, t, k))
    ensures var run := ReceiveRun(keys, d, req, a);
            && run.writes == Wanted(Believed(d, t.id), 0, k)
            && (k < Total(t.source) ==> run.outcome == Verdict(ReplyTo(a, k)))
  {
    hide FetchManifest, ManifestOf, CompleteList, Total, Cipher, FetchChunks, Finish, Wanted, Verdict;
    ServedManifest(keys, me, t, d, req, a);
    ManifestIsComplete(me, t);
    LoopStopsAt(keys, me, t, signed, a, Repaired(d, t.id), Believed(d, t.id), 0, k);
  }

  /** From a disk that does not recover, no run delivers, whatever the broker answers; and at every
      instant of the run the disk still does not recover and `--out` is untouched. */
  lemma StuckStays(keys: Keys, me: Identity, t: Transfer, signed: set<Message>, d: Disk, req: Request, a: Answers,
      k: nat)
    requires Setting(keys, me, t, signed) && Unforged(keys, a, signed) && req.id == t.id
    requires !Recovers(d, t)
    ensures var run := ReceiveRun(keys, d, req, a);
            var s := StateAfter(d, run.trace, k);
            run.outcome != Delivered && !Recovers(s, t) && s.out == d.out
  {
    hide FetchAndFinish, FetchManifest, ManifestOf, CompleteList, Unforged, Recovers, Total, PromotedState;
    GenuineManifest(keys, me, t, signed, d, req, a);
    ManifestIsComplete(me, t);
    var trace := ReceiveRun(keys, d, req, a).trace;
    if FetchManifest(keys, req, a, d.ledger).Accepted? {
      FetchDecides(keys, me, t, signed, d, a);
    }
    var cut := trace[..Min(k, |trace|)];
    if cut != [] {
      assert cut[|cut| - 1] in trace;
    }
  }

  /** One way to get stuck without losing any data. A run that would deliver is killed between the
      promotion and the removal of the progress file; the id is not in the ledger, so a second run is as
      admissible as the first; the broker interrupts it at the first chunk, and leaves an empty `.part`
      beside a progress file that lists every chunk. */
  lemma KillAfterPromotionSticks(
    keys: Keys, me: Identity, t: Transfer, signed: set<Message>, d: Disk, req: Request, a: Answers,
    again: Request, a': Answers)
    requires Setting(keys, me, t, signed) && t.source != []
    requires Serves(me, t, a) && Admissible(t, req, d.ledger) && Recovers(d, t)
    requires Admissible(t, again, d.ledger) && ServesManifest(me, t, a') && ReplyTo(a', 0) == Unreachable
    ensures var trace := ReceiveRun(keys, d, req, a).trace;
            |trace| >= 2
            && var killed := StateAfter(d, trace, |trace| - 2);
               var run := ReceiveRun(keys, killed, again, a');
               && killed.out == Some(t.source)
               && run.outcome == Interrupted && !Recovers(EndDisk(killed, run.trace), t)
  {
    hide ReceiveRun, Total, Recovers, EndDisk, Upto, Cipher;
    RecoversExactly(keys, me, t, signed, d, req, a);
    var trace := ReceiveRun(keys, d, req, a).trace;
    var killed := StateAfter(d, trace, |trace| - 2);
    var done :| Upto(Total(t.source)) <= done
      && killed == Disk(Some(t.source), None, Some(Progress(t.id, done)), d.ledger);
    TotalIsExact(t);
    EmptyRestart(keys, me, t, killed, again, a');
    LastChunk(t.source, done);
    EndOfOne(killed, killed.(part := Some([])));
    EmptyPartSticks(t, Disk(Some(t.source), Some([]), Some(Progress(t.id, done)), d.ledger), done);
  }

  lemma EndOfOne(d: Disk, s: Disk)
    ensures EndDisk(d, [s]) == s
  {
  }

  lemma LastChunk(source: Bytes, done: set<nat>)
    requires source != [] && Upto(CeilDiv(|source|)) <= done
    ensures CeilDiv(|source|) - 1 in done
  {
    assert CeilDiv(|source|) > 0;
    assert CeilDiv(|source|) - 1 in Upto(CeilDiv(|source|));
  }

  lemma EmptyPartSticks(t: Transfer, d: Disk, done: set<nat>)
    requires t.source != [] && CeilDiv(|t.source|) - 1 in done
    requires d.part == Some([]) && d.progress == Some(Progress(t.id, done))
    ensures !Recovers(d, t)
  {
  }

  /** A run without `.part` that is interrupted at the first chunk leaves an empty `.part`. */
  lemma EmptyRestart(keys: Keys, me: Identity, t: Transfer, d: Disk, req: Request, a: Answers)
    requires |t.source| < TWO_63 && keys.sender == me.signer && Total(t.source) > 0
    requires d.part == None && ServesManifest(me, t, a) && Admissible(t, req, d.ledger)
    requires ReplyTo(a, 0) == Unreachable
    ensures var run := ReceiveRun(keys, d, req, a);
            run.trace == [d.(part := Some([]))] && run.outcome == Interrupted
  {
    hide ManifestOf, CompleteList, FetchChunks, Total, Cipher, RecordMap, Upto, Finish, FetchManifest;
    var m := ManifestOf(me, t);
    ManifestIsComplete(me, t);
    ServedManifest(keys, me, t, d, req, a);
    FetchStep(keys, m, a, Repaired(d, t.id), {}, 0);
  }
}
