/** Approach B receiver over resumed runs of one transfer, each ended by an exception or by success. */
module ReceiverResume {
  import opened Prelude
  import opened BigEndian
  import opened BlobNames
  import opened ChunkArithmetic
  import opened Files
  import opened Envelope
  import opened EnvelopeReceiver
  import opened ReceiverSafety

  /** The setting: a sendable source whose chunk count is computed exactly, keys that match, and the
      sender having signed no other manifest for this transfer. */
  ghost predicate Setting(keys: Keys, me: Identity, t: Transfer, signed: set<Message>) {
    && |t.source| < TWO_63
    && CountIsExact(|t.source|)
    && keys.sender == me.signer && me.receiver == Public(keys.own)
    && (forall m :: Document(m) in signed && m.transferId == t.id ==> m == ManifestOf(me, t))
  }

  /** Consecutive indices from `i` up to, not including, `j`. */
  function Range(i: nat, j: nat): (r: seq<nat>)
    requires i <= j
    ensures |r| == j - i && forall k :: 0 <= k < |r| ==> r[k] == i + k
  {
    seq(j - i, k requires 0 <= k => i + k)
  }

  lemma RangeCons(i: nat, j: nat)
    requires i < j
    ensures Range(i, j) == [i] + Range(i + 1, j)
  {
  }

  lemma RangeJoin(i: nat, j: nat, k: nat)
    requires i <= j <= k
    ensures Range(i, j) + Range(j, k) == Range(i, k)
  {
  }

  lemma UptoStep(n: nat)
    ensures Upto(n) + {n} == Upto(n + 1)
  {
  }

  // ---- the manifest of the transfer ----

  lemma {:induction false} RecordMapOf(me: Identity, t: Transfer, n: nat)
    requires |t.source| < TWO_63 && n <= Total(t.source)
    ensures RecordMap(RecordsOf(me, t, n)).Keys == Upto(n)
    ensures forall i :: 0 <= i < n ==> RecordMap(RecordsOf(me, t, n))[i] == RecordOf(me, t, i)
  {
    hide RecordOf, Total, RecordMap, RecordsOf, Upto;
    if n == 0 {
      NoRecords(me, t);
    } else {
      RecordMapOf(me, t, n - 1);
      RecordsStep(me, t, n);
      IndexOfRecord(me, t, n - 1);
      var earlier := RecordMap(RecordsOf(me, t, n - 1));
      var r := RecordOf(me, t, n - 1);
      RecordMapAppend(RecordsOf(me, t, n - 1), r);
      UptoStep(n - 1);
      assert earlier[r.index := r].Keys == earlier.Keys + {r.index};
    }
  }

  lemma NoRecords(me: Identity, t: Transfer)
    requires |t.source| < TWO_63
    ensures RecordMap(RecordsOf(me, t, 0)) == map[]
  {
  }

  lemma RecordsStep(me: Identity, t: Transfer, n: nat)
    requires |t.source| < TWO_63 && 0 < n <= Total(t.source)
    ensures RecordsOf(me, t, n) == RecordsOf(me, t, n - 1) + [RecordOf(me, t, n - 1)]
  {
  }

  lemma RecordMapAppend(rs: seq<ChunkRecord>, r: ChunkRecord)
    ensures RecordMap(rs + [r]) == RecordMap(rs)[r.index := r]
  {
    assert (rs + [r])[..|rs|] == rs;
  }

  lemma IndexOfRecord(me: Identity, t: Transfer, i: nat)
    requires |t.source| < TWO_63 && i < Total(t.source)
    ensures RecordOf(me, t, i).index == i
  {
  }

  lemma ManifestIsComplete(me: Identity, t: Transfer)
    requires |t.source| < TWO_63
    ensures CompleteList(ManifestOf(me, t))
    ensures ManifestOf(me, t).totalChunks == Total(t.source) && ManifestOf(me, t).transferId == t.id
    ensures forall i :: 0 <= i < Total(t.source) ==> RecordMap(ManifestOf(me, t).chunks)[i] == RecordOf(me, t, i)
  {
    hide RecordOf, Total, RecordMap;
    var m := ManifestOf(me, t);
    RecordMapOf(me, t, Total(t.source));
    SizeOfMap(RecordMap(m.chunks));
  }

  /** Whatever the broker answers, exactly one blob passes the checks for a chunk, the one the sender
      stored, and it gives the source's chunk; any other is refused by its digest, before decryption. */
  lemma CheckedChunk(keys: Keys, me: Identity, t: Transfer, signed: set<Message>, reply: Reply, i: nat)
    requires Setting(keys, me, t, signed) && i < Total(t.source)
    ensures var m := ManifestOf(me, t);
            var c := CheckChunk(ChunkKeyOf(keys, m), m, RecordOf(me, t, i), reply, i);
            c == match reply
                 case Unreachable => Bad(Interrupted)
                 case Missing => Bad(Rejected(MissingChunk))
                 case Blob(ct) =>
                   if ct == Cipher(me, t, i) then Good(Chunk(t.source, i)) else Bad(Rejected(CipherMismatch))
  {
    hide Chunk, ChunkNonce, ChunkAad, Total, RecordsOf, Leading;
    KeysAgree(me, t, keys.own);
  }

  // ---- what a clean run finds and leaves ----

  /** The first `n` chunks have been verified: the partial file is exactly those chunks and the
      progress file lists exactly them. With none, the progress file claims none for this transfer. */
  ghost predicate Consistent(d: Disk, t: Transfer, n: nat)
    requires |t.source| < TWO_63
  {
    if n == 0 then
      d.progress.Some? && d.progress.value.id == t.id ==> d.progress.value.done == {}
    else
      n <= Total(t.source) && d.part == Some(Leading(t.source, n)) && d.progress == Some(Progress(t.id, Upto(n)))
  }

  lemma RepairedConsistent(d: Disk, t: Transfer, n: nat)
    requires |t.source| < TWO_63 && Consistent(d, t, n)
    ensures Believed(d, t.id) == Upto(n)
    ensures Repaired(d, t.id).part == Some(Leading(t.source, n))
    ensures Consistent(Repaired(d, t.id), t, n)
    ensures Repaired(d, t.id).out == d.out && Repaired(d, t.id).ledger == d.ledger
  {
    hide Total;
    assert n > 0 ==> 0 in Upto(n);
    assert Leading(t.source, 0) == [];
  }

  lemma {:induction false} SkipDone(keys: Keys, m: Manifest, a: Answers, d: Disk, n: nat, index: nat)
    requires CompleteList(m) && d.part.Some? && index <= n <= m.totalChunks
    ensures FetchChunks(keys, m, a, d, Upto(n), index) == FetchChunks(keys, m, a, d, Upto(n), n)
    decreases n - index
  {
    hide FetchChunks, CompleteList;
    if index < n {
      FetchStep(keys, m, a, d, Upto(n), index);
      SkipDone(keys, m, a, d, n, index + 1);
    }
  }

  /** What the loop does to a consistent disk, from chunk `n` on. */
  ghost predicate Advances(t: Transfer, d: Disk, n: nat, loop: Loop, j: nat)
    requires |t.source| < TWO_63
  {
    && n <= j <= Total(t.source)
    && loop.done == Upto(j) && loop.writes == Range(n, j)
    && loop.disk.part == Some(Leading(t.source, j))
    && Consistent(loop.disk, t, j)
    && loop.disk.out == d.out && loop.disk.ledger == d.ledger
    && loop.stop != Some(Delivered)
    && (loop.stop == None ==> j == Total(t.source))
  }

  lemma {:induction false} LoopAdvances(keys: Keys, me: Identity, t: Transfer, signed: set<Message>, a: Answers,
      d: Disk, n: nat)
    returns (j: nat)
    requires Setting(keys, me, t, signed)
    requires n <= Total(t.source) && d.part == Some(Leading(t.source, n)) && Consistent(d, t, n)
    requires CompleteList(ManifestOf(me, t))
    ensures Advances(t, d, n, FetchChunks(keys, ManifestOf(me, t), a, d, Upto(n), n), j)
    ensures (forall i :: n <= i < Total(t.source) ==> ReplyTo(a, i) == Blob(Cipher(me, t, i))) ==>
              FetchChunks(keys, ManifestOf(me, t), a, d, Upto(n), n).stop == None
    decreases Total(t.source) - n
  {
    hide FetchChunks, CompleteList, ManifestOf, RecordMap, RecordOf, Cipher, CheckChunk, ChunkKeyOf, Leading, Chunk,
         Total, WriteAt, Range, Upto, Consistent;
    var m := ManifestOf(me, t);
    ManifestIsComplete(me, t);
    j := n;
    if n == Total(t.source) {
      LoopStops(keys, m, a, d, Upto(n));
    } else {
      FetchStep(keys, m, a, d, Upto(n), n);
      CheckedChunk(keys, me, t, signed, ReplyTo(a, n), n);
      var checked := CheckChunk(ChunkKeyOf(keys, m), m, RecordOf(me, t, n), ReplyTo(a, n), n);
      if checked.Good? {
        var d2 := Record(Written(d, n, checked.plain), t.id, Upto(n) + {n});
        UptoStep(n);
        NextLeading(t, n, d);
        j := LoopAdvances(keys, me, t, signed, a, d2, n + 1);
        RangeCons(n, j);
      }
    }
  }

  lemma NextLeading(t: Transfer, n: nat, d: Disk)
    requires |t.source| < TWO_63 && n < Total(t.source)
    requires d.part == Some(Leading(t.source, n))
    ensures var d2 := Record(Written(d, n, Chunk(t.source, n)), t.id, Upto(n + 1));
            d2.part == Some(Leading(t.source, n + 1)) && Consistent(d2, t, n + 1)
  {
    hide WriteAt, Chunk, Leading, Upto;
    CountExactness(|t.source|);
    WriteNext(t.source, n);
  }

  lemma FinishDelivers(me: Identity, t: Transfer, d: Disk)
    requires |t.source| < TWO_63 && CountIsExact(|t.source|)
    requires d.part == Some(Leading(t.source, Total(t.source)))
    ensures var run := Finish(ManifestOf(me, t), d, Upto(Total(t.source)));
            run.outcome == Delivered
            && EndDisk(d, run.trace) == Disk(Some(t.source), None, None, d.ledger + {t.id})
  {
    hide RecordsOf, Total, Leading;
    TotalIsExact(t);
    LeadingAll(t.source, Total(t.source));
  }

  lemma TotalIsExact(t: Transfer)
    requires |t.source| < TWO_63 && CountIsExact(|t.source|)
    ensures Total(t.source) == CeilDiv(|t.source|)
  {
  }

  /** A run that ends without a kill takes a consistent disk forward, and never back: it writes
      exactly the next chunks, in order, and either delivers the source or stays resumable. */
  ghost predicate RunsForward(t: Transfer, d: Disk, n: nat, run: Run, j: nat)
    requires |t.source| < TWO_63
  {
    var end := EndDisk(d, run.trace);
    && n <= j && run.writes == Range(n, j)
    && if run.outcome == Delivered then
         j == Total(t.source) && end == Disk(Some(t.source), None, None, d.ledger + {t.id})
       else
         Consistent(end, t, j) && end.out == d.out && end.ledger == d.ledger
  }

  lemma GenuineManifest(keys: Keys, me: Identity, t: Transfer, signed: set<Message>, d: Disk, req: Request, a: Answers)
    requires Setting(keys, me, t, signed) && Unforged(keys, a, signed) && req.id == t.id
    ensures var f := FetchManifest(keys, req, a, d.ledger);
            (f.Accepted? ==> f.manifest == ManifestOf(me, t)) && (f.Stopped? ==> f.outcome != Delivered)
  {
    hide ManifestOf;
  }

  lemma CleanRun(keys: Keys, me: Identity, t: Transfer, signed: set<Message>, d: Disk, n: nat, req: Request, a: Answers)
    returns (j: nat)
    requires Setting(keys, me, t, signed) && Unforged(keys, a, signed) && req.id == t.id
    requires Consistent(d, t, n)
    ensures RunsForward(t, d, n, ReceiveRun(keys, d, req, a), j)
  {
    hide FetchAndFinish, FetchManifest, ManifestOf, CompleteList, Unforged, Consistent, Total;
    GenuineManifest(keys, me, t, signed, d, req, a);
    ManifestIsComplete(me, t);
    j := n;
    if FetchManifest(keys, req, a, d.ledger).Accepted? {
      j := FetchRunsForward(keys, me, t, signed, d, n, a);
    }
  }

  lemma FetchRunsForward(keys: Keys, me: Identity, t: Transfer, signed: set<Message>, d: Disk, n: nat, a: Answers)
    returns (j: nat)
    requires Setting(keys, me, t, signed) && Consistent(d, t, n)
    requires CompleteList(ManifestOf(me, t))
    ensures RunsForward(t, d, n, FetchAndFinish(keys, ManifestOf(me, t), a, d), j)
    ensures (forall i :: n <= i < Total(t.source) ==> ReplyTo(a, i) == Blob(Cipher(me, t, i))) ==>
              FetchAndFinish(keys, ManifestOf(me, t), a, d).outcome == Delivered
  {
    hide FetchChunks, CompleteList, ManifestOf, Cipher, Finish, Leading, Total, EndDisk, Repaired, Believed,
         RepairTrace, Consistent;
    var m := ManifestOf(me, t);
    ManifestIsComplete(me, t);
    RepairedConsistent(d, t, n);
    var r := Repaired(d, t.id);
    BelowTotal(d, t, n);
    SkipDone(keys, m, a, r, n, 0);
    j := LoopAdvances(keys, me, t, signed, a, r, n);
    var loop := FetchChunks(keys, m, a, r, Upto(n), 0);
    TraceEnds(keys, m, a, d);
    if loop.stop == None {
      FinishDelivers(me, t, loop.disk);
      EndOfBoth(d, RepairTrace(d, t.id) + loop.trace, Finish(m, loop.disk, loop.done).trace);
    }
  }

  lemma BelowTotal(d: Disk, t: Transfer, n: nat)
    requires |t.source| < TWO_63 && Consistent(d, t, n)
    ensures n <= Total(t.source)
  {
    hide Total;
  }

  // ---- histories ----

  datatype Attempt = Attempt(req: Request, a: Answers)

  ghost predicate Attempts(keys: Keys, t: Transfer, signed: set<Message>, attempts: seq<Attempt>) {
    forall i :: 0 <= i < |attempts| ==> attempts[i].req.id == t.id && Unforged(keys, attempts[i].a, signed)
  }

  /** Successive runs, none killed, until one delivers or the list is exhausted. */
  function CleanRuns(keys: Keys, d: Disk, attempts: seq<Attempt>): seq<Run>
    decreases |attempts|
  {
    if attempts == [] then []
    else
      var run := ReceiveRun(keys, d, attempts[0].req, attempts[0].a);
      [run] + if run.outcome == Delivered then [] else CleanRuns(keys, EndDisk(d, run.trace), attempts[1..])
  }

  function DiskAfter(d: Disk, runs: seq<Run>): Disk
    decreases |runs|
  {
    if runs == [] then d else DiskAfter(EndDisk(d, runs[0].trace), runs[1..])
  }

  function AllWrites(runs: seq<Run>): seq<nat> {
    if runs == [] then [] else runs[0].writes + AllWrites(runs[1..])
  }

  ghost predicate Completed(runs: seq<Run>) {
    runs != [] && runs[|runs| - 1].outcome == Delivered
  }

  /** Resume soundness: over all clean runs of one transfer against any answers, the chunks written
      are the next ones in order, each at most once over the whole history; what is recorded as done
      is in place; and a delivered file is the source. */
  lemma {:induction false} ResumeIsSound(keys: Keys, me: Identity, t: Transfer, signed: set<Message>, d: Disk,
      n: nat, attempts: seq<Attempt>)
    returns (j: nat)
    requires Setting(keys, me, t, signed) && Attempts(keys, t, signed, attempts)
    requires Consistent(d, t, n)
    ensures n <= j <= Total(t.source)
    ensures var runs := CleanRuns(keys, d, attempts);
            var end := DiskAfter(d, runs);
            && AllWrites(runs) == Range(n, j)
            && if Completed(runs) then
                 j == Total(t.source) && end == Disk(Some(t.source), None, None, d.ledger + {t.id})
               else
                 Consistent(end, t, j) && end.out == d.out && end.ledger == d.ledger
    decreases |attempts|
  {
    hide ReceiveRun, Total, Consistent, EndDisk, Unforged;
    j := n;
    BelowTotal(d, t, n);
    if attempts != [] {
      var run := ReceiveRun(keys, d, attempts[0].req, attempts[0].a);
      var end := EndDisk(d, run.trace);
      var i := CleanRun(keys, me, t, signed, d, n, attempts[0].req, attempts[0].a);
      var runs := CleanRuns(keys, d, attempts);
      if run.outcome == Delivered {
        j := i;
        OneRun(d, run);
        assert runs == [run];
      } else {
        j := ResumeIsSound(keys, me, t, signed, end, i, attempts[1..]);
        var rest := CleanRuns(keys, end, attempts[1..]);
        assert runs == [run] + rest;
        RunThenRest(d, run, rest);
        RangeJoin(n, i, j);
      }
    }
  }

  lemma OneRun(d: Disk, run: Run)
    ensures DiskAfter(d, [run]) == EndDisk(d, run.trace) && AllWrites([run]) == run.writes
  {
    assert [run][1..] == [];
  }

  lemma RunThenRest(d: Disk, run: Run, rest: seq<Run>)
    requires run.outcome != Delivered
    ensures DiskAfter(d, [run] + rest) == DiskAfter(EndDisk(d, run.trace), rest)
    ensures AllWrites([run] + rest) == run.writes + AllWrites(rest)
    ensures Completed([run] + rest) <==> Completed(rest)
  {
    assert ([run] + rest)[1..] == rest;
  }

  // ---- the undisturbed run ----

  /** The broker answers with the transfer's manifest and signature. */
  ghost predicate ServesManifest(me: Identity, t: Transfer, a: Answers)
    requires |t.source| < TWO_63
  {
    && a.manifest == Blob(Document(ManifestOf(me, t)))
    && a.signature == Blob(Signature(me.signer, Document(ManifestOf(me, t))))
  }

  /** The broker answers with what the transfer stored. */
  ghost predicate Serves(me: Identity, t: Transfer, a: Answers)
    requires |t.source| < TWO_63
  {
    && ServesManifest(me, t, a)
    && forall i :: 0 <= i < Total(t.source) ==> ReplyTo(a, i) == Blob(Cipher(me, t, i))
  }

  /** Fresh and not yet delivered, or the operator allows redelivery. */
  ghost predicate Admissible(t: Transfer, req: Request, ledger: set<TransferId>) {
    && req.id == t.id
    && (req.allowRedeliver
        || (-300 <= req.now - t.createdAt <= 86400 && t.id !in ledger))
  }

  /** An admissible run accepts the genuine manifest, and no other run does. */
  lemma ServedManifest(keys: Keys, me: Identity, t: Transfer, d: Disk, req: Request, a: Answers)
    requires |t.source| < TWO_63 && keys.sender == me.signer && req.id == t.id
    requires ServesManifest(me, t, a)
    ensures FetchManifest(keys, req, a, d.ledger) == Accepted(ManifestOf(me, t)) <==> Admissible(t, req, d.ledger)
  {
    hide RecordsOf, Total, Leading;
  }
}
