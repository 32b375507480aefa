/** Approach B receiver interrupted at any instant: an exception leaves the disk in whatever state it
    has reached, with every write flushed. */
module ReceiverInterrupts {
  import opened Prelude
  import opened BlobNames
  import opened ChunkArithmetic
  import opened Files
  import opened Envelope
  import opened EnvelopeReceiver
  import opened ReceiverSafety
  import opened ReceiverResume
  import opened ReceiverRecovery

  /** The chunks that the progress file lists for a transfer, whether or not there is a `.part`. */
  function Claims(d: Disk, id: TransferId): set<nat> {
    if d.progress.Some? && d.progress.value.id == id then d.progress.value.done else {}
  }

  function PartBytes(d: Disk): Bytes {
    if d.part.Some? then d.part.value else []
  }

  /** The progress file claims nothing for the transfer, or claims chunks that are there, a missing
      `.part` counting as the empty one that the next run creates. */
  ghost predicate Resumable(d: Disk, t: Transfer) {
    Claims(d, t.id) == {} || Recoverable(PartBytes(d), t.source, Claims(d, t.id))
  }

  lemma ResumableRecovers(d: Disk, t: Transfer)
    requires Resumable(d, t)
    ensures Recovers(d, t)
  {
    hide Recoverable;
  }

  /** The transfer goes on from the state, or is already where it should be. */
  ghost predicate OnTheWay(t: Transfer, out: Option<Bytes>, s: Disk) {
    s.out == Some(t.source) || (Resumable(s, t) && s.out == out)
  }

  lemma {:induction false} LoopOnTheWay(keys: Keys, me: Identity, t: Transfer, signed: set<Message>, a: Answers,
      d: Disk, done: set<nat>, index: nat)
    requires Setting(keys, me, t, signed) && CompleteList(ManifestOf(me, t))
    requires d.part.Some? && index <= Total(t.source) && Upto(index) <= done
    requires Resumable(d, t) && Recoverable(d.part.value, t.source, done)
    ensures var loop := FetchChunks(keys, ManifestOf(me, t), a, d, done, index);
            && (forall s :: s in loop.trace ==> Resumable(s, t) && s.out == d.out)
            && Resumable(loop.disk, t) && loop.disk.out == d.out
    decreases Total(t.source) - index
  {
    hide FetchChunks, CompleteList, ManifestOf, RecordMap, RecordOf, Cipher, CheckChunk, ChunkKeyOf, Chunk, Total,
         WriteAt, Upto, Recoverable;
    var m := ManifestOf(me, t);
    ManifestIsComplete(me, t);
    UptoStep(index);
    if index == Total(t.source) {
      LoopStops(keys, m, a, d, done);
    } else {
      FetchStep(keys, m, a, d, done, index);
      if index in done {
        LoopOnTheWay(keys, me, t, signed, a, d, done, index + 1);
      } else {
        CheckedChunk(keys, me, t, signed, ReplyTo(a, index), index);
        var checked := CheckChunk(ChunkKeyOf(keys, m), m, RecordOf(me, t, index), ReplyTo(a, index), index);
        if checked.Good? {
          TotalIsExact(t);
          WriteAnyChunk(d.part.value, t.source, done, index);
          WriteAnyChunk(d.part.value, t.source, Claims(d, t.id), index);
          LoopOnTheWay(keys, me, t, signed, a,
                       Record(Written(d, index, checked.plain), t.id, done + {index}), done + {index}, index + 1);
        }
      }
    }
  }

  /** The end of a run: until the promotion the disk is resumable, then the source is in place, and
      when the run is over the disk is resumable again. */
  lemma FinishOnTheWay(me: Identity, t: Transfer, d: Disk, done: set<nat>)
    requires |t.source| < TWO_63 && CountIsExact(|t.source|)
    requires d.part.Some? && Upto(Total(t.source)) <= done && Recoverable(d.part.value, t.source, done)
    ensures var run := Finish(ManifestOf(me, t), d, done);
            && (forall s :: s in run.trace ==> OnTheWay(t, d.out, s))
            && Resumable(EndDisk(d, run.trace), t)
  {
    hide RecordsOf, Total, Leading, Upto, Recoverable;
    TotalIsExact(t);
    AllBelieved(d.part.value, t.source, done);
  }

  lemma FetchOnTheWay(keys: Keys, me: Identity, t: Transfer, signed: set<Message>, d: Disk, a: Answers)
    requires Setting(keys, me, t, signed) && CompleteList(ManifestOf(me, t))
    requires Resumable(d, t)
    ensures var run := FetchAndFinish(keys, ManifestOf(me, t), a, d);
            && (forall s :: s in run.trace ==> OnTheWay(t, d.out, s))
            && Resumable(EndDisk(d, run.trace), t)
  {
    hide FetchChunks, CompleteList, ManifestOf, Finish, Total, Recoverable, Upto, EndDisk;
    var m := ManifestOf(me, t);
    ManifestIsComplete(me, t);
    NothingBelieved(t.source);
    var believed := Believed(d, t.id);
    var r := Repaired(d, t.id);
    LoopOnTheWay(keys, me, t, signed, a, r, believed, 0);
    LoopKeepsVerdict(keys, me, t, signed, a, r, believed, 0);
    var loop := FetchChunks(keys, m, a, r, believed, 0);
    TraceEnds(keys, m, a, d);
    if loop.stop == None {
      FinishOnTheWay(me, t, loop.disk, loop.done);
      EndOfBoth(d, RepairTrace(d, t.id) + loop.trace, Finish(m, loop.disk, loop.done).trace);
    }
  }

  /** At every instant of every run from a resumable disk, whatever the broker answers, the disk is
      resumable with `--out` as it was, or `--out` is the source; and when the run ends it is resumable. */
  lemma EveryInstant(keys: Keys, me: Identity, t: Transfer, signed: set<Message>, d: Disk, req: Request, a: Answers,
      k: nat)
    requires Setting(keys, me, t, signed) && Unforged(keys, a, signed) && req.id == t.id
    requires Resumable(d, t)
    ensures var trace := ReceiveRun(keys, d, req, a).trace;
            OnTheWay(t, d.out, StateAfter(d, trace, k)) && Resumable(EndDisk(d, trace), t)
  {
    hide FetchAndFinish, FetchManifest, ManifestOf, CompleteList, Unforged, Resumable, Total;
    GenuineManifest(keys, me, t, signed, d, req, a);
    ManifestIsComplete(me, t);
    var trace := ReceiveRun(keys, d, req, a).trace;
    if FetchManifest(keys, req, a, d.ledger).Accepted? {
      FetchOnTheWay(keys, me, t, signed, d, a);
    }
    var cut := trace[..Min(k, |trace|)];
    if cut != [] {
      assert cut[|cut| - 1] in trace;
    }
  }

  /** Once `--out` is the source, no run of the transfer changes it. */
  lemma SourceStays(keys: Keys, me: Identity, t: Transfer, signed: set<Message>, d: Disk, req: Request, a: Answers,
      k: nat)
    requires Setting(keys, me, t, signed) && Unforged(keys, a, signed) && req.id == t.id
    requires d.out == Some(t.source)
    ensures StateAfter(d, ReceiveRun(keys, d, req, a).trace, k).out == Some(t.source)
  {
    hide ReceiveRun, RecordsOf, Total, Leading, Unforged;
    OutputIsAuthentic(keys, d, req, a, signed, k);
    TotalIsExact(t);
    LeadingAll(t.source, Total(t.source));
  }

  // ---- histories ----

  /** A run interrupted once the disk has gone through `states` states, or ended if it has fewer. */
  datatype Interrupt = Interrupt(req: Request, a: Answers, states: nat)

  ghost predicate Interrupts(keys: Keys, t: Transfer, signed: set<Message>, cuts: seq<Interrupt>) {
    forall i :: 0 <= i < |cuts| ==> cuts[i].req.id == t.id && Unforged(keys, cuts[i].a, signed)
  }

  function AfterInterrupt(keys: Keys, d: Disk, cut: Interrupt): Disk {
    StateAfter(d, ReceiveRun(keys, d, cut.req, cut.a).trace, cut.states)
  }

  function AfterInterrupts(keys: Keys, d: Disk, cuts: seq<Interrupt>): Disk
    decreases |cuts|
  {
    if cuts == [] then d else AfterInterrupts(keys, AfterInterrupt(keys, d, cuts[0]), cuts[1..])
  }

  /** Resumption over every history of runs of one transfer, each interrupted at any instant. */
  lemma {:induction false} InterruptedAnywhere(keys: Keys, me: Identity, t: Transfer, signed: set<Message>, d: Disk,
      cuts: seq<Interrupt>)
    requires Setting(keys, me, t, signed) && Interrupts(keys, t, signed, cuts)
    requires OnTheWay(t, d.out, d)
    ensures OnTheWay(t, d.out, AfterInterrupts(keys, d, cuts))
    decreases |cuts|
  {
    hide ReceiveRun, Setting, Unforged, Resumable, StateAfter;
    if cuts != [] {
      if d.out == Some(t.source) {
        SourceStays(keys, me, t, signed, d, cuts[0].req, cuts[0].a, cuts[0].states);
      } else {
        EveryInstant(keys, me, t, signed, d, cuts[0].req, cuts[0].a, cuts[0].states);
      }
      InterruptedAnywhere(keys, me, t, signed, AfterInterrupt(keys, d, cuts[0]), cuts[1..]);
    }
  }

  /** Contrary to the design document, a partial file that fails the whole-file check is not deleted
      and the transfer is not restarted: from a disk that does not recover, no history of runs, ended or
      interrupted at any instant, whatever the broker answers, ever delivers or touches `--out`. */
  lemma {:induction false} StuckForever(keys: Keys, me: Identity, t: Transfer, signed: set<Message>, d: Disk,
      cuts: seq<Interrupt>, req: Request, a: Answers)
    requires Setting(keys, me, t, signed) && Interrupts(keys, t, signed, cuts)
    requires req.id == t.id && Unforged(keys, a, signed)
    requires !Recovers(d, t)
    ensures var end := AfterInterrupts(keys, d, cuts);
            !Recovers(end, t) && end.out == d.out && ReceiveRun(keys, end, req, a).outcome != Delivered
    decreases |cuts|
  {
    hide ReceiveRun, Setting, Unforged, Recovers, StateAfter;
    if cuts == [] {
      StuckStays(keys, me, t, signed, d, req, a, 0);
    } else {
      StuckStays(keys, me, t, signed, d, cuts[0].req, cuts[0].a, cuts[0].states);
      StuckForever(keys, me, t, signed, AfterInterrupt(keys, d, cuts[0]), cuts[1..], req, a);
    }
  }

  /** A disk that is not resumable recovers no more after at most one interrupted run. */
  lemma NotResumableSticks(keys: Keys, me: Identity, t: Transfer, d: Disk, cut: Interrupt)
    requires |t.source| < TWO_63 && CountIsExact(|t.source|) && keys.sender == me.signer
    requires !Resumable(d, t)
    requires Admissible(t, cut.req, d.ledger) && ServesManifest(me, t, cut.a) && ReplyTo(cut.a, 0) == Unreachable
    ensures !Recovers(d, t) || (!Recovers(AfterInterrupts(keys, d, [cut.(states := 1)]), t)
                                && AfterInterrupts(keys, d, [cut.(states := 1)]).out == d.out)
  {
    hide ReceiveRun, Recoverable, Total;
    if d.part == None {
      EmptyIsRecoverable(Claims(d, t.id));
      NonEmptyHasChunks(t);
      EmptyRestart(keys, me, t, d, cut.req, cut.a);
      var s := d.(part := Some([]));
      assert [s][..1] == [s];
      assert AfterInterrupts(keys, d, [cut.(states := 1)]) == AfterInterrupt(keys, d, cut.(states := 1));
    }
  }

  /** Resumable is exactly what interruptions demand of a disk: every history of interrupted runs ends
      with the source at `--out` or a disk from which an undisturbed run delivers it, if and only if the
      first disk is resumable or has the source at `--out`. */
  lemma ResumableExactly(keys: Keys, me: Identity, t: Transfer, signed: set<Message>, d: Disk)
    requires Setting(keys, me, t, signed) && Document(ManifestOf(me, t)) in signed
    ensures (forall cuts :: Interrupts(keys, t, signed, cuts) ==>
               AfterInterrupts(keys, d, cuts).out == Some(t.source) || Recovers(AfterInterrupts(keys, d, cuts), t))
      <==> d.out == Some(t.source) || Resumable(d, t)
  {
    hide ReceiveRun, Resumable, Recovers, StateAfter, ManifestOf, Total, AfterInterrupts;
    if d.out == Some(t.source) || Resumable(d, t) {
      forall cuts | Interrupts(keys, t, signed, cuts)
        ensures AfterInterrupts(keys, d, cuts).out == Some(t.source) || Recovers(AfterInterrupts(keys, d, cuts), t)
      {
        InterruptedAnywhere(keys, me, t, signed, d, cuts);
        if Resumable(AfterInterrupts(keys, d, cuts), t) {
          ResumableRecovers(AfterInterrupts(keys, d, cuts), t);
        }
      }
    } else {
      var doc := Document(ManifestOf(me, t));
      var cut := Interrupt(Request(t.id, true, 0), Answers(Blob(doc), Blob(Signature(me.signer, doc)), map[]), 1);
      NotResumableSticks(keys, me, t, d, cut);
      assert Interrupts(keys, t, signed, [cut]) && Interrupts(keys, t, signed, []);
      NoInterrupts(keys, d);
    }
  }

  lemma EmptyIsRecoverable(done: set<nat>)
    ensures Recoverable([], [], done)
  {
  }

  lemma NoInterrupts(keys: Keys, d: Disk)
    ensures AfterInterrupts(keys, d, []) == d
  {
  }

  lemma NonEmptyHasChunks(t: Transfer)
    requires |t.source| < TWO_63 && CountIsExact(|t.source|) && t.source != []
    ensures Total(t.source) > 0
  {
    TotalIsExact(t);
  }

  /** Runs that end by themselves, with an error or by delivering, leave a resumable disk resumable. */
  lemma {:induction false} CleanRunsStayResumable(keys: Keys, me: Identity, t: Transfer, signed: set<Message>,
      d: Disk, attempts: seq<Attempt>)
    requires Setting(keys, me, t, signed) && Attempts(keys, t, signed, attempts)
    requires Resumable(d, t)
    ensures Resumable(DiskAfter(d, CleanRuns(keys, d, attempts)), t)
    decreases |attempts|
  {
    hide ReceiveRun, Setting, Unforged, Resumable, EndDisk;
    if attempts != [] {
      var run := ReceiveRun(keys, d, attempts[0].req, attempts[0].a);
      EveryInstant(keys, me, t, signed, d, attempts[0].req, attempts[0].a, 0);
      if run.outcome == Delivered {
        OneRun(d, run);
      } else {
        CleanRunsStayResumable(keys, me, t, signed, EndDisk(d, run.trace), attempts[1..]);
        RunThenRest(d, run, CleanRuns(keys, EndDisk(d, run.trace), attempts[1..]));
      }
    }
  }
}
