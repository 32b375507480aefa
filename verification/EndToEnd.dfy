/** Approach B from the source file to `--out`, over interrupted runs of both programs. */
module EndToEnd {
  import opened Prelude
  import opened BigEndian
  import opened BlobNames
  import opened ChunkArithmetic
  import opened Envelope
  import opened EnvelopeSender
  import opened SenderHistory
  import R = EnvelopeReceiver
  import S = ReceiverSafety
  import Resume = ReceiverResume
  import Recovery = ReceiverRecovery
  import I = ReceiverInterrupts

  /** What a broker that keeps what it was given answers to a GET. */
  function Answer(store: map<string, Message>, key: string): R.Reply {
    if key in store then R.Blob(store[key]) else R.Missing
  }

  ghost predicate AnsweredFrom(store: map<string, Message>, t: Transfer, a: R.Answers)
    requires |t.source| < TWO_63
  {
    && a.manifest == Answer(store, ManifestKey(t.id))
    && a.signature == Answer(store, SignatureKey(t.id))
    && forall i :: 0 <= i < Total(t.source) ==> R.ReplyTo(a, i) == Answer(store, ChunkKey(t.id, i))
  }

  function SignedDocuments(w: World): set<Message> {
    set m | m in w.signed :: Document(m)
  }

  /** A broker that keeps a published transfer serves it. */
  lemma PublishedIsServed(me: Identity, w: World, t: Transfer, a: R.Answers)
    requires Inv(me, w) && t.id in w.origins && w.origins[t.id] == t
    requires |t.source| < TWO_63
    requires Published(me, w, t) && AnsweredFrom(w.store, t, a)
    ensures Resume.Serves(me, t, a)
    ensures forall keys: R.Keys :: keys.sender == me.signer ==> S.Unforged(keys, a, SignedDocuments(w))
  {
    hide Inv, Cipher, ManifestOf, ManifestKey, SignatureKey, ChunkKey, Total;
    assert HasChunks(w.store, t, 0);
    forall i | 0 <= i < Total(t.source) ensures R.ReplyTo(a, i) == R.Blob(Cipher(me, t, i)) {
      StoreMatchesManifest(me, w, t, i);
    }
    ManifestStored(me, w, t);
  }

  lemma ManifestStored(me: Identity, w: World, t: Transfer)
    requires Inv(me, w) && t.id in w.origins && w.origins[t.id] == t
    requires |t.source| < TWO_63 && Published(me, w, t)
    ensures w.store[ManifestKey(t.id)] == Document(ManifestOf(me, t))
    ensures w.store[SignatureKey(t.id)] == Signature(me.signer, Document(ManifestOf(me, t)))
    ensures Document(ManifestOf(me, t)) in SignedDocuments(w)
  {
    var store := w.store;
    assert StoreAgrees(me, store, t);
    hide Inv, StoreAgrees, ManifestKey, SignatureKey, ManifestOf;
    BlobAt(me, store, t, ManifestKey(t.id));
    BlobAt(me, store, t, SignatureKey(t.id));
  }

  lemma OnlyManifest(keys: R.Keys, me: Identity, w: World, t: Transfer)
    requires Inv(me, w) && t.id in w.origins && w.origins[t.id] == t
    requires |t.source| < TWO_63 && CountIsExact(|t.source|)
    requires keys.sender == me.signer && me.receiver == Public(keys.own)
    ensures Resume.Setting(keys, me, t, SignedDocuments(w))
  {
    hide ManifestOf, StoreAgrees, Total;
  }

  /** After any honest history whose last run made all its broker calls, that run's transfer is published,
      also if the run was killed before it removed its state file. */
  lemma LastRunPublishes(me: Identity, w0: World, runs: seq<Event>, job: Job, fault: Fault)
    requires Unused(w0) && HonestHistory(me, w0, runs)
    requires Honest(After(me, w0, runs), job) && Sent(me, After(me, w0, runs), job, fault)
    ensures var t := TransferFor(After(me, w0, runs), job);
            var w := SendRun(me, After(me, w0, runs), job, fault);
            Inv(me, w) && t.id in w.origins && w.origins[t.id] == t && Published(me, w, t)
  {
    hide Inv, SendRun, Published;
    UnusedIsSound(me, w0);
    HistoryKeeps(me, w0, runs);
    SendRunKeeps(me, After(me, w0, runs), job, fault);
  }

  /** The setting of the end-to-end theorems: an unused sender, an honest history of runs, cut anywhere,
      then a run all of whose broker calls succeed; and a receiver with the keys that go with the sender's. */
  ghost predicate Uploaded(me: Identity, keys: R.Keys, w0: World, runs: seq<Event>, job: Job, fault: Fault) {
    && keys.sender == me.signer && me.receiver == Public(keys.own)
    && Unused(w0) && HonestHistory(me, w0, runs)
    && Honest(After(me, w0, runs), job) && Sent(me, After(me, w0, runs), job, fault)
    && CountIsExact(|job.source|)
  }

  ghost function UploadedTransfer(me: Identity, w0: World, runs: seq<Event>, job: Job): Transfer
    requires HonestHistory(me, w0, runs)
  {
    TransferFor(After(me, w0, runs), job)
  }

  ghost function UploadedWorld(me: Identity, w0: World, runs: seq<Event>, job: Job, fault: Fault): World
    requires HonestHistory(me, w0, runs) && |job.source| < TWO_63
  {
    SendRun(me, After(me, w0, runs), job, fault)
  }

  lemma UploadedIsServed(me: Identity, keys: R.Keys, w0: World, runs: seq<Event>, job: Job, fault: Fault, a: R.Answers)
    requires Uploaded(me, keys, w0, runs, job, fault)
    requires AnsweredFrom(UploadedWorld(me, w0, runs, job, fault).store, UploadedTransfer(me, w0, runs, job), a)
    ensures Resume.Serves(me, UploadedTransfer(me, w0, runs, job), a)
    ensures Resume.Setting(keys, me, UploadedTransfer(me, w0, runs, job),
                             SignedDocuments(UploadedWorld(me, w0, runs, job, fault)))
    ensures S.Unforged(keys, a, SignedDocuments(UploadedWorld(me, w0, runs, job, fault)))
  {
    hide SendRun, Inv, Published, AnsweredFrom, Resume.Setting, Resume.Serves, SignedDocuments;
    var t, w := UploadedTransfer(me, w0, runs, job), UploadedWorld(me, w0, runs, job, fault);
    LastRunPublishes(me, w0, runs, job, fault);
    OnlyManifest(keys, me, w, t);
    PublishedIsServed(me, w, t, a);
  }

  /** End to end, from any disk and after any runs whatever: once the sender has uploaded, an admissible
      run that gets the stored blobs delivers the source byte for byte, clears `.part` and the progress
      file and records the id, if and only if the disk recovers. */
  lemma DeliversExactly(
    me: Identity, keys: R.Keys, w0: World, runs: seq<Event>, job: Job, fault: Fault,
    d: R.Disk, req: R.Request, a: R.Answers)
    requires Uploaded(me, keys, w0, runs, job, fault)
    requires var t := UploadedTransfer(me, w0, runs, job);
             && AnsweredFrom(UploadedWorld(me, w0, runs, job, fault).store, t, a)
             && Resume.Admissible(t, req, d.ledger)
    ensures var t := UploadedTransfer(me, w0, runs, job);
            var run := R.ReceiveRun(keys, d, req, a);
            && (run.outcome == R.Delivered <==> Recovery.Recovers(d, t))
            && (run.outcome == R.Delivered ==>
                  R.EndDisk(d, run.trace) == R.Disk(Some(job.source), None, None, d.ledger + {t.id}))
  {
    hide SendRun, After, Resume.Setting, SignedDocuments, HonestHistory, AnsweredFrom, Cipher, Resume.ServesManifest,
         Total;
    hide R.ReceiveRun, Resume.Admissible, R.EndDisk, Recovery.Recovers, Recovery.PromotedState;
    UploadedIsServed(me, keys, w0, runs, job, fault, a);
    Recovery.RecoversExactly(keys, me, UploadedTransfer(me, w0, runs, job),
                             SignedDocuments(UploadedWorld(me, w0, runs, job, fault)), d, req, a);
  }

  /** Any number of receiver runs first, each ending by itself, with an error or a delivery, against a
      broker that answers anything but a forged signature: from a resumable disk the last run delivers. */
  lemma SourceArrives(
    me: Identity, keys: R.Keys, w0: World, runs: seq<Event>, job: Job, fault: Fault,
    d0: R.Disk, attempts: seq<Resume.Attempt>, req: R.Request, a: R.Answers)
    requires Uploaded(me, keys, w0, runs, job, fault)
    requires var t, w := UploadedTransfer(me, w0, runs, job), UploadedWorld(me, w0, runs, job, fault);
             && I.Resumable(d0, t)
             && Resume.Attempts(keys, t, SignedDocuments(w), attempts)
             && AnsweredFrom(w.store, t, a)
             && Resume.Admissible(t, req, Resume.DiskAfter(d0, Resume.CleanRuns(keys, d0, attempts)).ledger)
    ensures var t := UploadedTransfer(me, w0, runs, job);
            var d := Resume.DiskAfter(d0, Resume.CleanRuns(keys, d0, attempts));
            var run := R.ReceiveRun(keys, d, req, a);
            && run.outcome == R.Delivered
            && R.EndDisk(d, run.trace) == R.Disk(Some(job.source), None, None, d.ledger + {t.id})
  {
    hide SendRun, After, AnsweredFrom, Resume.CleanRuns, Resume.DiskAfter, Resume.Setting, Resume.Serves,
         Resume.Attempts;
    hide R.ReceiveRun, Resume.Admissible, SignedDocuments, R.EndDisk, I.Resumable, Recovery.Recovers, HonestHistory;
    var t, w := UploadedTransfer(me, w0, runs, job), UploadedWorld(me, w0, runs, job, fault);
    UploadedIsServed(me, keys, w0, runs, job, fault, a);
    I.CleanRunsStayResumable(keys, me, t, SignedDocuments(w), d0, attempts);
    var d := Resume.DiskAfter(d0, Resume.CleanRuns(keys, d0, attempts));
    I.ResumableRecovers(d, t);
    DeliversExactly(me, keys, w0, runs, job, fault, d, req, a);
  }

  /** The same when the receiver is interrupted at any instant, between any two changes to its disk:
      `--out` becomes the source. Only if an interrupted run had already put it there may the last run
      itself fail. */
  lemma SourceArrivesDespiteInterrupts(
    me: Identity, keys: R.Keys, w0: World, runs: seq<Event>, job: Job, fault: Fault,
    d0: R.Disk, cuts: seq<I.Interrupt>, req: R.Request, a: R.Answers)
    requires Uploaded(me, keys, w0, runs, job, fault)
    requires var t, w := UploadedTransfer(me, w0, runs, job), UploadedWorld(me, w0, runs, job, fault);
             && I.Resumable(d0, t)
             && I.Interrupts(keys, t, SignedDocuments(w), cuts)
             && AnsweredFrom(w.store, t, a)
             && Resume.Admissible(t, req, I.AfterInterrupts(keys, d0, cuts).ledger)
    ensures var t := UploadedTransfer(me, w0, runs, job);
            var d := I.AfterInterrupts(keys, d0, cuts);
            var run := R.ReceiveRun(keys, d, req, a);
            && R.EndDisk(d, run.trace).out == Some(job.source)
            && (d.out != Some(job.source) ==>
                  run.outcome == R.Delivered
                  && R.EndDisk(d, run.trace) == R.Disk(Some(job.source), None, None, d.ledger + {t.id}))
  {
    hide SendRun, After, AnsweredFrom, I.AfterInterrupts, I.Resumable, Resume.Setting, Resume.Serves, I.Interrupts;
    hide R.ReceiveRun, Resume.Admissible, SignedDocuments, R.EndDisk, Recovery.Recovers, HonestHistory;
    var t, w := UploadedTransfer(me, w0, runs, job), UploadedWorld(me, w0, runs, job, fault);
    UploadedIsServed(me, keys, w0, runs, job, fault, a);
    I.InterruptedAnywhere(keys, me, t, SignedDocuments(w), d0, cuts);
    var d := I.AfterInterrupts(keys, d0, cuts);
    if d.out == Some(job.source) {
      var n := |R.ReceiveRun(keys, d, req, a).trace|;
      AdmissibleNames(t, req, d.ledger);
      I.SourceStays(keys, me, t, SignedDocuments(w), d, req, a, n);
      assert R.ReceiveRun(keys, d, req, a).trace[..n] == R.ReceiveRun(keys, d, req, a).trace;
    } else {
      I.ResumableRecovers(d, t);
      DeliversExactly(me, keys, w0, runs, job, fault, d, req, a);
    }
  }

  /** The run of the history that began the transfer, by whose clock and with whose key the manifest is made
      out. */
  ghost predicate BegunBy(me: Identity, w0: World, runs: seq<Event>, job: Job, t: Transfer, first: Job)
    requires HonestHistory(me, w0, runs)
  {
    || Begun(me, w0, runs, t, first)
    || (first == job && !Resumes(After(me, w0, runs), job)
        && t == Transfer(job.freshId, job.source, job.file, job.now, job.freshKey))
  }

  lemma UploadWasBegun(me: Identity, keys: R.Keys, w0: World, runs: seq<Event>, job: Job, fault: Fault)
    returns (first: Job)
    requires Uploaded(me, keys, w0, runs, job, fault)
    ensures BegunBy(me, w0, runs, job, UploadedTransfer(me, w0, runs, job), first)
  {
    hide Inv, SendRun, Begun;
    var w := After(me, w0, runs);
    if Resumes(w, job) {
      UnusedIsSound(me, w0);
      HistoryKeeps(me, w0, runs);
      var o := ResumedOrigin(me, w, job);
      var begun := TransfersAreBegun(me, w0, runs, w.states[job.file].id);
      first := begun.value;
    } else {
      first := job;
    }
  }

  lemma {:induction false} BegunFields(me: Identity, w: World, events: seq<Event>, t: Transfer, first: Job)
    requires HonestHistory(me, w, events) && Begun(me, w, events, t, first)
    ensures t == Transfer(first.freshId, first.source, first.file, first.now, first.freshKey)
    decreases |events|
  {
    hide HonestEvent, Happens;
    if !(events[0].Invocation? && events[0].job == first && !Resumes(w, first)
         && t == Transfer(first.freshId, first.source, first.file, first.now, first.freshKey)) {
      BegunFields(me, Happens(me, w, events[0]), events[1..], t, first);
    }
  }

  /** End to end, by the clock. The manifest carries the clock of the run that began the transfer, however
      many runs it took to upload it. A receiver whose own clock is then at most a day ahead of that one and
      at most five minutes behind, and that has not completed the transfer before, gets the source from
      every disk that recovers; otherwise, unless it allows redelivery, it gets nothing. */
  lemma DeliversInTime(
    me: Identity, keys: R.Keys, w0: World, runs: seq<Event>, job: Job, fault: Fault, d: R.Disk, req: R.Request,
    a: R.Answers) returns (first: Job)
    requires Uploaded(me, keys, w0, runs, job, fault)
    requires var t := UploadedTransfer(me, w0, runs, job);
             && AnsweredFrom(UploadedWorld(me, w0, runs, job, fault).store, t, a)
             && req.id == t.id && !req.allowRedeliver
    ensures var t := UploadedTransfer(me, w0, runs, job);
            && BegunBy(me, w0, runs, job, t, first)
            && t.id == first.freshId && t.source == first.source == job.source && t.createdAt == first.now
            && ManifestOf(me, t).ephemeralPub == Public(first.freshKey)
            && (R.ReceiveRun(keys, d, req, a).outcome == R.Delivered <==>
                  -300 <= req.now - first.now <= 86400 && first.freshId !in d.ledger && Recovery.Recovers(d, t))
  {
    hide SendRun, After, SignedDocuments, HonestHistory, AnsweredFrom, R.FetchAndFinish, R.CompleteList;
    hide R.FetchManifest, R.EndDisk, Recovery.Recovers, Begun, Resume.Setting, ManifestOf, Total, Cipher;
    var t := UploadedTransfer(me, w0, runs, job);
    first := UploadWasBegun(me, keys, w0, runs, job, fault);
    if Begun(me, w0, runs, t, first) {
      BegunFields(me, w0, runs, t, first);
    }
    ManifestLayout(me, t);
    UploadedIsServed(me, keys, w0, runs, job, fault, a);
    if Resume.Admissible(t, req, d.ledger) {
      DeliversExactly(me, keys, w0, runs, job, fault, d, req, a);
    } else {
      Resume.ServedManifest(keys, me, t, d, req, a);
      Resume.GenuineManifest(keys, me, t, SignedDocuments(UploadedWorld(me, w0, runs, job, fault)), d, req, a);
    }
  }

  /** A source edited without a change of its size between two runs of the sender. The second run can report
      success and still leave a transfer that no receiver can complete: from any disk, also one that a receiver
      has left that went by the old manifest, a run gets the edited file if and only if the disk recovers for
      it and every chunk that was already stored and that the disk does not hold is unedited. */
  lemma EditedDelivery(
    me: Identity, keys: R.Keys, w: World, job: Job, fault: Fault, d: R.Disk, req: R.Request, a: R.Answers)
    requires keys.sender == me.signer && me.receiver == Public(keys.own)
    requires Inv(me, w) && |job.source| < TWO_63 && CountIsExact(|job.source|)
    requires Resumes(w, job) && Sent(me, w, job, fault)
    requires AnsweredFrom(SendRun(me, w, job, fault).store, TransferFor(w, job), a)
    requires Resume.Admissible(TransferFor(w, job), req, d.ledger)
    ensures w.states[job.file].id in w.origins
    ensures var t := TransferFor(w, job);
            R.ReceiveRun(keys, d, req, a).outcome == R.Delivered <==>
              && Recovery.Recovers(d, t)
              && forall i :: 0 <= i < Total(job.source) && ChunkKey(t.id, i) in w.store && i !in R.Believed(d, t.id) ==>
                   Chunk(job.source, i) == Chunk(w.origins[t.id].source, i)
  {
    hide Inv, SendRun, Sent, ManifestOf, Cipher, ChunkKey, ManifestKey, SignatureKey, Chunk, Total, R.ReceiveRun,
         R.EndDisk;
    hide Resume.Admissible, R.Believed, Recovery.PromotedState, Recovery.Recoverable;
    var t := TransferFor(w, job);
    var o := ResumedOrigin(me, w, job);
    SentManifest(me, w, job, fault);
    forall i | 0 <= i < Total(job.source)
      ensures R.ReplyTo(a, i) == R.Blob(Cipher(me, t, i)) <==>
        ChunkKey(t.id, i) !in w.store || Chunk(job.source, i) == Chunk(o.source, i)
    {
      EditedUpload(me, w, job, fault, i);
    }
    assert Resume.ServesManifest(me, t, a);
    Recovery.RecoversExactly(keys, me, t, {Document(ManifestOf(me, t))}, d, req, a);
  }

  lemma AdmissibleNames(t: Transfer, req: R.Request, ledger: set<TransferId>)
    requires Resume.Admissible(t, req, ledger)
    ensures req.id == t.id
  {
  }

  /** Where the chunk count is computed wrongly the transfer fails closed: no run of any receiver,
      from any disk and against any answers, delivers it. */
  lemma WrongCountNeverDelivers(me: Identity, keys: R.Keys, t: Transfer, signed: set<Message>, d: R.Disk,
      req: R.Request, a: R.Answers)
    requires |t.source| < TWO_63 && !CountIsExact(|t.source|)
    requires forall m :: Document(m) in signed && m.transferId == t.id ==> m == ManifestOf(me, t)
    requires S.Unforged(keys, a, signed) && req.id == t.id
    ensures R.ReceiveRun(keys, d, req, a).outcome != R.Delivered
  {
    hide R.FetchAndFinish, R.CompleteList, RecordsOf;
    var fetched := R.FetchManifest(keys, req, a, d.ledger);
    if fetched.Accepted? && R.CompleteList(fetched.manifest) {
      var m := fetched.manifest;
      assert Document(m) in signed && m.transferId == t.id;
      S.RunIsSafe(keys, d, req, a, m);
      ShortCount(t);
    }
  }

  lemma ShortCount(t: Transfer)
    requires |t.source| < TWO_63 && !CountIsExact(|t.source|)
    ensures |Leading(t.source, Total(t.source))| < |t.source|
  {
    CountExactness(|t.source|);
  }
}
