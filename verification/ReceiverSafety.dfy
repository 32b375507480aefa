/** Approach B receiver: what holds whatever the broker answers and wherever a run is killed. */
module ReceiverSafety {
  import opened Prelude
  import opened BlobNames
  import opened Envelope
  import opened EnvelopeReceiver

  /** The signature hypothesis: what verifies under the sender's key is a document the sender signed. */
  ghost predicate Unforged(keys: Keys, a: Answers, signed: set<Message>) {
    a.signature.Blob? && a.signature.m.Signature? && a.signature.m.signer == keys.sender ==>
      a.signature.m.signed in signed
  }

  /** The file is exactly what a manifest signed by the sender for this transfer describes. */
  ghost predicate Authentic(signed: set<Message>, id: TransferId, out: Option<Bytes>) {
    out.Some? && exists m :: Document(m) in signed && m.version == "cmpe272-approach-b/v1" && m.transferId == id
                  && Describes(m, out.value)
  }

  /** The last state a loop or a run has reached when it is cut after `k` states. */
  function StateAfter(d: Disk, trace: seq<Disk>, k: nat): Disk {
    EndDisk(d, trace[..Min(k, |trace|)])
  }

  lemma {:induction false} LoopLeavesOut(keys: Keys, m: Manifest, a: Answers, d: Disk, done: set<nat>, index: nat)
    requires CompleteList(m) && index <= m.totalChunks && d.part.Some?
    ensures var loop := FetchChunks(keys, m, a, d, done, index);
            && (forall s :: s in loop.trace ==> s.out == d.out && s.ledger == d.ledger)
            && loop.disk.out == d.out && loop.disk.ledger == d.ledger
            && loop.stop != Some(Delivered)
    decreases m.totalChunks - index
  {
    hide FetchChunks, CompleteList, RecordMap, ChunkKeyOf;
    if index == m.totalChunks {
      LoopStops(keys, m, a, d, done);
    } else {
      FetchStep(keys, m, a, d, done, index);
      if index in done {
        LoopLeavesOut(keys, m, a, d, done, index + 1);
      } else {
        var checked := CheckChunk(ChunkKeyOf(keys, m), m, RecordMap(m.chunks)[index], ReplyTo(a, index), index);
        if checked.Good? {
          var d2 := Record(Written(d, index, checked.plain), m.transferId, done + {index});
          LoopLeavesOut(keys, m, a, d2, done + {index}, index + 1);
        }
      }
    }
  }

  /** Exactly which manifests are accepted: those found with a signature of the sender on them, of this
      version and for the requested transfer, and, unless redelivery is allowed, at most a day old, at most
      five minutes early, and not completed here before. */
  lemma ManifestExactly(keys: Keys, req: Request, a: Answers, ledger: set<TransferId>, m: Manifest)
    ensures FetchManifest(keys, req, a, ledger) == Accepted(m) <==>
      && a.manifest == Blob(Document(m)) && a.signature == Blob(Signature(keys.sender, Document(m)))
      && m.version == "cmpe272-approach-b/v1" && m.transferId == req.id
      && (req.allowRedeliver || (-300 <= req.now - m.createdAt <= 86400 && req.id !in ledger))
  {
    assert FRESHNESS_WINDOW_S == 86400;
  }

  /** And why the others are not, in the order of the checks. */
  lemma ManifestVerdicts(keys: Keys, req: Request, a: Answers, ledger: set<TransferId>)
    ensures var f := FetchManifest(keys, req, a, ledger);
            && (f == Stopped(Interrupted) <==> a.manifest.Unreachable? || a.signature.Unreachable?)
            && (f == Stopped(Rejected(NotFound)) <==>
                  && !a.manifest.Unreachable? && !a.signature.Unreachable?
                  && (a.manifest.Missing? || a.signature.Missing?))
            && (f == Stopped(Rejected(BadSignature)) <==>
                  a.manifest.Blob? && a.signature.Blob? && a.signature.m != Signature(keys.sender, a.manifest.m))
  {
  }

  lemma AgeVerdicts(keys: Keys, req: Request, a: Answers, ledger: set<TransferId>, m: Manifest)
    requires a.manifest == Blob(Document(m)) && a.signature == Blob(Signature(keys.sender, Document(m)))
    ensures var f := FetchManifest(keys, req, a, ledger);
            var age := req.now - m.createdAt;
            if m.version != "cmpe272-approach-b/v1" then f == Stopped(Rejected(BadVersion))
            else if m.transferId != req.id then f == Stopped(Rejected(WrongId))
            else if req.allowRedeliver then f == Accepted(m)
            else
              && (f == Stopped(Rejected(Stale)) <==> age > 86400)
              && (f == Stopped(Rejected(FromFuture)) <==> age < -300)
              && (f == Stopped(Rejected(Replay)) <==> -300 <= age <= 86400 && req.id in ledger)
  {
    assert FRESHNESS_WINDOW_S == 86400;
  }

  ghost predicate Carries(rs: seq<ChunkRecord>, i: int) {
    exists j :: 0 <= j < |rs| && rs[j].index == i
  }

  lemma {:induction false} RecordMapKeys(rs: seq<ChunkRecord>)
    ensures forall i: nat :: i in RecordMap(rs) <==> Carries(rs, i)
  {
    if rs != [] {
      var front, last := rs[..|rs| - 1], rs[|rs| - 1];
      RecordMapKeys(front);
      assert rs == front + [last];
      forall i: nat ensures Carries(rs, i) <==> Carries(front, i) || i == last.index {
        CarriesMore(front, last, i);
      }
    }
  }

  lemma CarriesMore(rs: seq<ChunkRecord>, r: ChunkRecord, i: int)
    ensures Carries(rs + [r], i) <==> Carries(rs, i) || i == r.index
  {
    if j :| 0 <= j < |rs| && rs[j].index == i {
      assert (rs + [r])[j].index == i;
    }
    assert (rs + [r])[|rs|] == r;
  }

  /** Each index stands for the last record that carries it. */
  lemma {:induction false} RecordMapExactly(rs: seq<ChunkRecord>, j: nat)
    requires j < |rs| && forall k :: j < k < |rs| ==> rs[k].index != rs[j].index
    ensures rs[j].index in RecordMap(rs) && RecordMap(rs)[rs[j].index] == rs[j]
  {
    if j < |rs| - 1 {
      assert rs[|rs| - 1].index != rs[j].index;
      RecordMapExactly(rs[..|rs| - 1], j);
    }
  }

  /** A chunk list is complete when the indices in it are those below the total, all of them and no others. */
  lemma CompleteExactly(m: Manifest)
    ensures CompleteList(m) <==> forall i: nat :: i < m.totalChunks <==> Carries(m.chunks, i)
  {
    hide RecordMap, Carries, Upto;
    RecordMapKeys(m.chunks);
    SizeOfMap(RecordMap(m.chunks));
    if forall i: nat :: i < m.totalChunks <==> Carries(m.chunks, i) {
      forall i: nat ensures i in RecordMap(m.chunks).Keys <==> i in Upto(m.totalChunks) {
        assert i < m.totalChunks <==> Carries(m.chunks, i);
      }
      assert RecordMap(m.chunks).Keys == Upto(m.totalChunks);
    }
  }

  lemma SizeOfMap<V>(m: map<nat, V>)
    ensures |m| == |m.Keys|
  {
  }

  /** An incomplete list ends the run before anything on disk has changed. */
  lemma IncompleteIsRefused(keys: Keys, d: Disk, req: Request, a: Answers, m: Manifest)
    requires FetchManifest(keys, req, a, d.ledger) == Accepted(m) && !CompleteList(m)
    ensures ReceiveRun(keys, d, req, a) == Run([], [], Rejected(BadChunkList))
  {
    hide CompleteList, FetchManifest;
  }

  /** What a chunk must be, under any manifest: the plaintext sealed under the derived key for its own
      index, with the recorded ciphertext digest and the recorded length. */
  lemma AcceptedChunk(key: Key, m: Manifest, rec: ChunkRecord, reply: Reply, index: nat, plain: Bytes)
    requires index < m.totalChunks
    ensures CheckChunk(key, m, rec, reply, index) == Good(plain) <==>
      && reply == Blob(Sealed(key, ChunkNonce(index), plain, ChunkAad(m.transferId, index, m.totalChunks)))
      && rec.ciphertextSha == Sha256(reply.m) && rec.plaintextLen == |plain|
  {
    hide ChunkNonce, ChunkAad;
  }

  /** The repair of `.part`, state by state: one that is not believed in is removed and then created empty. */
  lemma RepairSteps(d: Disk, id: TransferId)
    ensures Believed(d, id) != {} ==> RepairTrace(d, id) == []
    ensures Believed(d, id) == {} && d.part.None? ==> RepairTrace(d, id) == [d.(part := Some([]))]
    ensures Believed(d, id) == {} && d.part.Some? ==>
      RepairTrace(d, id) == [d.(part := None), d.(part := Some([]))]
    ensures Believed(d, id) == {} <==>
      d.part.None? || d.progress.None? || d.progress.value.id != id || d.progress.value.done == {}
    ensures Believed(d, id) != {} ==> Believed(d, id) == d.progress.value.done
  {
  }

  /** A state of a run before promotion has the old output and ledger; from promotion on it has a
      described output; the id enters the ledger only as the very last step of a delivery. */
  ghost predicate SafeState(m: Manifest, d: Disk, s: Disk) {
    && (s.out == d.out || (s.out.Some? && Describes(m, s.out.value)))
    && (s.ledger == d.ledger || s.ledger == d.ledger + {m.transferId})
  }

  lemma FinishIsSafe(m: Manifest, d: Disk, done: set<nat>)
    requires d.part.Some?
    ensures var run := Finish(m, d, done);
            && (forall s :: s in run.trace ==> SafeState(m, d, s))
            && (run.outcome == Delivered ==>
                  EndDisk(d, run.trace).out == d.part && Describes(m, d.part.value)
                  && EndDisk(d, run.trace).ledger == d.ledger + {m.transferId})
            && (run.outcome != Delivered ==>
                  EndDisk(d, run.trace).out == d.out && EndDisk(d, run.trace).ledger == d.ledger)
  {
  }

  /** The manifest a run went by, if it got as far as the repair of `.part`. */
  ghost predicate WentBy(keys: Keys, d: Disk, req: Request, a: Answers, m: Manifest) {
    FetchManifest(keys, req, a, d.ledger) == Accepted(m) && CompleteList(m)
  }

  lemma RunIsSafe(keys: Keys, d: Disk, req: Request, a: Answers, m: Manifest)
    requires WentBy(keys, d, req, a, m)
    ensures var run := ReceiveRun(keys, d, req, a);
            && (forall s :: s in run.trace ==> SafeState(m, d, s))
            && (run.outcome == Delivered ==>
                  var end := EndDisk(d, run.trace);
                  end.out.Some? && Describes(m, end.out.value) && end.ledger == d.ledger + {m.transferId})
            && (run.outcome != Delivered ==> EndDisk(d, run.trace).ledger == d.ledger)
  {
    hide FetchChunks, CompleteList, Finish, EndDisk, FetchManifest, Describes;
    var loop := FetchChunks(keys, m, a, Repaired(d, m.transferId), Believed(d, m.transferId), 0);
    LoopLeavesOut(keys, m, a, Repaired(d, m.transferId), Believed(d, m.transferId), 0);
    TraceEnds(keys, m, a, d);
    FinishIsSafe(m, loop.disk, loop.done);
    EndOfBoth(d, RepairTrace(d, m.transferId) + loop.trace, Finish(m, loop.disk, loop.done).trace);
    forall s | s in RepairTrace(d, m.transferId) ensures s.out == d.out && s.ledger == d.ledger {
    }
  }

  /** Fail-closed: at every state of every run, from any disk and against any answers, `--out` is
      what it was or what a signed manifest of the requested transfer describes, and a run that
      reports success leaves the latter. */
  lemma OutputIsAuthentic(keys: Keys, d: Disk, req: Request, a: Answers, signed: set<Message>, k: nat)
    requires Unforged(keys, a, signed)
    ensures var run := ReceiveRun(keys, d, req, a);
            var s := StateAfter(d, run.trace, k);
            && (s.out == d.out || Authentic(signed, req.id, s.out))
            && (s.ledger == d.ledger || s.ledger == d.ledger + {req.id})
            && (run.outcome == Delivered && k >= |run.trace| ==>
                  Authentic(signed, req.id, s.out) && req.id in s.ledger)
  {
    hide FetchAndFinish, CompleteList, Describes;
    var run := ReceiveRun(keys, d, req, a);
    var fetched := FetchManifest(keys, req, a, d.ledger);
    if fetched.Accepted? && CompleteList(fetched.manifest) {
      var m := fetched.manifest;
      assert Document(m) in signed && m.version == MANIFEST_VERSION && m.transferId == req.id;
      RunIsSafe(keys, d, req, a, m);
      assert run.trace[..|run.trace|] == run.trace;
      var cut := run.trace[..Min(k, |run.trace|)];
      if cut != [] {
        assert cut[|cut| - 1] in run.trace;
      }
    }
  }

  // ---- histories with hard kills ----

  /** A run that is killed, or ends, once the disk has gone through `states` states. What is then in
      `.part` and its progress file is anything at all: buffered writes may be lost or torn. */
  datatype Kill = Kill(req: Request, a: Answers, states: nat, part: Option<Bytes>, progress: Option<Progress>)

  function AfterKill(keys: Keys, d: Disk, kill: Kill): Disk {
    StateAfter(d, ReceiveRun(keys, d, kill.req, kill.a).trace, kill.states)
      .(part := kill.part, progress := kill.progress)
  }

  function AfterKills(keys: Keys, d: Disk, kills: seq<Kill>): Disk
    decreases |kills|
  {
    if kills == [] then d else AfterKills(keys, AfterKill(keys, d, kills[0]), kills[1..])
  }

  /** Fail-closed over every history of runs killed anywhere: the final name still has its first
      content, or exactly what a signed manifest of one of the requested transfers describes. */
  lemma {:induction false} KillsAreFailClosed(keys: Keys, d: Disk, kills: seq<Kill>, signed: set<Message>)
    requires forall i :: 0 <= i < |kills| ==> Unforged(keys, kills[i].a, signed)
    ensures var out := AfterKills(keys, d, kills).out;
            out == d.out || exists i :: 0 <= i < |kills| && Authentic(signed, kills[i].req.id, out)
    decreases |kills|
  {
    hide ReceiveRun, Authentic, Unforged;
    if kills != [] {
      var d1 := AfterKill(keys, d, kills[0]);
      OutputIsAuthentic(keys, d, kills[0].req, kills[0].a, signed, kills[0].states);
      KillsAreFailClosed(keys, d1, kills[1..], signed);
      var out := AfterKills(keys, d, kills).out;
      if out != d1.out {
        var i :| 0 <= i < |kills| - 1 && Authentic(signed, kills[1..][i].req.id, out);
        assert Authentic(signed, kills[i + 1].req.id, out);
      } else if out != d.out {
        assert Authentic(signed, kills[0].req.id, out);
      }
    }
  }

  // ---- the replay ledger ----

  /** One run among those that share a state directory; its `--out` and partial files are its own. */
  datatype Visit = Visit(out: Option<Bytes>, part: Option<Bytes>, progress: Option<Progress>,
    req: Request, a: Answers, states: nat)

  function VisitDisk(v: Visit, ledger: set<TransferId>): Disk {
    Disk(v.out, v.part, v.progress, ledger)
  }

  function LedgerAfter(keys: Keys, v: Visit, ledger: set<TransferId>): set<TransferId> {
    var d := VisitDisk(v, ledger);
    StateAfter(d, ReceiveRun(keys, d, v.req, v.a).trace, v.states).ledger
  }

  /** The ledger before visit `n`. */
  function Ledger(keys: Keys, ledger: set<TransferId>, visits: seq<Visit>, n: nat): set<TransferId>
    requires n <= |visits|
  {
    if n == 0 then ledger else LedgerAfter(keys, visits[n - 1], Ledger(keys, ledger, visits, n - 1))
  }

  /** The visit ran to its end and reported success. */
  ghost predicate Succeeded(keys: Keys, v: Visit, ledger: set<TransferId>) {
    var run := ReceiveRun(keys, VisitDisk(v, ledger), v.req, v.a);
    run.outcome == Delivered && v.states >= |run.trace|
  }

  /** A success without `--allow-redeliver` had a fresh manifest and an id not yet in the ledger. */
  lemma SuccessWasAdmissible(keys: Keys, v: Visit, ledger: set<TransferId>)
    requires Succeeded(keys, v, ledger) && !v.req.allowRedeliver
    ensures v.a.manifest.Blob? && v.a.manifest.m.Document?
    ensures -300 <= v.req.now - v.a.manifest.m.manifest.createdAt <= 86400
    ensures v.req.id !in ledger
  {
    hide FetchAndFinish, CompleteList;
  }

  lemma VisitGrowsLedger(keys: Keys, v: Visit, ledger: set<TransferId>)
    ensures ledger <= LedgerAfter(keys, v, ledger) <= ledger + {v.req.id}
    ensures Succeeded(keys, v, ledger) ==> v.req.id in LedgerAfter(keys, v, ledger)
  {
    hide ReceiveRun;
    var d := VisitDisk(v, ledger);
    var signed := if v.a.signature.Blob? && v.a.signature.m.Signature? then {v.a.signature.m.signed} else {};
    OutputIsAuthentic(keys, d, v.req, v.a, signed, v.states);
  }

  lemma {:induction false} LedgerOnlyGrows(keys: Keys, ledger: set<TransferId>, visits: seq<Visit>, i: nat, j: nat)
    requires i <= j <= |visits|
    ensures Ledger(keys, ledger, visits, i) <= Ledger(keys, ledger, visits, j)
    decreases j - i
  {
    hide LedgerAfter;
    if i < j {
      LedgerOnlyGrows(keys, ledger, visits, i, j - 1);
      VisitGrowsLedger(keys, visits[j - 1], Ledger(keys, ledger, visits, j - 1));
    }
  }

  /** The replay rule, for a success without `--allow-redeliver` among any number of runs: its manifest
      was at most a day old and at most five minutes early, its id was in the ledger neither at the start
      nor by an earlier success, and it is in the ledger ever after. */
  lemma ReplayRule(keys: Keys, ledger: set<TransferId>, visits: seq<Visit>, j: nat)
    requires j < |visits| && !visits[j].req.allowRedeliver
    requires Succeeded(keys, visits[j], Ledger(keys, ledger, visits, j))
    ensures visits[j].a.manifest.Blob? && visits[j].a.manifest.m.Document?
    ensures -300 <= visits[j].req.now - visits[j].a.manifest.m.manifest.createdAt <= 86400
    ensures visits[j].req.id !in ledger
    ensures forall i :: 0 <= i < j && Succeeded(keys, visits[i], Ledger(keys, ledger, visits, i)) ==>
      visits[i].req.id != visits[j].req.id
    ensures forall k :: j < k <= |visits| ==> visits[j].req.id in Ledger(keys, ledger, visits, k)
  {
    FirstLedger(keys, ledger, visits);
    hide Ledger, LedgerAfter, Succeeded;
    SuccessWasAdmissible(keys, visits[j], Ledger(keys, ledger, visits, j));
    LedgerOnlyGrows(keys, ledger, visits, 0, j);
    forall i | 0 <= i < j && Succeeded(keys, visits[i], Ledger(keys, ledger, visits, i))
      ensures visits[i].req.id != visits[j].req.id
    {
      SuccessIsRecorded(keys, ledger, visits, i, j);
    }
    forall k | j < k <= |visits| ensures visits[j].req.id in Ledger(keys, ledger, visits, k) {
      SuccessIsRecorded(keys, ledger, visits, j, k);
    }
  }

  lemma FirstLedger(keys: Keys, ledger: set<TransferId>, visits: seq<Visit>)
    ensures Ledger(keys, ledger, visits, 0) == ledger
  {
  }

  lemma SuccessIsRecorded(keys: Keys, ledger: set<TransferId>, visits: seq<Visit>, i: nat, k: nat)
    requires i < k <= |visits|
    requires Succeeded(keys, visits[i], Ledger(keys, ledger, visits, i))
    ensures visits[i].req.id in Ledger(keys, ledger, visits, k)
  {
    hide LedgerAfter, Succeeded;
    VisitGrowsLedger(keys, visits[i], Ledger(keys, ledger, visits, i));
    LedgerOnlyGrows(keys, ledger, visits, i + 1, k);
  }
}
