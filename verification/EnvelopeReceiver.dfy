/** Approach B receiver: one run against a broker that may answer anything. */
module EnvelopeReceiver {
  import opened Prelude
  import opened BigEndian
  import opened BlobNames
  import opened Files
  import opened Envelope

  datatype Progress = Progress(id: TransferId, done: set<nat>)

  /** What a run finds and leaves: `--out`, `.part`, `.part.progress` and the ledger. */
  datatype Disk = Disk(out: Option<Bytes>, part: Option<Bytes>, progress: Option<Progress>, ledger: set<TransferId>)

  datatype Reply = Missing | Blob(m: Message) | Unreachable

  /** The broker's answers to the requests of one run; a chunk that is not listed is unreachable. */
  datatype Answers = Answers(manifest: Reply, signature: Reply, chunks: map<nat, Reply>)

  datatype Request = Request(id: TransferId, allowRedeliver: bool, now: int)

  /** The sender's verification key and the receiver's own private key. */
  datatype Keys = Keys(sender: nat, own: PrivateKey)

  datatype Reason =
    | NotFound | BadSignature | NotAManifest | BadVersion | WrongId | Stale | FromFuture | Replay
    | BadChunkList | MissingChunk | CipherMismatch | BadTag | BadLength | BadSize | BadHash

  datatype Outcome = Interrupted | Rejected(reason: Reason) | Delivered

  // ---- the manifest ----

  datatype Fetched = Accepted(manifest: Manifest) | Stopped(outcome: Outcome)

  function CheckAge(m: Manifest, req: Request, ledger: set<TransferId>): Option<Reason> {
    var age := req.now - m.createdAt;
    if req.allowRedeliver then None
    else if age > FRESHNESS_WINDOW_S then Some(Stale)
    else if age < -CLOCK_SKEW_S then Some(FromFuture)
    else if req.id in ledger then Some(Replay)
    else None
  }

  function FetchManifest(keys: Keys, req: Request, a: Answers, ledger: set<TransferId>): Fetched {
    if a.manifest.Unreachable? || a.signature.Unreachable? then Stopped(Interrupted)
    else if a.manifest.Missing? || a.signature.Missing? then Stopped(Rejected(NotFound))
    else if !Verify(keys.sender, a.signature.m, a.manifest.m) then Stopped(Rejected(BadSignature))
    else if !a.manifest.m.Document? then Stopped(Rejected(NotAManifest))
    else
      var m := a.manifest.m.manifest;
      if m.version != MANIFEST_VERSION then Stopped(Rejected(BadVersion))
      else if m.transferId != req.id then Stopped(Rejected(WrongId))
      else
        match CheckAge(m, req, ledger)
        case Some(reason) => Stopped(Rejected(reason))
        case None => Accepted(m)
  }

  function Upto(n: nat): (s: set<nat>)
    ensures forall i :: i in s <==> 0 <= i < n
    ensures |s| == n
  {
    if n == 0 then {} else Upto(n - 1) + {n - 1}
  }

  /** The records keyed by index; of two with the same index the later wins. */
  function RecordMap(records: seq<ChunkRecord>): map<nat, ChunkRecord> {
    if records == [] then map[]
    else
      var last := records[|records| - 1];
      RecordMap(records[..|records| - 1])[last.index := last]
  }

  predicate CompleteList(m: Manifest) {
    |RecordMap(m.chunks)| == m.totalChunks && RecordMap(m.chunks).Keys == Upto(m.totalChunks)
  }

  function ChunkKeyOf(keys: Keys, m: Manifest): Key {
    DeriveChunkKey(Exchange(keys.own, m.ephemeralPub), m.transferId, m.ephemeralPub, Public(keys.own))
  }

  // ---- one chunk ----

  datatype Checked = Good(plain: Bytes) | Bad(outcome: Outcome)

  function CheckChunk(key: Key, m: Manifest, rec: ChunkRecord, reply: Reply, index: nat): Checked
    requires index < m.totalChunks
  {
    match reply
    case Unreachable => Bad(Interrupted)
    case Missing => Bad(Rejected(MissingChunk))
    case Blob(ct) =>
      if Sha256(ct) != rec.ciphertextSha then Bad(Rejected(CipherMismatch))
      else
        match Open(key, ChunkNonce(index), ct, ChunkAad(m.transferId, index, m.totalChunks))
        case None => Bad(Rejected(BadTag))
        case Some(plain) =>
          if |plain| != rec.plaintextLen then Bad(Rejected(BadLength)) else Good(plain)
  }

  function ReplyTo(a: Answers, index: nat): Reply {
    if index in a.chunks then a.chunks[index] else Unreachable
  }

  // ---- resume bookkeeping ----

  /** The chunk indices a run believes to be in `.part`. */
  function Believed(d: Disk, id: TransferId): set<nat> {
    if d.progress.Some? && d.progress.value.id == id && d.part.Some? then d.progress.value.done else {}
  }

  /** The disk states that the repair of `.part` goes through. */
  function RepairTrace(d: Disk, id: TransferId): seq<Disk> {
    if Believed(d, id) != {} then []
    else if d.part.Some? then [d.(part := None), d.(part := Some([]))]
    else [d.(part := Some([]))]
  }

  function Repaired(d: Disk, id: TransferId): (r: Disk)
    ensures r.part.Some?
  {
    if Believed(d, id) != {} then d else d.(part := Some([]))
  }

  // ---- the chunk loop ----

  /** The loop from some index on: the disk states it goes through, the last of them, the chunks
      verified so far, the chunks it wrote, and why it stopped early, if it did. */
  datatype Loop = Loop(trace: seq<Disk>, disk: Disk, done: set<nat>, writes: seq<nat>, stop: Option<Outcome>)

  function Record(d: Disk, id: TransferId, done: set<nat>): Disk {
    d.(progress := Some(Progress(id, done)))
  }

  function Written(d: Disk, index: nat, plain: Bytes): (r: Disk)
    requires d.part.Some?
    ensures r.part.Some?
  {
    d.(part := Some(WriteAt(d.part.value, index * CHUNK_SIZE, plain)))
  }

  function FetchChunks(keys: Keys, m: Manifest, a: Answers, d: Disk, done: set<nat>, index: nat): (r: Loop)
    requires CompleteList(m) && index <= m.totalChunks && d.part.Some?
    ensures r.disk.part.Some?
    decreases m.totalChunks - index
  {
    if index == m.totalChunks then Loop([], d, done, [], None)
    else if index in done then FetchChunks(keys, m, a, d, done, index + 1)
    else
      match CheckChunk(ChunkKeyOf(keys, m), m, RecordMap(m.chunks)[index], ReplyTo(a, index), index)
      case Bad(outcome) => Loop([], d, done, [], Some(outcome))
      case Good(plain) =>
        var d1 := Written(d, index, plain);
        var d2 := Record(d1, m.transferId, done + {index});
        var rest := FetchChunks(keys, m, a, d2, done + {index}, index + 1);
        rest.(trace := [d1, d2] + rest.trace, writes := [index] + rest.writes)
  }

  // ---- verification and promotion ----

  /** The whole-file check: what a manifest says of the plaintext. */
  predicate Describes(m: Manifest, bytes: Bytes) {
    |bytes| == m.fileSize && Sha256(Plain(bytes)) == m.plaintextSha
  }

  function Promoted(d: Disk): Disk {
    d.(out := d.part, part := None)
  }

  datatype Run = Run(trace: seq<Disk>, writes: seq<nat>, outcome: Outcome)

  function Finish(m: Manifest, d: Disk, done: set<nat>): Run
    requires d.part.Some?
  {
    var d1 := Record(d, m.transferId, done);
    if |d.part.value| != m.fileSize then Run([d1], [], Rejected(BadSize))
    else if Sha256(Plain(d.part.value)) != m.plaintextSha then Run([d1], [], Rejected(BadHash))
    else
      var d2 := Promoted(d1);
      var d3 := d2.(progress := None);
      Run([d1, d2, d3, d3.(ledger := d3.ledger + {m.transferId})], [], Delivered)
  }

  function FetchAndFinish(keys: Keys, m: Manifest, a: Answers, d: Disk): Run
    requires CompleteList(m)
  {
    var loop := FetchChunks(keys, m, a, Repaired(d, m.transferId), Believed(d, m.transferId), 0);
    var before := RepairTrace(d, m.transferId) + loop.trace;
    match loop.stop
    case Some(outcome) => Run(before, loop.writes, outcome)
    case None =>
      var end := Finish(m, loop.disk, loop.done);
      Run(before + end.trace, loop.writes, end.outcome)
  }

  function ReceiveRun(keys: Keys, d: Disk, req: Request, a: Answers): Run {
    match FetchManifest(keys, req, a, d.ledger)
    case Stopped(outcome) => Run([], [], outcome)
    case Accepted(m) =>
      if !CompleteList(m) then Run([], [], Rejected(BadChunkList))
      else FetchAndFinish(keys, m, a, d)
  }

  /** The disk a run leaves behind. */
  function EndDisk(d: Disk, trace: seq<Disk>): Disk {
    if trace == [] then d else trace[|trace| - 1]
  }

  // ---- the program ----

  class Receiver {
    const keys: Keys
    var out: Option<Bytes>
    var part: Option<Bytes>
    var progress: Option<Progress>
    var ledger: set<TransferId>
    /** Every state the disk has gone through since the run began. */
    ghost var trace: seq<Disk>

    ghost function State(): Disk
      reads this
    {
      Disk(out, part, progress, ledger)
    }

    constructor (keys: Keys, d: Disk)
      ensures this.keys == keys && State() == d && trace == []
    {
      this.keys := keys;
      out, part, progress, ledger := d.out, d.part, d.progress, d.ledger;
      trace := [];
    }

    method SaveProgress(id: TransferId, done: set<nat>)
      modifies this`progress, this`trace
      ensures State() == Record(old(State()), id, done)
      ensures trace == old(trace) + [State()]
    {
      progress := Some(Progress(id, done));
      trace := trace + [State()];
    }

    /** `_load_progress` and the repair of a `.part` that does not go with it. */
    method Resume(id: TransferId) returns (done: set<nat>)
      modifies this`part, this`trace
      ensures done == Believed(old(State()), id)
      ensures State() == Repaired(old(State()), id)
      ensures trace == old(trace) + RepairTrace(old(State()), id)
    {
      done := {};
      if progress.Some? && progress.value.id == id {
        done := progress.value.done;
      }
      if done != {} && part.None? {
        done := {};
      }
      ghost var base := trace;
      ghost var steps: seq<Disk> := [];
      if done == {} && part.Some? {
        part := None;
        steps := [State()];
      }
      if part.None? {
        part := Some([]);
        steps := steps + [State()];
      }
      trace := base + steps;
    }

    method Receive(req: Request, a: Answers) returns (outcome: Outcome, ghost writes: seq<nat>)
      requires trace == []
      modifies this
      ensures Run(trace, writes, outcome) == ReceiveRun(keys, old(State()), req, a)
      ensures State() == EndDisk(old(State()), trace)
    {
      writes := [];
      var fetched := FetchManifest(keys, req, a, ledger);
      if fetched.Stopped? {
        return fetched.outcome, [];
      }
      var m := fetched.manifest;
      if !CompleteList(m) {
        return Rejected(BadChunkList), [];
      }
      outcome, writes := FetchVerifyPromote(m, a);
    }

    method FetchVerifyPromote(m: Manifest, a: Answers) returns (outcome: Outcome, ghost writes: seq<nat>)
      requires trace == [] && CompleteList(m)
      modifies this
      ensures Run(trace, writes, outcome) == FetchAndFinish(keys, m, a, old(State()))
      ensures State() == EndDisk(old(State()), trace)
    {
      hide FetchChunks, RepairTrace, Repaired, Believed, Finish, EndDisk, CompleteList;
      ghost var loop :=
        FetchChunks(keys, m, a, Repaired(State(), m.transferId), Believed(State(), m.transferId), 0);
      var done := Resume(m.transferId);
      var stop: Option<Outcome>;
      done, stop, writes := FetchLoop(m, a, done);
      TraceEnds(keys, m, a, old(State()));
      if stop.Some? {
        return stop.value, writes;
      }
      outcome := VerifyAndPromote(m, done);
      EndOfBoth(old(State()), RepairTrace(old(State()), m.transferId) + loop.trace, Finish(m, loop.disk, done).trace);
    }

    method FetchLoop(m: Manifest, a: Answers, believed: set<nat>)
      returns (done: set<nat>, stop: Option<Outcome>, ghost writes: seq<nat>)
      requires CompleteList(m) && part.Some?
      modifies this`part, this`progress, this`trace
      ensures part.Some?
      ensures var loop := FetchChunks(keys, m, a, old(State()), believed, 0);
              State() == loop.disk && done == loop.done && stop == loop.stop && writes == loop.writes
              && trace == old(trace) + loop.trace
    {
      hide FetchChunks, CompleteList, CheckChunk, ChunkKeyOf, RecordMap, WriteAt;
      done, writes := believed, [];
      var records := RecordMap(m.chunks);
      var key := ChunkKeyOf(keys, m);
      ghost var goal := FetchChunks(keys, m, a, State(), believed, 0);
      ghost var steps: seq<Disk> := [];
      for index := 0 to m.totalChunks
        invariant part.Some?
        invariant trace == old(trace) + steps
        invariant goal == WithPast(steps, writes, FetchChunks(keys, m, a, State(), done, index))
        invariant out == old(out) && ledger == old(ledger)
      {
        FetchStep(keys, m, a, State(), done, index);
        if index !in done {
          var checked := CheckChunk(key, m, records[index], ReplyTo(a, index), index);
          if checked.Bad? {
            return done, Some(checked.outcome), writes;
          }
          ghost var d1, d2 := Written(State(), index, checked.plain),
                              Record(Written(State(), index, checked.plain), m.transferId, done + {index});
          WithPastTwice(steps, writes, d1, d2, index, FetchChunks(keys, m, a, d2, done + {index}, index + 1));
          part := Some(WriteAt(part.value, index * CHUNK_SIZE, checked.plain));
          trace := trace + [State()];
          done := done + {index};
          SaveProgress(m.transferId, done);
          steps := steps + [d1, d2];
          writes := writes + [index];
        }
      }
      LoopStops(keys, m, a, State(), done);
      stop := None;
    }

    method VerifyAndPromote(m: Manifest, done: set<nat>) returns (outcome: Outcome)
      requires part.Some?
      modifies this
      ensures var run := Finish(m, old(State()), done);
              outcome == run.outcome && trace == old(trace) + run.trace && State() == EndDisk(old(State()), run.trace)
    {
      SaveProgress(m.transferId, done);
      if |part.value| != m.fileSize {
        return Rejected(BadSize);
      }
      var fed := FeedPrefix(part.value, |part.value|);
      assert fed.value == part.value;
      if Sha256(Plain(fed.value)) != m.plaintextSha {
        return Rejected(BadHash);
      }
      out, part := part, None;
      trace := trace + [State()];
      progress := None;
      trace := trace + [State()];
      ledger := ledger + {m.transferId};
      trace := trace + [State()];
      return Delivered;
    }
  }

  lemma EndOfBoth(d: Disk, first: seq<Disk>, second: seq<Disk>)
    ensures EndDisk(d, first + second) == EndDisk(EndDisk(d, first), second)
  {
  }

  lemma {:induction false} LoopEnds(keys: Keys, m: Manifest, a: Answers, d: Disk, done: set<nat>, index: nat)
    requires CompleteList(m) && index <= m.totalChunks && d.part.Some?
    ensures var loop := FetchChunks(keys, m, a, d, done, index);
            EndDisk(d, loop.trace) == loop.disk
    decreases m.totalChunks - index
  {
    hide FetchChunks, CompleteList, EndDisk;
    if index == m.totalChunks {
      LoopStops(keys, m, a, d, done);
    } else {
      FetchStep(keys, m, a, d, done, index);
      if index in done {
        LoopEnds(keys, m, a, d, done, index + 1);
      } else {
        var checked := CheckChunk(ChunkKeyOf(keys, m), m, RecordMap(m.chunks)[index], ReplyTo(a, index), index);
        EndOfNothing(d);
        if checked.Good? {
          var d1 := Written(d, index, checked.plain);
          var d2 := Record(d1, m.transferId, done + {index});
          LoopEnds(keys, m, a, d2, done + {index}, index + 1);
          EndOfBoth(d, [d1, d2], FetchChunks(keys, m, a, d2, done + {index}, index + 1).trace);
          EndOfPair(d, d1, d2);
        }
      }
    }
  }

  lemma EndOfNothing(d: Disk)
    ensures EndDisk(d, []) == d
  {
  }

  lemma EndOfPair(d: Disk, d1: Disk, d2: Disk)
    ensures EndDisk(d, [d1, d2]) == d2
  {
  }

  lemma LoopStops(keys: Keys, m: Manifest, a: Answers, d: Disk, done: set<nat>)
    requires CompleteList(m) && d.part.Some?
    ensures FetchChunks(keys, m, a, d, done, m.totalChunks) == Loop([], d, done, [], None)
    ensures EndDisk(d, []) == d
  {
  }

  lemma TraceEnds(keys: Keys, m: Manifest, a: Answers, d: Disk)
    requires CompleteList(m)
    ensures var loop := FetchChunks(keys, m, a, Repaired(d, m.transferId), Believed(d, m.transferId), 0);
            EndDisk(d, RepairTrace(d, m.transferId) + loop.trace) == loop.disk
  {
    hide FetchChunks, CompleteList;
    var loop := FetchChunks(keys, m, a, Repaired(d, m.transferId), Believed(d, m.transferId), 0);
    LoopEnds(keys, m, a, Repaired(d, m.transferId), Believed(d, m.transferId), 0);
    EndOfBoth(d, RepairTrace(d, m.transferId), loop.trace);
  }

  /** The result of a loop that has already gone through some states. */
  ghost function WithPast(steps: seq<Disk>, writes: seq<nat>, loop: Loop): Loop {
    loop.(trace := steps + loop.trace, writes := writes + loop.writes)
  }

  lemma WithPastTwice(steps: seq<Disk>, writes: seq<nat>, d1: Disk, d2: Disk, index: nat, loop: Loop)
    ensures WithPast(steps, writes, WithPast([d1, d2], [index], loop))
         == WithPast(steps + [d1, d2], writes + [index], loop)
  {
    assert steps + ([d1, d2] + loop.trace) == (steps + [d1, d2]) + loop.trace;
    assert writes + ([index] + loop.writes) == (writes + [index]) + loop.writes;
  }

  lemma FetchStep(keys: Keys, m: Manifest, a: Answers, d: Disk, done: set<nat>, index: nat)
    requires CompleteList(m) && index < m.totalChunks && d.part.Some?
    ensures index in RecordMap(m.chunks)
    ensures FetchChunks(keys, m, a, d, done, index)
         == if index in done then FetchChunks(keys, m, a, d, done, index + 1)
            else
              match CheckChunk(ChunkKeyOf(keys, m), m, RecordMap(m.chunks)[index], ReplyTo(a, index), index)
              case Bad(outcome) => Loop([], d, done, [], Some(outcome))
              case Good(plain) =>
                var d1 := Written(d, index, plain);
                var d2 := Record(d1, m.transferId, done + {index});
                WithPast([d1, d2], [index], FetchChunks(keys, m, a, d2, done + {index}, index + 1))
  {
  }
}
