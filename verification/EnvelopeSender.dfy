/** Approach B sender: one run, with any number of broker calls before it is cut off. */
module EnvelopeSender {
  import opened Prelude
  import opened BigEndian
  import opened BlobNames
  import opened ChunkArithmetic
  import opened Files
  import opened Envelope

  /** A per-file state file: what makes an interrupted upload resumable. */
  datatype SenderState = SenderState(id: TransferId, createdAt: int, fileSize: nat, ephemeral: PrivateKey)

  /** One invocation: the file and its content, and what the system would supply for a new transfer. */
  datatype Job = Job(file: string, source: Bytes, freshId: TransferId, freshKey: PrivateKey, now: int)

  /** How a run is cut: the broker calls that succeed, whether the failing PUT took effect all the same
      (RetriedPuts.AtLeastOnceIsOnce: it did, as if once, or it did not), and whether the process dies
      between the last PUT and the removal of the state file. */
  datatype Fault = Fault(calls: nat, applied: bool, killed: bool)

  datatype Sealing = Sealing(key: Key, nonce: Bytes, plain: Bytes, aad: Bytes)

  /** The state files and the broker's store, with a record of the transfers that were ever begun,
      of every encryption and of every manifest signed. */
  datatype World = World(
    states: map<string, SenderState>,
    store: map<string, Message>,
    origins: map<TransferId, Transfer>,
    sealings: set<Sealing>,
    signed: set<Manifest>)

  function SealingOf(me: Identity, t: Transfer, index: nat): Sealing
    requires |t.source| < TWO_63 && index < Total(t.source)
  {
    var c := Cipher(me, t, index);
    Sealing(c.key, c.nonce, c.plain, c.aad)
  }

  predicate Resumes(w: World, job: Job) {
    job.file in w.states && w.states[job.file].fileSize == |job.source|
  }

  function StateFor(w: World, job: Job): SenderState {
    if Resumes(w, job) then w.states[job.file]
    else SenderState(job.freshId, job.now, |job.source|, job.freshKey)
  }

  function TransferFor(w: World, job: Job): Transfer {
    var st := StateFor(w, job);
    Transfer(st.id, job.source, job.file, st.createdAt, st.ephemeral)
  }

  /** `_load_or_create_state`. */
  function Begin(w: World, job: Job): World {
    if Resumes(w, job) then w
    else
      w.(states := w.states[job.file := StateFor(w, job)],
         origins := w.origins[job.freshId := TransferFor(w, job)])
  }

  function Put(w: World, key: string, blob: Message): World {
    w.(store := w.store[key := blob])
  }

  function FailedPut(w: World, key: string, blob: Message, applied: bool): World {
    if applied then Put(w, key, blob) else w
  }

  datatype Upload = Upload(world: World, left: nat, complete: bool)

  /** The chunk loop from `index` on, with `left` broker calls to go before one fails. */
  function UploadChunks(me: Identity, t: Transfer, already: set<string>, w: World, index: nat, left: nat,
      applied: bool): Upload
    requires |t.source| < TWO_63 && index <= Total(t.source)
    decreases Total(t.source) - index
  {
    if index == Total(t.source) then Upload(w, left, true)
    else
      var key := ChunkKey(t.id, index);
      var w1 := w.(sealings := w.sealings + {SealingOf(me, t, index)});
      if key in already then UploadChunks(me, t, already, w1, index + 1, left, applied)
      else if left == 0 then Upload(FailedPut(w1, key, Cipher(me, t, index), applied), 0, false)
      else UploadChunks(me, t, already, Put(w1, key, Cipher(me, t, index)), index + 1, left - 1, applied)
  }

  lemma UploadStep(me: Identity, t: Transfer, already: set<string>, w: World, index: nat, left: nat, applied: bool)
    requires |t.source| < TWO_63 && index <= Total(t.source)
    ensures UploadChunks(me, t, already, w, index, left, applied)
         == if index == Total(t.source) then Upload(w, left, true)
            else
              var key := ChunkKey(t.id, index);
              var w1 := w.(sealings := w.sealings + {SealingOf(me, t, index)});
              if key in already then UploadChunks(me, t, already, w1, index + 1, left, applied)
              else if left == 0 then Upload(FailedPut(w1, key, Cipher(me, t, index), applied), 0, false)
              else UploadChunks(me, t, already, Put(w1, key, Cipher(me, t, index)), index + 1, left - 1, applied)
  {
  }

  lemma NothingLeading(source: Bytes)
    ensures Leading(source, 0) == []
  {
  }

  lemma ChunkRead(source: Bytes, index: nat)
    ensures var at := Min(index * CHUNK_SIZE, |source|);
            var end := Min(at + CHUNK_SIZE, |source|);
            end == Min((index + 1) * CHUNK_SIZE, |source|) && source[at..end] == Chunk(source, index)
  {
  }

  /** The manifest, its signature, and the removal of the state file. */
  function Publish(me: Identity, t: Transfer, w: World, left: nat, applied: bool, killed: bool): World
    requires |t.source| < TWO_63
  {
    var doc := Document(ManifestOf(me, t));
    var w1 := w.(signed := w.signed + {ManifestOf(me, t)});
    if left == 0 then FailedPut(w1, ManifestKey(t.id), doc, applied)
    else
      var w2 := Put(w1, ManifestKey(t.id), doc);
      if left == 1 then FailedPut(w2, SignatureKey(t.id), Signature(me.signer, doc), applied)
      else
        var w3 := Put(w2, SignatureKey(t.id), Signature(me.signer, doc));
        if killed then w3 else w3.(states := w3.states - {t.file})
  }

  /** The names a LIST of this transfer returns. */
  function Already(store: map<string, Message>, id: TransferId): set<string> {
    set key | key in store && Hex(id) + "/" <= key
  }

  function SendRun(me: Identity, w: World, job: Job, fault: Fault): World
    requires |job.source| < TWO_63
  {
    var t := TransferFor(w, job);
    var w1 := Begin(w, job);
    if fault.calls == 0 then w1
    else
      var u := UploadChunks(me, t, Already(w1.store, t.id), w1, 0, fault.calls - 1, fault.applied);
      if u.complete then Publish(me, t, u.world, u.left, fault.applied, fault.killed) else u.world
  }

  /** The run reports success: every broker call it made succeeded. */
  predicate Sent(me: Identity, w: World, job: Job, fault: Fault)
    requires |job.source| < TWO_63
  {
    fault.calls > 0
    && var t, w1 := TransferFor(w, job), Begin(w, job);
       var u := UploadChunks(me, t, Already(w1.store, t.id), w1, 0, fault.calls - 1, fault.applied);
       u.complete && u.left >= 2
  }

  /** The sender's connection to the broker, which fails for good after `left` more calls. */
  class BrokerLink {
    var store: map<string, Message>
    var left: nat
    const applied: bool

    constructor (store: map<string, Message>, left: nat, applied: bool)
      ensures this.store == store && this.left == left && this.applied == applied
    {
      this.store, this.left, this.applied := store, left, applied;
    }

    method ListTransfer(id: TransferId) returns (r: Option<set<string>>)
      modifies this
      ensures store == old(store)
      ensures r == if old(left) == 0 then None else Some(Already(store, id))
      ensures left == if old(left) == 0 then 0 else old(left) - 1
    {
      if left == 0 {
        return None;
      }
      left := left - 1;
      return Some(Already(store, id));
    }

    method PutBlob(key: string, blob: Message) returns (ok: bool)
      modifies this
      ensures ok == (old(left) > 0)
      ensures left == if ok then old(left) - 1 else 0
      ensures store == if ok || applied then old(store)[key := blob] else old(store)
    {
      ok := left > 0;
      if ok {
        left := left - 1;
      }
      if ok || applied {
        store := store[key := blob];
      }
    }
  }

  class Sender {
    const me: Identity
    var states: map<string, SenderState>
    ghost var origins: map<TransferId, Transfer>
    ghost var sealings: set<Sealing>
    ghost var signed: set<Manifest>

    /** A host with the state files it finds, and the history that led to them. */
    constructor (me: Identity, states: map<string, SenderState>, ghost past: World)
      ensures this.me == me && this.states == states
      ensures origins == past.origins && sealings == past.sealings && signed == past.signed
    {
      this.me, this.states := me, states;
      origins, sealings, signed := past.origins, past.sealings, past.signed;
    }

    ghost function Host(link: BrokerLink): World
      reads this, link
    {
      World(states, link.store, origins, sealings, signed)
    }

    method LoadOrCreateState(job: Job, ghost link: BrokerLink) returns (st: SenderState)
      modifies this
      ensures st == StateFor(old(Host(link)), job)
      ensures Host(link) == Begin(old(Host(link)), job)
    {
      if job.file in states {
        st := states[job.file];
        if st.fileSize == |job.source| {
          return;
        }
      }
      st := SenderState(job.freshId, job.now, |job.source|, job.freshKey);
      states := states[job.file := st];
      origins := origins[job.freshId := Transfer(st.id, job.source, job.file, st.createdAt, st.ephemeral)];
    }

    /** `send`: false when a broker call failed. */
    method Send(job: Job, link: BrokerLink, killed: bool) returns (sent: bool)
      requires |job.source| < TWO_63
      modifies this, link
      ensures Host(link) == SendRun(me, old(Host(link)), job, Fault(old(link.left), link.applied, killed))
      ensures sent == Sent(me, old(Host(link)), job, Fault(old(link.left), link.applied, killed))
    {
      hide UploadChunks, Publish, Already;
      var st := LoadOrCreateState(job, link);
      var t := Transfer(st.id, job.source, job.file, st.createdAt, st.ephemeral);
      var already := link.ListTransfer(t.id);
      if already.None? {
        return false;
      }
      var ok, hashed, records := SendChunks(t, already.value, link);
      if !ok {
        return false;
      }
      sent := PublishManifest(t, hashed, records, link, killed);
    }

    method SendChunks(t: Transfer, already: set<string>, link: BrokerLink)
      returns (ok: bool, hashed: Bytes, records: seq<ChunkRecord>)
      requires |t.source| < TWO_63
      modifies this, link
      ensures var u := UploadChunks(me, t, already, old(Host(link)), 0, old(link.left), link.applied);
              Host(link) == u.world && ok == u.complete && (ok ==> link.left == u.left)
      ensures ok ==> hashed == Leading(t.source, Total(t.source))
      ensures ok ==> records == RecordsOf(me, t, Total(t.source))
    {
      hide UploadChunks, ChunkNonce, ChunkAad, TransferKey, Total, ChunkKey, Chunk, Leading;
      hashed, records := [], [];
      NothingLeading(t.source);
      var key := TransferKey(me, t);
      var total := Total(t.source);
      var f := new Reader(t.source);
      ghost var goal := UploadChunks(me, t, already, Host(link), 0, link.left, link.applied);
      for index := 0 to total
        invariant f.Valid() && f.content == t.source && f.pos == Min(index * CHUNK_SIZE, |t.source|)
        invariant hashed == Leading(t.source, index)
        invariant records == RecordsOf(me, t, index)
        invariant goal == UploadChunks(me, t, already, Host(link), index, link.left, link.applied)
      {
        LeadingStep(t.source, index);
        UploadStep(me, t, already, Host(link), index, link.left, link.applied);
        ChunkRead(t.source, index);
        var plain := f.Read(CHUNK_SIZE);
        hashed := hashed + plain;
        var ct := Sealed(key, ChunkNonce(index), plain, ChunkAad(t.id, index, total));
        sealings := sealings + {Sealing(ct.key, ct.nonce, ct.plain, ct.aad)};
        records := records + [ChunkRecord(index, |plain|, Sha256(ct))];
        var name := ChunkKey(t.id, index);
        if name !in already {
          var put := link.PutBlob(name, ct);
          if !put {
            return false, hashed, records;
          }
        }
      }
      UploadStep(me, t, already, Host(link), total, link.left, link.applied);
      ok := true;
    }

    method PublishManifest(t: Transfer, hashed: Bytes, records: seq<ChunkRecord>, link: BrokerLink, killed: bool)
      returns (ok: bool)
      requires |t.source| < TWO_63
      requires hashed == Leading(t.source, Total(t.source))
      requires records == RecordsOf(me, t, Total(t.source))
      modifies this, link
      ensures Host(link) == Publish(me, t, old(Host(link)), old(link.left), link.applied, killed)
      ensures ok == (old(link.left) >= 2)
    {
      hide RecordsOf, Leading, Total, ManifestKey, SignatureKey;
      var m := Manifest(
        MANIFEST_VERSION, t.id, t.createdAt, t.file, |t.source|, Total(t.source), Public(t.ephemeral),
        Sha256(Plain(hashed)), records);
      signed := signed + {m};
      ok := link.PutBlob(ManifestKey(t.id), Document(m));
      if !ok {
        return;
      }
      ok := link.PutBlob(SignatureKey(t.id), Signature(me.signer, Document(m)));
      if ok && !killed {
        states := states - {t.file};
      }
    }
  }
}
