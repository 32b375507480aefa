/** Approach B sender over all histories: fresh, resumed, stale and cut-off runs of any files. */
module SenderHistory {
  import opened Prelude
  import opened BigEndian
  import opened BlobNames
  import opened ChunkArithmetic
  import opened Files
  import opened Envelope
  import opened EnvelopeSender
  import L = BlobListing

  function Under(id: TransferId): string {
    Hex(id) + "/"
  }

  /** `blob` is what transfer `t` stores under `key`. */
  ghost predicate IsBlobOf(me: Identity, t: Transfer, key: string, blob: Message)
    requires |t.source| < TWO_63
  {
    || (exists i :: 0 <= i < Total(t.source) && key == ChunkKey(t.id, i) && blob == Cipher(me, t, i))
    || (key == ManifestKey(t.id) && blob == Document(ManifestOf(me, t)))
    || (key == SignatureKey(t.id) && blob == Signature(me.signer, Document(ManifestOf(me, t))))
  }

  /** Everything the broker holds under a transfer's id is that transfer's own blob. */
  ghost predicate StoreAgrees(me: Identity, store: map<string, Message>, t: Transfer)
    requires |t.source| < TWO_63
  {
    forall key :: key in store && Under(t.id) <= key ==> IsBlobOf(me, t, key, store[key])
  }

  ghost predicate StateMatches(file: string, st: SenderState, t: Transfer) {
    t == Transfer(st.id, t.source, file, st.createdAt, st.ephemeral) && st.fileSize == |t.source|
  }

  ghost predicate KnownTransfers(w: World) {
    forall id :: id in w.origins ==> w.origins[id].id == id && |w.origins[id].source| < TWO_63
  }

  ghost predicate SealedFrom(me: Identity, w: World, s: Sealing)
    requires KnownTransfers(w)
  {
    exists id, i :: id in w.origins && 0 <= i < Total(w.origins[id].source)
      && s == SealingOf(me, w.origins[id], i)
  }

  ghost predicate Inv(me: Identity, w: World) {
    && KnownTransfers(w)
    && (forall f :: f in w.states ==>
          w.states[f].id in w.origins && StateMatches(f, w.states[f], w.origins[w.states[f].id]))
    && (forall id :: id in w.origins ==> StoreAgrees(me, w.store, w.origins[id]))
    && (forall s :: s in w.sealings ==> SealedFrom(me, w, s))
    && (forall m :: m in w.signed ==>
          m.transferId in w.origins && m == ManifestOf(me, w.origins[m.transferId]))
  }

  /** The hypothesis on a run: the source has not changed while its state file lives, and a new
      transfer gets an id that is new to this sender and to the broker. */
  ghost predicate Honest(w: World, job: Job) {
    && |job.source| < TWO_63
    && if Resumes(w, job) then
         w.states[job.file].id in w.origins && w.origins[w.states[job.file].id].source == job.source
       else
         job.freshId !in w.origins && (forall key :: key in w.store ==> !(Under(job.freshId) <= key))
  }

  lemma NothingStored(me: Identity, store: map<string, Message>, t: Transfer)
    requires |t.source| < TWO_63
    requires forall key :: key in store ==> !(Under(t.id) <= key)
    ensures StoreAgrees(me, store, t)
  {
  }

  lemma BeginKeeps(me: Identity, w: World, job: Job)
    requires Inv(me, w) && Honest(w, job)
    ensures var t := TransferFor(w, job);
            var w1 := Begin(w, job);
            Inv(me, w1) && t.id in w1.origins && w1.origins[t.id] == t
    ensures Begin(w, job).store == w.store && Begin(w, job).sealings == w.sealings
  {
    hide IsBlobOf, SealingOf, ManifestOf, Total, Hex, StoreAgrees;
    var t := TransferFor(w, job);
    var w1 := Begin(w, job);
    if !Resumes(w, job) {
      NothingStored(me, w.store, t);
      forall s | s in w1.sealings ensures SealedFrom(me, w1, s) {
        var id, i :| id in w.origins && 0 <= i < Total(w.origins[id].source) && s == SealingOf(me, w.origins[id], i);
        assert id in w1.origins && w1.origins[id] == w.origins[id];
      }
    }
  }

  lemma PrefixSeparates(a: TransferId, b: TransferId, key: string)
    requires Under(a) <= key && Under(b) <= key
    ensures a == b
  {
    assert key[..32] == Hex(a) && key[..32] == Hex(b);
    HexInjective(a, b);
  }

  lemma BlobIsUnder(me: Identity, t: Transfer, key: string, blob: Message)
    requires |t.source| < TWO_63 && IsBlobOf(me, t, key, blob)
    ensures Under(t.id) <= key
  {
    hide Hex, ChunkName;
  }

  lemma PutKeeps(me: Identity, w: World, t: Transfer, key: string, blob: Message)
    requires Inv(me, w) && t.id in w.origins && w.origins[t.id] == t
    requires IsBlobOf(me, t, key, blob)
    ensures Inv(me, Put(w, key, blob))
  {
    hide IsBlobOf, SealingOf, ManifestOf, Hex;
    var w1 := Put(w, key, blob);
    BlobIsUnder(me, t, key, blob);
    forall id | id in w1.origins ensures StoreAgrees(me, w1.store, w1.origins[id]) {
      forall k | k in w1.store && Under(id) <= k ensures IsBlobOf(me, w1.origins[id], k, w1.store[k]) {
        if k == key {
          PrefixSeparates(t.id, id, key);
        }
      }
    }
    forall s | s in w1.sealings ensures SealedFrom(me, w1, s) {
      assert SealedFrom(me, w, s);
    }
  }

  lemma SealKeeps(me: Identity, w: World, t: Transfer, index: nat)
    requires Inv(me, w) && t.id in w.origins && w.origins[t.id] == t
    requires index < Total(t.source)
    ensures Inv(me, w.(sealings := w.sealings + {SealingOf(me, t, index)}))
  {
    hide IsBlobOf, SealingOf, ManifestOf, StoreAgrees;
    var w1 := w.(sealings := w.sealings + {SealingOf(me, t, index)});
    forall s | s in w1.sealings ensures SealedFrom(me, w1, s) {
      if s in w.sealings {
        assert SealedFrom(me, w, s);
      }
    }
  }

  /** All the chunks from `index` on are in the store. */
  ghost predicate HasChunks(store: map<string, Message>, t: Transfer, index: nat)
    requires |t.source| < TWO_63
  {
    forall i :: index <= i < Total(t.source) ==> ChunkKey(t.id, i) in store
  }

  lemma {:induction false} UploadKeeps(me: Identity, t: Transfer, already: set<string>, w: World, index: nat,
      left: nat, applied: bool)
    requires Inv(me, w) && t.id in w.origins && w.origins[t.id] == t
    requires |t.source| < TWO_63 && index <= Total(t.source)
    requires already <= w.store.Keys
    ensures var u := UploadChunks(me, t, already, w, index, left, applied);
            && Inv(me, u.world)
            && u.world.origins == w.origins && u.world.states == w.states && u.world.signed == w.signed
            && w.store.Keys <= u.world.store.Keys
            && u.left <= left
            && (u.complete ==> HasChunks(u.world.store, t, index) && left - (Total(t.source) - index) <= u.left)
            && (left >= Total(t.source) - index ==> u.complete)
    decreases Total(t.source) - index
  {
    hide Inv, SealingOf, Total, ChunkKey, Cipher, UploadChunks;
    UploadStep(me, t, already, w, index, left, applied);
    if index < Total(t.source) {
      var key := ChunkKey(t.id, index);
      var ct := Cipher(me, t, index);
      var w1 := w.(sealings := w.sealings + {SealingOf(me, t, index)});
      SealKeeps(me, w, t, index);
      assert IsBlobOf(me, t, key, ct);
      PutKeeps(me, w1, t, key, ct);
      if key in already {
        UploadKeeps(me, t, already, w1, index + 1, left, applied);
      } else if left > 0 {
        UploadKeeps(me, t, already, Put(w1, key, ct), index + 1, left - 1, applied);
      }
    }
  }

  lemma SignKeeps(me: Identity, w: World, t: Transfer)
    requires Inv(me, w) && t.id in w.origins && w.origins[t.id] == t
    ensures Inv(me, w.(signed := w.signed + {ManifestOf(me, t)}))
  {
    hide IsBlobOf, SealingOf, StoreAgrees, RecordsOf, Total, Leading;
    var w1 := w.(signed := w.signed + {ManifestOf(me, t)});
    forall s | s in w1.sealings ensures SealedFrom(me, w1, s) {
      assert SealedFrom(me, w, s);
    }
  }

  lemma ForgetKeeps(me: Identity, w: World, file: string)
    requires Inv(me, w)
    ensures Inv(me, w.(states := w.states - {file}))
  {
    hide IsBlobOf, SealingOf, StoreAgrees, ManifestOf;
    var w1 := w.(states := w.states - {file});
    forall s | s in w1.sealings ensures SealedFrom(me, w1, s) {
      assert SealedFrom(me, w, s);
    }
  }

  /** Everything a receiver needs of a transfer is stored, and its manifest has been signed. */
  ghost predicate Published(me: Identity, w: World, t: Transfer)
    requires |t.source| < TWO_63
  {
    && HasChunks(w.store, t, 0)
    && ManifestKey(t.id) in w.store && SignatureKey(t.id) in w.store
    && ManifestOf(me, t) in w.signed
  }

  /** The state files are as before, except that this one may be gone. */
  ghost predicate OnlyForgets(w: World, w1: World, file: string) {
    w1.states == w.states || w1.states == w.states - {file}
  }

  lemma PublishKeeps(me: Identity, t: Transfer, w: World, left: nat, applied: bool, killed: bool)
    requires |t.source| < TWO_63
    requires Inv(me, w) && t.id in w.origins && w.origins[t.id] == t
    ensures var w1 := Publish(me, t, w, left, applied, killed);
            && Inv(me, w1)
            && w1.origins == w.origins
            && (left >= 2 && HasChunks(w.store, t, 0) ==> Published(me, w1, t))
            && (left >= 2 && !killed ==> t.file !in w1.states)
            && OnlyForgets(w, w1, t.file)
            && (t.file in w.states && t.file !in w1.states && HasChunks(w.store, t, 0) ==> Published(me, w1, t))
  {
    hide Inv, ManifestOf, ManifestKey, SignatureKey, ChunkKey;
    var doc := Document(ManifestOf(me, t));
    var w1 := w.(signed := w.signed + {ManifestOf(me, t)});
    SignKeeps(me, w, t);
    assert IsBlobOf(me, t, ManifestKey(t.id), doc);
    PutKeeps(me, w1, t, ManifestKey(t.id), doc);
    var w2 := Put(w1, ManifestKey(t.id), doc);
    assert IsBlobOf(me, t, SignatureKey(t.id), Signature(me.signer, doc));
    PutKeeps(me, w2, t, SignatureKey(t.id), Signature(me.signer, doc));
    ForgetKeeps(me, Put(w2, SignatureKey(t.id), Signature(me.signer, doc)), t.file);
  }

  /** How many chunks from `index` on are not in the store already. */
  function MissingChunks(t: Transfer, already: set<string>, index: nat): nat
    requires |t.source| < TWO_63 && index <= Total(t.source)
    decreases Total(t.source) - index
  {
    if index == Total(t.source) then 0
    else (if ChunkKey(t.id, index) in already then 0 else 1) + MissingChunks(t, already, index + 1)
  }

  /** Only missing chunks are uploaded: a complete loop makes exactly one PUT for each of them, and a loop
      that is given fewer calls than that is cut off. */
  lemma {:induction false} UploadsOnlyMissing(
    me: Identity, t: Transfer, already: set<string>, w: World, index: nat, left: nat, applied: bool)
    requires |t.source| < TWO_63 && index <= Total(t.source)
    ensures var u := UploadChunks(me, t, already, w, index, left, applied);
            && (u.complete <==> MissingChunks(t, already, index) <= left)
            && (u.complete ==> u.left == left - MissingChunks(t, already, index))
    decreases Total(t.source) - index
  {
    hide SealingOf, Total, ChunkKey, Cipher, UploadChunks;
    UploadStep(me, t, already, w, index, left, applied);
    if index < Total(t.source) {
      var w1 := w.(sealings := w.sealings + {SealingOf(me, t, index)});
      if ChunkKey(t.id, index) in already {
        UploadsOnlyMissing(me, t, already, w1, index + 1, left, applied);
      } else if left > 0 {
        var w2 := Put(w1, ChunkKey(t.id, index), Cipher(me, t, index));
        UploadsOnlyMissing(me, t, already, w2, index + 1, left - 1, applied);
      }
    }
  }

  lemma {:induction false} UploadTouchesChunks(
    me: Identity, t: Transfer, already: set<string>, w: World, index: nat, left: nat, applied: bool, key: string)
    requires |t.source| < TWO_63 && index <= Total(t.source)
    requires key == ManifestKey(t.id) || key == SignatureKey(t.id)
    ensures var u := UploadChunks(me, t, already, w, index, left, applied);
            && (key in u.world.store <==> key in w.store)
            && (key in w.store ==> u.world.store[key] == w.store[key])
    decreases Total(t.source) - index
  {
    hide SealingOf, Total, ChunkKey, Cipher, UploadChunks, ManifestKey, SignatureKey;
    UploadStep(me, t, already, w, index, left, applied);
    if index < Total(t.source) {
      KeysOfTransfersAreDistinct(t.id, index, t.id);
      var w1 := w.(sealings := w.sealings + {SealingOf(me, t, index)});
      if ChunkKey(t.id, index) in already {
        UploadTouchesChunks(me, t, already, w1, index + 1, left, applied, key);
      } else if left > 0 {
        var w2 := Put(w1, ChunkKey(t.id, index), Cipher(me, t, index));
        UploadTouchesChunks(me, t, already, w2, index + 1, left - 1, applied, key);
      }
    }
  }

  /** The order of publication: a run stores a manifest only when every chunk is stored, and a signature
      only when the manifest is, so a transfer is never visible to a receiver before it is whole. */
  lemma SignatureComesLast(me: Identity, w: World, job: Job, fault: Fault)
    requires Inv(me, w) && Honest(w, job)
    ensures var t := TransferFor(w, job);
            var w1 := SendRun(me, w, job, fault);
            && (ManifestKey(t.id) in w1.store && ManifestKey(t.id) !in w.store ==> HasChunks(w1.store, t, 0))
            && (SignatureKey(t.id) in w1.store && SignatureKey(t.id) !in w.store ==>
                  ManifestKey(t.id) in w1.store && HasChunks(w1.store, t, 0))
  {
    hide Inv, UploadChunks, HasChunks, Hex, ManifestOf, ManifestKey, SignatureKey;
    var t := TransferFor(w, job);
    var w1 := Begin(w, job);
    BeginKeeps(me, w, job);
    KeysOfTransfersAreDistinct(t.id, 0, t.id);
    if fault.calls > 0 {
      var already := Already(w1.store, t.id);
      UploadKeeps(me, t, already, w1, 0, fault.calls - 1, fault.applied);
      UploadTouchesChunks(me, t, already, w1, 0, fault.calls - 1, fault.applied, ManifestKey(t.id));
      UploadTouchesChunks(me, t, already, w1, 0, fault.calls - 1, fault.applied, SignatureKey(t.id));
      var u := UploadChunks(me, t, already, w1, 0, fault.calls - 1, fault.applied);
      MoreKeepsChunks(u.world.store, t, ManifestKey(t.id), Document(ManifestOf(me, t)));
      var store := u.world.store[ManifestKey(t.id) := Document(ManifestOf(me, t))];
      MoreKeepsChunks(store, t, SignatureKey(t.id), Signature(me.signer, Document(ManifestOf(me, t))));
    }
  }

  lemma MoreKeepsChunks(store: map<string, Message>, t: Transfer, key: string, blob: Message)
    requires |t.source| < TWO_63
    ensures HasChunks(store, t, 0) ==> HasChunks(store[key := blob], t, 0)
  {
  }

  /** The store has this blob under this key. */
  predicate Holds(store: map<string, Message>, key: string, blob: Message) {
    key in store && store[key] == blob
  }

  /** A publishing PUT that fails for the client is stored all the same if it took effect at the broker, and
      not if it did not; in either case the state file stays. */
  lemma FailedPublication(me: Identity, t: Transfer, w: World, left: nat, applied: bool, killed: bool)
    requires |t.source| < TWO_63 && left <= 1
    ensures var w1 := Publish(me, t, w, left, applied, killed);
            && w1.states == w.states && ManifestOf(me, t) in w1.signed
            && (left == 0 && !applied ==> w1.store == w.store)
            && (left == 1 || applied ==> Holds(w1.store, ManifestKey(t.id), Document(ManifestOf(me, t))))
            && (left == 1 && applied ==>
                  Holds(w1.store, SignatureKey(t.id), Signature(me.signer, Document(ManifestOf(me, t)))))
  {
    hide ManifestOf, ManifestKey, SignatureKey;
    KeysOfTransfersAreDistinct(t.id, 0, t.id);
  }

  /** Enough successful broker calls for any run of this source, and no kill before the clean-up. */
  ghost predicate Uncut(job: Job, fault: Fault)
    requires |job.source| < TWO_63
  {
    fault.calls >= Total(job.source) + 3 && !fault.killed
  }

  /** One run, wherever it is cut, keeps the invariant; it drops its state file only once the transfer
      is published, which a run that reports success or is not cut has done. */
  lemma SendRunKeeps(me: Identity, w: World, job: Job, fault: Fault)
    requires Inv(me, w) && Honest(w, job)
    ensures var t := TransferFor(w, job);
            var w1 := SendRun(me, w, job, fault);
            && Inv(me, w1)
            && t.id in w1.origins && w1.origins[t.id] == t
            && (forall id :: id in w.origins ==> id in w1.origins && w1.origins[id] == w.origins[id])
            && (Sent(me, w, job, fault) ==> Published(me, w1, t))
            && (Uncut(job, fault) ==> Sent(me, w, job, fault) && job.file !in w1.states)
            && (if job.file in w1.states then w1.states[job.file] == StateFor(w, job) else Published(me, w1, t))
            && (forall f :: f != job.file ==> (f in w1.states <==> f in w.states))
            && (forall f :: f != job.file && f in w.states ==> w1.states[f] == w.states[f])
  {
    hide Inv, UploadChunks, Publish, Published, HasChunks, Hex;
    var t := TransferFor(w, job);
    var w1 := Begin(w, job);
    BeginKeeps(me, w, job);
    OriginsGrow(me, w, job);
    if fault.calls > 0 {
      var already := Already(w1.store, t.id);
      UploadKeeps(me, t, already, w1, 0, fault.calls - 1, fault.applied);
      var u := UploadChunks(me, t, already, w1, 0, fault.calls - 1, fault.applied);
      if u.complete {
        PublishKeeps(me, t, u.world, u.left, fault.applied, fault.killed);
      }
    }
  }

  lemma OriginsGrow(me: Identity, w: World, job: Job)
    requires Inv(me, w) && Honest(w, job)
    ensures forall id :: id in w.origins ==> id in Begin(w, job).origins && Begin(w, job).origins[id] == w.origins[id]
  {
  }

  /** Resumption: a run that left its state file behind is taken up by the next run of the same,
      unchanged source as the same transfer, with the same key and the same manifest, and that run
      completes it if it is not cut. */
  lemma RerunCompletesTransfer(me: Identity, w: World, job: Job, fault: Fault, again: Job, fault': Fault)
    requires Inv(me, w) && Honest(w, job)
    requires again.file == job.file && again.source == job.source
    requires job.file in SendRun(me, w, job, fault).states
    ensures var t := TransferFor(w, job);
            var w1 := SendRun(me, w, job, fault);
            && TransferFor(w1, again) == t && Honest(w1, again)
            && (Uncut(again, fault') ==>
                  Published(me, SendRun(me, w1, again, fault'), t)
                  && job.file !in SendRun(me, w1, again, fault').states)
  {
    hide Inv, SendRun, Published;
    SendRunKeeps(me, w, job, fault);
    SendRunKeeps(me, SendRun(me, w, job, fault), again, fault');
  }

  // ---- histories ----

  /** What happens to the state files and the store: a run, or the arrival at the broker of a PUT that a
      run has given up on, whenever that is. */
  datatype Event =
    | Invocation(job: Job, fault: Fault)
    | Arrival(id: TransferId, key: string, blob: Message)

  ghost predicate HonestEvent(me: Identity, w: World, e: Event) {
    match e
    case Invocation(job, _) => Honest(w, job)
    case Arrival(id, key, blob) =>
      id in w.origins && |w.origins[id].source| < TWO_63 && IsBlobOf(me, w.origins[id], key, blob)
  }

  ghost function Happens(me: Identity, w: World, e: Event): World
    requires HonestEvent(me, w, e)
  {
    match e
    case Invocation(job, fault) => SendRun(me, w, job, fault)
    case Arrival(_, key, blob) => Put(w, key, blob)
  }

  lemma EventKeeps(me: Identity, w: World, e: Event)
    requires Inv(me, w) && HonestEvent(me, w, e)
    ensures Inv(me, Happens(me, w, e))
  {
    hide Inv, SendRun, IsBlobOf;
    match e
    case Invocation(job, fault) => SendRunKeeps(me, w, job, fault);
    case Arrival(id, key, blob) =>
      OriginsAreNamed(me, w, id);
      PutKeeps(me, w, w.origins[id], key, blob);
  }

  lemma OriginsAreNamed(me: Identity, w: World, id: TransferId)
    requires Inv(me, w) && id in w.origins
    ensures w.origins[id].id == id
  {
  }

  ghost predicate HonestHistory(me: Identity, w: World, events: seq<Event>)
    decreases |events|
  {
    events == [] || (HonestEvent(me, w, events[0]) && HonestHistory(me, Happens(me, w, events[0]), events[1..]))
  }

  ghost function After(me: Identity, w: World, events: seq<Event>): World
    requires HonestHistory(me, w, events)
    decreases |events|
  {
    if events == [] then w else After(me, Happens(me, w, events[0]), events[1..])
  }

  ghost predicate Unused(w: World) {
    w.states == map[] && w.origins == map[] && w.sealings == {} && w.signed == {}
  }

  lemma UnusedIsSound(me: Identity, w: World)
    requires Unused(w)
    ensures Inv(me, w)
  {
  }

  lemma {:induction false} HistoryKeeps(me: Identity, w: World, events: seq<Event>)
    requires Inv(me, w) && HonestHistory(me, w, events)
    ensures Inv(me, After(me, w, events))
    decreases |events|
  {
    hide Inv, HonestEvent, Happens;
    if events != [] {
      EventKeeps(me, w, events[0]);
      HistoryKeeps(me, Happens(me, w, events[0]), events[1..]);
    }
  }

  // ---- where a transfer comes from ----

  /** Some run in the history that did not resume began the transfer: its id and key are the fresh ones of
      that run, and its time stamp is the clock of that run. */
  ghost predicate Begun(me: Identity, w: World, events: seq<Event>, t: Transfer, job: Job)
    requires HonestHistory(me, w, events)
    decreases |events|
  {
    events != []
    && ((events[0].Invocation? && events[0].job == job && !Resumes(w, job)
         && t == Transfer(job.freshId, job.source, job.file, job.now, job.freshKey))
        || Begun(me, Happens(me, w, events[0]), events[1..], t, job))
  }

  /** Every transfer was begun by a run of the history, or was known before. */
  lemma {:induction false} TransfersAreBegun(me: Identity, w: World, events: seq<Event>, id: TransferId)
    returns (begun: Option<Job>)
    requires HonestHistory(me, w, events) && id in After(me, w, events).origins
    ensures begun.None? ==> id in w.origins && w.origins[id] == After(me, w, events).origins[id]
    ensures begun.Some? ==> Begun(me, w, events, After(me, w, events).origins[id], begun.value)
    decreases |events|
  {
    hide HonestEvent, Happens;
    begun := None;
    if events != [] {
      begun := TransfersAreBegun(me, Happens(me, w, events[0]), events[1..], id);
      if begun.None? {
        OriginOfEvent(me, w, events[0], id);
        if id !in w.origins || w.origins[id] != After(me, w, events).origins[id] {
          begun := Some(events[0].job);
        }
      }
    }
  }

  lemma OriginOfEvent(me: Identity, w: World, e: Event, id: TransferId)
    requires HonestEvent(me, w, e) && id in Happens(me, w, e).origins
    ensures (id in w.origins && w.origins[id] == Happens(me, w, e).origins[id])
         || (e.Invocation? && !Resumes(w, e.job)
             && Happens(me, w, e).origins[id]
                == Transfer(e.job.freshId, e.job.source, e.job.file, e.job.now, e.job.freshKey))
  {
    hide UploadChunks, Publish, IsBlobOf;
    if e.Invocation? {
      SendRunOrigins(me, w, e.job, e.fault);
    }
  }

  lemma SendRunOrigins(me: Identity, w: World, job: Job, fault: Fault)
    requires |job.source| < TWO_63
    ensures SendRun(me, w, job, fault).origins == Begin(w, job).origins
  {
    hide UploadChunks;
    var t := TransferFor(w, job);
    if fault.calls > 0 {
      UploadOrigins(me, t, Already(Begin(w, job).store, t.id), Begin(w, job), 0, fault.calls - 1, fault.applied);
    }
  }

  lemma {:induction false} UploadOrigins(
    me: Identity, t: Transfer, already: set<string>, w: World, index: nat, left: nat, applied: bool)
    requires |t.source| < TWO_63 && index <= Total(t.source)
    ensures UploadChunks(me, t, already, w, index, left, applied).world.origins == w.origins
    decreases Total(t.source) - index
  {
    hide SealingOf, Total, ChunkKey, Cipher, UploadChunks;
    UploadStep(me, t, already, w, index, left, applied);
    if index < Total(t.source) {
      var w1 := w.(sealings := w.sealings + {SealingOf(me, t, index)});
      if ChunkKey(t.id, index) in already {
        UploadOrigins(me, t, already, w1, index + 1, left, applied);
      } else if left > 0 {
        var w2 := Put(w1, ChunkKey(t.id, index), Cipher(me, t, index));
        UploadOrigins(me, t, already, w2, index + 1, left - 1, applied);
      }
    }
  }

  /** The manifest of a transfer, field by field. */
  lemma ManifestLayout(me: Identity, t: Transfer)
    requires |t.source| < TWO_63
    ensures var m := ManifestOf(me, t);
            && m.version == "cmpe272-approach-b/v1" && m.transferId == t.id && m.createdAt == t.createdAt
            && m.filename == t.file && m.fileSize == |t.source| && m.totalChunks == ComputedCount(|t.source|)
            && m.ephemeralPub == Public(t.ephemeral) && |m.chunks| == m.totalChunks
            && (CountIsExact(|t.source|) ==> m.plaintextSha == Sha256(Plain(t.source)))
            && forall i :: 0 <= i < |m.chunks| ==> m.chunks[i] == RecordOf(me, t, i)
  {
    hide RecordOf;
    if CountIsExact(|t.source|) {
      LeadingAll(t.source, Total(t.source));
    }
  }

  /** A first run that reports success has published a manifest of its own file, size, content, clock and
      key. */
  lemma FreshManifest(me: Identity, w: World, job: Job, fault: Fault)
    requires |job.source| < TWO_63 && CountIsExact(|job.source|)
    requires !Resumes(w, job) && Sent(me, w, job, fault)
    ensures var store := SendRun(me, w, job, fault).store;
            && ManifestKey(job.freshId) in store && SignatureKey(job.freshId) in store
            && store[ManifestKey(job.freshId)].Document?
            && store[SignatureKey(job.freshId)] == Signature(me.signer, store[ManifestKey(job.freshId)])
            && var m := store[ManifestKey(job.freshId)].manifest;
               && m.version == "cmpe272-approach-b/v1" && m.transferId == job.freshId && m.createdAt == job.now
               && m.filename == job.file && m.fileSize == |job.source|
               && m.ephemeralPub == Public(job.freshKey) && m.plaintextSha == Sha256(Plain(job.source))
  {
    hide SendRun, Sent, ManifestOf, ManifestKey, SignatureKey;
    SentManifest(me, w, job, fault);
    ManifestLayout(me, TransferFor(w, job));
  }

  /** Store and manifest agree after every history: each stored chunk is the deterministic encryption
      of its chunk, the stored manifest and signature are those of the transfer, and the manifest's
      digest of every chunk is the digest of the blob stored for it. */
  lemma StoreMatchesManifest(me: Identity, w: World, t: Transfer, index: nat)
    requires Inv(me, w) && t.id in w.origins && w.origins[t.id] == t
    requires index < Total(t.source)
    ensures ChunkKey(t.id, index) in w.store ==>
              && w.store[ChunkKey(t.id, index)] == Cipher(me, t, index)
              && ManifestOf(me, t).chunks[index].ciphertextSha == Sha256(w.store[ChunkKey(t.id, index)])
    ensures ManifestKey(t.id) in w.store ==> w.store[ManifestKey(t.id)] == Document(ManifestOf(me, t))
    ensures SignatureKey(t.id) in w.store ==>
              w.store[SignatureKey(t.id)] == Signature(me.signer, Document(ManifestOf(me, t)))
  {
    var store := w.store;
    assert StoreAgrees(me, store, t);
    hide Inv, StoreAgrees, Cipher, ChunkKey, ManifestKey, SignatureKey;
    if ChunkKey(t.id, index) in store {
      BlobAt(me, store, t, ChunkKey(t.id, index));
    }
    if ManifestKey(t.id) in store {
      BlobAt(me, store, t, ManifestKey(t.id));
    }
    if SignatureKey(t.id) in store {
      BlobAt(me, store, t, SignatureKey(t.id));
    }
  }

  /** Which blob a key of a transfer holds. */
  lemma BlobAt(me: Identity, store: map<string, Message>, t: Transfer, key: string)
    requires |t.source| < TWO_63 && StoreAgrees(me, store, t)
    requires key in store
    ensures forall i :: 0 <= i < Total(t.source) && key == ChunkKey(t.id, i) ==> store[key] == Cipher(me, t, i)
    ensures key == ManifestKey(t.id) ==> store[key] == Document(ManifestOf(me, t))
    ensures key == SignatureKey(t.id) ==> store[key] == Signature(me.signer, Document(ManifestOf(me, t)))
  {
    forall i | 0 <= i < Total(t.source) && key == ChunkKey(t.id, i)
      ensures store[key] == Cipher(me, t, i)
    {
      KeysOfTransfersAreDistinct(t.id, i, t.id);
      assert IsBlobOf(me, t, key, store[key]);
      var j :| 0 <= j < Total(t.source) && key == ChunkKey(t.id, j) && store[key] == Cipher(me, t, j);
      ChunkKeyInjective(t.id, i, t.id, j);
    }
    if key == ManifestKey(t.id) || key == SignatureKey(t.id) {
      KeysOfTransfersAreDistinct(t.id, 0, t.id);
      assert IsBlobOf(me, t, key, store[key]);
      NotAChunkKey(t.id, key);
    }
  }

  lemma NotAChunkKey(id: TransferId, key: string)
    requires key == ManifestKey(id) || key == SignatureKey(id)
    ensures Under(id) <= key
    ensures forall i :: 0 <= i ==> key != ChunkKey(id, i)
  {
    forall i | 0 <= i ensures key != ChunkKey(id, i) {
      KeysOfTransfersAreDistinct(id, i, id);
    }
  }

  /** All manifests ever signed for one transfer id are the same manifest. */
  lemma OneManifestPerTransfer(me: Identity, w: World, events: seq<Event>, m: Manifest, m': Manifest)
    requires Unused(w) && HonestHistory(me, w, events)
    requires m in After(me, w, events).signed && m' in After(me, w, events).signed
    requires m.transferId == m'.transferId
    ensures m == m'
  {
    UnusedIsSound(me, w);
    HistoryKeeps(me, w, events);
  }

  // ---- nonce discipline ----

  ghost predicate NonceDiscipline(sealings: set<Sealing>) {
    forall s, s' :: s in sealings && s' in sealings && s.key == s'.key && s.nonce == s'.nonce ==> s == s'
  }

  lemma SealingsSeparate(me: Identity, t: Transfer, i: nat, t': Transfer, i': nat)
    requires |t.source| < TWO_63 && |t'.source| < TWO_63
    requires i < Total(t.source) && i' < Total(t'.source)
    requires SealingOf(me, t, i).key == SealingOf(me, t', i').key
    requires SealingOf(me, t, i).nonce == SealingOf(me, t', i').nonce
    ensures t.id == t'.id && i == i'
  {
    NonceInjective(i, i');
  }

  /** Over every honest history, a key and a nonce are used for one plaintext and one set of
      associated data only. */
  lemma NoncesAreNeverReused(me: Identity, w: World, events: seq<Event>)
    requires Unused(w) && HonestHistory(me, w, events)
    ensures NonceDiscipline(After(me, w, events).sealings)
  {
    UnusedIsSound(me, w);
    HistoryKeeps(me, w, events);
    InvGivesDiscipline(me, After(me, w, events));
  }

  lemma InvGivesDiscipline(me: Identity, w: World)
    requires Inv(me, w)
    ensures NonceDiscipline(w.sealings)
  {
    hide SealingOf;
    forall s, s' | s in w.sealings && s' in w.sealings && s.key == s'.key && s.nonce == s'.nonce
      ensures s == s'
    {
      assert SealedFrom(me, w, s) && SealedFrom(me, w, s');
      var id, i :| id in w.origins && 0 <= i < Total(w.origins[id].source) && s == SealingOf(me, w.origins[id], i);
      var id', i' :| id' in w.origins && 0 <= i' < Total(w.origins[id'].source)
        && s' == SealingOf(me, w.origins[id'], i');
      SealingsSeparate(me, w.origins[id], i, w.origins[id'], i');
    }
  }

  // ---- a source edited in place ----

  /** How far a run's encryption gets: one past the last chunk it seals. */
  function EncryptedFrom(t: Transfer, already: set<string>, index: nat, left: nat): nat
    requires |t.source| < TWO_63 && index <= Total(t.source)
    decreases Total(t.source) - index
  {
    if index == Total(t.source) then index
    else if ChunkKey(t.id, index) in already then EncryptedFrom(t, already, index + 1, left)
    else if left == 0 then index + 1
    else EncryptedFrom(t, already, index + 1, left - 1)
  }

  function EncryptedUpTo(w: World, job: Job, fault: Fault): nat
    requires |job.source| < TWO_63
  {
    if fault.calls == 0 then 0
    else EncryptedFrom(TransferFor(w, job), Already(w.store, TransferFor(w, job).id), 0, fault.calls - 1)
  }

  ghost predicate SealedBetween(me: Identity, t: Transfer, from: nat, to: nat, s: Sealing)
    requires |t.source| < TWO_63
  {
    exists i :: from <= i < to && i < Total(t.source) && s == SealingOf(me, t, i)
  }

  lemma {:induction false} UploadSeals(me: Identity, t: Transfer, already: set<string>, w: World, index: nat,
      left: nat, applied: bool)
    requires |t.source| < TWO_63 && index <= Total(t.source)
    ensures index <= EncryptedFrom(t, already, index, left) <= Total(t.source)
    ensures forall s :: s in UploadChunks(me, t, already, w, index, left, applied).world.sealings <==>
      s in w.sealings || SealedBetween(me, t, index, EncryptedFrom(t, already, index, left), s)
    decreases Total(t.source) - index
  {
    hide SealingOf, Total, ChunkKey, Cipher, UploadChunks;
    UploadStep(me, t, already, w, index, left, applied);
    if index < Total(t.source) {
      var w1 := w.(sealings := w.sealings + {SealingOf(me, t, index)});
      var n := EncryptedFrom(t, already, index, left);
      if ChunkKey(t.id, index) in already {
        UploadSeals(me, t, already, w1, index + 1, left, applied);
      } else if left > 0 {
        UploadSeals(me, t, already, Put(w1, ChunkKey(t.id, index), Cipher(me, t, index)), index + 1, left - 1, applied);
      }
      forall s
        ensures SealedBetween(me, t, index, n, s)
          <==> s == SealingOf(me, t, index) || SealedBetween(me, t, index + 1, n, s)
      {
      }
    }
  }

  lemma RunSeals(me: Identity, w: World, job: Job, fault: Fault)
    requires |job.source| < TWO_63
    ensures EncryptedUpTo(w, job, fault) <= Total(job.source)
    ensures forall s :: s in SendRun(me, w, job, fault).sealings <==>
      s in w.sealings || SealedBetween(me, TransferFor(w, job), 0, EncryptedUpTo(w, job, fault), s)
  {
    hide SealingOf, UploadChunks;
    var t := TransferFor(w, job);
    if fault.calls > 0 {
      UploadSeals(me, t, Already(w.store, t.id), Begin(w, job), 0, fault.calls - 1, fault.applied);
    }
  }

  /** Of the chunks of `o` below `n`, those already encrypted are the same in `source`. */
  ghost predicate Untouched(me: Identity, w: World, o: Transfer, source: Bytes, n: nat) {
    && |o.source| < TWO_63
    && forall i :: 0 <= i < n && i < Total(o.source) && SealingOf(me, o, i) in w.sealings ==>
         Chunk(source, i) == Chunk(o.source, i)
  }

  /** What the size check does not see: a run that resumes after the source was edited without
      changing its size keeps the nonce discipline exactly when every chunk it encrypts again is one
      that the edit left alone. */
  lemma EditedSource(me: Identity, w: World, job: Job, fault: Fault)
    requires Inv(me, w) && |job.source| < TWO_63
    requires Resumes(w, job)
    ensures w.states[job.file].id in w.origins
    ensures NonceDiscipline(SendRun(me, w, job, fault).sealings) <==>
      Untouched(me, w, w.origins[w.states[job.file].id], job.source, EncryptedUpTo(w, job, fault))
  {
    hide SealingOf, SendRun, EncryptedUpTo, Inv;
    var o := ResumedOrigin(me, w, job);
    var t := TransferFor(w, job);
    var n := EncryptedUpTo(w, job, fault);
    var after := SendRun(me, w, job, fault).sealings;
    RunSeals(me, w, job, fault);
    forall i | 0 <= i < Total(o.source)
      ensures SealingOf(me, o, i).key == SealingOf(me, t, i).key
        && SealingOf(me, o, i).nonce == SealingOf(me, t, i).nonce
      ensures SealingOf(me, o, i) == SealingOf(me, t, i) <==> Chunk(job.source, i) == Chunk(o.source, i)
    {
      SameSlot(me, o, t, i);
    }
    if NonceDiscipline(after) {
      forall i | 0 <= i < n && SealingOf(me, o, i) in w.sealings
        ensures Chunk(job.source, i) == Chunk(o.source, i)
      {
        assert SealedBetween(me, t, 0, n, SealingOf(me, t, i));
      }
    } else {
      var s, s' :| s in after && s' in after && s.key == s'.key && s.nonce == s'.nonce && s != s';
      ClashIsRedone(me, w, o, t, n, s, s');
    }
  }

  lemma ResumedOrigin(me: Identity, w: World, job: Job) returns (o: Transfer)
    requires Inv(me, w) && |job.source| < TWO_63 && Resumes(w, job)
    ensures w.states[job.file].id in w.origins && o == w.origins[w.states[job.file].id]
    ensures |o.source| == |job.source| && TransferFor(w, job) == o.(source := job.source)
    ensures Total(o.source) == Total(job.source)
  {
    o := w.origins[w.states[job.file].id];
  }

  lemma SameSlot(me: Identity, o: Transfer, t: Transfer, i: nat)
    requires |o.source| == |t.source| < TWO_63 && t == o.(source := t.source)
    requires i < Total(o.source) == Total(t.source)
    ensures SealingOf(me, o, i).key == SealingOf(me, t, i).key && SealingOf(me, o, i).nonce == SealingOf(me, t, i).nonce
    ensures SealingOf(me, o, i) == SealingOf(me, t, i) <==> Chunk(t.source, i) == Chunk(o.source, i)
  {
  }

  /** Where two encryptions clash, one was made before the run and the other redoes its chunk. */
  lemma ClashIsRedone(me: Identity, w: World, o: Transfer, t: Transfer, n: nat, s: Sealing, s': Sealing)
    requires Inv(me, w) && o.id in w.origins && w.origins[o.id] == o
    requires |o.source| == |t.source| < TWO_63 && t == o.(source := t.source) && n <= Total(t.source) == Total(o.source)
    requires s in w.sealings || SealedBetween(me, t, 0, n, s)
    requires s' in w.sealings || SealedBetween(me, t, 0, n, s')
    requires s.key == s'.key && s.nonce == s'.nonce && s != s'
    ensures exists i :: 0 <= i < n && SealingOf(me, o, i) in w.sealings && SealingOf(me, o, i) != SealingOf(me, t, i)
  {
    hide SealingOf;
    InvGivesDiscipline(me, w);
    if SealedBetween(me, t, 0, n, s) {
      var i :| 0 <= i < n && s == SealingOf(me, t, i);
      if SealedBetween(me, t, 0, n, s') {
        var j :| 0 <= j < n && s' == SealingOf(me, t, j);
        SealingsSeparate(me, t, i, t, j);
      } else {
        EarlierClash(me, w, o, t, i, s');
      }
    } else {
      var i :| 0 <= i < n && s' == SealingOf(me, t, i);
      EarlierClash(me, w, o, t, i, s);
    }
  }

  lemma EarlierClash(me: Identity, w: World, o: Transfer, t: Transfer, i: nat, s: Sealing)
    requires Inv(me, w) && o.id in w.origins && w.origins[o.id] == o
    requires |o.source| == |t.source| < TWO_63 && t == o.(source := t.source) && i < Total(t.source) == Total(o.source)
    requires s in w.sealings
    requires s.key == SealingOf(me, t, i).key && s.nonce == SealingOf(me, t, i).nonce
    ensures s == SealingOf(me, o, i)
  {
    hide SealingOf;
    assert SealedFrom(me, w, s);
    var id, j :| id in w.origins && 0 <= j < Total(w.origins[id].source) && s == SealingOf(me, w.origins[id], j);
    SealingsSeparate(me, w.origins[id], j, t, i);
  }

  /** It does happen: a first run is cut off at its first chunk, the file is edited without a change of
      its size, and the next run encrypts another first chunk under the same key and nonce. */
  lemma EditReusesNonce(me: Identity, w: World, first: Job, again: Job)
    requires Unused(w) && Honest(w, first)
    requires again.file == first.file && |again.source| == |first.source|
    requires Chunk(again.source, 0) != Chunk(first.source, 0)
    ensures var cut := Fault(1, false, false);
            var w1 := SendRun(me, w, first, cut);
            Resumes(w1, again) && !NonceDiscipline(SendRun(me, w1, again, cut).sealings)
  {
    hide SealingOf, SendRun, EncryptedUpTo, Inv;
    var cut := Fault(1, false, false);
    var w1 := SendRun(me, w, first, cut);
    var o := TransferFor(w, first);
    UnusedIsSound(me, w);
    SendRunKeeps(me, w, first, cut);
    CutAtFirstChunk(me, w, first);
    CutAtFirstChunkAgain(me, w1, first, again);
    RunSeals(me, w, first, cut);
    assert SealedBetween(me, o, 0, 1, SealingOf(me, o, 0));
    EditedSource(me, w1, again, cut);
  }

  lemma HasFirstChunk(source: Bytes)
    requires |source| < TWO_63 && source != []
    ensures Total(source) > 0
  {
    NonEmptyHasChunk(|source|);
  }

  lemma CutAtFirstChunk(me: Identity, w: World, job: Job)
    requires Unused(w) && Honest(w, job) && job.source != []
    ensures var w1 := SendRun(me, w, job, Fault(1, false, false));
            && w1.store == w.store && job.file in w1.states && w1.states[job.file] == StateFor(w, job)
            && EncryptedUpTo(w, job, Fault(1, false, false)) == 1
  {
    hide SealingOf, Total, Hex, ChunkName;
    HasFirstChunk(job.source);
    var t := TransferFor(w, job);
    assert Under(t.id) <= ChunkKey(t.id, 0);
    UploadStep(me, t, Already(w.store, t.id), Begin(w, job), 0, 0, false);
  }

  lemma CutAtFirstChunkAgain(me: Identity, w: World, first: Job, again: Job)
    requires first.file in w.states && w.states[first.file].fileSize == |first.source| < TWO_63
    requires again.file == first.file && |again.source| == |first.source| && again.source != []
    requires forall key :: key in w.store ==> !(Under(w.states[first.file].id) <= key)
    ensures EncryptedUpTo(w, again, Fault(1, false, false)) == 1
  {
    hide Total, Hex, ChunkName;
    HasFirstChunk(again.source);
    var t := TransferFor(w, again);
    assert Under(t.id) <= ChunkKey(t.id, 0);
  }

  // ---- what a run after an edit leaves in the store ----

  /** The key is not that of a chunk from `index` on. */
  ghost predicate NotFrom(t: Transfer, index: nat, key: string)
    requires |t.source| < TWO_63
  {
    forall i :: index <= i < Total(t.source) ==> key != ChunkKey(t.id, i)
  }

  /** Of the chunks from `index` on, those that were not there are stored as this transfer encrypts them,
      and those that were there are as they were. */
  lemma {:induction false} UploadStores(me: Identity, t: Transfer, already: set<string>, w: World, index: nat,
      left: nat, applied: bool)
    requires |t.source| < TWO_63 && index <= Total(t.source)
    ensures var u := UploadChunks(me, t, already, w, index, left, applied);
            && (u.complete ==> forall i :: index <= i < Total(t.source) && ChunkKey(t.id, i) !in already ==>
                  ChunkKey(t.id, i) in u.world.store && u.world.store[ChunkKey(t.id, i)] == Cipher(me, t, i))
            && (u.complete ==> forall key :: key in w.store && (key in already || NotFrom(t, index, key)) ==>
                  key in u.world.store && u.world.store[key] == w.store[key])
    decreases Total(t.source) - index
  {
    hide SealingOf, Total, ChunkKey, Cipher, UploadChunks;
    UploadStep(me, t, already, w, index, left, applied);
    if index < Total(t.source) {
      var key := ChunkKey(t.id, index);
      var w1 := w.(sealings := w.sealings + {SealingOf(me, t, index)});
      forall i | index < i < Total(t.source) ensures ChunkKey(t.id, i) != key {
        if ChunkKey(t.id, i) == key {
          ChunkKeyInjective(t.id, i, t.id, index);
        }
      }
      if key in already {
        UploadStores(me, t, already, w1, index + 1, left, applied);
      } else if left > 0 {
        UploadStores(me, t, already, Put(w1, key, Cipher(me, t, index)), index + 1, left - 1, applied);
      }
    }
  }

  /** A run that reports success has stored the manifest and the signature of the source as it now is. */
  lemma SentManifest(me: Identity, w: World, job: Job, fault: Fault)
    requires |job.source| < TWO_63 && Sent(me, w, job, fault)
    ensures var t := TransferFor(w, job);
            var store := SendRun(me, w, job, fault).store;
            && ManifestKey(t.id) in store && store[ManifestKey(t.id)] == Document(ManifestOf(me, t))
            && SignatureKey(t.id) in store
            && store[SignatureKey(t.id)] == Signature(me.signer, Document(ManifestOf(me, t)))
  {
    hide UploadChunks, ManifestOf, ManifestKey, SignatureKey;
    KeysOfTransfersAreDistinct(TransferFor(w, job).id, 0, TransferFor(w, job).id);
  }

  /** After a same-size edit, a chunk stored when a run has reported success goes with its manifest if and
      only if the run did not find it there already, or the edit left it alone. */
  lemma EditedUpload(me: Identity, w: World, job: Job, fault: Fault, i: nat)
    requires Inv(me, w) && |job.source| < TWO_63
    requires Resumes(w, job) && Sent(me, w, job, fault) && i < Total(job.source)
    ensures w.states[job.file].id in w.origins
    ensures var o := w.origins[w.states[job.file].id];
            var t := TransferFor(w, job);
            var store := SendRun(me, w, job, fault).store;
            && ChunkKey(t.id, i) in store
            && (store[ChunkKey(t.id, i)] == Cipher(me, t, i) <==>
                  ChunkKey(t.id, i) !in w.store || Chunk(job.source, i) == Chunk(o.source, i))
  {
    var o := ResumedOrigin(me, w, job);
    var t := TransferFor(w, job);
    SkippedChunk(me, w, o, t, i);
    hide Inv, SendRun, Sent, Cipher, ChunkKey, Chunk, Total;
    SentChunk(me, w, job, fault, i);
  }

  /** A resumed run that reports success leaves each chunk as it found it, or stores it. */
  lemma SentChunk(me: Identity, w: World, job: Job, fault: Fault, i: nat)
    requires |job.source| < TWO_63 && Resumes(w, job) && Sent(me, w, job, fault) && i < Total(job.source)
    ensures var t := TransferFor(w, job);
            var store := SendRun(me, w, job, fault).store;
            && ChunkKey(t.id, i) in store
            && store[ChunkKey(t.id, i)]
               == if ChunkKey(t.id, i) in w.store then w.store[ChunkKey(t.id, i)] else Cipher(me, t, i)
  {
    hide UploadChunks, Cipher, ManifestOf, ChunkKey, ManifestKey, SignatureKey, Total, Hex, NotFrom;
    var t := TransferFor(w, job);
    KeysOfTransfersAreDistinct(t.id, i, t.id);
    UploadStores(me, t, Already(w.store, t.id), w, 0, fault.calls - 1, fault.applied);
    ChunkKeyIsUnder(t.id, i);
  }

  lemma ChunkKeyIsUnder(id: TransferId, i: nat)
    ensures Under(id) <= ChunkKey(id, i)
  {
  }

  lemma SkippedChunk(me: Identity, w: World, o: Transfer, t: Transfer, i: nat)
    requires Inv(me, w) && o.id in w.origins && w.origins[o.id] == o
    requires |o.source| == |t.source| < TWO_63 && t == o.(source := t.source) && i < Total(o.source) == Total(t.source)
    ensures ChunkKey(t.id, i) in w.store ==>
      (w.store[ChunkKey(t.id, i)] == Cipher(me, t, i) <==> Chunk(t.source, i) == Chunk(o.source, i))
  {
    if ChunkKey(t.id, i) in w.store {
      hide ChunkKey;
      StoreMatchesManifest(me, w, o, i);
    }
  }

  // ---- the skip list ----

  lemma TransferKeyIsPlain(me: Identity, t: Transfer, key: string, blob: Message)
    requires |t.source| < TWO_63 && IsBlobOf(me, t, key, blob)
    ensures SafePath(key).Some? && !EndsWith(key, ".tmp") && !EndsWith(key, "\n")
  {
    hide SafePath, Cipher, ManifestOf, Hex;
    var n := if exists i :: 0 <= i < Total(t.source) && key == ChunkKey(t.id, i) then
               var i :| 0 <= i < Total(t.source) && key == ChunkKey(t.id, i); i
             else 0;
    TransferKeysAreSafe(t.id, n);
    if key == ChunkKey(t.id, n) {
      L.ChunkKeyIsNewlineFree(t.id, n);
      assert key[|key| - 1] in key;
    } else {
      assert key[|key| - 1] == 't' || key[|key| - 1] == 'g';
    }
  }

  /** The names the sender takes to be at the broker are those that it reads out of the broker's answer to
      LIST: with the transfer's own blobs under its id, printing and parsing lose nothing. */
  lemma AlreadyIsListed(me: Identity, store: map<string, Message>, t: Transfer)
    requires |t.source| < TWO_63 && StoreAgrees(me, store, t)
    ensures var listed := L.ParseListing(L.Join(L.Listing(L.TreeOf(store.Keys), Under(t.id))));
            forall key :: key in listed <==> key in Already(store, t.id)
  {
    hide IsBlobOf, L.TreeOf, L.ParseListing, L.Join, SafePath, Hex, EndsWith;
    var tree := L.TreeOf(store.Keys);
    var keys := L.Listing(tree, Under(t.id));
    L.TreeOfIsWellKept(store.Keys);
    forall at | L.Shown(tree, Under(t.id), at)
      ensures L.KeyOf(at) in Already(store, t.id) && !EndsWith(at.name, "\n")
    {
      L.TreeOfHolds(store.Keys, at);
      TransferKeyIsPlain(me, t, L.KeyOf(at), store[L.KeyOf(at)]);
      L.LastOfName(at);
    }
    L.ListingReadsBack(tree, Under(t.id), keys);
    forall key ensures key in keys <==> key in Already(store, t.id) {
      if key in Already(store, t.id) {
        TransferKeyIsPlain(me, t, key, store[key]);
        L.ListedIffStored(tree, Under(t.id), keys, key);
      }
      if key in keys {
        var at := L.ListedIsShown(tree, Under(t.id), keys, key);
      }
    }
  }
}
