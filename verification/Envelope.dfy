/** The signed envelope of approach B. Cryptography is symbolic: a digest, a ciphertext or a
    signature is the term that says what it was computed from, so equal terms have equal contents. */
module Envelope {
  import opened Prelude
  import opened BigEndian
  import opened BlobNames
  import opened ChunkArithmetic
  import opened Files

  const MANIFEST_VERSION := "cmpe272-approach-b/v1"
  const FRESHNESS_WINDOW_S := 24 * 3600
  const CLOCK_SKEW_S := 300

  // ---- nonce and associated data ----

  function ChunkNonce(index: nat): (n: Bytes)
    requires index < LIMIT
    ensures |n| == 12
  {
    Zeros(4) + Pack64(index)
  }

  function ChunkAad(id: TransferId, index: nat, total: nat): (a: Bytes)
    requires index < LIMIT && total < LIMIT
    ensures |a| == 32
  {
    id + Pack64(index) + Pack64(total)
  }

  /** Four zero bytes, then the index. */
  lemma NonceLayout(index: nat)
    requires index < LIMIT
    ensures |ChunkNonce(index)| == 12 && ChunkNonce(index)[..4] == [0, 0, 0, 0]
    ensures Unpack(ChunkNonce(index)[4..]) == index
  {
    assert ChunkNonce(index)[4..] == Pack64(index);
  }

  /** The transfer id, the index, the total. */
  lemma AadLayout(id: TransferId, index: nat, total: nat)
    requires index < LIMIT && total < LIMIT
    ensures |ChunkAad(id, index, total)| == 32 && ChunkAad(id, index, total)[..16] == id
    ensures Unpack(ChunkAad(id, index, total)[16..24]) == index
    ensures Unpack(ChunkAad(id, index, total)[24..]) == total
  {
    var a := ChunkAad(id, index, total);
    assert a[16..24] == Pack64(index) && a[24..] == Pack64(total);
  }

  lemma NonceInjective(i: nat, j: nat)
    requires i < LIMIT && j < LIMIT
    requires ChunkNonce(i) == ChunkNonce(j)
    ensures i == j
  {
    assert ChunkNonce(i)[4..] == Pack64(i) && ChunkNonce(j)[4..] == Pack64(j);
  }

  lemma AadInjective(id: TransferId, i: nat, n: nat, id': TransferId, i': nat, n': nat)
    requires i < LIMIT && n < LIMIT && i' < LIMIT && n' < LIMIT
    requires ChunkAad(id, i, n) == ChunkAad(id', i', n')
    ensures id == id' && i == i' && n == n'
  {
    var a, b := ChunkAad(id, i, n), ChunkAad(id', i', n');
    assert a[..16] == id && b[..16] == id';
    assert a[16..24] == Pack64(i) && b[16..24] == Pack64(i');
    assert a[24..] == Pack64(n) && b[24..] == Pack64(n');
  }

  // ---- key agreement ----

  datatype PrivateKey = PrivateKey(seed: nat)

  datatype PublicKey = PublicKey(seed: nat)

  function Public(k: PrivateKey): PublicKey {
    PublicKey(k.seed)
  }

  /** An X25519 secret depends on the two key pairs and not on who computes it. */
  datatype Shared = Shared(parties: set<nat>)

  function Exchange(mine: PrivateKey, theirs: PublicKey): Shared {
    Shared({mine.seed, theirs.seed})
  }

  datatype Key = DerivedKey(shared: Shared, salt: TransferId, ephemeral: PublicKey, receiver: PublicKey)

  function DeriveChunkKey(shared: Shared, id: TransferId, ephemeral: PublicKey, receiver: PublicKey): Key {
    DerivedKey(shared, id, ephemeral, receiver)
  }

  // ---- messages ----

  /** Anything the broker can hold or answer with. */
  datatype Message =
    | Plain(bytes: Bytes)
    | Sealed(key: Key, nonce: Bytes, plain: Bytes, aad: Bytes)
    | Document(manifest: Manifest)
    | Signature(signer: nat, signed: Message)

  datatype Digest = Sha256(of: Message)

  type Count = n: nat | n < LIMIT

  datatype ChunkRecord = ChunkRecord(index: Count, plaintextLen: nat, ciphertextSha: Digest)

  datatype Manifest = Manifest(
    version: string,
    transferId: TransferId,
    createdAt: int,
    filename: string,
    fileSize: nat,
    totalChunks: Count,
    ephemeralPub: PublicKey,
    plaintextSha: Digest,
    chunks: seq<ChunkRecord>)

  /** The AEAD contract of section 2.8 of RFC 8439: only the same key, nonce and associated data
      open a ciphertext, and they give back its plaintext. */
  function Open(key: Key, nonce: Bytes, ct: Message, aad: Bytes): Option<Bytes> {
    if ct.Sealed? && ct.key == key && ct.nonce == nonce && ct.aad == aad then Some(ct.plain) else None
  }

  predicate Verify(signer: nat, signature: Message, document: Message) {
    signature == Signature(signer, document)
  }

  // ---- one transfer ----

  /** What a sender state file and the source it was made for determine. */
  datatype Transfer = Transfer(id: TransferId, source: Bytes, file: string, createdAt: int, ephemeral: PrivateKey)

  /** The long-lived keys: the sender signs, and encrypts to the receiver. */
  datatype Identity = Identity(signer: nat, receiver: PublicKey)

  function Total(source: Bytes): (n: Count)
    requires |source| < TWO_63
  {
    CountExactness(|source|);
    ComputedCount(|source|)
  }

  function TransferKey(me: Identity, t: Transfer): Key {
    DeriveChunkKey(Exchange(t.ephemeral, me.receiver), t.id, Public(t.ephemeral), me.receiver)
  }

  /** The receiver derives the same key from the manifest's public key and its own private one. */
  lemma KeysAgree(me: Identity, t: Transfer, receiver: PrivateKey)
    requires me.receiver == Public(receiver)
    ensures DeriveChunkKey(Exchange(receiver, Public(t.ephemeral)), t.id, Public(t.ephemeral), Public(receiver))
         == TransferKey(me, t)
  {
    assert {receiver.seed, t.ephemeral.seed} == {t.ephemeral.seed, receiver.seed};
  }

  /** A chunk key is tied to its transfer id and to the ephemeral key. */
  lemma KeysSeparate(me: Identity, t: Transfer, t': Transfer)
    requires TransferKey(me, t) == TransferKey(me, t')
    ensures t.id == t'.id && t.ephemeral == t'.ephemeral
  {
  }

  function Cipher(me: Identity, t: Transfer, index: nat): Message
    requires |t.source| < TWO_63 && index < Total(t.source)
  {
    Sealed(TransferKey(me, t), ChunkNonce(index), Chunk(t.source, index), ChunkAad(t.id, index, Total(t.source)))
  }

  function RecordOf(me: Identity, t: Transfer, index: nat): ChunkRecord
    requires |t.source| < TWO_63 && index < Total(t.source)
  {
    ChunkRecord(index, |Chunk(t.source, index)|, Sha256(Cipher(me, t, index)))
  }

  function RecordsOf(me: Identity, t: Transfer, n: nat): (r: seq<ChunkRecord>)
    requires |t.source| < TWO_63 && n <= Total(t.source)
    ensures |r| == n
    ensures forall i :: 0 <= i < n ==> r[i] == RecordOf(me, t, i)
  {
    if n == 0 then [] else RecordsOf(me, t, n - 1) + [RecordOf(me, t, n - 1)]
  }

  function ManifestOf(me: Identity, t: Transfer): Manifest
    requires |t.source| < TWO_63
  {
    Manifest(
      MANIFEST_VERSION, t.id, t.createdAt, t.file, |t.source|, Total(t.source), Public(t.ephemeral),
      Sha256(Plain(Leading(t.source, Total(t.source)))), RecordsOf(me, t, Total(t.source)))
  }
}
