/** Files as the programs use them: sequential reads, and writes at an offset. */
module Files {
  import opened Prelude

  /** Bytes per transfer chunk, and per read of the hashing loops. */
  const CHUNK_SIZE: nat := 1048576

  /** `seek(offset)` then `write(data)`: a gap past the end of the file reads back as zeros. */
  function WriteAt(file: Bytes, offset: nat, data: Bytes): Bytes {
    if data == [] then file
    else
      (if offset <= |file| then file[..offset] else file + Zeros(offset - |file|))
      + data
      + (if offset + |data| < |file| then file[offset + |data|..] else [])
  }

  /** A file opened for reading. */
  class Reader {
    const content: Bytes
    var pos: nat

    ghost predicate Valid()
      reads this
    {
      pos <= |content|
    }

    constructor (content: Bytes)
      ensures Valid() && this.content == content && pos == 0
    {
      this.content := content;
      pos := 0;
    }

    method Read(n: nat) returns (block: Bytes)
      requires Valid()
      modifies this
      ensures Valid()
      ensures pos == Min(old(pos) + n, |content|)
      ensures block == content[old(pos)..pos]
    {
      var end := Min(pos + n, |content|);
      block := content[pos..end];
      pos := end;
    }
  }

  /** `_hash_prefix` and `sha256_file`: the bytes fed to a running hash, which are the first `n`
      bytes of the file; None is the IOError of a file that is too short. */
  method FeedPrefix(file: Bytes, n: nat) returns (fed: Option<Bytes>)
    ensures fed == if n <= |file| then Some(file[..n]) else None
  {
    var f := new Reader(file);
    var h: Bytes := [];
    var remaining := n;
    while remaining > 0
      invariant f.Valid() && f.content == file
      invariant remaining >= 0 && f.pos + remaining == n
      invariant h == file[..f.pos]
    {
      var block := f.Read(Min(CHUNK_SIZE, remaining));
      if block == [] {
        return None;
      }
      h := h + block;
      remaining := remaining - |block|;
    }
    return Some(h);
  }
}
