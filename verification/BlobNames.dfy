/** Names of blobs: hexadecimal ids, zero-padded decimal chunk names, and the broker's key check. */
module BlobNames {
  import opened Prelude
  import opened BigEndian

  const TRANSFER_ID_LEN: nat := 16

  type TransferId = s: Bytes | |s| == TRANSFER_ID_LEN witness seq(TRANSFER_ID_LEN, _ => 0)

  // ---- hexadecimal ----

  function HexDigit(n: nat): (c: char)
    requires n < 16
  {
    "0123456789abcdef"[n]
  }

  lemma HexDigitInjective(m: nat, n: nat)
    requires m < 16 && n < 16
    requires HexDigit(m) == HexDigit(n)
    ensures m == n
  {
  }

  function Hex(bytes: Bytes): (s: string)
    ensures |s| == 2 * |bytes|
    ensures forall c :: c in s ==> KeyChar(c)
  {
    if bytes == [] then "" else [HexDigit(bytes[0] / 16), HexDigit(bytes[0] % 16)] + Hex(bytes[1..])
  }

  lemma {:induction false} HexInjective(a: Bytes, b: Bytes)
    requires Hex(a) == Hex(b)
    ensures a == b
  {
    if a != [] {
      assert |a| == |b|;
      assert Hex(a)[0] == Hex(b)[0] && Hex(a)[1] == Hex(b)[1];
      HexDigitInjective(a[0] / 16, b[0] / 16);
      HexDigitInjective(a[0] % 16, b[0] % 16);
      assert Hex(a)[2..] == Hex(a[1..]) && Hex(b)[2..] == Hex(b[1..]);
      HexInjective(a[1..], b[1..]);
      assert a == [a[0]] + a[1..] && b == [b[0]] + b[1..];
    }
  }

  /** Two lower-case digits per byte, the high one first. */
  lemma {:induction false} HexDigits(bytes: Bytes, i: nat)
    requires i < |bytes|
    ensures Hex(bytes)[2 * i] == LowerHex(bytes[i] / 16) && Hex(bytes)[2 * i + 1] == LowerHex(bytes[i] % 16)
  {
    if i > 0 {
      HexDigits(bytes[1..], i - 1);
      assert Hex(bytes)[2..] == Hex(bytes[1..]);
      assert Hex(bytes)[2 * i] == Hex(bytes)[2..][2 * (i - 1)];
      assert Hex(bytes)[2 * i + 1] == Hex(bytes)[2..][2 * (i - 1) + 1];
    }
  }

  function LowerHex(n: nat): char
    requires n < 16
  {
    if n < 10 then '0' + n as char else 'a' + (n - 10) as char
  }

  // ---- decimal ----

  function Digit(n: nat): (c: char)
    requires n < 10
    ensures '0' <= c <= '9' && c as int - '0' as int == n
  {
    "0123456789"[n]
  }

  function Decimal(n: nat): (s: string)
    ensures s != ""
    ensures forall c :: c in s ==> '0' <= c <= '9'
  {
    if n < 10 then [Digit(n)] else Decimal(n / 10) + [Digit(n % 10)]
  }

  /** The format specification `0{width}d`. */
  function Padded(n: nat, width: nat): string {
    var digits := Decimal(n);
    (if |digits| < width then seq(width - |digits|, _ => '0') else "") + digits
  }

  function DigitValue(c: char): int {
    c as int - '0' as int
  }

  function ParseDecimal(s: string): int {
    if s == "" then 0 else 10 * ParseDecimal(s[..|s| - 1]) + DigitValue(s[|s| - 1])
  }

  lemma {:induction false} ParseOfPrefixed(zeros: nat, n: nat)
    ensures ParseDecimal(seq(zeros, _ => '0') + Decimal(n)) == n
    decreases n
  {
    var pad := seq(zeros, _ => '0');
    var s := pad + Decimal(n);
    if n < 10 {
      assert s[..|s| - 1] == pad;
      ParseOfZeros(zeros);
    } else {
      assert s[..|s| - 1] == pad + Decimal(n / 10);
      ParseOfPrefixed(zeros, n / 10);
    }
  }

  lemma {:induction false} ParseOfZeros(zeros: nat)
    ensures ParseDecimal(seq(zeros, _ => '0')) == 0
  {
    if zeros > 0 {
      assert seq(zeros, _ => '0')[..zeros - 1] == seq(zeros - 1, _ => '0');
      ParseOfZeros(zeros - 1);
    }
  }

  lemma ParseOfPadded(n: nat, width: nat)
    ensures ParseDecimal(Padded(n, width)) == n
  {
    var k := if |Decimal(n)| < width then width - |Decimal(n)| else 0;
    assert Padded(n, width) == seq(k, _ => '0') + Decimal(n);
    ParseOfPrefixed(k, n);
  }

  lemma {:induction false} DecimalLength(n: nat, k: nat)
    requires k > 0 && n < Pow10(k)
    ensures |Decimal(n)| <= k
  {
    if n >= 10 {
      DecimalLength(n / 10, k - 1);
    }
  }

  function Pow10(k: nat): nat {
    if k == 0 then 1 else 10 * Pow10(k - 1)
  }

  lemma PaddedLength(n: nat)
    requires n < LIMIT
    ensures 8 <= |Padded(n, 8)| <= 20
  {
    assert Pow10(10) == 10_000_000_000;
    assert Pow10(20) == Pow10(10) * 10_000_000_000;
    DecimalLength(n, 20);
  }

  lemma {:induction false} DecimalIsShort(n: nat)
    ensures n > 0 ==> Decimal(n)[0] != '0' && n >= Pow10(|Decimal(n)| - 1)
    ensures n < 10 ==> |Decimal(n)| == 1
  {
    if n >= 10 {
      DecimalIsShort(n / 10);
    }
  }

  /** The shape of a number in a name: at least eight digits, and no more than the number needs. */
  lemma PaddedShape(n: nat)
    ensures |Padded(n, 8)| >= 8
    ensures n < 100_000_000 ==> |Padded(n, 8)| == 8
    ensures n >= 100_000_000 ==> Padded(n, 8)[0] != '0'
    ensures forall c :: c in Padded(n, 8) ==> '0' <= c <= '9'
  {
    assert Pow10(8) == 100_000_000 && Pow10(7) == 10_000_000;
    DecimalIsShort(n);
    if n < 100_000_000 {
      DecimalLength(n, 8);
    } else {
      if |Decimal(n)| < 8 {
        ShortDecimal(n, 7);
      }
      assert Padded(n, 8) == Decimal(n);
    }
  }

  lemma {:induction false} ShortDecimal(n: nat, k: nat)
    requires |Decimal(n)| <= k
    ensures n < Pow10(k)
  {
    if n >= 10 {
      ShortDecimal(n / 10, k - 1);
    } else {
      assert Pow10(k) == 10 * Pow10(k - 1) && Pow10(k - 1) >= 1 by {
        Pow10Positive(k - 1);
      }
    }
  }

  lemma {:induction false} Pow10Positive(k: nat)
    ensures Pow10(k) >= 1
  {
    if k > 0 {
      Pow10Positive(k - 1);
    }
  }

  // ---- the keys of a transfer ----

  function ManifestKey(id: TransferId): string {
    Hex(id) + "/" + "manifest"
  }

  function SignatureKey(id: TransferId): string {
    Hex(id) + "/" + "manifest.sig"
  }

  function ChunkName(index: nat): string {
    "chunk_" + Padded(index, 8)
  }

  function ChunkKey(id: TransferId, index: nat): string {
    Hex(id) + "/" + ChunkName(index)
  }

  /** The keys, letter by letter. */
  lemma KeyLayout(id: TransferId, index: nat)
    ensures ManifestKey(id) == Hex(id) + "/manifest" && SignatureKey(id) == Hex(id) + "/manifest.sig"
    ensures ChunkKey(id, index) == Hex(id) + "/chunk_" + Padded(index, 8)
    ensures |Hex(id)| == 32
  {
    assert "/" + ("chunk_" + Padded(index, 8)) == "/chunk_" + Padded(index, 8);
  }

  /** Chunk keys name one chunk of one transfer, also for indices of more than eight digits. */
  lemma ChunkKeyInjective(id: TransferId, i: nat, id': TransferId, i': nat)
    requires ChunkKey(id, i) == ChunkKey(id', i')
    ensures id == id' && i == i'
  {
    var k := ChunkKey(id, i);
    assert k[..32] == Hex(id) && k[..32] == Hex(id');
    HexInjective(id, id');
    assert k[39..] == Padded(i, 8) && k[39..] == Padded(i', 8);
    ParseOfPadded(i, 8);
    ParseOfPadded(i', 8);
  }

  lemma KeysOfTransfersAreDistinct(id: TransferId, i: nat, id': TransferId)
    ensures ChunkKey(id, i) != ManifestKey(id') && ChunkKey(id, i) != SignatureKey(id')
    ensures ManifestKey(id) != SignatureKey(id')
    ensures ManifestKey(id) == ManifestKey(id') ==> id == id'
    ensures SignatureKey(id) == SignatureKey(id') ==> id == id'
  {
    assert ChunkKey(id, i)[33] == 'c' && ManifestKey(id')[33] == 'm' && SignatureKey(id')[33] == 'm';
    assert |ManifestKey(id)| == 41 && |SignatureKey(id')| == 45;
    assert ManifestKey(id)[..32] == Hex(id) && SignatureKey(id)[..32] == Hex(id);
    assert ManifestKey(id')[..32] == Hex(id') && SignatureKey(id')[..32] == Hex(id');
    if Hex(id) == Hex(id') {
      HexInjective(id, id');
    }
  }

  // ---- the broker's check ----

  const MAX_SEGMENT: nat := 128

  predicate KeyChar(c: char) {
    'A' <= c <= 'Z' || 'a' <= c <= 'z' || '0' <= c <= '9' || c == '_' || c == '-'
  }

  predicate NameChar(c: char) {
    KeyChar(c) || c == '.'
  }

  predicate Namespace(s: string) {
    1 <= |s| <= MAX_SEGMENT && forall c :: c in s ==> KeyChar(c)
  }

  predicate Name(s: string) {
    1 <= |s| <= MAX_SEGMENT && forall c :: c in s ==> NameChar(c)
  }

  /** Index of the first slash, or the length when there is none. */
  function SlashAt(key: string): (i: nat)
    ensures i <= |key|
    ensures i < |key| ==> key[i] == '/'
    ensures forall j :: 0 <= j < i ==> key[j] != '/'
  {
    if key == "" || key[0] == '/' then 0 else 1 + SlashAt(key[1..])
  }

  predicate Shaped(key: string) {
    var i := SlashAt(key);
    i < |key| && Namespace(key[..i]) && Name(key[i + 1..])
  }

  predicate HasDotDot(key: string) {
    exists i :: 0 <= i < |key| - 1 && key[i] == '.' && key[i + 1] == '.'
  }

  predicate EndsWith(s: string, suffix: string) {
    |suffix| <= |s| && s[|s| - |suffix|..] == suffix
  }

  /** The key pattern: its final `$` also matches just before a newline that ends the key. */
  predicate Matches(key: string) {
    Shaped(key) || (EndsWith(key, "\n") && Shaped(key[..|key| - 1]))
  }

  datatype Location = Location(namespace: string, name: string)

  function SafePath(key: string): Option<Location> {
    if !Matches(key) || HasDotDot(key) then None
    else Some(Location(key[..SlashAt(key)], key[SlashAt(key) + 1..]))
  }

  lemma SlashSplit(ns: string, name: string)
    requires forall c :: c in ns ==> c != '/'
    ensures SlashAt(ns + "/" + name) == |ns|
    ensures (ns + "/" + name)[..|ns|] == ns
    ensures (ns + "/" + name)[|ns| + 1..] == name
  {
    var key := ns + "/" + name;
    forall j | 0 <= j < |ns| ensures key[j] != '/' {
      assert key[j] == ns[j] && ns[j] in ns;
    }
    SlashIsFirst(key, |ns|);
  }

  lemma {:induction false} SlashIsFirst(key: string, i: nat)
    requires i < |key| && key[i] == '/'
    requires forall j :: 0 <= j < i ==> key[j] != '/'
    ensures SlashAt(key) == i
  {
    if i > 0 {
      assert key[0] != '/';
      SlashIsFirst(key[1..], i - 1);
    }
  }

  /** Every key the transfer programs use, for an index that fits in 64 bits, is accepted under its
      own name, and none is a temporary name. */
  lemma TransferKeysAreSafe(id: TransferId, i: nat)
    requires i < LIMIT
    ensures SafePath(ChunkKey(id, i)) == Some(Location(Hex(id), ChunkName(i)))
    ensures SafePath(ManifestKey(id)) == Some(Location(Hex(id), "manifest"))
    ensures SafePath(SignatureKey(id)) == Some(Location(Hex(id), "manifest.sig"))
    ensures !EndsWith(ChunkKey(id, i), ".tmp")
    ensures !EndsWith(ManifestKey(id), ".tmp") && !EndsWith(SignatureKey(id), ".tmp")
  {
    LastCharacters(id, i);
    hide SafePath, ChunkName, Hex, EndsWith;
    HexNamespace(id);
    ChunkNameHasNoDot(i);
    SafeKey(Hex(id), ChunkName(i));
    SafeKey(Hex(id), "manifest");
    SafeKey(Hex(id), "manifest.sig");
  }

  lemma HexNamespace(id: TransferId)
    ensures Namespace(Hex(id))
  {
  }

  lemma LastCharacters(id: TransferId, i: nat)
    requires i < LIMIT
    ensures !EndsWith(ChunkKey(id, i), ".tmp")
    ensures !EndsWith(ManifestKey(id), ".tmp") && !EndsWith(SignatureKey(id), ".tmp")
  {
    PaddedLength(i);
    var c := ChunkKey(id, i);
    assert c[|c| - 1] == Padded(i, 8)[|Padded(i, 8)| - 1];
    assert ManifestKey(id)[40] == 't' && SignatureKey(id)[44] == 'g';
  }

  lemma ChunkNameHasNoDot(i: nat)
    requires i < LIMIT
    ensures Name(ChunkName(i)) && !HasDotDot(ChunkName(i))
  {
    PaddedLength(i);
    var digits := Padded(i, 8);
    assert forall c :: c in digits ==> '0' <= c <= '9';
    forall c | c in ChunkName(i) ensures KeyChar(c) {
      assert c in "chunk_" || c in digits;
    }
    forall j | 0 <= j < |ChunkName(i)| ensures ChunkName(i)[j] != '.' {
      assert ChunkName(i)[j] in ChunkName(i);
    }
  }

  lemma SafeKey(ns: string, name: string)
    requires Namespace(ns) && Name(name)
    requires !HasDotDot(name)
    ensures SafePath(ns + "/" + name) == Some(Location(ns, name))
  {
    SlashSplit(ns, name);
    NoDotDot(ns, name);
  }

  lemma NoDotDot(ns: string, name: string)
    requires Namespace(ns) && !HasDotDot(name)
    ensures !HasDotDot(ns + "/" + name)
  {
    var key := ns + "/" + name;
    forall i | 0 <= i < |key| - 1 ensures !(key[i] == '.' && key[i + 1] == '.') {
      if i < |ns| {
        assert key[i] == ns[i] && ns[i] in ns;
      } else if i > |ns| {
        assert key[i] == name[i - |ns| - 1] && key[i + 1] == name[i - |ns|];
      }
    }
  }

  ghost predicate Splits(key: string) {
    var i := SlashAt(key);
    && i < |key| && Namespace(key[..i])
    && key == key[..i] + "/" + key[i + 1..]
    && key[i + 1..] != "" && '/' !in key[i + 1..]
  }

  lemma SplitsAt(ns: string, name: string)
    requires Namespace(ns) && name != "" && '/' !in name
    ensures Splits(ns + "/" + name)
  {
    hide SlashAt;
    SlashSplit(ns, name);
  }

  lemma ShapedParts(key: string) returns (ns: string, name: string)
    requires Shaped(key)
    ensures key == ns + "/" + name && Namespace(ns) && Name(name)
  {
    hide SlashAt;
    ns, name := key[..SlashAt(key)], key[SlashAt(key) + 1..];
  }

  lemma MatchedKeySplits(key: string)
    requires Matches(key)
    ensures Splits(key)
  {
    hide Splits, Shaped;
    if Shaped(key) {
      var ns, name := ShapedParts(key);
      SplitsAt(ns, name);
    } else {
      var ns, name := ShapedParts(key[..|key| - 1]);
      assert key == ns + "/" + (name + "\n");
      SplitsAt(ns, name + "\n");
    }
  }

  /** What the check buys: an accepted key is its location, different keys have different locations,
      and neither segment can climb out of the storage directory. */
  lemma SafePathConfines(key: string)
    requires SafePath(key).Some?
    ensures var at := SafePath(key).value;
            && key == at.namespace + "/" + at.name
            && '/' !in at.namespace && '/' !in at.name
            && at.namespace != "" && '.' !in at.namespace
            && at.name != "" && at.name != ".."
  {
    hide Matches;
    MatchedKeySplits(key);
    var i := SlashAt(key);
    var name := key[i + 1..];
    assert |name| >= 2 ==> name[0] == key[i + 1] && name[1] == key[i + 2];
  }

  /** ASCII letters, digits, the underscore and the hyphen, by their codes. */
  predicate Letter(c: char) {
    65 <= c as int <= 90 || 97 <= c as int <= 122 || 48 <= c as int <= 57 || c as int == 95 || c as int == 45
  }

  lemma KeyCharIsLetter()
    ensures forall c :: KeyChar(c) <==> Letter(c)
  {
  }

  /** A key that the broker should take: two segments of 1 to 128 letters, digits, underscores and hyphens,
      and in the second also dots, joined by a slash, with no two dots in a row, and perhaps a newline at
      the very end. */
  ghost predicate WellFormed(key: string, ns: string, name: string, end: string) {
    && key == ns + "/" + name + end && (end == "" || end == "\n")
    && 1 <= |ns| <= 128 && (forall c :: c in ns ==> Letter(c))
    && 1 <= |name| <= 128 && (forall c :: c in name ==> Letter(c) || c == '.')
    && forall i :: 0 <= i < |key| - 1 ==> !(key[i] == '.' && key[i + 1] == '.')
  }

  lemma PartsAreShaped(ns: string, name: string)
    requires Namespace(ns) && Name(name)
    ensures Shaped(ns + "/" + name)
  {
    SlashSplit(ns, name);
  }

  lemma AcceptedIsWellFormed(key: string) returns (ns: string, name: string, end: string)
    requires SafePath(key).Some?
    ensures WellFormed(key, ns, name, end)
  {
    hide Shaped, SlashAt, KeyChar, Letter;
    KeyCharIsLetter();
    if Shaped(key) {
      ns, name := ShapedParts(key);
      end := "";
      assert key == ns + "/" + name + end;
    } else {
      ns, name := ShapedParts(key[..|key| - 1]);
      end := "\n";
      assert key == key[..|key| - 1] + end;
    }
  }

  lemma WellFormedIsAccepted(key: string, ns: string, name: string, end: string)
    requires WellFormed(key, ns, name, end)
    ensures SafePath(key).Some?
  {
    hide Shaped, SlashAt, KeyChar, Letter;
    KeyCharIsLetter();
    PartsAreShaped(ns, name);
    if end == "" {
      assert key == ns + "/" + name;
    } else {
      assert key[..|key| - 1] == ns + "/" + name && EndsWith(key, "\n");
    }
  }

  /** The check accepts the well-formed keys, and no others. */
  lemma AcceptedExactly(key: string)
    ensures SafePath(key).Some? <==> exists ns, name, end :: WellFormed(key, ns, name, end)
  {
    hide SafePath, WellFormed;
    if SafePath(key).Some? {
      var ns, name, end := AcceptedIsWellFormed(key);
    }
    if ns, name, end :| WellFormed(key, ns, name, end) {
      WellFormedIsAccepted(key, ns, name, end);
    }
  }
}
