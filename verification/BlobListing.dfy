/** LIST: what the broker prints and what the client reads back. */
module BlobListing {
  import opened Prelude
  import opened BigEndian
  import opened BlobNames

  // ---- code-point order of strings ----

  predicate Before(a: string, b: string) {
    if b == "" then false
    else if a == "" then true
    else a[0] < b[0] || (a[0] == b[0] && Before(a[1..], b[1..]))
  }

  lemma {:induction false} BeforeTransitive(a: string, b: string, c: string)
    requires Before(a, b) && Before(b, c)
    ensures Before(a, c)
  {
    if a != "" && a[0] == b[0] == c[0] {
      BeforeTransitive(a[1..], b[1..], c[1..]);
    }
  }

  lemma {:induction false} BeforeTotal(a: string, b: string)
    ensures a != b ==> Before(a, b) || Before(b, a)
    ensures Before(a, b) ==> a != b && !Before(b, a)
  {
    if a != "" && b != "" && a[0] == b[0] {
      BeforeTotal(a[1..], b[1..]);
      assert a == [a[0]] + a[1..] && b == [b[0]] + b[1..];
    }
  }

  /** The strings agree below `i`, where `a` has the smaller character. */
  predicate SmallerAt(a: string, b: string, i: nat) {
    i < |a| && i < |b| && a[..i] == b[..i] && a[i] < b[i]
  }

  lemma SmallerLater(a: string, b: string, i: nat)
    requires a != "" && b != "" && a[0] == b[0]
    ensures SmallerAt(a, b, i + 1) <==> SmallerAt(a[1..], b[1..], i)
    ensures !SmallerAt(a, b, 0)
  {
    if i < |a| - 1 && i < |b| - 1 {
      assert a[..i + 1] == [a[0]] + a[1..][..i] && b[..i + 1] == [b[0]] + b[1..][..i];
      assert a[..i + 1][1..] == a[1..][..i] && b[..i + 1][1..] == b[1..][..i];
    }
  }

  /** What the order is: a proper prefix comes first, and otherwise the first difference decides, by code
      point. */
  lemma {:induction false} BeforeByIndex(a: string, b: string)
    ensures Before(a, b) <==> a < b || exists i: nat :: SmallerAt(a, b, i)
  {
    if a != "" && b != "" && a[0] == b[0] {
      BeforeByIndex(a[1..], b[1..]);
      assert a == [a[0]] + a[1..] && b == [b[0]] + b[1..];
      hide SmallerAt;
      if i: nat :| SmallerAt(a, b, i) {
        SmallerLater(a, b, if i > 0 then i - 1 else 0);
      }
      if j: nat :| SmallerAt(a[1..], b[1..], j) {
        SmallerLater(a, b, j);
      }
    } else if a != "" && b != "" && a[0] < b[0] {
      assert SmallerAt(a, b, 0);
    }
  }

  ghost predicate Increasing(names: seq<string>) {
    forall i, j :: 0 <= i < j < |names| ==> Before(names[i], names[j])
  }

  function Insert(x: string, names: seq<string>): seq<string> {
    if names == [] || Before(x, names[0]) then [x] + names
    else [names[0]] + Insert(x, names[1..])
  }

  lemma {:induction false} InsertKeepsOrder(x: string, names: seq<string>)
    requires Increasing(names) && x !in names
    ensures Increasing(Insert(x, names))
    ensures forall y :: y in Insert(x, names) <==> y == x || y in names
  {
    if names != [] {
      BeforeTotal(x, names[0]);
      assert names == [names[0]] + names[1..];
      if Before(x, names[0]) {
        forall j | 0 <= j < |names| ensures Before(x, names[j]) {
          if j > 0 { BeforeTransitive(x, names[0], names[j]); }
        }
      } else {
        var rest := Insert(x, names[1..]);
        InsertKeepsOrder(x, names[1..]);
        forall j | 0 <= j < |rest| ensures Before(names[0], rest[j]) {
          assert rest[j] in rest;
        }
      }
    }
  }

  /** `sorted`: the members of a directory in increasing order, each once. */
  method Sorted(names: set<string>) returns (r: seq<string>)
    ensures Increasing(r)
    ensures forall x :: x in r <==> x in names
  {
    r := [];
    var rest := names;
    while rest != {}
      invariant rest <= names
      invariant Increasing(r)
      invariant forall x :: x in r <==> x in names && x !in rest
      decreases |rest|
    {
      var x :| x in rest;
      InsertKeepsOrder(x, r);
      r := Insert(x, r);
      rest := rest - {x};
    }
  }

  // ---- the broker's side ----

  /** The storage directory: each namespace directory with the names of the files in it. */
  type Tree = map<string, set<string>>

  function KeyOf(at: Location): string {
    at.namespace + "/" + at.name
  }

  predicate Present(tree: Tree, at: Location) {
    at.namespace in tree && at.name in tree[at.namespace]
  }

  /** The files a LIST shows: those with the prefix that are not temporary. */
  predicate Shown(tree: Tree, prefix: string, at: Location) {
    Present(tree, at) && !EndsWith(at.name, ".tmp") && prefix <= KeyOf(at)
  }

  predicate LocationBefore(a: Location, b: Location) {
    Before(a.namespace, b.namespace) || (a.namespace == b.namespace && Before(a.name, b.name))
  }

  /** `keys` lists exactly the shown files, each once, by namespace and then by name. */
  ghost predicate IsListing(tree: Tree, prefix: string, keys: seq<string>) {
    exists at :: Lists(tree, prefix, keys, at)
  }

  ghost predicate InOrder(at: seq<Location>) {
    forall i, j :: 0 <= i < j < |at| ==> LocationBefore(at[i], at[j])
  }

  /** `at` says where the listed files are. */
  ghost predicate Lists(tree: Tree, prefix: string, keys: seq<string>, at: seq<Location>) {
    && |keys| == |at|
    && (forall i :: 0 <= i < |at| ==> keys[i] == KeyOf(at[i]))
    && InOrder(at)
    && (forall loc :: loc in at <==> Shown(tree, prefix, loc))
  }

  method List(tree: Tree, prefix: string) returns (keys: seq<string>)
    ensures IsListing(tree, prefix, keys)
    ensures keys == Listing(tree, prefix)
  {
    keys := [];
    ghost var at: seq<Location> := [];
    var namespaces := Sorted(tree.Keys);
    for n := 0 to |namespaces|
      invariant |keys| == |at|
      invariant forall i :: 0 <= i < |at| ==> keys[i] == KeyOf(at[i])
      invariant forall i, j :: 0 <= i < j < |at| ==> LocationBefore(at[i], at[j])
      invariant forall loc :: loc in at <==> Shown(tree, prefix, loc) && loc.namespace in namespaces[..n]
    {
      var ns := namespaces[n];
      var names := Sorted(tree[ns]);
      ghost var earlier := at;
      for m := 0 to |names|
        invariant |keys| == |at|
        invariant forall i :: 0 <= i < |at| ==> keys[i] == KeyOf(at[i])
        invariant forall i, j :: 0 <= i < j < |at| ==> LocationBefore(at[i], at[j])
        invariant forall loc :: loc in at <==>
          loc in earlier || (Shown(tree, prefix, loc) && loc.namespace == ns && loc.name in names[..m])
      {
        var name := names[m];
        if !EndsWith(name, ".tmp") {
          var key := ns + "/" + name;
          if prefix <= key {
            forall loc | loc in at ensures LocationBefore(loc, Location(ns, name)) {
            }
            keys := keys + [key];
            at := at + [Location(ns, name)];
          }
        }
      }
    }
    assert Lists(tree, prefix, keys, at);
    ListingIsUnique(tree, prefix, keys, Listing(tree, prefix));
  }

  lemma LocationOrder(a: Location, b: Location, c: Location)
    ensures LocationBefore(a, b) && LocationBefore(b, c) ==> LocationBefore(a, c)
    ensures a != b ==> LocationBefore(a, b) || LocationBefore(b, a)
    ensures LocationBefore(a, b) ==> a != b && !LocationBefore(b, a)
  {
    BeforeTotal(a.namespace, b.namespace);
    BeforeTotal(a.name, b.name);
    if Before(a.namespace, b.namespace) && Before(b.namespace, c.namespace) {
      BeforeTransitive(a.namespace, b.namespace, c.namespace);
    }
    if Before(a.name, b.name) && Before(b.name, c.name) {
      BeforeTransitive(a.name, b.name, c.name);
    }
  }

  lemma HasMember(at: seq<Location>)
    requires at != []
    ensures exists x :: x in at
  {
    assert at[0] in at;
  }

  lemma TailMembers(at: seq<Location>)
    requires InOrder(at) && at != []
    ensures forall x :: x in at[1..] <==> x in at && x != at[0]
  {
    hide LocationBefore;
    assert at == [at[0]] + at[1..];
    forall x | x in at[1..] ensures x != at[0] {
      LocationOrder(at[0], x, x);
    }
  }

  /** A set of files is in order in one way only. */
  lemma {:induction false} OrderIsUnique(a: seq<Location>, b: seq<Location>)
    requires InOrder(a) && InOrder(b)
    requires forall x :: x in a <==> x in b
    ensures a == b
  {
    hide LocationBefore;
    if a == [] {
      if b != [] {
        HasMember(b);
      }
    } else {
      assert a[0] in b && b != [];
      assert b[0] in a;
      LocationOrder(a[0], b[0], a[0]);
      TailMembers(a);
      TailMembers(b);
      OrderIsUnique(a[1..], b[1..]);
    }
  }

  function InsertAt(x: Location, at: seq<Location>): seq<Location> {
    if at == [] || LocationBefore(x, at[0]) then [x] + at
    else [at[0]] + InsertAt(x, at[1..])
  }

  lemma {:induction false} InsertAtKeepsOrder(x: Location, at: seq<Location>)
    requires InOrder(at) && x !in at
    ensures InOrder(InsertAt(x, at))
    ensures forall y :: y in InsertAt(x, at) <==> y == x || y in at
  {
    hide LocationBefore;
    if at != [] {
      LocationOrder(x, at[0], x);
      assert at == [at[0]] + at[1..];
      if LocationBefore(x, at[0]) {
        forall j | 0 <= j < |at| ensures LocationBefore(x, at[j]) {
          LocationOrder(x, at[0], at[j]);
        }
      } else {
        var rest := InsertAt(x, at[1..]);
        InsertAtKeepsOrder(x, at[1..]);
        forall j | 0 <= j < |rest| ensures LocationBefore(at[0], rest[j]) {
          assert rest[j] in rest;
        }
      }
    }
  }

  lemma {:induction false} OrderExists(s: set<Location>) returns (at: seq<Location>)
    ensures InOrder(at) && forall x :: x in at <==> x in s
    decreases |s|
  {
    if s == {} {
      at := [];
    } else {
      var x :| x in s;
      at := OrderExists(s - {x});
      InsertAtKeepsOrder(x, at);
      at := InsertAt(x, at);
    }
  }

  /** The listing of every directory exists and is unique. */
  lemma ListingExists(tree: Tree, prefix: string)
    ensures exists keys :: IsListing(tree, prefix, keys)
  {
    var shown := set ns, name | ns in tree.Keys && name in tree[ns] && Shown(tree, prefix, Location(ns, name))
               :: Location(ns, name);
    forall loc ensures loc in shown <==> Shown(tree, prefix, loc) {
      assert loc == Location(loc.namespace, loc.name);
    }
    var at := OrderExists(shown);
    var keys := seq(|at|, i requires 0 <= i < |at| => KeyOf(at[i]));
    assert Lists(tree, prefix, keys, at);
    assert IsListing(tree, prefix, keys);
  }

  lemma ListingIsUnique(tree: Tree, prefix: string, a: seq<string>, b: seq<string>)
    requires IsListing(tree, prefix, a) && IsListing(tree, prefix, b)
    ensures a == b
  {
    var at: seq<Location> :| Lists(tree, prefix, a, at);
    var bt: seq<Location> :| Lists(tree, prefix, b, bt);
    OrderIsUnique(at, bt);
  }

  ghost function Listing(tree: Tree, prefix: string): (keys: seq<string>)
    ensures IsListing(tree, prefix, keys)
  {
    ListingExists(tree, prefix);
    var keys: seq<string> :| IsListing(tree, prefix, keys);
    keys
  }

  function Join(keys: seq<string>): string {
    if keys == [] then ""
    else if |keys| == 1 then keys[0]
    else keys[0] + "\n" + Join(keys[1..])
  }

  // ---- the client's side ----

  function Lines(body: string): (r: seq<string>)
    ensures |r| > 0
  {
    if body == "" then [""]
    else
      var r := Lines(body[1..]);
      if body[0] == '\n' then [""] + r else [[body[0]] + r[0]] + r[1..]
  }

  function NonEmpty(lines: seq<string>): seq<string> {
    if lines == [] then []
    else (if lines[0] == "" then [] else [lines[0]]) + NonEmpty(lines[1..])
  }

  function ParseListing(body: string): seq<string> {
    NonEmpty(Lines(body))
  }

  // ---- the round trip ----

  predicate NewlineFree(s: string) {
    '\n' !in s
  }

  /** A key without the newline that the key pattern tolerates at its end. */
  function Stem(key: string): string {
    if EndsWith(key, "\n") then key[..|key| - 1] else key
  }

  function Stems(keys: seq<string>): (r: seq<string>)
    ensures |r| == |keys|
    ensures forall i :: 0 <= i < |keys| ==> r[i] == Stem(keys[i])
  {
    if keys == [] then [] else [Stem(keys[0])] + Stems(keys[1..])
  }

  ghost predicate Printable(keys: seq<string>) {
    forall i :: 0 <= i < |keys| ==> Stem(keys[i]) != "" && NewlineFree(Stem(keys[i]))
  }

  lemma AcceptedKeyIsPrintable(key: string)
    requires SafePath(key).Some?
    ensures Stem(key) != "" && NewlineFree(Stem(key))
  {
    var whole := if Shaped(key) then key else key[..|key| - 1];
    ShapedHasNoNewline(whole);
    assert EndsWith(key, "\n") ==> key[|key| - 1] == '\n' && key[|key| - 1] in key;
    assert Stem(key) == whole;
  }

  lemma ShapedHasNoNewline(key: string)
    requires Shaped(key)
    ensures key != "" && NewlineFree(key)
  {
    var ns, name := ShapedParts(key);
    assert key == ns + "/" + name;
  }

  lemma {:induction false} LinesOfLine(a: string, rest: string)
    requires NewlineFree(a)
    ensures Lines(a + "\n" + rest) == [a] + Lines(rest)
    ensures Lines(a) == [a]
  {
    var s := a + "\n" + rest;
    if a == "" {
      assert s[1..] == rest;
    } else {
      LinesOfLine(a[1..], rest);
      assert s[1..] == a[1..] + "\n" + rest;
      assert s[0] == a[0] && a[0] in a;
      assert [a[0]] + a[1..] == a;
      assert ([a[1..]] + Lines(rest))[1..] == Lines(rest);
    }
  }

  lemma NonEmptyStep(line: string, lines: seq<string>)
    ensures NonEmpty([line] + lines) == (if line == "" then [] else [line]) + NonEmpty(lines)
  {
    assert ([line] + lines)[1..] == lines;
  }

  lemma ParseLine(line: string, rest: string)
    requires NewlineFree(line)
    ensures ParseListing(line + "\n" + rest) == (if line == "" then [] else [line]) + ParseListing(rest)
    ensures ParseListing(line) == if line == "" then [] else [line]
  {
    hide Lines, NewlineFree;
    LinesOfLine(line, rest);
    NonEmptyStep(line, Lines(rest));
    NonEmptyStep(line, []);
    assert [line] + [] == [line];
  }

  /** Reading one printed key and what follows it gives its stem. */
  lemma ParseFirst(key: string, rest: string)
    requires Stem(key) != "" && NewlineFree(Stem(key))
    ensures ParseListing(key + "\n" + rest) == [Stem(key)] + ParseListing(rest)
    ensures ParseListing(key) == [Stem(key)]
  {
    hide ParseListing;
    var stem := Stem(key);
    if EndsWith(key, "\n") {
      assert key == stem + "\n" + "";
      assert key + "\n" + rest == stem + "\n" + ("" + "\n" + rest);
      ParseLine(stem, "" + "\n" + rest);
      ParseLine("", rest);
      ParseLine(stem, "");
    } else {
      ParseLine(key, rest);
    }
  }

  /** The client reads back the stem of every printed key, in order and each once. */
  lemma {:induction false} ParseOfJoin(keys: seq<string>)
    requires Printable(keys)
    ensures ParseListing(Join(keys)) == Stems(keys)
  {
    if keys == [] {
      NonEmptyStep("", []);
    } else if |keys| == 1 {
      ParseFirst(keys[0], "");
    } else {
      ParseFirst(keys[0], Join(keys[1..]));
      ParseOfJoin(keys[1..]);
    }
  }

  /** The round trip holds exactly when no listed key ends in a newline. */
  lemma ListRoundTrip(keys: seq<string>)
    requires Printable(keys)
    ensures ParseListing(Join(keys)) == keys
      <==> forall i :: 0 <= i < |keys| ==> !EndsWith(keys[i], "\n")
  {
    ParseOfJoin(keys);
    var stems := Stems(keys);
    if forall i :: 0 <= i < |keys| ==> !EndsWith(keys[i], "\n") {
      assert stems == keys;
    } else {
      var i :| 0 <= i < |keys| && EndsWith(keys[i], "\n");
      assert |stems[i]| < |keys[i]|;
    }
  }

  /** A storage tree all of whose visible files were stored under accepted keys. */
  ghost predicate WellKept(tree: Tree) {
    forall at: Location :: Present(tree, at) && !EndsWith(at.name, ".tmp") ==> SafePath(KeyOf(at)) == Some(at)
  }

  ghost predicate Stored(tree: Tree, key: string) {
    SafePath(key).Some? && Present(tree, SafePath(key).value)
  }

  /** The directory that holds what was stored under some keys. */
  function TreeOf(keys: set<string>): Tree {
    map ns | ns in Namespaces(keys) :: NamesIn(keys, ns)
  }

  function Namespaces(keys: set<string>): set<string> {
    set k | k in keys && SafePath(k).Some? :: SafePath(k).value.namespace
  }

  function NamesIn(keys: set<string>, ns: string): set<string> {
    set k | k in keys && SafePath(k).Some? && SafePath(k).value.namespace == ns :: SafePath(k).value.name
  }

  lemma TreeOfHolds(keys: set<string>, at: Location)
    ensures Present(TreeOf(keys), at) <==> KeyOf(at) in keys && SafePath(KeyOf(at)) == Some(at)
  {
    hide SafePath;
    if Present(TreeOf(keys), at) {
      var k :| k in keys && SafePath(k).Some?
        && SafePath(k).value.namespace == at.namespace && SafePath(k).value.name == at.name;
      SafePathConfines(k);
      assert k == KeyOf(at);
    }
  }

  lemma TreeOfIsWellKept(keys: set<string>)
    ensures WellKept(TreeOf(keys))
    ensures forall key :: Stored(TreeOf(keys), key) <==> key in keys && SafePath(key).Some?
  {
    hide SafePath, TreeOf;
    forall at: Location | Present(TreeOf(keys), at) ensures SafePath(KeyOf(at)) == Some(at) {
      TreeOfHolds(keys, at);
    }
    forall key ensures Stored(TreeOf(keys), key) <==> key in keys && SafePath(key).Some? {
      if SafePath(key).Some? {
        SafePathConfines(key);
        TreeOfHolds(keys, SafePath(key).value);
      }
    }
  }

  lemma ListedKeysArePrintable(tree: Tree, prefix: string, keys: seq<string>)
    requires WellKept(tree) && IsListing(tree, prefix, keys)
    ensures Printable(keys)
  {
    var at: seq<Location> :| Lists(tree, prefix, keys, at);
    forall i | 0 <= i < |keys| ensures Stem(keys[i]) != "" && NewlineFree(Stem(keys[i])) {
      assert at[i] in at;
      AcceptedKeyIsPrintable(keys[i]);
    }
  }

  lemma LastOfName(at: Location)
    requires SafePath(KeyOf(at)) == Some(at)
    ensures EndsWith(KeyOf(at), "\n") <==> EndsWith(at.name, "\n")
  {
    SafePathConfines(KeyOf(at));
    hide SafePath;
    assert KeyOf(at)[|KeyOf(at)| - 1] == at.name[|at.name| - 1];
  }

  /** Whatever the store holds, the client reads back exactly the listing of the shown blobs, each once
      and by namespace and name, if and only if no shown name ends in a newline. */
  lemma ListingReadsBack(tree: Tree, prefix: string, keys: seq<string>)
    requires WellKept(tree) && IsListing(tree, prefix, keys)
    ensures ParseListing(Join(keys)) == keys
      <==> forall loc :: Shown(tree, prefix, loc) ==> !EndsWith(loc.name, "\n")
  {
    hide EndsWith, SafePath, ParseListing, Join;
    ListedKeysArePrintable(tree, prefix, keys);
    var at: seq<Location> :| Lists(tree, prefix, keys, at);
    ListRoundTrip(keys);
    forall i | 0 <= i < |keys| ensures EndsWith(keys[i], "\n") <==> EndsWith(at[i].name, "\n") {
      assert at[i] in at;
      assert !EndsWith(at[i].name, ".tmp");
      LastOfName(at[i]);
    }
    if loc :| Shown(tree, prefix, loc) && EndsWith(loc.name, "\n") {
      assert loc in at;
    }
  }

  lemma ListedIsShown(tree: Tree, prefix: string, keys: seq<string>, key: string) returns (loc: Location)
    requires IsListing(tree, prefix, keys) && key in keys
    ensures Shown(tree, prefix, loc) && KeyOf(loc) == key
  {
    var at: seq<Location> :| Lists(tree, prefix, keys, at);
    var i :| 0 <= i < |keys| && keys[i] == key;
    loc := at[i];
    assert loc in at;
  }

  /** A key that is not temporary is listed exactly when it is stored and has the prefix. */
  lemma ListedIffStored(tree: Tree, prefix: string, keys: seq<string>, key: string)
    requires WellKept(tree) && IsListing(tree, prefix, keys)
    requires !EndsWith(key, ".tmp")
    ensures key in keys <==> Stored(tree, key) && prefix <= key
  {
    var at: seq<Location> :| Lists(tree, prefix, keys, at);
    if key in keys {
      var i :| 0 <= i < |keys| && keys[i] == key;
      assert at[i] in at;
    }
    if Stored(tree, key) && prefix <= key {
      var loc := SafePath(key).value;
      SafePathConfines(key);
      assert key == KeyOf(loc);
      TempSuffix(loc);
      assert loc in at;
    }
  }

  lemma TempSuffix(at: Location)
    ensures EndsWith(at.name, ".tmp") ==> EndsWith(KeyOf(at), ".tmp")
  {
    if EndsWith(at.name, ".tmp") {
      assert KeyOf(at)[|KeyOf(at)| - 4..] == at.name[|at.name| - 4..];
    }
  }

  /** The sender's skip test: a chunk counts as already there exactly when its key, or its key with
      a newline at the end, is stored. With no such key in the store the test is exact. */
  lemma AlreadyTest(tree: Tree, id: TransferId, index: nat, keys: seq<string>)
    requires WellKept(tree) && IsListing(tree, Hex(id) + "/", keys)
    requires index < LIMIT
    ensures var key := ChunkKey(id, index);
            key in ParseListing(Join(keys)) <==> Stored(tree, key) || Stored(tree, key + "\n")
  {
    hide SafePath, Name, Hex, ParseListing, Join, Stored, ChunkName, WellKept, IsListing;
    var key := ChunkKey(id, index);
    var odd := key + "\n";
    TransferKeysAreSafe(id, index);
    ListedKeysArePrintable(tree, Hex(id) + "/", keys);
    ParseOfJoin(keys);
    ChunkKeyIsNewlineFree(id, index);
    NewlineAtEnd(key);
    assert Hex(id) + "/" <= key && Hex(id) + "/" <= odd;
    ListedIffStored(tree, Hex(id) + "/", keys, key);
    ListedIffStored(tree, Hex(id) + "/", keys, odd);
    StemIn(keys, key);
  }

  lemma ChunkKeyIsNewlineFree(id: TransferId, index: nat)
    requires index < LIMIT
    ensures NewlineFree(ChunkKey(id, index))
  {
    ChunkNameHasNoDot(index);
  }

  lemma NewlineAtEnd(key: string)
    ensures EndsWith(key + "\n", "\n") && (key + "\n")[..|key|] == key
    ensures Stem(key + "\n") == key && !EndsWith(key + "\n", ".tmp")
  {
    var odd := key + "\n";
    assert odd[|odd| - 1] == '\n';
  }

  lemma StemCases(k: string, key: string)
    requires NewlineFree(key)
    ensures Stem(k) == key <==> k == key || k == key + "\n"
  {
    if EndsWith(k, "\n") {
      assert k == k[..|k| - 1] + "\n";
      assert k[|k| - 1] in k;
    }
    assert (key + "\n")[|key|..] == "\n";
  }

  lemma StemIn(keys: seq<string>, key: string)
    requires NewlineFree(key)
    ensures key in Stems(keys) <==> key in keys || key + "\n" in keys
  {
    hide Stem;
    forall i | 0 <= i < |keys|
      ensures Stems(keys)[i] == key <==> keys[i] == key || keys[i] == key + "\n"
    {
      StemCases(keys[i], key);
    }
  }

  /** Why the condition is there: the broker accepts the key of a chunk with a newline at its end, as a
      key of its own. */
  lemma NewlineKeyIsAccepted(id: TransferId, index: nat)
    requires index < LIMIT
    ensures SafePath(ChunkKey(id, index) + "\n") == Some(Location(Hex(id), ChunkName(index) + "\n"))
  {
    hide Hex, ChunkName, Namespace, Name, HasDotDot, SlashAt;
    ChunkNameHasNoDot(index);
    var odd := ChunkKey(id, index) + "\n";
    var name := ChunkName(index) + "\n";
    assert odd == Hex(id) + "/" + name;
    HexNamespace(id);
    SlashSplit(Hex(id), name);
    SlashSplit(Hex(id), ChunkName(index));
    NewlineAtEnd(ChunkKey(id, index));
    NewlineAddsNoDots(ChunkName(index));
    NoDotDot(Hex(id), name);
  }

  lemma NewlineAddsNoDots(name: string)
    requires !HasDotDot(name)
    ensures !HasDotDot(name + "\n")
  {
    forall i | 0 <= i < |name| ensures !((name + "\n")[i] == '.' && (name + "\n")[i + 1] == '.') {
      assert i + 1 < |name| ==> !(name[i] == '.' && name[i + 1] == '.');
    }
  }

  /** With only that key stored, the round trip fails, and the sender takes the chunk to be there. */
  lemma NewlineKeyFoolsSender(id: TransferId, index: nat)
    requires index < LIMIT
    ensures var key := ChunkKey(id, index);
            var tree := TreeOf({key + "\n"});
            var keys := Listing(tree, Hex(id) + "/");
            && !Stored(tree, key)
            && key in ParseListing(Join(keys)) && ParseListing(Join(keys)) != keys
  {
    hide SafePath, Hex, ChunkName, TreeOf, ParseListing, Join;
    var key := ChunkKey(id, index);
    var tree := TreeOf({key + "\n"});
    var keys := Listing(tree, Hex(id) + "/");
    NewlineKeyIsAccepted(id, index);
    TreeOfIsWellKept({key + "\n"});
    AlreadyTest(tree, id, index, keys);
    ChunkKeyIsNewlineFree(id, index);
    NewlineAtEnd(key);
    TransferKeysAreSafe(id, index);
    ListedIffStored(tree, Hex(id) + "/", keys, key);
    assert Hex(id) + "/" <= key;
  }
}
