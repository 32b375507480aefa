/** The broker's command protocol on one connection. A frame is a string with one character per byte;
    the key check and the listing are those of BlobNames and BlobListing. */
module BrokerProtocol {
  import opened Prelude
  import opened BlobNames
  import opened BlobListing
  import opened BlobStore

  type Store = map<string, string>

  datatype Command =
    | Put(key: string, data: string)
    | Get(key: string)
    | Stat(key: string)
    | List(prefix: string)

  /** The frames a client sends for a command. */
  function Request(c: Command): (r: seq<string>)
    ensures |r| > 0
  {
    match c
    case Put(key, data) => ["PUT" + " " + key, data]
    case Get(key) => ["GET" + " " + key]
    case Stat(key) => ["STAT" + " " + key]
    case List(prefix) => ["LIST" + " " + prefix]
  }

  /** A PUT writes through the temporary file of its key and renames it, so whatever was stored under the
      name of that file is gone. */
  function AfterPut(store: Store, key: string, data: string): Store {
    (store - {TempPath(key)})[key := data]
  }

  function Effect(store: Store, c: Command): Store {
    if c.Put? && SafePath(c.key).Some? then AfterPut(store, c.key, c.data) else store
  }

  predicate Holds(store: Store, key: string) {
    SafePath(key).Some? && key in store
  }

  const OK := "OK"
  const MISSING := "MISSING"
  const ILLEGAL := "ERR illegal blob key"
  const UNKNOWN := "ERR unknown op"

  /** The frames the broker answers with. */
  ghost function Reply(store: Store, c: Command): (r: seq<string>)
    ensures |r| > 0
  {
    match c
    case Put(key, _) => [if SafePath(key).Some? then OK else ILLEGAL]
    case Get(key) => if Holds(store, key) then [OK, store[key]] else [MISSING]
    case Stat(key) => [if Holds(store, key) then "OK " + Decimal(|store[key]|) else MISSING]
    case List(prefix) => [OK, Join(Listing(TreeOf(store.Keys), prefix))]
  }

  // ---- the broker's side of a connection ----

  function SpaceAt(line: string): (i: nat)
    ensures i <= |line|
  {
    if line == "" || line[0] == ' ' then 0 else 1 + SpaceAt(line[1..])
  }

  /** `line.split(" ", 1)`. */
  function Op(line: string): string {
    line[..SpaceAt(line)]
  }

  function Arg(line: string): string {
    if SpaceAt(line) < |line| then line[SpaceAt(line) + 1..] else ""
  }

  lemma {:induction false} SplitAtSpace(op: string, arg: string)
    requires ' ' !in op
    ensures SpaceAt(op + " " + arg) == |op|
    ensures Op(op + " " + arg) == op && Arg(op + " " + arg) == arg
  {
    var line := op + " " + arg;
    if op != "" {
      assert op[0] in op;
      assert line[1..] == op[1..] + " " + arg;
      SplitAtSpace(op[1..], arg);
    }
    assert line[..|op|] == op && line[|op| + 1..] == arg;
  }

  /** What handling one line does: the new store, the reply, the frames not consumed, and whether the
      session goes on. A PUT without its data frame ends the session and changes nothing. */
  datatype Handled = Handled(store: Store, reply: seq<string>, rest: seq<string>, alive: bool)

  ghost function Handle(store: Store, line: string, rest: seq<string>): (h: Handled)
    ensures |h.rest| <= |rest|
  {
    var op, arg := Op(line), Arg(line);
    if op == "PUT" then
      if rest == [] then Handled(store, [], [], false)
      else Handled(Effect(store, Put(arg, rest[0])), Reply(store, Put(arg, rest[0])), rest[1..], true)
    else if op == "GET" then Handled(store, Reply(store, Get(arg)), rest, true)
    else if op == "STAT" then Handled(store, Reply(store, Stat(arg)), rest, true)
    else if op == "LIST" then Handled(store, Reply(store, List(arg)), rest, true)
    else Handled(store, [UNKNOWN], rest, true)
  }

  datatype Served = Served(store: Store, replies: seq<string>)

  /** `_serve_client` over everything that reaches the broker on one connection. */
  ghost function Serve(store: Store, input: seq<string>): Served
    decreases |input|
  {
    if input == [] then Served(store, [])
    else
      var h := Handle(store, input[0], input[1..]);
      if !h.alive then Served(h.store, h.reply)
      else
        var more := Serve(h.store, h.rest);
        Served(more.store, h.reply + more.replies)
  }

  /** The frames of a command are handled as that command, whatever its key and data are, and the
      next command starts right after them, also when a PUT is refused. */
  lemma RequestIsHandled(store: Store, c: Command, rest: seq<string>)
    ensures var input := Request(c) + rest;
            Handle(store, input[0], input[1..]) == Handled(Effect(store, c), Reply(store, c), rest, true)
  {
    hide Reply, SafePath;
    var input := Request(c) + rest;
    match c
    case Put(key, data) =>
      SplitAtSpace("PUT", key);
      assert input[1..][0] == data && input[1..][1..] == rest;
    case Get(key) =>
      SplitAtSpace("GET", key);
    case Stat(key) =>
      SplitAtSpace("STAT", key);
    case List(prefix) =>
      SplitAtSpace("LIST", prefix);
  }

  lemma ServeOne(store: Store, c: Command)
    ensures Serve(store, Request(c)) == Served(Effect(store, c), Reply(store, c))
  {
    RequestIsHandled(store, c, []);
    assert Request(c) + [] == Request(c);
    assert Reply(store, c) + [] == Reply(store, c);
  }

  /** Part of a request, short of the whole, changes nothing and is not answered. */
  lemma ServePart(store: Store, c: Command, sent: nat)
    requires sent < |Request(c)|
    ensures Serve(store, Request(c)[..sent]) == Served(store, [])
  {
    if sent == 1 {
      var key := c.key;
      SplitAtSpace("PUT", key);
      assert Request(c)[..1] == ["PUT" + " " + key];
    }
  }

  /** One connection: frames on their way to the broker and to the client. */
  class Connection {
    var toBroker: seq<string>
    var toClient: seq<string>

    constructor ()
      ensures toBroker == [] && toClient == []
    {
      toBroker, toClient := [], [];
    }
  }

  class Broker {
    var store: Store

    constructor (store: Store)
      ensures this.store == store
    {
      this.store := store;
    }

    method HandleCommand(conn: Connection, line: string) returns (alive: bool)
      modifies this`store, conn
      ensures var h := Handle(old(store), line, old(conn.toBroker));
              store == h.store && conn.toBroker == h.rest
              && conn.toClient == old(conn.toClient) + h.reply && alive == h.alive
    {
      var op, arg := Op(line), Arg(line);
      alive := true;
      if op == "PUT" {
        if conn.toBroker == [] {
          return false;
        }
        var data := conn.toBroker[0];
        conn.toBroker := conn.toBroker[1..];
        if SafePath(arg).None? {
          conn.toClient := conn.toClient + [ILLEGAL];
          return;
        }
        store := (store - {TempPath(arg)})[arg := data];
        conn.toClient := conn.toClient + [OK];
      } else if op == "GET" {
        if SafePath(arg).None? || arg !in store {
          conn.toClient := conn.toClient + [MISSING];
          return;
        }
        conn.toClient := conn.toClient + [OK];
        conn.toClient := conn.toClient + [store[arg]];
        assert conn.toClient == old(conn.toClient) + [OK, store[arg]];
      } else if op == "STAT" {
        if SafePath(arg).Some? && arg in store {
          conn.toClient := conn.toClient + ["OK " + Decimal(|store[arg]|)];
        } else {
          conn.toClient := conn.toClient + [MISSING];
        }
      } else if op == "LIST" {
        var keys := BlobListing.List(TreeOf(store.Keys), arg);
        conn.toClient := conn.toClient + [OK];
        conn.toClient := conn.toClient + [Join(keys)];
        assert conn.toClient == old(conn.toClient) + [OK, Join(keys)];
      } else {
        conn.toClient := conn.toClient + [UNKNOWN];
      }
    }

    method ServeClient(conn: Connection)
      modifies this`store, conn
      ensures var served := Serve(old(store), old(conn.toBroker));
              store == served.store && conn.toBroker == [] && conn.toClient == old(conn.toClient) + served.replies
    {
      hide Handle, Serve, WithReplies;
      ghost var goal := Serve(store, conn.toBroker);
      NothingServed(store, []);
      WithNoReplies(goal);
      ghost var replies: seq<string> := [];
      var alive := true;
      while alive && conn.toBroker != []
        invariant conn.toClient == old(conn.toClient) + replies
        invariant alive ==> goal == WithReplies(replies, Serve(store, conn.toBroker))
        invariant !alive ==> goal == Served(store, replies) && conn.toBroker == []
        decreases |conn.toBroker|, alive
      {
        ghost var before := store;
        ghost var input := conn.toBroker;
        var line := conn.toBroker[0];
        conn.toBroker := conn.toBroker[1..];
        alive := HandleCommand(conn, line);
        ServeStep(before, input, replies);
        Regroup(old(conn.toClient), replies, Handle(before, line, input[1..]).reply);
        replies := replies + Handle(before, line, input[1..]).reply;
      }
      NothingServed(store, replies);
    }
  }

  ghost function WithReplies(replies: seq<string>, s: Served): Served {
    Served(s.store, replies + s.replies)
  }

  lemma WithNoReplies(s: Served)
    ensures WithReplies([], s) == s
  {
    assert [] + s.replies == s.replies;
  }

  lemma NothingServed(store: Store, replies: seq<string>)
    ensures WithReplies(replies, Serve(store, [])) == Served(store, replies)
  {
    assert replies + [] == replies;
  }

  lemma Regroup(a: seq<string>, b: seq<string>, c: seq<string>)
    ensures (a + b) + c == a + (b + c)
  {
  }

  lemma ServeStep(store: Store, input: seq<string>, replies: seq<string>)
    requires input != []
    ensures var h := Handle(store, input[0], input[1..]);
            var served := WithReplies(replies, Serve(store, input));
            && (h.alive ==> served == WithReplies(replies + h.reply, Serve(h.store, h.rest)))
            && (!h.alive ==> served == Served(h.store, replies + h.reply) && h.rest == [])
  {
    hide Reply, Effect, Op, Arg, SafePath;
    var h := Handle(store, input[0], input[1..]);
    var more := Serve(h.store, h.rest);
    assert replies + (h.reply + more.replies) == (replies + h.reply) + more.replies;
  }

  /** Two accepted keys, of which the second names the temporary file of the first: a PUT of the first
      removes what was stored under the second, which then reads as missing. */
  lemma PutDisplacesTemp(store: Store, key: string, data: string)
    requires SafePath(key).Some? && SafePath(TempPath(key)).Some? && TempPath(key) in store
    ensures Reply(store, Get(TempPath(key))) == [OK, store[TempPath(key)]]
    ensures Reply(Effect(store, Put(key, data)), Get(TempPath(key))) == [MISSING]
  {
    hide SafePath;
    assert |TempPath(key)| != |key|;
  }

  /** The session goes on: after a whole request, whatever it was, the rest of the input is served in the
      store that the request leaves, and its replies follow. */
  lemma ServeNext(store: Store, c: Command, rest: seq<string>)
    ensures var more := Serve(Effect(store, c), rest);
            Serve(store, Request(c) + rest) == Served(more.store, Reply(store, c) + more.replies)
  {
    hide Reply, Effect, Handle;
    RequestIsHandled(store, c, rest);
  }

  /** What is on the wire, letter by letter. */
  lemma WireFormat(store: Store, key: string, data: string)
    ensures Request(Put(key, data)) == ["PUT " + key, data] && Request(Get(key)) == ["GET " + key]
    ensures Request(Stat(key)) == ["STAT " + key] && Request(List(key)) == ["LIST " + key]
    ensures SafePath(key).Some? ==> Reply(store, Put(key, data)) == ["OK"]
    ensures SafePath(key).None? ==> Reply(store, Put(key, data)) == ["ERR illegal blob key"]
    ensures SafePath(key).Some? && key in store ==>
      Reply(store, Get(key)) == ["OK", store[key]] && Reply(store, Stat(key)) == ["OK " + Decimal(|store[key]|)]
    ensures SafePath(key).None? || key !in store ==>
      Reply(store, Get(key)) == ["MISSING"] && Reply(store, Stat(key)) == ["MISSING"]
    ensures Reply(store, List(key)) == ["OK", Join(Listing(TreeOf(store.Keys), key))]
  {
    hide SafePath, Listing, TreeOf, Join;
    assert "PUT" + " " + key == "PUT " + key && "GET" + " " + key == "GET " + key;
    assert "STAT" + " " + key == "STAT " + key && "LIST" + " " + key == "LIST " + key;
  }

  /** What the commands do to the store: an accepted PUT is what the next GET of its key reads, and leaves
      every other key alone but the name of its temporary file; nothing else changes anything. */
  lemma StoreLaws(store: Store, c: Command, key: string)
    ensures !c.Put? || SafePath(c.key).None? ==> Effect(store, c) == store
    ensures c.Put? && SafePath(c.key).Some? ==>
      var after := Effect(store, c);
      && Reply(after, Get(c.key)) == ["OK", c.data]
      && (key != c.key && key != c.key + ".tmp" ==>
            (key in after <==> key in store) && (key in store ==> after[key] == store[key]))
      && c.key + ".tmp" !in after
  {
    hide SafePath;
    if c.Put? {
      assert |TempPath(c.key)| != |c.key|;
    }
  }

  /** A line with another word in front is answered, and the session goes on; a command without an argument
      has the empty one; and a PUT without its payload ends the session. */
  lemma OtherLines(store: Store, line: string, rest: seq<string>)
    ensures Op(line) !in {"PUT", "GET", "STAT", "LIST"} ==>
      Handle(store, line, rest) == Handled(store, ["ERR unknown op"], rest, true)
    ensures Op(line) == "PUT" && rest == [] ==> Handle(store, line, rest) == Handled(store, [], [], false)
    ensures ' ' !in line ==> Op(line) == line && Arg(line) == ""
  {
    hide SafePath, Reply;
    if ' ' !in line {
      NoSpace(line);
    }
  }

  lemma {:induction false} NoSpace(line: string)
    requires ' ' !in line
    ensures SpaceAt(line) == |line|
  {
    if line != "" {
      assert line[0] in line;
      NoSpace(line[1..]);
    }
  }
}
