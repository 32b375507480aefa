/** The retrying broker client, over a network that may break any connection at any point and may
    deliver a request to the broker after the client has given the connection up. Here the broker handles
    each request at one moment; RetriedPuts lets the handling of PUTs overlap. */
module BrokerSession {
  import opened Prelude
  import opened BlobNames
  import opened BlobListing
  import opened BlobStore
  import opened BrokerProtocol

  const MAX_ATTEMPTS: nat := 5

  /** What an operation returns; `Unexpected` is a status the client does not accept. */
  datatype Outcome =
    | Stored
    | Found(data: string)
    | Absent
    | Size(n: int)
    | Keys(keys: seq<string>)
    | Unexpected(status: string)

  /** What the state of the broker's store makes of a command. */
  ghost function Meaning(store: Store, c: Command): Outcome {
    match c
    case Put(key, _) => if SafePath(key).Some? then Stored else Unexpected(ILLEGAL)
    case Get(key) => if Holds(store, key) then Found(store[key]) else Absent
    case Stat(key) => if Holds(store, key) then Size(|store[key]|) else Absent
    case List(prefix) => Keys(ParseListing(Join(Listing(TreeOf(store.Keys), prefix))))
  }

  // ---- reading a reply ----

  datatype Parsed = Value(outcome: Outcome, rest: seq<string>) | Short

  /** The `parse` function of each operation; it runs short when the connection ends first. */
  function ParseReply(c: Command, frames: seq<string>): Parsed {
    if frames == [] then Short
    else
      var status, rest := frames[0], frames[1..];
      match c
      case Put(_, _) => Value(if status == OK then Stored else Unexpected(status), rest)
      case Get(_) =>
        if status == MISSING then Value(Absent, rest)
        else if status != OK then Value(Unexpected(status), rest)
        else if rest == [] then Short
        else Value(Found(rest[0]), rest[1..])
      case Stat(_) =>
        if status == MISSING then Value(Absent, rest)
        else if "OK " <= status then Value(Size(ParseDecimal(status[3..])), rest)
        else Value(Unexpected(status), rest)
      case List(_) =>
        if status != OK then Value(Unexpected(status), rest)
        else if rest == [] then Short
        else Value(Keys(ParseListing(rest[0])), rest[1..])
  }

  /** Reading the whole reply to a command gives its meaning and leaves nothing; reading less than the
      whole runs short. */
  lemma ReplyIsReadExactly(store: Store, c: Command, back: nat)
    requires back <= |Reply(store, c)|
    ensures ParseReply(c, Reply(store, c)[..back])
         == if back == |Reply(store, c)| then Value(Meaning(store, c), []) else Short
  {
    hide SafePath;
    if c.Stat? && Holds(store, c.key) {
      var n := |store[c.key]|;
      assert ("OK " + Decimal(n))[3..] == Decimal(n);
      ParseOfPrefixed(0, n);
      assert seq(0, _ => '0') + Decimal(n) == Decimal(n);
    }
  }

  // ---- the network ----

  /** How one attempt fares: there is no connection to be had, or the one at hand turns out broken
      before anything is sent; or it breaks after `sent` frames of the
      request and `back` frames of the reply, the broker handling a complete request at once or, if
      `late`, only after the client has given up; or it works. */
  datatype Fault = NoConnection | Broken(sent: nat, back: nat, late: bool) | Intact

  /** Before each attempt, some of the requests still on their way reach the broker. */
  datatype Weather = Weather(arrivals: seq<nat>, fault: Fault)

  /** The broker's store and the complete requests it has yet to handle from abandoned connections. */
  datatype Net = Net(store: Store, limbo: seq<Command>)

  function Arrive(net: Net, i: nat): Net {
    if i < |net.limbo| then Net(Effect(net.store, net.limbo[i]), net.limbo[..i] + net.limbo[i + 1..]) else net
  }

  function ArriveAll(net: Net, arrivals: seq<nat>): Net
    decreases |arrivals|
  {
    if arrivals == [] then net else ArriveAll(Arrive(net, arrivals[0]), arrivals[1..])
  }

  datatype Tried = Tried(net: Net, result: Option<Outcome>)

  /** One attempt. */
  ghost function Attempt(net: Net, c: Command, w: Weather): Tried {
    var n := ArriveAll(net, w.arrivals);
    var done := n.(store := Effect(n.store, c));
    match w.fault
    case NoConnection => Tried(n, None)
    case Intact => Tried(done, Some(Meaning(n.store, c)))
    case Broken(sent, back, late) =>
      if sent < |Request(c)| then Tried(n, None)
      else if late then Tried(n.(limbo := n.limbo + [c]), None)
      else Tried(done, if back < |Reply(n.store, c)| then None else Some(Meaning(n.store, c)))
  }

  /** The bounded retry loop: the outcome, or None when every attempt failed. */
  ghost function RunNet(net: Net, c: Command, ws: seq<Weather>): Tried
    decreases |ws|
  {
    if ws == [] then Tried(net, None)
    else
      var t := Attempt(net, c, ws[0]);
      if t.result.Some? then t else RunNet(t.net, c, ws[1..])
  }

  class Network {
    const broker: Broker
    var limbo: seq<Command>

    constructor (broker: Broker)
      ensures this.broker == broker && limbo == []
    {
      this.broker := broker;
      limbo := [];
    }

    ghost function State(): Net
      reads this, broker
    {
      Net(broker.store, limbo)
    }

    /** Requests from abandoned connections reach the broker, each on a connection of its own. */
    method Advance(arrivals: seq<nat>)
      modifies this, broker
      ensures State() == ArriveAll(old(State()), arrivals)
    {
      hide Effect, Reply;
      ghost var goal := ArriveAll(State(), arrivals);
      for k := 0 to |arrivals|
        invariant goal == ArriveAll(State(), arrivals[k..])
      {
        var i := arrivals[k];
        assert arrivals[k..][1..] == arrivals[k + 1..];
        if i < |limbo| {
          var conn := new Connection();
          conn.toBroker := Request(limbo[i]);
          ServeOne(broker.store, limbo[i]);
          broker.ServeClient(conn);
          limbo := limbo[..i] + limbo[i + 1..];
        }
      }
    }
  }

  class BrokerClient {
    const net: Network
    var sock: Connection?

    constructor (net: Network)
      ensures this.net == net && sock == null
    {
      this.net := net;
      sock := null;
    }

    /** Between operations there is no connection, or one with nothing under way in either direction. */
    ghost predicate Drained()
      reads this, sock
    {
      sock != null ==> sock.toBroker == [] && sock.toClient == []
    }

    /** One pass through `_connect`, the command's `send` and its `parse`; None is a connection error. */
    method Exchange(c: Command, w: Weather) returns (r: Option<Outcome>)
      requires Drained()
      modifies this, sock, net, net.broker
      ensures Tried(net.State(), r) == Attempt(old(net.State()), c, w)
      ensures r.Some? ==> Drained()
      ensures sock == old(sock) || sock == null || fresh(sock)
    {
      hide Effect, Reply, Meaning, ParseReply, Serve, Request;
      net.Advance(w.arrivals);
      if w.fault.NoConnection? {
        return None;
      }
      if sock == null {
        sock := new Connection();
      }
      var sent := if w.fault.Intact? then |Request(c)| else Min(w.fault.sent, |Request(c)|);
      assert Request(c)[..|Request(c)|] == Request(c);
      if sent == |Request(c)| && w.fault.Broken? && w.fault.late {
        net.limbo := net.limbo + [c];
        return None;
      }
      sock.toBroker := sock.toBroker + Request(c)[..sent];
      ghost var store := net.broker.store;
      if sent < |Request(c)| {
        ServePart(store, c, sent);
      } else {
        ServeOne(store, c);
      }
      assert sock.toBroker == Request(c)[..sent];
      net.broker.ServeClient(sock);
      if sent < |Request(c)| {
        return None;
      }
      var n := if w.fault.Intact? then |sock.toClient| else Min(w.fault.back, |sock.toClient|);
      ghost var reply := Reply(store, c);
      assert sock.toClient == reply;
      ReplyIsReadExactly(store, c, n);
      assert reply[..|reply|] == reply;
      var parsed := ParseReply(c, sock.toClient[..n]);
      if parsed.Short? {
        return None;
      }
      sock.toClient := parsed.rest;
      return Some(parsed.outcome);
    }

    /** `_run`. */
    method Run(c: Command, ws: seq<Weather>) returns (r: Option<Outcome>)
      requires Drained() && |ws| == 5
      modifies this, sock, net, net.broker
      ensures Tried(net.State(), r) == RunNet(old(net.State()), c, ws)
      ensures Drained()
    {
      hide Attempt;
      ghost var goal := RunNet(net.State(), c, ws);
      for attempt := 0 to MAX_ATTEMPTS
        invariant Drained()
        invariant sock == old(sock) || sock == null || fresh(sock)
        invariant goal == RunNet(net.State(), c, ws[attempt..])
      {
        assert ws[attempt..][1..] == ws[attempt + 1..];
        r := Exchange(c, ws[attempt]);
        if r.Some? {
          return;
        }
        sock := null;
      }
      return None;
    }
  }

  // ---- retrying ----

  /** The network before attempt `i`, when all attempts before it were made. */
  ghost function NetBefore(net: Net, c: Command, ws: seq<Weather>, i: nat): Net
    requires i <= |ws|
  {
    if i == 0 then net else Attempt(NetBefore(net, c, ws, i - 1), c, ws[i - 1]).net
  }

  ghost predicate Fails(net: Net, c: Command, ws: seq<Weather>, i: nat)
    requires i < |ws|
  {
    Attempt(NetBefore(net, c, ws, i), c, ws[i]).result.None?
  }

  lemma {:induction false} NetBeforeTail(net: Net, c: Command, ws: seq<Weather>, i: nat)
    requires ws != [] && i < |ws|
    ensures NetBefore(net, c, ws, i + 1) == NetBefore(Attempt(net, c, ws[0]).net, c, ws[1..], i)
  {
    hide Attempt;
    if i > 0 {
      NetBeforeTail(net, c, ws, i - 1);
      assert ws[1..][i - 1] == ws[i];
    }
  }

  /** Retrying, for every command: the operation returns what the first attempt that is answered returns,
      and it gives up only when all of them have failed. */
  lemma {:induction false} RetriesUntilAnswered(net: Net, c: Command, ws: seq<Weather>) returns (i: nat)
    ensures i <= |ws| && forall k :: 0 <= k < i ==> Fails(net, c, ws, k)
    ensures if i < |ws| then
              && !Fails(net, c, ws, i)
              && RunNet(net, c, ws) == Attempt(NetBefore(net, c, ws, i), c, ws[i])
            else
              RunNet(net, c, ws) == Tried(NetBefore(net, c, ws, i), None)
    decreases |ws|
  {
    hide Attempt;
    i := 0;
    if ws != [] {
      var t := Attempt(net, c, ws[0]);
      assert NetBefore(net, c, ws, 0) == net;
      if t.result.None? {
        var j := RetriesUntilAnswered(t.net, c, ws[1..]);
        i := j + 1;
        forall k | 0 <= k < |ws| - 1 ensures Fails(net, c, ws, k + 1) <==> Fails(t.net, c, ws[1..], k) {
          NetBeforeTail(net, c, ws, k);
        }
        forall k | 0 <= k < i ensures Fails(net, c, ws, k) {
          if k > 0 {
            assert Fails(t.net, c, ws[1..], k - 1);
          }
        }
        NetBeforeTail(net, c, ws, |ws| - 1);
        if j < |ws| - 1 {
          NetBeforeTail(net, c, ws, j);
        }
      }
    }
  }

  /** When an attempt fails: there is no connection, or it breaks before the request is whole or before the
      reply is, or the broker gets to the request too late; and what it has done to the store by then. */
  lemma FailsExactly(net: Net, c: Command, w: Weather)
    ensures Attempt(net, c, w).result.None? <==>
      match w.fault
      case NoConnection => true
      case Intact => false
      case Broken(sent, back, late) =>
        sent < (if c.Put? then 2 else 1) || late
        || back < |Reply(ArriveAll(net, w.arrivals).store, c)|
    ensures var n := ArriveAll(net, w.arrivals);
            Attempt(net, c, w).net ==
              if w.fault.NoConnection? || (w.fault.Broken? && w.fault.sent < (if c.Put? then 2 else 1)) then n
              else if w.fault.Broken? && w.fault.late then Net(n.store, n.limbo + [c])
              else Net(Effect(n.store, c), n.limbo)
  {
    hide ArriveAll, Reply, Meaning, Effect;
  }

  /** One working connection among the five attempts is enough, for every command. */
  lemma IntactIsEnough(net: Net, c: Command, ws: seq<Weather>, i: nat)
    requires i < |ws| && ws[i].fault.Intact?
    ensures RunNet(net, c, ws).result.Some?
  {
    hide Attempt, RunNet;
    FailsExactly(NetBefore(net, c, ws, i), c, ws[i]);
    var k := RetriesUntilAnswered(net, c, ws);
    assert !Fails(net, c, ws, i);
  }

  /** What each operation makes of any reply at all, also one that no honest broker sends. */
  lemma ReplyVerdicts(c: Command, frames: seq<string>)
    requires frames != []
    ensures c.Put? ==>
      ParseReply(c, frames) == Value(if frames[0] == "OK" then Stored else Unexpected(frames[0]), frames[1..])
    ensures c.Get? && frames[0] == "OK" && |frames| >= 2 ==>
      ParseReply(c, frames) == Value(Found(frames[1]), frames[2..])
    ensures c.List? && frames[0] == "OK" && |frames| >= 2 ==>
      ParseReply(c, frames) == Value(Keys(ParseListing(frames[1])), frames[2..])
    ensures (c.Get? || c.List?) && frames == ["OK"] ==> ParseReply(c, frames) == Short
    ensures (c.Get? || c.Stat?) && frames[0] == "MISSING" ==> ParseReply(c, frames) == Value(Absent, frames[1..])
    ensures c.Stat? && "OK " <= frames[0] ==>
      ParseReply(c, frames) == Value(Size(ParseDecimal(frames[0][3..])), frames[1..])
    ensures (c.Get? && frames[0] !in {"OK", "MISSING"}) || (c.List? && frames[0] != "OK")
            || (c.Stat? && frames[0] != "MISSING" && !("OK " <= frames[0])) ==>
      ParseReply(c, frames) == Value(Unexpected(frames[0]), frames[1..])
  {
    hide ParseListing;
    assert "MISSING"[0] != "OK "[0];
    assert |frames| >= 2 ==> frames[1..][1..] == frames[2..];
  }

  // ---- pairing ----

  /** Every value `_run` returns is the reply to the command just issued: its meaning in the store the
      broker had when it handled that command, in the same attempt. */
  lemma {:induction false} RepliesArePaired(net: Net, c: Command, ws: seq<Weather>) returns (at: Net)
    requires RunNet(net, c, ws).result.Some?
    ensures var end := RunNet(net, c, ws);
            && end.result == Some(Meaning(at.store, c))
            && end.net == at.(store := Effect(at.store, c))
    ensures EvolvedFrom(net, c, at)
    decreases |ws|
  {
    hide ArriveAll, Effect, Meaning, Reply, Request;
    var t := Attempt(net, c, ws[0]);
    var n := ArriveAll(net, ws[0].arrivals);
    ArrivalsEvolve(net, c, ws[0].arrivals);
    if t.result.Some? {
      at := n;
    } else {
      at := RepliesArePaired(t.net, c, ws[1..]);
      AttemptEvolves(net, c, ws[0]);
      EvolvedTransitive(net, c, t.net, at);
    }
  }

  /** What the content of a key can have become: what it was, or the payload of a PUT of that key that
      was still on its way or has just been issued, or, for a key that ends in `.tmp`, nothing, after such
      a PUT of the key without that ending; and nothing else is still on its way. */
  ghost predicate EvolvedFrom(net: Net, c: Command, later: Net) {
    && (forall key :: SameOrPut(net, c, later, key))
    && (forall i :: 0 <= i < |later.limbo| ==> later.limbo[i] in net.limbo || later.limbo[i] == c)
  }

  function Content(store: Store, key: string): Option<string> {
    if key in store then Some(store[key]) else None
  }

  ghost predicate SameOrPut(net: Net, c: Command, later: Net, key: string) {
    || Content(later.store, key) == Content(net.store, key)
    || (key in later.store && (Put(key, later.store[key]) in net.limbo || Put(key, later.store[key]) == c))
    || (key !in later.store && Displaced(net, c, key))
  }

  /** The key names the temporary file of one that was put. */
  ghost predicate Displaced(net: Net, c: Command, key: string) {
    EndsWith(key, ".tmp")
    && var stem := key[..|key| - 4];
       (c.Put? && c.key == stem) || exists i :: 0 <= i < |net.limbo| && net.limbo[i].Put? && net.limbo[i].key == stem
  }

  lemma EvolvedTransitive(a: Net, c: Command, b: Net, d: Net)
    requires EvolvedFrom(a, c, b) && EvolvedFrom(b, c, d)
    ensures EvolvedFrom(a, c, d)
  {
    forall key ensures SameOrPut(a, c, d, key) {
      assert SameOrPut(a, c, b, key) && SameOrPut(b, c, d, key);
    }
  }

  lemma ArriveEvolves(net: Net, c: Command, i: nat)
    ensures EvolvedFrom(net, c, Arrive(net, i))
  {
    var later := Arrive(net, i);
    forall key ensures SameOrPut(net, c, later, key) {
    }
  }

  lemma {:induction false} ArrivalsEvolve(net: Net, c: Command, arrivals: seq<nat>)
    ensures EvolvedFrom(net, c, ArriveAll(net, arrivals))
    decreases |arrivals|
  {
    if arrivals == [] {
      forall key ensures SameOrPut(net, c, net, key) {
      }
    } else {
      hide EvolvedFrom, Arrive;
      ArriveEvolves(net, c, arrivals[0]);
      ArrivalsEvolve(Arrive(net, arrivals[0]), c, arrivals[1..]);
      EvolvedTransitive(net, c, Arrive(net, arrivals[0]), ArriveAll(net, arrivals));
    }
  }

  lemma EffectEvolves(net: Net, c: Command)
    ensures EvolvedFrom(net, c, net.(store := Effect(net.store, c)))
    ensures EvolvedFrom(net, c, net.(limbo := net.limbo + [c]))
  {
    hide SafePath;
    forall key
      ensures SameOrPut(net, c, net.(store := Effect(net.store, c)), key)
      ensures SameOrPut(net, c, net.(limbo := net.limbo + [c]), key)
    {
    }
  }

  lemma AttemptEvolves(net: Net, c: Command, w: Weather)
    ensures EvolvedFrom(net, c, Attempt(net, c, w).net)
  {
    hide ArriveAll, EvolvedFrom, Effect, Meaning, Reply, Request;
    var n := ArriveAll(net, w.arrivals);
    ArrivalsEvolve(net, c, w.arrivals);
    EffectEvolves(n, c);
    EvolvedTransitive(net, c, n, n.(store := Effect(n.store, c)));
    EvolvedTransitive(net, c, n, n.(limbo := n.limbo + [c]));
  }

  // ---- what a late request can do ----

  /** A late request can undo a later operation, for every accepted key: a PUT retried after its connection
      broke returns, a second PUT of the key returns, and the abandoned request of the first then
      arrives and replaces what the second stored. */
  lemma LatePutOverwrites(store: Store, key: string, a: string, b: string)
    requires SafePath(key).Some? && a != b
    ensures var first := RunNet(Net(store, []), Put(key, a), [Weather([], Broken(2, 0, true)), Weather([], Intact)]);
            var second := RunNet(first.net, Put(key, b), [Weather([], Intact)]);
            && first.result == Some(Stored) && second.result == Some(Stored)
            && second.net.store[key] == b
            && ArriveAll(second.net, [0]).store[key] == a
  {
    hide SafePath;
    var w := Weather([], Intact);
    var ws := [Weather([], Broken(2, 0, true)), w];
    assert ws[1..] == [w];
    var t := Attempt(Net(store, []), Put(key, a), ws[0]);
    assert t == Tried(Net(store, [Put(key, a)]), None);
    var second := Net(AfterPut(AfterPut(store, key, a), key, b), [Put(key, a)]);
    assert ArriveAll(second, [0]) == ArriveAll(Arrive(second, 0), []);
  }
}
