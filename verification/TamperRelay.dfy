/** The hostile-network simulator: one direction of the proxy, over any fragmentation of its input. */
module TamperRelay {
  import opened Prelude

  type Octets = seq<bv8>

  datatype Mode = Flip | Truncate | Pass

  /** What leaves the proxy, as a function of what enters it. */
  function Relayed(tamper: bool, mode: Mode, at: int, input: Octets): Octets {
    if !tamper then input
    else
      match mode
      case Pass => input
      case Flip => if 0 <= at < |input| then input[at := input[at] ^ 0xFF] else input
      case Truncate => input[..Max(0, Min(at, |input|))]
  }

  /** One block on its way through: the byte to flip may lie in it. */
  function Touched(tamper: bool, mode: Mode, at: int, transferred: nat, data: Octets): Octets {
    if tamper && mode == Flip && transferred <= at < transferred + |data| then
      data[at - transferred := data[at - transferred] ^ 0xFF]
    else data
  }

  lemma NextBlock(tamper: bool, mode: Mode, at: int, before: Octets, data: Octets)
    requires tamper && mode == Truncate ==> |before| + |data| <= at
    ensures Relayed(tamper, mode, at, before + data)
         == Relayed(tamper, mode, at, before) + Touched(tamper, mode, at, |before|, data)
  {
  }

  lemma LastBlock(at: int, before: Octets, data: Octets, after: Octets)
    requires |before| == 0 || |before| <= at
    requires |before| + |data| > at
    ensures Relayed(true, Truncate, at, before) + data[..Max(0, at - |before|)]
         == Relayed(true, Truncate, at, before + data + after)
  {
  }

  /** The flip in place, in a copy of the block. */
  method FlipByte(data: Octets, idx: nat) returns (r: Octets)
    requires idx < |data|
    ensures r == data[idx := data[idx] ^ 0xFF]
  {
    var buf := new bv8[|data|](i requires 0 <= i < |data| => data[i]);
    assert buf[..] == data;
    buf[idx] := buf[idx] ^ 0xFF;
    r := buf[..];
  }

  /** The function, byte by byte: a flip complements the byte it names and leaves the others; a truncation
      leaves the bytes before its cutoff; and nothing else changes anything. */
  lemma RelayedByteByByte(tamper: bool, mode: Mode, at: int, input: Octets)
    ensures var output := Relayed(tamper, mode, at, input);
            && (!tamper || mode == Pass ==> output == input)
            && (tamper && mode == Flip ==>
                  && |output| == |input|
                  && forall i :: 0 <= i < |input| ==> output[i] == if i == at then !input[i] else input[i])
            && (tamper && mode == Truncate ==>
                  && output <= input
                  && |output| == if at <= 0 then 0 else if at <= |input| then at else |input|)
  {
    if 0 <= at < |input| {
      assert input[at] ^ 0xFF == !input[at];
    }
  }

  /** `_relay` with no socket errors. */
  method Relay(tamper: bool, mode: Mode, at: int, input: Octets) returns (output: Octets)
    ensures output == Relayed(tamper, mode, at, input)
    ensures !tamper || mode == Pass ==> output == input
    ensures tamper && mode == Flip ==>
              && |output| == |input|
              && forall i :: 0 <= i < |input| ==> output[i] == if i == at then !input[i] else input[i]
    ensures tamper && mode == Truncate ==>
              && output <= input
              && |output| == if at <= 0 then 0 else if at <= |input| then at else |input|
  {
    NothingRelayed(tamper, mode, at);
    RelayedByteByByte(tamper, mode, at, input);
    hide Relayed;
    output := [];
    var pending := input;
    var transferred := 0;
    ghost var before: Octets := [];
    while pending != []
      invariant input == before + pending && transferred == |before|
      invariant output == Relayed(tamper, mode, at, before)
      invariant tamper && mode == Truncate ==> transferred == 0 || transferred <= at
      decreases |pending|
    {
      var k :| 1 <= k <= |pending| && k <= 65536;
      var data := pending[..k];
      pending := pending[k..];
      assert input == before + data + pending;
      if tamper && mode == Truncate && transferred + |data| > at {
        var allow := Max(0, at - transferred);
        output := output + data[..allow];
        LastBlock(at, before, data, pending);
        return;
      }
      NextBlock(tamper, mode, at, before, data);
      before := before + data;
      if tamper && mode == Flip && transferred <= at < transferred + |data| {
        data := FlipByte(data, at - transferred);
      }
      output := output + data;
      transferred := transferred + |data|;
    }
    assert before == input;
  }

  lemma NothingRelayed(tamper: bool, mode: Mode, at: int)
    ensures Relayed(tamper, mode, at, []) == []
  {
  }
}
