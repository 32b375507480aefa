/** The broker's store over whole executions: every interleaving of the steps of its threads. */
module BlobAtomicity {
  import opened Prelude
  import opened Files
  import opened BlobNames
  import opened BlobStore

  /** No connection yet; the directory may hold any files, and temporary files left behind. */
  ghost predicate Quiet(s: State) {
    s.threads == map[] && DirSound(s.fs)
  }

  ghost predicate Execution(ss: seq<State>, steps: seq<Step>) {
    && |ss| == |steps| + 1
    && Quiet(ss[0])
    && forall k :: 0 <= k < |steps| ==> Admitted(ss[k], steps[k]) && Next(ss[k], steps[k]) == Some(ss[k + 1])
  }

  lemma {:induction false} ExecutionKeepsInv(ss: seq<State>, steps: seq<Step>, k: nat)
    requires Execution(ss, steps) && k <= |steps|
    ensures Inv(ss[k])
  {
    hide Inv, Next, Admitted;
    if k == 0 {
      QuietIsSound(ss[0]);
    } else {
      ExecutionKeepsInv(ss, steps, k - 1);
      assert Next(ss[k - 1], steps[k - 1]) == Some(ss[k - 1 + 1]);
      StepRefines(ss[k - 1], steps[k - 1]);
    }
  }

  lemma QuietIsSound(s: State)
    requires Quiet(s)
    ensures Inv(s)
  {
  }

  /** The store refines a plain map: a step either is the landing of one PUT, and updates the map by
      exactly that key and payload, or leaves the map as it is. */
  lemma StoreIsAMap(ss: seq<State>, steps: seq<Step>, k: nat)
    requires Execution(ss, steps) && k < |steps|
    ensures DirSound(ss[k].fs) && DirSound(ss[k + 1].fs)
    ensures if steps[k].Replace? then
              exists key, data :: Lands(ss[k], steps[k], key, data) && Abs(ss[k + 1].fs) == Abs(ss[k].fs)[key := data]
            else
              Abs(ss[k + 1].fs) == Abs(ss[k].fs)
  {
    ExecutionKeepsInv(ss, steps, k);
    ExecutionKeepsInv(ss, steps, k + 1);
    StepRefines(ss[k], steps[k]);
    if steps[k].Replace? {
      hide DirSound, Inv, Abs;
      var pc := PcOf(ss[k], steps[k].t);
      assert Lands(ss[k], steps[k], pc.key, pc.data);
    }
  }

  function Lookup(m: map<string, Bytes>, key: string): Option<Bytes> {
    if key in m then Some(m[key]) else None
  }

  /** Everything in the map was there at the start or is the complete payload of one landed PUT. */
  lemma {:induction false} ValuesAreWholePuts(ss: seq<State>, steps: seq<Step>, i: nat, key: string)
    requires Execution(ss, steps) && i <= |steps|
    requires DirSound(ss[0].fs) && DirSound(ss[i].fs)
    requires key in Abs(ss[i].fs)
    ensures Lookup(Abs(ss[0].fs), key) == Some(Abs(ss[i].fs)[key])
         || exists k :: 0 <= k < i && Lands(ss[k], steps[k], key, Abs(ss[i].fs)[key])
  {
    hide DirSound, Abs, Next, Admitted, Quiet;
    if i > 0 {
      StoreIsAMap(ss, steps, i - 1);
      if Lookup(Abs(ss[i - 1].fs), key) == Some(Abs(ss[i].fs)[key]) {
        ValuesAreWholePuts(ss, steps, i - 1, key);
      } else {
        assert Lands(ss[i - 1], steps[i - 1], key, Abs(ss[i].fs)[key]);
      }
    }
  }

  predicate InGet(pc: Pc, key: string) {
    (pc.GetReady? || pc.GetFound? || pc.Reading?) && pc.key == key
  }

  /** Thread `t` is inside one GET of `key` from state `i` to state `j`. */
  ghost predicate Inside(ss: seq<State>, t: nat, key: string, i: nat, j: nat) {
    j < |ss| && forall k :: i <= k <= j ==> InGet(PcOf(ss[k], t), key)
  }

  lemma ReadStep(s: State, step: Step, t: nat)
    requires Inv(s) && Admitted(s, step) && Next(s, step).Some?
    requires PcOf(Next(s, step).value, t).Reading?
    ensures var s' := Next(s, step).value;
            var Reading(key, node, got) := PcOf(s', t);
            && node in s'.fs.nodes
            && if PcOf(s, t).Reading? then
                 PcOf(s, t).key == key && PcOf(s, t).node == node
                 && node in s.fs.nodes && s'.fs.nodes[node] == s.fs.nodes[node]
               else
                 PcOf(s, t) == GetFound(key) && Lookup(Abs(s.fs), key) == Some(s'.fs.nodes[node])
  {
    StepRefines(s, step);
    var s' := Next(s, step).value;
    var Reading(key, node, got) := PcOf(s', t);
    assert ThreadSound(s'.fs, s'.threads[t]);
    if PcOf(s, t).Reading? {
      assert ThreadSound(s.fs, s.threads[t]);
      OpenFileIsStable(s, step, node);
    } else {
      assert ThreadSound(s.fs, s.threads[t]);
    }
  }

  /** A file that is being read is not written. */
  lemma OpenFileIsStable(s: State, step: Step, node: nat)
    requires Inv(s) && Admitted(s, step) && Next(s, step).Some?
    requires node in s.fs.nodes
    requires forall p :: p in s.fs.dir && s.fs.dir[p] == node ==> Ordinary(p)
    ensures Next(s, step).value.fs.nodes[node] == s.fs.nodes[node]
  {
    var t := step.t;
    if step.OpenTemp? || step.WriteSome? {
      var pc := PcOf(s, t);
      assert ThreadSound(s.fs, s.threads[t]);
      TempIsNotOrdinary(pc.key);
    }
  }

  /** A thread that is reading opened its file at some earlier moment of the same GET, when the map
      held exactly the bytes that the file still has. */
  lemma {:induction false} OpenedEarlier(ss: seq<State>, steps: seq<Step>, t: nat, j: nat) returns (i: nat)
    requires Execution(ss, steps) && j <= |steps|
    requires PcOf(ss[j], t).Reading?
    ensures i < j && DirSound(ss[i].fs)
    ensures PcOf(ss[j], t).node in ss[j].fs.nodes
    ensures Inside(ss, t, PcOf(ss[j], t).key, i, j)
    ensures Lookup(Abs(ss[i].fs), PcOf(ss[j], t).key) == Some(ss[j].fs.nodes[PcOf(ss[j], t).node])
  {
    hide DirSound, ThreadSound, Next, Admitted, Abs, Apart;
    ExecutionKeepsInv(ss, steps, j - 1);
    ReadStep(ss[j - 1], steps[j - 1], t);
    if PcOf(ss[j - 1], t).Reading? {
      i := OpenedEarlier(ss, steps, t, j - 1);
    } else {
      i := j - 1;
    }
  }

  /** Atomic GETs. In every execution, whatever a GET returns is what the plain map held for its key
      at one moment while the GET was in progress: the whole payload of one PUT to that key (or a blob
      that was there before), or MISSING when there was none. */
  lemma GetsAreAtomic(ss: seq<State>, steps: seq<Step>, j: nat, t: nat) returns (i: nat)
    requires Execution(ss, steps) && j < |steps|
    requires PcOf(ss[j + 1], t).GetDone? && !PcOf(ss[j], t).GetDone?
    ensures i <= j && DirSound(ss[i].fs) && DirSound(ss[0].fs)
    ensures var GetDone(key, result) := PcOf(ss[j + 1], t);
            && Inside(ss, t, key, i, j)
            && result == Lookup(Abs(ss[i].fs), key)
            && (result.Some? ==>
                  Lookup(Abs(ss[0].fs), key) == result
                  || exists k :: 0 <= k < i && Lands(ss[k], steps[k], key, result.value))
  {
    hide ThreadSound, Apart;
    var GetDone(key, result) := PcOf(ss[j + 1], t);
    ExecutionKeepsInv(ss, steps, j);
    ExecutionKeepsInv(ss, steps, 0);
    i := GetMoment(ss, steps, j, t);
    ExecutionKeepsInv(ss, steps, i);
    if result.Some? {
      hide Next, Admitted, DirSound, Abs;
      ValuesAreWholePuts(ss, steps, i, key);
    }
  }

  lemma GetMoment(ss: seq<State>, steps: seq<Step>, j: nat, t: nat) returns (i: nat)
    requires Execution(ss, steps) && j < |steps|
    requires PcOf(ss[j + 1], t).GetDone? && !PcOf(ss[j], t).GetDone?
    ensures i <= j && DirSound(ss[i].fs)
    ensures var GetDone(key, result) := PcOf(ss[j + 1], t);
            Inside(ss, t, key, i, j) && result == Lookup(Abs(ss[i].fs), key)
  {
    ExecutionKeepsInv(ss, steps, j);
    var key := PcOf(ss[j + 1], t).key;
    LastStepOfGet(ss[j], steps[j], t);
    if PcOf(ss[j], t).Reading? {
      i := OpenedEarlier(ss, steps, t, j);
    } else {
      i := j;
    }
  }

  lemma LastStepOfGet(s: State, step: Step, t: nat)
    requires Inv(s) && Admitted(s, step) && Next(s, step).Some?
    requires PcOf(Next(s, step).value, t).GetDone? && !PcOf(s, t).GetDone?
    ensures var GetDone(key, result) := PcOf(Next(s, step).value, t);
            && InGet(PcOf(s, t), key)
            && (if PcOf(s, t).Reading? then
                  var node := PcOf(s, t).node;
                  node in s.fs.nodes && result == Some(s.fs.nodes[node])
                else
                  result == None && Lookup(Abs(s.fs), key) == None)
  {
    assert step.t == t;
    assert ThreadSound(s.fs, s.threads[t]);
    if step.EndGet? {
      var Reading(key, node, got) := PcOf(s, t);
      assert got == s.fs.nodes[node];
    }
  }

  // ---- why the hypotheses are needed ----

  /** Running a list of steps from a state. */
  function Exec(s: State, steps: seq<Step>): Option<State>
    decreases |steps|
  {
    if steps == [] then Some(s)
    else match Next(s, steps[0]) case None => None case Some(s1) => Exec(s1, steps[1..])
  }

  lemma ExecCons(s: State, step: Step, s1: State, rest: seq<Step>)
    requires Next(s, step) == Some(s1)
    ensures Exec(s, [step] + rest) == Exec(s1, rest)
  {
    assert ([step] + rest)[1..] == rest;
  }

  /** A GET of thread `t` from a quiet file, in four steps. */
  lemma ReadThrough(s: State, t: nat, key: string)
    requires PcOf(s, t).Idle? && key in s.fs.dir && s.fs.dir[key] in s.fs.nodes && s.fs.nodes[s.fs.dir[key]] == []
    ensures Exec(s, [BeginGet(t, key), Probe(t), OpenBlob(t), EndGet(t)])
      == Some(WithThread(s, t, GetDone(key, Some([]))))
  {
    var s1 := WithThread(s, t, GetReady(key));
    var s2 := WithThread(s, t, GetFound(key));
    var s3 := WithThread(s, t, Reading(key, s.fs.dir[key], []));
    var s4 := WithThread(s, t, GetDone(key, Some([])));
    assert s1.threads[t := GetFound(key)] == s2.threads;
    assert s2.threads[t := Reading(key, s.fs.dir[key], [])] == s3.threads;
    assert s3.threads[t := GetDone(key, Some([]))] == s4.threads;
    assert Next(s, BeginGet(t, key)) == Some(s1);
    assert Next(s1, Probe(t)) == Some(s2);
    assert Next(s2, OpenBlob(t)) == Some(s3);
    assert Next(s3, EndGet(t)) == Some(s4);
    hide Next;
    ExecCons(s3, EndGet(t), s4, []);
    ExecCons(s2, OpenBlob(t), s3, [EndGet(t)]);
    ExecCons(s1, Probe(t), s2, [OpenBlob(t), EndGet(t)]);
    ExecCons(s, BeginGet(t, key), s1, [Probe(t), OpenBlob(t), EndGet(t)]);
    assert [BeginGet(t, key), Probe(t), OpenBlob(t), EndGet(t)]
      == [BeginGet(t, key)] + ([Probe(t)] + ([OpenBlob(t)] + ([EndGet(t)] + [])));
  }

  lemma {:induction false} ExecJoin(s: State, first: seq<Step>, second: seq<Step>)
    requires Exec(s, first).Some?
    ensures Exec(s, first + second) == Exec(Exec(s, first).value, second)
    decreases |first|
  {
    hide Next;
    if first == [] {
      assert first + second == second;
    } else {
      assert (first + second)[1..] == first[1..] + second;
      ExecJoin(Next(s, first[0]).value, first[1..], second);
    }
  }

  const EMPTY := State(Fs(map[], map[], 0), map[])

  function OverlapSteps(key: string, a: Bytes, b: Bytes): seq<Step> {
    [BeginPut(2, key, b), BeginPut(1, key, a), OpenTemp(1), WriteSome(1, |a|), OpenTemp(2), Replace(1)]
  }

  lemma OverlapStates(key: string, a: Bytes, b: Bytes)
    returns (s1: State, s2: State, s3: State, s4: State, s5: State, s6: State)
    requires Ordinary(key) && a != []
    ensures Next(EMPTY, BeginPut(2, key, b)) == Some(s1) && Next(s1, BeginPut(1, key, a)) == Some(s2)
    ensures Next(s2, OpenTemp(1)) == Some(s3) && Next(s3, WriteSome(1, |a|)) == Some(s4)
    ensures Next(s4, OpenTemp(2)) == Some(s5) && Next(s5, Replace(1)) == Some(s6)
    ensures s6 == State(Fs(map[key := 0], map[0 := []], 1), map[1 := Idle, 2 := Writing(key, b, 0, 0)])
  {
    hide WriteAt;
    TempIsNotOrdinary(key);
    var tmp := TempPath(key);
    s1 := Next(EMPTY, BeginPut(2, key, b)).value;
    s2 := Next(s1, BeginPut(1, key, a)).value;
    s3 := Next(s2, OpenTemp(1)).value;
    assert s3.fs == Fs(map[tmp := 0], map[0 := []], 1);
    s4 := Next(s3, WriteSome(1, |a|)).value;
    s5 := Next(s4, OpenTemp(2)).value;
    assert s5.fs == Fs(map[tmp := 0], map[0 := []], 1);
    s6 := Next(s5, Replace(1)).value;
    assert s6.fs == Fs(map[key := 0], map[0 := []], 1);
    assert s6.threads == map[1 := Idle, 2 := Writing(key, b, 0, 0)];
  }

  lemma OverlapPublishesNothing(key: string, a: Bytes, b: Bytes)
    requires Ordinary(key) && a != []
    ensures Exec(EMPTY, OverlapSteps(key, a, b)) == Some(State(
              Fs(map[key := 0], map[0 := []], 1),
              map[1 := Idle, 2 := Writing(key, b, 0, 0)]))
  {
    hide Next, Exec;
    var s1, s2, s3, s4, s5, s6 := OverlapStates(key, a, b);
    ExecNothing(s6);
    ExecCons(s5, Replace(1), s6, []);
    ExecCons(s4, OpenTemp(2), s5, [Replace(1)]);
    ExecCons(s3, WriteSome(1, |a|), s4, [OpenTemp(2), Replace(1)]);
    ExecCons(s2, OpenTemp(1), s3, [WriteSome(1, |a|), OpenTemp(2), Replace(1)]);
    ExecCons(s1, BeginPut(1, key, a), s2, [OpenTemp(1), WriteSome(1, |a|), OpenTemp(2), Replace(1)]);
    ExecCons(EMPTY, BeginPut(2, key, b), s1,
             [BeginPut(1, key, a), OpenTemp(1), WriteSome(1, |a|), OpenTemp(2), Replace(1)]);
    assert [Replace(1)] + [] == [Replace(1)];
    assert [OpenTemp(2)] + [Replace(1)] == [OpenTemp(2), Replace(1)];
    assert [WriteSome(1, |a|)] + [OpenTemp(2), Replace(1)] == [WriteSome(1, |a|), OpenTemp(2), Replace(1)];
    assert [OpenTemp(1)] + [WriteSome(1, |a|), OpenTemp(2), Replace(1)]
      == [OpenTemp(1), WriteSome(1, |a|), OpenTemp(2), Replace(1)];
    assert [BeginPut(1, key, a)] + [OpenTemp(1), WriteSome(1, |a|), OpenTemp(2), Replace(1)]
      == [BeginPut(1, key, a), OpenTemp(1), WriteSome(1, |a|), OpenTemp(2), Replace(1)];
    assert [BeginPut(2, key, b)] + [BeginPut(1, key, a), OpenTemp(1), WriteSome(1, |a|), OpenTemp(2), Replace(1)]
      == OverlapSteps(key, a, b);
  }

  lemma ExecNothing(s: State)
    ensures Exec(s, []) == Some(s)
  {
  }

  /** Two PUTs of one key in flight at once: for every ordinary key and any two payloads, there is an
      execution in which a GET that follows a completed PUT returns the payload of neither. */
  lemma OverlappingPutsTearGets(key: string, a: Bytes, b: Bytes)
    requires Ordinary(key) && a != [] && b != []
    ensures exists steps, s :: Exec(EMPTY, OverlapSteps(key, a, b) + steps) == Some(s)
              && PcOf(s, 1) == Idle && PcOf(s, 3) == GetDone(key, Some([]))
  {
    OverlapPublishesNothing(key, a, b);
    var s := Exec(EMPTY, OverlapSteps(key, a, b)).value;
    var get := [BeginGet(3, key), Probe(3), OpenBlob(3), EndGet(3)];
    ReadThrough(s, 3, key);
    hide Next, OverlapSteps;
    ExecJoin(EMPTY, OverlapSteps(key, a, b), get);
    var end := WithThread(s, 3, GetDone(key, Some([])));
    assert PcOf(end, 1) == Idle;
    assert Exec(EMPTY, OverlapSteps(key, a, b) + get) == Some(end);
  }

  /** A key that ends in `.tmp`: a GET of it sees the unfinished file of a PUT to the key without the
      suffix, here empty whatever is being put. */
  lemma TemporaryKeyTearsGets(key: string, a: Bytes)
    requires a != []
    ensures exists steps, s :: Exec(EMPTY, [BeginPut(1, key, a), OpenTemp(1)] + steps) == Some(s)
              && PcOf(s, 2) == GetDone(TempPath(key), Some([]))
  {
    var tmp := TempPath(key);
    var s1 := Next(EMPTY, BeginPut(1, key, a)).value;
    var s2 := Next(s1, OpenTemp(1)).value;
    assert s2.fs == Fs(map[tmp := 0], map[0 := []], 1);
    var get := [BeginGet(2, tmp), Probe(2), OpenBlob(2), EndGet(2)];
    ReadThrough(s2, 2, tmp);
    hide Next;
    ExecCons(s1, OpenTemp(1), s2, []);
    ExecCons(EMPTY, BeginPut(1, key, a), s1, [OpenTemp(1)]);
    assert [BeginPut(1, key, a), OpenTemp(1)] == [BeginPut(1, key, a)] + ([OpenTemp(1)] + []);
    ExecJoin(EMPTY, [BeginPut(1, key, a), OpenTemp(1)], get);
    var end := WithThread(s2, 2, GetDone(tmp, Some([])));
    assert Exec(EMPTY, [BeginPut(1, key, a), OpenTemp(1)] + get) == Some(end);
  }
}
