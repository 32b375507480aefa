/** When what a key holds can still change without any new PUT of it: the exact condition on the threads
    that are putting the key, for any payloads and any overlap. */
module LostContent {
  import opened Prelude
  import opened Files
  import opened BlobNames
  import opened BlobStore
  import opened BlobAtomicity
  import opened ChunkArithmetic
  import opened RetriedPuts

  /** Steps that begin no PUT of the key. */
  ghost predicate Continues(steps: seq<Step>, key: string) {
    forall k :: 0 <= k < |steps| ==> Ordered(steps[k]) && !(steps[k].BeginPut? && steps[k].key == key)
  }

  /** What a file becomes when a thread writes to it all it has left to write. */
  function Finished(x: Bytes, data: Bytes, written: nat): Bytes
    requires written <= |data|
  {
    WriteAt(x, written, data[written..])
  }

  /** What the temporary file of a key becomes by the work of one thread alone. */
  function TempFinished(fs: Fs, pc: Pc): Bytes
    requires pc.Writing? && pc.written <= |pc.data|
    requires TempPath(pc.key) in fs.dir && fs.dir[TempPath(pc.key)] in fs.nodes
  {
    var x := fs.nodes[fs.dir[TempPath(pc.key)]];
    if pc.node == fs.dir[TempPath(pc.key)] then Finished(x, pc.data, pc.written) else x
  }

  /** Finishing its work, a thread would neither change the file that holds `b` nor rename another
      content over it. */
  ghost predicate Harmless(fs: Fs, key: string, b: Bytes, pc: Pc)
    requires DirSound(fs)
  {
    && (pc.PutReady? && pc.key == key ==> pc.data == b)
    && (Writes(pc, key) ==>
          && pc.written <= |pc.data|
          && (key in fs.dir && pc.node == fs.dir[key] ==> Finished(b, pc.data, pc.written) == b)
          && (TempPath(key) in fs.dir ==> TempFinished(fs, pc) == b))
  }

  /** One of two threads has yet to truncate the temporary file that the other may rename. */
  predicate Collide(a: Pc, b: Pc, key: string) {
    Putting(a, key) && b.PutReady? && b.key == key
  }

  /** Every thread that is putting the key is harmless, and, unless the content is empty, none has yet to
      open the temporary file while another is there to rename it. */
  ghost predicate Safe(s: State, key: string, b: Bytes)
    requires DirSound(s.fs)
  {
    && (forall t :: t in s.threads ==> Harmless(s.fs, key, b, s.threads[t]))
    && (b != [] ==> forall t, u :: t in s.threads && u in s.threads && t != u ==>
          !Collide(s.threads[t], s.threads[u], key))
  }

  // ---- bytes ----

  lemma FinishedInTwo(x: Bytes, d: Bytes, w: nat, n: nat)
    requires n > 0 && w + n <= |d|
    ensures Finished(WriteAt(x, w, d[w..w + n]), d, w + n) == Finished(x, d, w)
  {
    hide WriteAt;
    var y := WriteAt(x, w, d[w..w + n]);
    WriteAtIndexed(x, w, d[w..w + n]);
    WriteAtIndexed(x, w, d[w..]);
    if w + n < |d| {
      WriteAtIndexed(y, w + n, d[w + n..]);
    } else {
      assert d[w + n..] == [];
      NothingWritten(y, w + n);
    }
    var whole, inTwo := Finished(x, d, w), Finished(y, d, w + n);
    assert |inTwo| == |whole|;
    forall q | 0 <= q < |whole| ensures inTwo[q] == whole[q] {
      if w <= q < w + n {
        assert inTwo[q] == y[q] == d[q];
      } else if !(w <= q < |d|) {
        assert q < |y| ==> inTwo[q] == y[q];
      }
    }
  }

  lemma NothingWritten(x: Bytes, w: nat)
    ensures WriteAt(x, w, []) == x
  {
  }

  /** If writing all the rest changes nothing, writing part of it does not. */
  lemma PartChangesNothing(b: Bytes, d: Bytes, w: nat, n: nat)
    requires n > 0 && w + n <= |d|
    requires Finished(b, d, w) == b
    ensures WriteAt(b, w, d[w..w + n]) == b
  {
    hide WriteAt;
    WriteAtIndexed(b, w, d[w..]);
    WriteAtIndexed(b, w, d[w..w + n]);
    var y := WriteAt(b, w, d[w..w + n]);
    forall q | w <= q < w + n ensures y[q] == b[q] {
      assert y[q] == d[w..w + n][q - w] == d[w..][q - w];
    }
  }

  /** Two threads that would each make the same content of a file do so whatever one of them has already
      written. */
  lemma TwoWriters(x: Bytes, b: Bytes, d: Bytes, w: nat, e: Bytes, v: nat, n: nat)
    requires n > 0 && v + n <= |e| && w <= |d|
    requires Finished(x, d, w) == b && Finished(x, e, v) == b
    ensures Finished(WriteAt(x, v, e[v..v + n]), d, w) == b
  {
    hide WriteAt;
    var y := WriteAt(x, v, e[v..v + n]);
    WriteAtIndexed(x, v, e[v..v + n]);
    WriteAtIndexed(x, v, e[v..]);
    assert forall q :: v <= q < v + n ==> y[q] == e[q] && b[q] == e[q];
    assert forall q :: |x| <= q < v ==> b[q] == 0;
    if w < |d| {
      WriteAtIndexed(x, w, d[w..]);
      WriteAtIndexed(y, w, d[w..]);
      var z := Finished(y, d, w);
      assert forall q :: w <= q < |d| ==> z[q] == d[q] && b[q] == d[q];
      assert |z| == |b|;
      forall q | 0 <= q < |b| ensures z[q] == b[q] {
        if !(w <= q < |d|) {
          assert q < |y| ==> z[q] == y[q];
        }
      }
    } else {
      assert d[w..] == [];
      NothingWritten(x, w);
      NothingWritten(y, w);
      PartChangesNothing(b, e, v, n);
    }
  }

  // ---- a safe state stays safe ----

  lemma SafeIf(s: State, t: nat, s': State, key: string, b: Bytes)
    requires DirSound(s.fs) && DirSound(s'.fs) && Safe(s, key, b) && Moves(s, t, s')
    requires Harmless(s'.fs, key, b, s'.threads[t])
    requires forall u :: u in s.threads && u != t ==> Harmless(s'.fs, key, b, s.threads[u])
    requires Putting(s'.threads[t], key) ==> t in s.threads && Putting(s.threads[t], key)
    requires s'.threads[t].PutReady? && s'.threads[t].key == key ==> t in s.threads && s.threads[t] == s'.threads[t]
    ensures Safe(s', key, b)
  {
    hide Harmless, DirSound;
    if b != [] {
      forall u, v | u in s'.threads && v in s'.threads && u != v ensures !Collide(s'.threads[u], s'.threads[v], key) {
        assert Collide(s'.threads[u], s'.threads[v], key) ==>
          u in s.threads && v in s.threads && Collide(s.threads[u], s.threads[v], key);
      }
    }
  }

  /** A thread that is neither at `node` nor has its temporary file there is not concerned by `node`. */
  lemma HarmlessElsewhere(fs: Fs, fs': Fs, key: string, b: Bytes, pc: Pc)
    requires DirSound(fs) && DirSound(fs') && Harmless(fs, key, b, pc)
    requires forall p :: p == key || p == TempPath(key) ==>
      (p in fs'.dir ==> p in fs.dir && fs'.dir[p] == fs.dir[p] && fs'.nodes[fs.dir[p]] == fs.nodes[fs.dir[p]])
    ensures Harmless(fs', key, b, pc)
  {
  }

  lemma SafeOpen(s: State, t: nat, key: string, b: Bytes)
    requires Sound(s) && Ordinary(key) && Content(s.fs, key) == Some(b) && Safe(s, key, b)
    requires Next(s, OpenTemp(t)).Some?
    ensures var s' := Next(s, OpenTemp(t)).value;
            DirSound(s'.fs) && Content(s'.fs, key) == Some(b) && Safe(s', key, b)
  {
    hide WriteAt, Finished;
    var s' := Next(s, OpenTemp(t)).value;
    OnlyOneMoves(s, OpenTemp(t));
    OpenTempSound(s, t);
    var pc := PcOf(s, t);
    assert WriterSound(s.fs, s.threads[t]) && Harmless(s.fs, key, b, pc);
    PathsSeparate(key, pc.key);
    PathsSeparate(pc.key, key);
    if pc.key == key {
      OpenHarmless(s, t, key, b);
    } else {
      forall u | u in s.threads && u != t ensures Harmless(s'.fs, key, b, s.threads[u]) {
        assert Harmless(s.fs, key, b, s.threads[u]);
        HarmlessElsewhere(s.fs, s'.fs, key, b, s.threads[u]);
      }
    }
    SafeIf(s, t, s', key, b);
  }

  lemma FinishedFromNothing(d: Bytes)
    ensures Finished([], d, 0) == d
  {
    assert d[0..] == d;
  }

  lemma FinishedEmpty(x: Bytes, d: Bytes, w: nat)
    requires w <= |d| && Finished(x, d, w) == []
    ensures x == [] && w == |d|
  {
  }

  /** The PUT that opens the temporary file is harmless itself; others are there only if `b` is empty. */
  lemma OpenHarmless(s: State, t: nat, key: string, b: Bytes)
    requires Sound(s) && Ordinary(key) && Content(s.fs, key) == Some(b) && Safe(s, key, b)
    requires Next(s, OpenTemp(t)).Some? && PcOf(s, t).key == key
    ensures var s' := Next(s, OpenTemp(t)).value;
            && DirSound(s'.fs)
            && Harmless(s'.fs, key, b, s'.threads[t])
            && forall u :: u in s.threads && u != t ==> Harmless(s'.fs, key, b, s.threads[u])
  {
    hide WriteAt, Finished;
    var s' := Next(s, OpenTemp(t)).value;
    OpenTempSound(s, t);
    PathsSeparate(key, key);
    assert Harmless(s.fs, key, b, s.threads[t]);
    FinishedFromNothing(b);
    forall u | u in s.threads && u != t ensures Harmless(s'.fs, key, b, s.threads[u]) {
      var pc := s.threads[u];
      assert Harmless(s.fs, key, b, pc) && WriterSound(s.fs, pc);
      if Writes(pc, key) {
        assert b == [] by {
          assert Collide(pc, s.threads[t], key);
        }
        if TempPath(key) in s.fs.dir && pc.node == s.fs.dir[TempPath(key)] {
          FinishedEmpty(s.fs.nodes[pc.node], pc.data, pc.written);
          FinishedAtEnd(pc.data);
        }
      }
    }
  }

  lemma FinishedAtEnd(d: Bytes)
    ensures Finished([], d, |d|) == []
  {
  }

  lemma SafeWrite(s: State, t: nat, n: nat, key: string, b: Bytes)
    requires Sound(s) && Ordinary(key) && Content(s.fs, key) == Some(b) && Safe(s, key, b)
    requires Next(s, WriteSome(t, n)).Some?
    ensures var s' := Next(s, WriteSome(t, n)).value;
            DirSound(s'.fs) && Content(s'.fs, key) == Some(b) && Safe(s', key, b)
  {
    hide WriteAt, Finished;
    var s' := Next(s, WriteSome(t, n)).value;
    OnlyOneMoves(s, WriteSome(t, n));
    WriteSound(s, t, n);
    var pc := PcOf(s, t);
    assert WriterSound(s.fs, s.threads[t]) && Harmless(s.fs, key, b, pc);
    PathsSeparate(key, pc.key);
    PathsSeparate(pc.key, key);
    if pc.key == key {
      FinishedInTwo(s.fs.nodes[pc.node], pc.data, pc.written, n);
      FinishedInTwo(b, pc.data, pc.written, n);
      if pc.node == s.fs.dir[key] {
        PartChangesNothing(b, pc.data, pc.written, n);
      }
    }
    forall u | u in s.threads && u != t ensures Harmless(s'.fs, key, b, s.threads[u]) {
      assert Harmless(s.fs, key, b, s.threads[u]);
      if pc.key == key && Writes(s.threads[u], key) {
        WriteHarmless(s, t, n, key, b, u);
      } else {
        HarmlessUnlessWriting(s.fs, s'.fs, key, b, s.threads[u], pc.node);
      }
    }
    SafeIf(s, t, s', key, b);
  }

  lemma HarmlessUnlessWriting(fs: Fs, fs': Fs, key: string, b: Bytes, pc: Pc, node: nat)
    requires DirSound(fs) && DirSound(fs') && Harmless(fs, key, b, pc) && fs'.dir == fs.dir
    requires forall m :: m in fs.nodes && m != node ==> m in fs'.nodes && fs'.nodes[m] == fs.nodes[m]
    requires Writes(pc, key) ==>
      (key in fs.dir ==> fs.dir[key] != node) && (TempPath(key) in fs.dir ==> fs.dir[TempPath(key)] != node)
    ensures Harmless(fs', key, b, pc)
  {
    hide Finished;
  }

  /** Another thread of the key stays harmless: the bytes written are the ones it would have to find. */
  lemma WriteHarmless(s: State, t: nat, n: nat, key: string, b: Bytes, u: nat)
    requires Sound(s) && Ordinary(key) && Safe(s, key, b) && Content(s.fs, key) == Some(b)
    requires Next(s, WriteSome(t, n)).Some? && PcOf(s, t).key == key
    requires u in s.threads && u != t && Writes(s.threads[u], key)
    requires DirSound(Next(s, WriteSome(t, n)).value.fs)
    ensures Harmless(Next(s, WriteSome(t, n)).value.fs, key, b, s.threads[u])
  {
    hide WriteAt, Finished;
    var pc, other := s.threads[t], s.threads[u];
    assert Harmless(s.fs, key, b, pc) && Harmless(s.fs, key, b, other);
    PathsSeparate(key, key);
    if TempPath(key) in s.fs.dir && pc.node == s.fs.dir[TempPath(key)] {
      var x := s.fs.nodes[pc.node];
      if other.node == pc.node {
        TwoWriters(x, b, other.data, other.written, pc.data, pc.written, n);
      } else {
        PartChangesNothing(b, pc.data, pc.written, n);
      }
    }
  }

  lemma SafeReplace(s: State, t: nat, key: string, b: Bytes)
    requires Sound(s) && Ordinary(key) && Content(s.fs, key) == Some(b) && Safe(s, key, b)
    requires Next(s, Replace(t)).Some?
    ensures var s' := Next(s, Replace(t)).value;
            DirSound(s'.fs) && Content(s'.fs, key) == Some(b) && Safe(s', key, b)
  {
    hide WriteAt, Finished;
    var s' := Next(s, Replace(t)).value;
    OnlyOneMoves(s, Replace(t));
    ReplaceSound(s, t);
    var pc := PcOf(s, t);
    assert WriterSound(s.fs, s.threads[t]) && Harmless(s.fs, key, b, pc);
    PathsSeparate(key, pc.key);
    PathsSeparate(pc.key, key);
    PathsSeparate(key, key);
    if pc.key == key && TempPath(key) in s.fs.dir {
      NothingFinished(s.fs.nodes[s.fs.dir[TempPath(key)]], pc.data);
    }
    forall u | u in s.threads && u != t ensures Harmless(s'.fs, key, b, s.threads[u]) {
      assert Harmless(s.fs, key, b, s.threads[u]);
      if pc.key != key {
        HarmlessElsewhere(s.fs, s'.fs, key, b, s.threads[u]);
      }
    }
    SafeIf(s, t, s', key, b);
  }

  lemma NothingFinished(x: Bytes, d: Bytes)
    ensures Finished(x, d, |d|) == x
  {
  }

  lemma SafeStep(s: State, step: Step, key: string, b: Bytes)
    requires Sound(s) && Ordinary(key) && Content(s.fs, key) == Some(b) && Safe(s, key, b)
    requires Ordered(step) && !(step.BeginPut? && step.key == key) && Next(s, step).Some?
    ensures var s' := Next(s, step).value;
            Sound(s') && Content(s'.fs, key) == Some(b) && Safe(s', key, b)
  {
    hide Harmless, Finished;
    StepSound(s, step);
    match step
    case OpenTemp(t) => SafeOpen(s, t, key, b);
    case WriteSome(t, n) => SafeWrite(s, t, n, key, b);
    case Replace(t) => SafeReplace(s, t, key, b);
    case _ =>
      var s' := Next(s, step).value;
      OnlyOneMoves(s, step);
      OtherHarmless(s, step, key, b);
      SafeIf(s, step.t, s', key, b);
  }

  lemma OtherHarmless(s: State, step: Step, key: string, b: Bytes)
    requires DirSound(s.fs) && Safe(s, key, b) && Next(s, step).Some?
    requires !step.OpenTemp? && !step.WriteSome? && !step.Replace? && !(step.BeginPut? && step.key == key)
    ensures var s' := Next(s, step).value;
            && s'.fs == s.fs && Harmless(s.fs, key, b, PcOf(s', step.t))
            && !Putting(PcOf(s', step.t), key)
  {
  }

  lemma {:induction false} SafeForever(s: State, steps: seq<Step>, key: string, b: Bytes)
    requires Sound(s) && Ordinary(key) && Content(s.fs, key) == Some(b) && Safe(s, key, b)
    requires Continues(steps, key) && Exec(s, steps).Some?
    ensures Content(Exec(s, steps).value.fs, key) == Some(b)
    decreases |steps|
  {
    hide Sound, Next, Safe, Content, Ordered;
    if steps != [] {
      assert Continues(steps[1..], key);
      SafeStep(s, steps[0], key, b);
      SafeForever(Next(s, steps[0]).value, steps[1..], key, b);
    }
  }

  // ---- an unsafe state ----

  /** Some way on changes what the key holds. */
  ghost predicate CanChange(s: State, key: string, b: Bytes) {
    exists steps, s' :: Continues(steps, key) && Exec(s, steps) == Some(s') && Content(s'.fs, key) != Some(b)
  }

  /** What a state is after thread `t` has written all it has left. */
  function WrittenOut(s: State, t: nat): State
    requires PcOf(s, t).Writing? && PcOf(s, t).node in s.fs.nodes && PcOf(s, t).written <= |PcOf(s, t).data|
  {
    var Writing(key, data, node, written) := PcOf(s, t);
    State(s.fs.(nodes := s.fs.nodes[node := Finished(s.fs.nodes[node], data, written)]),
          s.threads[t := Writing(key, data, node, |data|)])
  }

  lemma WriteOut(s: State, t: nat) returns (steps: seq<Step>)
    requires PcOf(s, t).Writing? && PcOf(s, t).node in s.fs.nodes && PcOf(s, t).written <= |PcOf(s, t).data|
    ensures Exec(s, steps) == Some(WrittenOut(s, t))
    ensures forall k :: 0 <= k < |steps| ==> steps[k].WriteSome?
  {
    hide WriteAt;
    var Writing(key, data, node, written) := PcOf(s, t);
    if written < |data| {
      steps := [WriteSome(t, |data| - written)];
      assert data[written..written + (|data| - written)] == data[written..];
      assert Next(s, WriteSome(t, |data| - written)) == Some(WrittenOut(s, t));
      ExecOne(s, WriteSome(t, |data| - written));
    } else {
      steps := [];
      NothingWritten(s.fs.nodes[node], written);
      assert data[written..] == [];
      assert WrittenOut(s, t).fs.nodes == s.fs.nodes && WrittenOut(s, t).threads == s.threads;
    }
  }

  lemma ExecOne(s: State, step: Step)
    requires Next(s, step).Some?
    ensures Exec(s, [step]) == Next(s, step)
  {
    hide Next;
    ExecCons(s, step, Next(s, step).value, []);
    assert [step] + [] == [step];
  }

  lemma Changes(s: State, key: string, b: Bytes, steps: seq<Step>)
    requires Continues(steps, key) && Exec(s, steps).Some?
    requires Content(Exec(s, steps).value.fs, key) != Some(b)
    ensures CanChange(s, key, b)
  {
  }

  lemma WrittenOutIsSound(s: State, t: nat)
    requires Sound(s) && PcOf(s, t).Writing? && PcOf(s, t).node in s.fs.nodes && PcOf(s, t).written <= |PcOf(s, t).data|
    ensures Sound(WrittenOut(s, t))
    ensures forall u :: u in s.threads && u != t ==> WrittenOut(s, t).threads[u] == s.threads[u]
  {
    hide Finished;
    var s' := WrittenOut(s, t);
    forall u | u in s.threads && u != t
      ensures WriterSound(s'.fs, s.threads[u]) && SameKey(s'.threads[t], s.threads[u]) {
      assert WriterSound(s.fs, s.threads[u]) && SameKey(s.threads[t], s.threads[u]);
    }
    SoundIf(s, t, s');
  }

  /** A thread at work on a file: it finishes, and then renames the temporary file. */
  lemma WriterChanges(s: State, t: nat, key: string, b: Bytes)
    requires Sound(s) && Ordinary(key) && Content(s.fs, key) == Some(b)
    requires t in s.threads && Writes(s.threads[t], key) && !Harmless(s.fs, key, b, s.threads[t])
    ensures CanChange(s, key, b)
  {
    hide Finished, Next, Exec;
    var pc := s.threads[t];
    assert WriterSound(s.fs, pc);
    PathsSeparate(key, key);
    var steps := WriteOut(s, t);
    var s1 := WrittenOut(s, t);
    if Content(s1.fs, key) != Some(b) {
      Changes(s, key, b, steps);
    } else {
      RenameChanges(s1, t, key);
      ExecOne(s1, Replace(t));
      ExecJoin(s, steps, [Replace(t)]);
      Changes(s, key, b, steps + [Replace(t)]);
    }
  }

  /** The rename by a thread that has nothing left to write. */
  lemma RenameChanges(s: State, t: nat, key: string)
    requires Ordinary(key) && DirSound(s.fs) && t in s.threads && Writes(s.threads[t], key)
    requires s.threads[t].written == |s.threads[t].data|
    ensures Next(s, Replace(t)).Some?
    ensures TempPath(key) in s.fs.dir ==>
      Content(Next(s, Replace(t)).value.fs, key) == Content(s.fs, TempPath(key))
  {
  }

  /** The state after a thread has opened the temporary file. */
  lemma Opened(s: State, t: nat, key: string) returns (s1: State)
    requires Sound(s) && Ordinary(key) && t in s.threads && s.threads[t].PutReady? && s.threads[t].key == key
    ensures Exec(s, [OpenTemp(t)]) == Some(s1) && Sound(s1)
    ensures Content(s1.fs, key) == Content(s.fs, key) && TempPath(key) in s1.fs.dir
    ensures t in s1.threads && s1.threads[t] == Writing(key, s.threads[t].data, s1.fs.dir[TempPath(key)], 0)
    ensures Content(s1.fs, TempPath(key)) == Some([])
    ensures forall u :: u in s.threads && u != t ==> u in s1.threads && s1.threads[u] == s.threads[u]
  {
    s1 := Next(s, OpenTemp(t)).value;
    PathsSeparate(key, key);
    OpenTempSound(s, t);
    ExecOne(s, OpenTemp(t));
  }

  /** A PUT of another payload that has not begun to write: it goes through. */
  lemma ReadyChanges(s: State, t: nat, key: string, b: Bytes)
    requires Sound(s) && Ordinary(key) && Content(s.fs, key) == Some(b)
    requires t in s.threads && s.threads[t].PutReady? && s.threads[t].key == key && s.threads[t].data != b
    ensures CanChange(s, key, b)
  {
    var s1 := Opened(s, t, key);
    FinishedFromNothing(s.threads[t].data);
    assert !Harmless(s1.fs, key, b, s1.threads[t]);
    hide Next, Exec, Harmless, Sound;
    WriterChanges(s1, t, key, b);
    Later(s, s1, [OpenTemp(t)], key, b);
  }

  lemma Later(s: State, s1: State, steps: seq<Step>, key: string, b: Bytes)
    requires Exec(s, steps) == Some(s1) && Continues(steps, key)
    requires CanChange(s1, key, b)
    ensures CanChange(s, key, b)
  {
    hide Next;
    var more, s2 :| Continues(more, key) && Exec(s1, more) == Some(s2) && Content(s2.fs, key) != Some(b);
    ExecJoin(s, steps, more);
    Changes(s, key, b, steps + more);
  }

  /** A thread truncates the temporary file just before another renames it. */
  lemma RaceEmpties(s: State, t: nat, u: nat, key: string) returns (end: State)
    requires Sound(s) && Ordinary(key) && t in s.threads && u in s.threads && t != u
    requires Writes(s.threads[t], key) && s.threads[t].written == |s.threads[t].data|
    requires s.threads[u].PutReady? && s.threads[u].key == key
    ensures Exec(s, [OpenTemp(u), Replace(t)]) == Some(end) && Content(end.fs, key) == Some([])
  {
    hide Next, Exec, WriterSound;
    var s1 := Opened(s, u, key);
    RenameChanges(s1, t, key);
    end := Next(s1, Replace(t)).value;
    ExecOne(s1, Replace(t));
    ExecJoin(s, [OpenTemp(u)], [Replace(t)]);
    assert [OpenTemp(u)] + [Replace(t)] == [OpenTemp(u), Replace(t)];
  }

  /** Two PUTs, one of which has yet to open the temporary file: it does so just before the other renames
      it, and the key is empty. */
  lemma CollisionChanges(s: State, t: nat, u: nat, key: string, b: Bytes)
    requires Sound(s) && Ordinary(key) && Content(s.fs, key) == Some(b) && b != []
    requires t in s.threads && u in s.threads && t != u && Collide(s.threads[t], s.threads[u], key)
    ensures CanChange(s, key, b)
    decreases s.threads[t].PutReady?
  {
    hide Next, Exec, Finished;
    if s.threads[t].PutReady? {
      var s1 := Opened(s, t, key);
      CollisionChanges(s1, t, u, key, b);
      Later(s, s1, [OpenTemp(t)], key, b);
    } else {
      assert WriterSound(s.fs, s.threads[t]);
      var steps := WriteOut(s, t);
      WrittenOutIsSound(s, t);
      hide Sound, WriterSound, CanChange, Content;
      var end := RaceEmpties(WrittenOut(s, t), t, u, key);
      ExecJoin(s, steps, [OpenTemp(u), Replace(t)]);
      Changes(s, key, b, steps + [OpenTemp(u), Replace(t)]);
    }
  }

  /** Exactly when a stored content can still be lost without a new PUT of its key: in every state that a
      broker can be in, for any payloads and however its threads overlap, some way on changes what the key
      holds if and only if the state is not safe for it. */
  lemma LostExactlyWhenUnsafe(s: State, key: string, b: Bytes)
    requires Sound(s) && Ordinary(key) && Content(s.fs, key) == Some(b)
    ensures CanChange(s, key, b) <==> !Safe(s, key, b)
  {
    hide Next, Exec, Harmless, Content;
    if Safe(s, key, b) {
      if CanChange(s, key, b) {
        var steps, s' :| Continues(steps, key) && Exec(s, steps) == Some(s') && Content(s'.fs, key) != Some(b);
        SafeForever(s, steps, key, b);
        assert false;
      }
    } else if t :| t in s.threads && !Harmless(s.fs, key, b, s.threads[t]) {
      HarmfulCases(s.fs, key, b, s.threads[t]);
      if s.threads[t].PutReady? {
        ReadyChanges(s, t, key, b);
      } else {
        WriterChanges(s, t, key, b);
      }
    } else {
      var t, u :| t in s.threads && u in s.threads && t != u && Collide(s.threads[t], s.threads[u], key);
      CollisionChanges(s, t, u, key, b);
    }
  }

  lemma HarmfulCases(fs: Fs, key: string, b: Bytes, pc: Pc)
    requires DirSound(fs) && !Harmless(fs, key, b, pc)
    ensures (pc.PutReady? && pc.key == key && pc.data != b) || Writes(pc, key)
  {
  }
}
