/** The broker's store when PUTs of one key may overlap without bound. A client that retries a PUT does
    not know whether the request it abandoned is still being handled, in a thread of its own and through
    the same temporary file; so nothing is asked here of the order in which the threads take their steps. */
module RetriedPuts {
  import opened Prelude
  import opened Files
  import opened BlobNames
  import opened BlobStore
  import opened BlobAtomicity
  import BrokerSession

  /** The one hypothesis left: no PUT of a key that ends in `.tmp`. */
  ghost predicate Ordered(step: Step) {
    step.BeginPut? ==> Ordinary(step.key)
  }

  ghost predicate History(ss: seq<State>, steps: seq<Step>) {
    && |ss| == |steps| + 1
    && Quiet(ss[0])
    && forall k :: 0 <= k < |steps| ==> Ordered(steps[k]) && Next(ss[k], steps[k]) == Some(ss[k + 1])
  }

  /** A thread writes to a file that has, at most, the names of its own key. */
  ghost predicate WriterSound(fs: Fs, pc: Pc) {
    match pc
    case PutReady(key, _) => Ordinary(key)
    case Writing(key, data, node, written) =>
      && Ordinary(key) && node in fs.nodes && written <= |data|
      && forall p :: p in fs.dir && fs.dir[p] == node ==> p == key || p == TempPath(key)
    case _ => true
  }

  /** Two threads that write to the same file put the same key. */
  predicate SameKey(a: Pc, b: Pc) {
    a.Writing? && b.Writing? && a.node == b.node ==> a.key == b.key
  }

  ghost predicate Sound(s: State) {
    && DirSound(s.fs)
    && (forall t :: t in s.threads ==> WriterSound(s.fs, s.threads[t]))
    && (forall t, u :: t in s.threads && u in s.threads ==> SameKey(s.threads[t], s.threads[u]))
  }

  /** A step from `s` to `s'` of thread `t` alone. */
  predicate Moves(s: State, t: nat, s': State) {
    t in s'.threads && s'.threads == s.threads[t := s'.threads[t]]
  }

  lemma OnlyOneMoves(s: State, step: Step)
    requires Next(s, step).Some?
    ensures Moves(s, step.t, Next(s, step).value)
    ensures !step.OpenTemp? && !step.WriteSome? && !step.Replace? ==>
      Next(s, step).value.fs == s.fs && !PcOf(s, step.t).Writing? && !PcOf(Next(s, step).value, step.t).Writing?
  {
  }

  lemma SoundIf(s: State, t: nat, s': State)
    requires Sound(s) && Moves(s, t, s')
    requires DirSound(s'.fs) && WriterSound(s'.fs, s'.threads[t])
    requires forall u :: u in s.threads && u != t ==> WriterSound(s'.fs, s.threads[u])
    requires forall u :: u in s.threads && u != t ==> SameKey(s'.threads[t], s.threads[u])
    ensures Sound(s')
  {
    hide WriterSound, DirSound;
    forall u, v | u in s'.threads && v in s'.threads ensures SameKey(s'.threads[u], s'.threads[v]) {
      if u != t && v != t {
        assert SameKey(s.threads[u], s.threads[v]);
      }
    }
  }

  /** Two ordinary keys share a path only if they are the same key. */
  lemma PathsSeparate(a: string, b: string)
    requires Ordinary(a) && Ordinary(b)
    ensures a != TempPath(b) && (TempPath(a) == TempPath(b) ==> a == b)
  {
    TempIsNotOrdinary(b);
    if TempPath(a) == TempPath(b) {
      TempInjective(a, b);
    }
  }

  lemma OpenTempSound(s: State, t: nat)
    requires Sound(s) && Next(s, OpenTemp(t)).Some?
    ensures Sound(Next(s, OpenTemp(t)).value)
  {
    var s' := Next(s, OpenTemp(t)).value;
    var key := PcOf(s, t).key;
    assert WriterSound(s.fs, s.threads[t]);
    forall u | u in s.threads && u != t
      ensures WriterSound(s'.fs, s.threads[u]) && SameKey(s'.threads[t], s.threads[u])
    {
      assert WriterSound(s.fs, s.threads[u]);
      if s.threads[u].Writing? {
        PathsSeparate(s.threads[u].key, key);
        PathsSeparate(key, s.threads[u].key);
      }
    }
    SoundIf(s, t, s');
  }

  lemma WriteSound(s: State, t: nat, n: nat)
    requires Sound(s) && Next(s, WriteSome(t, n)).Some?
    ensures Sound(Next(s, WriteSome(t, n)).value)
  {
    hide WriteAt;
    var s' := Next(s, WriteSome(t, n)).value;
    assert WriterSound(s.fs, s.threads[t]);
    forall u | u in s.threads && u != t
      ensures WriterSound(s'.fs, s.threads[u]) && SameKey(s'.threads[t], s.threads[u])
    {
      assert WriterSound(s.fs, s.threads[u]) && SameKey(s.threads[t], s.threads[u]);
    }
    SoundIf(s, t, s');
  }

  lemma ReplaceSound(s: State, t: nat)
    requires Sound(s) && Next(s, Replace(t)).Some?
    ensures Sound(Next(s, Replace(t)).value)
  {
    var s' := Next(s, Replace(t)).value;
    var key := PcOf(s, t).key;
    assert WriterSound(s.fs, s.threads[t]);
    PathsSeparate(key, key);
    forall u | u in s.threads && u != t ensures WriterSound(s'.fs, s.threads[u]) {
      assert WriterSound(s.fs, s.threads[u]);
      if s.threads[u].Writing? {
        PathsSeparate(s.threads[u].key, key);
        PathsSeparate(key, s.threads[u].key);
      }
    }
    SoundIf(s, t, s');
  }

  lemma StepSound(s: State, step: Step)
    requires Sound(s) && Ordered(step) && Next(s, step).Some?
    ensures Sound(Next(s, step).value)
  {
    match step
    case OpenTemp(t) => OpenTempSound(s, t);
    case WriteSome(t, n) => WriteSound(s, t, n);
    case Replace(t) => ReplaceSound(s, t);
    case _ =>
      OnlyOneMoves(s, step);
      SoundIf(s, step.t, Next(s, step).value);
  }

  lemma {:induction false} HistorySound(ss: seq<State>, steps: seq<Step>, k: nat)
    requires History(ss, steps) && k <= |steps|
    ensures Sound(ss[k])
  {
    hide Sound, Next, Ordered;
    if k == 0 {
      QuietSound(ss[0]);
    } else {
      HistorySound(ss, steps, k - 1);
      assert Next(ss[k - 1], steps[k - 1]) == Some(ss[k - 1 + 1]);
      StepSound(ss[k - 1], steps[k - 1]);
    }
  }

  lemma QuietSound(s: State)
    requires Quiet(s)
    ensures Sound(s)
  {
  }

  // ---- one payload per key ----

  function Content(fs: Fs, path: string): Option<Bytes> {
    if path in fs.dir && fs.dir[path] in fs.nodes then Some(fs.nodes[fs.dir[path]]) else None
  }

  /** The thread has written the beginning of `a` to the file, and it has stayed there. */
  predicate Fronts(pc: Pc, key: string, a: Bytes, node: nat, bytes: Bytes) {
    && pc.Writing? && pc.key == key && pc.data == a && pc.node == node
    && pc.written <= |bytes| && pc.written <= |a| && bytes[..pc.written] == a[..pc.written]
  }

  /** The file holds `a`, or a thread at work on it will have made it hold `a` when it is done. */
  ghost predicate Filling(s: State, key: string, a: Bytes, node: nat) {
    && node in s.fs.nodes && |s.fs.nodes[node]| <= |a|
    && (s.fs.nodes[node] == a
        || exists t :: t in s.threads && Fronts(s.threads[t], key, a, node, s.fs.nodes[node]))
  }

  predicate Writes(pc: Pc, key: string) {
    pc.Writing? && pc.key == key
  }

  /** What is known of a key all of whose PUTs carry `a`: before one of them has renamed its file the key
      has its first content, and from then on it names a file that holds `a` or is being filled. */
  ghost predicate Tracks(s: State, key: string, a: Bytes, first: Option<Bytes>, renamed: bool) {
    && (forall t :: t in s.threads && Putting(s.threads[t], key) ==> s.threads[t].data == a)
    && (forall t :: t in s.threads && Writes(s.threads[t], key) && TempPath(key) in s.fs.dir ==>
          Filling(s, key, a, s.fs.dir[TempPath(key)]))
    && if renamed then
         key in s.fs.dir && Filling(s, key, a, s.fs.dir[key])
       else
         && Content(s.fs, key) == first
         && forall t :: t in s.threads && s.threads[t].Writing? && key in s.fs.dir ==>
              s.threads[t].node != s.fs.dir[key]
  }

  /** The step renames a temporary file of the key into place. */
  predicate Renames(s: State, step: Step, key: string) {
    step.Replace? && Writes(PcOf(s, step.t), key) && TempPath(key) in s.fs.dir
  }

  /** A step that leaves a file alone, and moves a thread that was not at work on it, or is done. */
  lemma FillingKept(s: State, t: nat, s': State, key: string, a: Bytes, node: nat)
    requires Moves(s, t, s') && Filling(s, key, a, node)
    requires node in s'.fs.nodes && s'.fs.nodes[node] == s.fs.nodes[node]
    requires t in s.threads && Writes(s.threads[t], key) && s.threads[t].node == node ==>
      s.threads[t].written == |s.threads[t].data|
    ensures Filling(s', key, a, node)
  {
    var x := s.fs.nodes[node];
    assert |x| == |a| ==> x[..|a|] == x && a[..|a|] == a;
    if x != a {
      var u :| u in s.threads && Fronts(s.threads[u], key, a, node, x);
      assert u != t;
      assert s'.threads[u] == s.threads[u];
    }
  }

  /** A thread that writes its next bytes of `a` to the file. */
  lemma FillingWritten(s: State, t: nat, n: nat, key: string, a: Bytes, node: nat)
    requires Next(s, WriteSome(t, n)).Some? && Filling(s, key, a, node)
    requires var pc := PcOf(s, t); pc.key == key && pc.data == a && pc.node == node
    ensures Filling(Next(s, WriteSome(t, n)).value, key, a, node)
  {
    hide WriteAt;
    var s' := Next(s, WriteSome(t, n)).value;
    var w := PcOf(s, t).written;
    var x := s.fs.nodes[node];
    WriteInside(x, a, w, n);
    var x' := s'.fs.nodes[node];
    if x != a {
      var u :| u in s.threads && Fronts(s.threads[u], key, a, node, x);
      if u == t {
        assert Fronts(s'.threads[t], key, a, node, x');
      } else {
        assert s'.threads[u] == s.threads[u];
        FrontStays(x, a, w, n, s.threads[u].written);
      }
    }
  }

  lemma WriteInside(x: Bytes, a: Bytes, w: nat, n: nat)
    requires w + n <= |a| && n > 0 && |x| <= |a|
    ensures var y := WriteAt(x, w, a[w..w + n]);
            |x| <= |y| <= |a| && (x == a ==> y == a)
            && (w <= |x| && x[..w] == a[..w] ==> w + n <= |y| && y[..w + n] == a[..w + n])
  {
  }

  lemma FrontStays(x: Bytes, a: Bytes, w: nat, n: nat, front: nat)
    requires w + n <= |a| && n > 0
    requires front <= |x| && front <= |a| && x[..front] == a[..front]
    ensures var y := WriteAt(x, w, a[w..w + n]);
            front <= |y| && y[..front] == a[..front]
  {
    var y := WriteAt(x, w, a[w..w + n]);
    forall i | 0 <= i < front ensures y[i] == a[i] {
      assert x[i] == x[..front][i] && a[i] == a[..front][i];
    }
  }

  /** The paths of the key name the same files as before, with the same content. */
  ghost predicate Undisturbed(fs: Fs, fs': Fs, key: string) {
    forall p :: p == key || p == TempPath(key) ==>
      && (p in fs.dir <==> p in fs'.dir)
      && (p in fs.dir ==> fs'.dir[p] == fs.dir[p])
      && (p in fs.dir && fs.dir[p] in fs.nodes ==>
            fs.dir[p] in fs'.nodes && fs'.nodes[fs.dir[p]] == fs.nodes[fs.dir[p]])
  }

  /** A step of a thread that is putting another key. */
  lemma TracksElsewhere(s: State, t: nat, s': State, key: string, a: Bytes, first: Option<Bytes>, renamed: bool)
    requires Tracks(s, key, a, first, renamed) && Moves(s, t, s') && Undisturbed(s.fs, s'.fs, key) && DirSound(s.fs)
    requires t in s.threads && !Putting(s.threads[t], key) && !Putting(s'.threads[t], key)
    requires s'.threads[t].Writing? && key in s.fs.dir ==> s'.threads[t].node != s.fs.dir[key]
    ensures Tracks(s', key, a, first, renamed)
  {
    hide Filling, Fronts;
    forall p | (p == key || p == TempPath(key)) && p in s.fs.dir && Filling(s, key, a, s.fs.dir[p])
      ensures Filling(s', key, a, s.fs.dir[p])
    {
      FillingKept(s, t, s', key, a, s.fs.dir[p]);
    }
  }

  lemma FillingBegun(s: State, t: nat, key: string, a: Bytes)
    requires t in s.threads && Writes(s.threads[t], key) && s.threads[t].data == a && s.threads[t].written == 0
    requires s.threads[t].node in s.fs.nodes && s.fs.nodes[s.threads[t].node] == []
    ensures Filling(s, key, a, s.threads[t].node)
  {
    assert Fronts(s.threads[t], key, a, s.threads[t].node, []);
  }

  lemma TracksOpen(s: State, t: nat, key: string, a: Bytes, first: Option<Bytes>, renamed: bool)
    requires Sound(s) && Tracks(s, key, a, first, renamed) && Ordinary(key)
    requires Next(s, OpenTemp(t)).Some?
    ensures Tracks(Next(s, OpenTemp(t)).value, key, a, first, renamed)
  {
    hide Fronts, Filling;
    var s' := Next(s, OpenTemp(t)).value;
    OnlyOneMoves(s, OpenTemp(t));
    var pc := PcOf(s, t);
    assert WriterSound(s.fs, s.threads[t]);
    PathsSeparate(key, pc.key);
    PathsSeparate(pc.key, key);
    if pc.key == key {
      FillingBegun(s', t, key, a);
      if renamed {
        FillingHasNode(s, key, a, s.fs.dir[key]);
        FillingKept(s, t, s', key, a, s.fs.dir[key]);
      }
    } else {
      hide Tracks;
      TracksElsewhere(s, t, s', key, a, first, renamed);
    }
  }

  lemma TracksWrite(s: State, t: nat, n: nat, key: string, a: Bytes, first: Option<Bytes>, renamed: bool)
    requires Sound(s) && Tracks(s, key, a, first, renamed) && Ordinary(key)
    requires Next(s, WriteSome(t, n)).Some?
    ensures Tracks(Next(s, WriteSome(t, n)).value, key, a, first, renamed)
  {
    hide WriteAt, Fronts, Filling;
    var s' := Next(s, WriteSome(t, n)).value;
    OnlyOneMoves(s, WriteSome(t, n));
    var pc := PcOf(s, t);
    assert WriterSound(s.fs, s.threads[t]);
    PathsSeparate(key, pc.key);
    PathsSeparate(pc.key, key);
    if pc.key == key {
      forall p | (p == key || p == TempPath(key)) && p in s.fs.dir && Filling(s, key, a, s.fs.dir[p])
        ensures Filling(s', key, a, s.fs.dir[p])
      {
        if s.fs.dir[p] == pc.node {
          FillingWritten(s, t, n, key, a, pc.node);
        } else {
          FillingHasNode(s, key, a, s.fs.dir[p]);
          FillingKept(s, t, s', key, a, s.fs.dir[p]);
        }
      }
    } else {
      assert renamed ==> key in s.fs.dir;
      NotTheirFile(s, t, key);
      hide Tracks;
      TracksElsewhere(s, t, s', key, a, first, renamed);
    }
  }

  lemma NotTheirFile(s: State, t: nat, key: string)
    requires Sound(s) && t in s.threads && s.threads[t].Writing? && s.threads[t].key != key && Ordinary(key)
    ensures forall p :: (p == key || p == TempPath(key)) && p in s.fs.dir ==> s.fs.dir[p] != s.threads[t].node
  {
    assert WriterSound(s.fs, s.threads[t]);
    PathsSeparate(key, s.threads[t].key);
    PathsSeparate(s.threads[t].key, key);
  }

  lemma TracksReplace(s: State, t: nat, key: string, a: Bytes, first: Option<Bytes>, renamed: bool)
    requires Sound(s) && Tracks(s, key, a, first, renamed) && Ordinary(key)
    requires Next(s, Replace(t)).Some?
    ensures Tracks(Next(s, Replace(t)).value, key, a, first, renamed || Renames(s, Replace(t), key))
  {
    hide Fronts, Filling;
    var s' := Next(s, Replace(t)).value;
    OnlyOneMoves(s, Replace(t));
    var pc := PcOf(s, t);
    assert WriterSound(s.fs, s.threads[t]);
    PathsSeparate(key, pc.key);
    PathsSeparate(pc.key, key);
    PathsSeparate(key, key);
    if pc.key == key {
      forall p | (p == key || p == TempPath(key)) && p in s.fs.dir && Filling(s, key, a, s.fs.dir[p])
        ensures Filling(s', key, a, s.fs.dir[p])
      {
        FillingHasNode(s, key, a, s.fs.dir[p]);
        FillingKept(s, t, s', key, a, s.fs.dir[p]);
      }
    } else {
      hide Tracks;
      TracksElsewhere(s, t, s', key, a, first, renamed);
    }
  }

  lemma TracksOther(s: State, step: Step, key: string, a: Bytes, first: Option<Bytes>, renamed: bool)
    requires Tracks(s, key, a, first, renamed) && Next(s, step).Some?
    requires !step.OpenTemp? && !step.WriteSome? && !step.Replace?
    requires step.BeginPut? && step.key == key ==> step.data == a
    ensures Tracks(Next(s, step).value, key, a, first, renamed)
  {
    var s' := Next(s, step).value;
    OnlyOneMoves(s, step);
    OtherPuts(s, step, key, a);
    hide Next, Filling, Fronts;
    forall p | p in s.fs.dir && Filling(s, key, a, s.fs.dir[p]) ensures Filling(s', key, a, s.fs.dir[p]) {
      FillingHasNode(s, key, a, s.fs.dir[p]);
      FillingKept(s, step.t, s', key, a, s.fs.dir[p]);
    }
  }

  lemma OtherPuts(s: State, step: Step, key: string, a: Bytes)
    requires Next(s, step).Some? && !step.OpenTemp? && !step.WriteSome? && !step.Replace?
    requires step.BeginPut? && step.key == key ==> step.data == a
    ensures var pc := PcOf(Next(s, step).value, step.t);
            Putting(pc, key) ==> pc.data == a
  {
  }

  lemma FillingHasNode(s: State, key: string, a: Bytes, node: nat)
    requires Filling(s, key, a, node)
    ensures node in s.fs.nodes
  {
  }

  lemma TracksStep(s: State, step: Step, key: string, a: Bytes, first: Option<Bytes>, renamed: bool)
    requires Sound(s) && Tracks(s, key, a, first, renamed) && Ordinary(key)
    requires Ordered(step) && Next(s, step).Some?
    requires step.BeginPut? && step.key == key ==> step.data == a
    ensures Tracks(Next(s, step).value, key, a, first, renamed || Renames(s, step, key))
  {
    hide Sound, Tracks, Next;
    match step
    case OpenTemp(t) => TracksOpen(s, t, key, a, first, renamed);
    case WriteSome(t, n) => TracksWrite(s, t, n, key, a, first, renamed);
    case Replace(t) => TracksReplace(s, t, key, a, first, renamed);
    case _ => TracksOther(s, step, key, a, first, renamed);
  }

  // ---- histories of one payload ----

  /** Every PUT of the key carries `a`. */
  ghost predicate Carries(steps: seq<Step>, key: string, a: Bytes) {
    forall k :: 0 <= k < |steps| && steps[k].BeginPut? && steps[k].key == key ==> steps[k].data == a
  }

  ghost predicate Renamed(ss: seq<State>, steps: seq<Step>, key: string, j: nat)
    requires |ss| == |steps| + 1 && j <= |steps|
  {
    exists k :: 0 <= k < j && Renames(ss[k], steps[k], key)
  }

  lemma {:induction false} HistoryTracks(ss: seq<State>, steps: seq<Step>, key: string, a: Bytes, j: nat)
    requires History(ss, steps) && j <= |steps|
    requires Ordinary(key) && Carries(steps, key, a)
    ensures Tracks(ss[j], key, a, Content(ss[0].fs, key), Renamed(ss, steps, key, j))
    decreases j
  {
    hide Sound, Next, Ordered, Tracks, Renames;
    if j == 0 {
      QuietTracks(ss[0], key, a);
    } else {
      HistoryTracks(ss, steps, key, a, j - 1);
      HistorySound(ss, steps, j - 1);
      assert Next(ss[j - 1], steps[j - 1]) == Some(ss[j - 1 + 1]);
      TracksStep(ss[j - 1], steps[j - 1], key, a, Content(ss[0].fs, key), Renamed(ss, steps, key, j - 1));
    }
  }

  lemma QuietTracks(s: State, key: string, a: Bytes)
    requires Quiet(s)
    ensures Tracks(s, key, a, Content(s.fs, key), false)
  {
  }

  ghost predicate NonePutting(s: State, key: string) {
    forall t :: t in s.threads ==> !Putting(s.threads[t], key)
  }

  /** A thread is at work on the very file that the key names. */
  ghost predicate BeingWritten(s: State, key: string) {
    exists t :: t in s.threads && Writes(s.threads[t], key) && key in s.fs.dir && s.threads[t].node == s.fs.dir[key]
  }

  /** What a key reads as in any state: before the first rename what it always did, and from then on the
      payload, except while a thread is at work on its very file. */
  lemma TracksReads(s: State, key: string, a: Bytes, first: Option<Bytes>, renamed: bool)
    requires Tracks(s, key, a, first, renamed)
    ensures Content(s.fs, key) == (if renamed then Some(a) else first) || (renamed && BeingWritten(s, key))
    ensures NonePutting(s, key) ==> !BeingWritten(s, key)
  {
  }

  // ---- a retried PUT ----

  /** One attempt of a retried PUT: no thread has taken up its request, or some thread took it up at step
      `at`, which can be long after the client gave it up. */
  datatype Try = NotTakenUp | TakenUp(thread: nat, at: nat)

  /** The attempt whose OK the client heard, and the step by which its thread had sent it. */
  datatype Return = Return(which: nat, at: nat)

  /** A PUT through the retry loop: its attempts, in no order of the broker's, and how it returned. */
  datatype Operation = Operation(key: string, data: Bytes, tries: seq<Try>, returned: Option<Return>)

  ghost predicate Performed(ss: seq<State>, steps: seq<Step>, op: Operation)
    requires |ss| == |steps| + 1
  {
    && |op.tries| <= BrokerSession.MAX_ATTEMPTS
    && (forall i :: 0 <= i < |op.tries| && op.tries[i].TakenUp? ==>
          op.tries[i].at < |steps| && steps[op.tries[i].at] == BeginPut(op.tries[i].thread, op.key, op.data))
    && (op.returned.Some? ==>
          op.returned.value.which < |op.tries| && Finishes(ss, op.tries[op.returned.value.which], op.returned.value.at))
  }

  /** The thread of the attempt is back at its loop for the first time, having sent its OK. */
  ghost predicate Finishes(ss: seq<State>, attempt: Try, j: nat) {
    && attempt.TakenUp? && attempt.at < j < |ss|
    && PcOf(ss[j], attempt.thread).Idle?
    && forall k :: attempt.at < k < j ==> !PcOf(ss[k], attempt.thread).Idle?
  }

  /** The operation has returned by state `j`. */
  predicate ReturnedBy(op: Operation, j: nat) {
    op.returned.Some? && op.returned.value.at <= j
  }

  /** Of the PUTs of its key there are only those of the operation. */
  ghost predicate OnlyPuts(steps: seq<Step>, op: Operation) {
    forall k :: 0 <= k < |steps| && steps[k].BeginPut? && steps[k].key == op.key ==> TakenUp(steps[k].t, k) in op.tries
  }

  /** A thread that is putting the key goes on doing so until it renames the file or fails. */
  lemma StillPutting(s: State, step: Step, t: nat, key: string, a: Bytes)
    requires Next(s, step).Some? && Putting(PcOf(s, t), key) && PcOf(s, t).data == a
    ensures var pc := PcOf(Next(s, step).value, t);
            || (Putting(pc, key) && pc.data == a)
            || pc.Failed?
            || (pc.Idle? && step.t == t && Renames(s, step, key))
  {
  }

  lemma FailedForGood(s: State, step: Step, t: nat)
    requires Next(s, step).Some? && PcOf(s, t).Failed?
    ensures PcOf(Next(s, step).value, t).Failed?
  {
  }

  lemma {:induction false} UntilReturn(ss: seq<State>, steps: seq<Step>, t: nat, at: nat, key: string, a: Bytes, k: nat)
    requires History(ss, steps) && at < k <= |steps|
    requires steps[at] == BeginPut(t, key, a)
    requires forall i :: at < i < k ==> !PcOf(ss[i], t).Idle?
    ensures PcOf(ss[k], t).Failed? || Putting(PcOf(ss[k], t), key)
      || (PcOf(ss[k], t).Idle? && Renames(ss[k - 1], steps[k - 1], key))
    ensures Putting(PcOf(ss[k], t), key) ==> PcOf(ss[k], t).data == a
    decreases k
  {
    assert Next(ss[k - 1], steps[k - 1]) == Some(ss[k - 1 + 1]);
    if k > at + 1 {
      UntilReturn(ss, steps, t, at, key, a, k - 1);
      if PcOf(ss[k - 1], t).Failed? {
        FailedForGood(ss[k - 1], steps[k - 1], t);
      } else {
        StillPutting(ss[k - 1], steps[k - 1], t, key, a);
      }
    }
  }

  /** A PUT that has returned has renamed a file into place. */
  lemma ReturnedHasRenamed(ss: seq<State>, steps: seq<Step>, op: Operation, j: nat)
    requires History(ss, steps) && Performed(ss, steps, op)
    requires j <= |steps| && ReturnedBy(op, j)
    ensures Renamed(ss, steps, op.key, j)
  {
    hide Next, History, Renames;
    var Return(which, at) := op.returned.value;
    UntilReturn(ss, steps, op.tries[which].thread, op.tries[which].at, op.key, op.data, at);
    assert Renames(ss[at - 1], steps[at - 1], op.key);
  }

  /** At-least-once equals once, over every interleaving of the attempts of one PUT, however they overlap
      and however late the broker takes them up, also after the operation has returned: whenever no attempt
      is being handled the key holds the payload if one of them got as far as the rename, as it did if the
      operation returned, and otherwise what it held before. */
  lemma AtLeastOnceIsOnce(ss: seq<State>, steps: seq<Step>, op: Operation, j: nat)
    requires History(ss, steps) && Performed(ss, steps, op) && OnlyPuts(steps, op)
    requires Ordinary(op.key) && j <= |steps| && NonePutting(ss[j], op.key)
    ensures Content(ss[j].fs, op.key)
         == if Renamed(ss, steps, op.key, j) then Some(op.data) else Content(ss[0].fs, op.key)
    ensures ReturnedBy(op, j) ==> Renamed(ss, steps, op.key, j)
  {
    hide Next, Ordered, Quiet, Tracks, Renamed, Content, Finishes;
    HistoryTracks(ss, steps, op.key, op.data, j);
    TracksReads(ss[j], op.key, op.data, Content(ss[0].fs, op.key), Renamed(ss, steps, op.key, j));
    if ReturnedBy(op, j) {
      ReturnedHasRenamed(ss, steps, op, j);
    }
  }

  /** With one payload per key, as in the transfers, what a returned PUT stored stays stored over every
      later PUT of the key and every attempt still on its way: the key always has a file, which holds the
      payload except while a thread is at work on that very file. */
  lemma AcknowledgedStays(ss: seq<State>, steps: seq<Step>, op: Operation, j: nat)
    requires History(ss, steps) && Performed(ss, steps, op) && Carries(steps, op.key, op.data)
    requires Ordinary(op.key) && j <= |steps| && ReturnedBy(op, j)
    ensures op.key in ss[j].fs.dir
    ensures Content(ss[j].fs, op.key) == Some(op.data) || BeingWritten(ss[j], op.key)
    ensures NonePutting(ss[j], op.key) ==> Content(ss[j].fs, op.key) == Some(op.data)
  {
    hide Next, Ordered, Quiet, Renamed, Content, Finishes, Filling;
    HistoryTracks(ss, steps, op.key, op.data, j);
    ReturnedHasRenamed(ss, steps, op, j);
    TracksReads(ss[j], op.key, op.data, Content(ss[0].fs, op.key), true);
  }

  /** What the sender's skip test needs when its LIST meets an attempt that is still being handled: a key
      that was absent at first and is now there, torn or not, holds the whole payload whenever, from then
      on, no thread is putting it. */
  lemma ListedWillBeWhole(ss: seq<State>, steps: seq<Step>, key: string, a: Bytes, i: nat, j: nat)
    requires History(ss, steps) && Carries(steps, key, a) && Ordinary(key)
    requires i <= j <= |steps| && NonePutting(ss[j], key)
    requires Content(ss[0].fs, key) == None && Content(ss[i].fs, key).Some?
    ensures Content(ss[j].fs, key) == Some(a)
  {
    hide Next, Ordered, Quiet, Tracks, Content, Renames;
    HistoryTracks(ss, steps, key, a, i);
    TracksReads(ss[i], key, a, None, Renamed(ss, steps, key, i));
    HistoryTracks(ss, steps, key, a, j);
    TracksReads(ss[j], key, a, None, Renamed(ss, steps, key, j));
  }

  /** While a thread is at work on it, an acknowledged key can indeed read back torn, for every key and
      payload: the first attempt of a PUT is abandoned, the second returns, and a GET finds nothing. And
      if the broker stops at that moment, the key is left empty. */
  lemma RetriedPutTears(key: string, a: Bytes) returns (ss: seq<State>, steps: seq<Step>, op: Operation)
    requires Ordinary(key) && a != []
    ensures History(ss, steps) && Performed(ss, steps, op) && OnlyPuts(steps, op)
    ensures op.key == key && op.data == a && ReturnedBy(op, |steps|)
    ensures Content(ss[|steps|].fs, key) == Some([]) && BeingWritten(ss[|steps|], key)
    ensures exists get, s :: Exec(ss[|steps|], get) == Some(s) && PcOf(s, 3) == GetDone(key, Some([]))
    ensures Quiet(State(ss[|steps|].fs, map[]))
  {
    hide Next, Exec, Filling;
    steps := OverlapSteps(key, a, a);
    var s1, s2, s3, s4, s5, s6 := OverlapStates(key, a, a);
    ss := [EMPTY, s1, s2, s3, s4, s5, s6];
    op := Operation(key, a, [TakenUp(2, 0), TakenUp(1, 1)], Some(Return(1, 6)));
    OverlapHistory(key, a, ss);
    OverlapReturns(key, a, ss, op);
    ReadThrough(s6, 3, key);
    assert s6.threads[2] == Writing(key, a, 0, 0);
  }

  /** The states of the overlapping execution, one step after the other. */
  ghost predicate Overlapping(key: string, a: Bytes, ss: seq<State>) {
    && |ss| == 7 && ss[0] == EMPTY
    && Next(ss[0], BeginPut(2, key, a)) == Some(ss[1]) && Next(ss[1], BeginPut(1, key, a)) == Some(ss[2])
    && Next(ss[2], OpenTemp(1)) == Some(ss[3]) && Next(ss[3], WriteSome(1, |a|)) == Some(ss[4])
    && Next(ss[4], OpenTemp(2)) == Some(ss[5]) && Next(ss[5], Replace(1)) == Some(ss[6])
  }

  lemma OverlapHistory(key: string, a: Bytes, ss: seq<State>)
    requires Ordinary(key) && Overlapping(key, a, ss)
    ensures History(ss, OverlapSteps(key, a, a))
  {
    hide Next;
    var steps := OverlapSteps(key, a, a);
    forall k | 0 <= k < |steps| ensures Ordered(steps[k]) && Next(ss[k], steps[k]) == Some(ss[k + 1]) {
      assert k == 0 || k == 1 || k == 2 || k == 3 || k == 4 || k == 5;
    }
  }

  lemma OverlapReturns(key: string, a: Bytes, ss: seq<State>, op: Operation)
    requires a != [] && Overlapping(key, a, ss) && PcOf(ss[6], 1).Idle?
    requires op == Operation(key, a, [TakenUp(2, 0), TakenUp(1, 1)], Some(Return(1, 6)))
    ensures Performed(ss, OverlapSteps(key, a, a), op) && OnlyPuts(OverlapSteps(key, a, a), op)
  {
    OverlapPcs(key, a, ss);
    hide Next;
    assert Finishes(ss, TakenUp(1, 1), 6) by {
      forall k | 1 < k < 6 ensures !PcOf(ss[k], 1).Idle? {
        assert k == 2 || k == 3 || k == 4 || k == 5;
      }
    }
    hide Finishes;
    OverlapOnly(key, a, op);
  }

  lemma OverlapOnly(key: string, a: Bytes, op: Operation)
    requires op == Operation(key, a, [TakenUp(2, 0), TakenUp(1, 1)], Some(Return(1, 6)))
    ensures OnlyPuts(OverlapSteps(key, a, a), op)
  {
    var steps := OverlapSteps(key, a, a);
    forall k | 0 <= k < |steps| && steps[k].BeginPut? ensures TakenUp(steps[k].t, k) in op.tries {
      assert op.tries[0] == TakenUp(2, 0) && op.tries[1] == TakenUp(1, 1);
    }
  }

  lemma OverlapPcs(key: string, a: Bytes, ss: seq<State>)
    requires Overlapping(key, a, ss)
    ensures !PcOf(ss[2], 1).Idle? && !PcOf(ss[3], 1).Idle? && !PcOf(ss[4], 1).Idle? && !PcOf(ss[5], 1).Idle?
  {
  }
}
