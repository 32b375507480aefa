/** What a GET returns while PUTs take their time and overlap: the reply is made by the thread that took up
    that very request, from the file that the key named. */
module PairedGets {
  import opened Prelude
  import opened Files
  import opened BlobNames
  import opened BlobStore
  import opened BlobAtomicity
  import opened RetriedPuts
  import opened LostContent

  /** Thread `t` takes up a GET of the key at step `at`, and state `j` is the first in which it has its
      answer. */
  ghost predicate Answers(ss: seq<State>, steps: seq<Step>, t: nat, key: string, at: nat, j: nat)
    requires |ss| == |steps| + 1
  {
    && at < j <= |steps| && steps[at] == BeginGet(t, key)
    && PcOf(ss[j], t).GetDone?
    && forall k :: at < k < j ==> !PcOf(ss[k], t).GetDone? && !PcOf(ss[k], t).Idle?
  }

  /** The key names file `node`, which holds `c`; or it names none. */
  ghost predicate Names(fs: Fs, key: string, c: Option<Bytes>, node: nat) {
    if c.None? then key !in fs.dir
    else key in fs.dir && fs.dir[key] == node && node in fs.nodes && fs.nodes[node] == c.value
  }

  /** How far a GET of a key that names such a file can have come. */
  predicate Stage(pc: Pc, key: string, c: Option<Bytes>, node: nat) {
    || pc == GetReady(key)
    || (c.Some? && pc == GetFound(key))
    || (c.Some? && pc.Reading? && pc.key == key && pc.node == node && pc.got <= c.value)
    || pc == GetDone(key, c)
  }

  lemma StageStep(s: State, step: Step, t: nat, key: string, c: Option<Bytes>, node: nat)
    requires Next(s, step).Some? && Stage(PcOf(s, t), key, c, node) && !PcOf(s, t).GetDone?
    requires Names(s.fs, key, c, node)
    ensures Stage(PcOf(Next(s, step).value, t), key, c, node)
  {
    if step.t == t && step.ReadSome? {
      var got := PcOf(s, t).got;
      assert got + c.value[|got|..|got| + step.n] == c.value[..|got| + step.n];
    } else if step.t == t && step.EndGet? {
      assert PcOf(s, t).got == c.value[..|PcOf(s, t).got|];
      assert c.value[..|c.value|] == c.value;
    }
  }

  /** If the key names one file throughout, with one content, the GET returns that content. */
  lemma {:induction false} SteadyGet(
    ss: seq<State>, steps: seq<Step>, t: nat, key: string, at: nat, j: nat, c: Option<Bytes>, node: nat)
    requires History(ss, steps) && at < j <= |steps| && steps[at] == BeginGet(t, key)
    requires forall k :: at < k < j ==> !PcOf(ss[k], t).GetDone? && !PcOf(ss[k], t).Idle?
    requires forall k :: at < k <= j ==> Names(ss[k].fs, key, c, node)
    ensures Stage(PcOf(ss[j], t), key, c, node)
    decreases j
  {
    assert Next(ss[j - 1], steps[j - 1]) == Some(ss[j - 1 + 1]);
    if j > at + 1 {
      SteadyGet(ss, steps, t, key, at, j - 1, c, node);
      hide Next, Stage, Names;
      StageStep(ss[j - 1], steps[j - 1], t, key, c, node);
    }
  }

  /** Only a rename of its own changes which file an ordinary key names. */
  lemma DirKept(s: State, step: Step, key: string)
    requires Sound(s) && Ordered(step) && Ordinary(key) && Next(s, step).Some? && !Renames(s, step, key)
    ensures var dir := Next(s, step).value.fs.dir;
            (key in dir <==> key in s.fs.dir) && (key in dir ==> dir[key] == s.fs.dir[key])
  {
    if step.OpenTemp? || step.Replace? {
      assert WriterSound(s.fs, s.threads[step.t]);
      PathsSeparate(key, PcOf(s, step.t).key);
    }
  }

  lemma {:induction false} FileKept(ss: seq<State>, steps: seq<Step>, key: string, i: nat, j: nat)
    requires History(ss, steps) && Ordinary(key) && i <= j <= |steps|
    requires forall k :: i <= k < j ==> !Renames(ss[k], steps[k], key)
    ensures key in ss[j].fs.dir <==> key in ss[i].fs.dir
    ensures key in ss[j].fs.dir ==> ss[j].fs.dir[key] == ss[i].fs.dir[key]
    decreases j - i
  {
    hide Next, Ordered, Sound, Renames;
    if i < j {
      FileKept(ss, steps, key, i, j - 1);
      HistorySound(ss, steps, j - 1);
      assert Ordered(steps[j - 1]) && Next(ss[j - 1], steps[j - 1]) == Some(ss[j - 1 + 1]);
      DirKept(ss[j - 1], steps[j - 1], key);
    }
  }

  /** With the same file and the same content at every moment of the GET, that content is returned. */
  lemma UnchangedGet(ss: seq<State>, steps: seq<Step>, t: nat, key: string, at: nat, j: nat, c: Option<Bytes>)
    requires History(ss, steps) && Ordinary(key) && Answers(ss, steps, t, key, at, j)
    requires forall k :: at < k < j ==> !Renames(ss[k], steps[k], key)
    requires forall k :: at < k <= j ==> Content(ss[k].fs, key) == c
    ensures PcOf(ss[j], t) == GetDone(key, c)
  {
    var node := if key in ss[at + 1].fs.dir then ss[at + 1].fs.dir[key] else 0;
    forall k | at < k <= j ensures Names(ss[k].fs, key, c, node) {
      hide Next, Ordered, Renames;
      FileKept(ss, steps, key, at + 1, k);
      HistorySound(ss, steps, k);
    }
    SteadyGet(ss, steps, t, key, at, j, c, node);
  }

  /** Once a PUT of the key has renamed its file, the key always names one. */
  lemma RenamedIsThere(ss: seq<State>, steps: seq<Step>, key: string, a: Bytes, at: nat, k: nat)
    requires History(ss, steps) && Ordinary(key) && Carries(steps, key, a)
    requires at <= k <= |steps| && Renamed(ss, steps, key, at)
    ensures key in ss[k].fs.dir
  {
    hide Next, Ordered, Quiet, Filling, Renames, Content;
    HistoryTracks(ss, steps, key, a, k);
  }

  lemma {:induction false} ThereIsFound(ss: seq<State>, steps: seq<Step>, t: nat, key: string, at: nat, j: nat)
    requires History(ss, steps) && at < j <= |steps| && steps[at] == BeginGet(t, key)
    requires forall k :: at < k < j ==> key in ss[k].fs.dir
    requires forall k :: at < k < j ==> !PcOf(ss[k], t).GetDone? && !PcOf(ss[k], t).Idle?
    ensures Found(PcOf(ss[j], t), key)
    decreases j
  {
    hide Next, Ordered, Quiet, Found;
    assert Next(ss[j - 1], steps[j - 1]) == Some(ss[j - 1 + 1]);
    if j > at + 1 {
      ThereIsFound(ss, steps, t, key, at, j - 1);
      FoundStep(ss[j - 1], steps[j - 1], t, key);
    } else {
      Begun(ss[at], t, key);
      BegunIsFound(PcOf(ss[j], t), key);
    }
  }

  lemma BegunIsFound(pc: Pc, key: string)
    requires pc == GetReady(key)
    ensures Found(pc, key)
  {
  }

  lemma Begun(s: State, t: nat, key: string)
    requires Next(s, BeginGet(t, key)).Some?
    ensures PcOf(Next(s, BeginGet(t, key)).value, t) == GetReady(key)
  {
  }

  /** The GET is on its way to an answer other than MISSING. */
  predicate Found(pc: Pc, key: string) {
    pc == GetReady(key) || pc == GetFound(key) || (pc.Reading? && pc.key == key)
    || (pc.GetDone? && pc.key == key && pc.result.Some?)
  }

  lemma FoundStep(s: State, step: Step, t: nat, key: string)
    requires Next(s, step).Some? && Found(PcOf(s, t), key) && !PcOf(s, t).GetDone?
    requires key in s.fs.dir
    ensures Found(PcOf(Next(s, step).value, t), key)
  {
  }

  /** Pairing, over every interleaving. The answer that a thread makes is for the key of the very GET that
      it took up. When every PUT of the key carries `a`: if none has renamed its file by the time of the
      answer, it is the first content of the key, whatever goes on in temporary files; if one had before
      the GET began it is never MISSING; and it is the whole of `a` if then no thread is putting the key
      while the GET lasts. */
  lemma GetsArePaired(ss: seq<State>, steps: seq<Step>, t: nat, key: string, a: Bytes, at: nat, j: nat)
    requires History(ss, steps) && Ordinary(key) && Carries(steps, key, a)
    requires Answers(ss, steps, t, key, at, j)
    ensures PcOf(ss[j], t).key == key
    ensures !Renamed(ss, steps, key, j) ==> PcOf(ss[j], t).result == Content(ss[0].fs, key)
    ensures Renamed(ss, steps, key, at) ==> PcOf(ss[j], t).result.Some?
    ensures Renamed(ss, steps, key, at) && (forall k :: at < k <= j ==> NonePutting(ss[k], key)) ==>
      PcOf(ss[j], t).result == Some(a)
  {
    OwnKey(ss, steps, t, key, at, j);
    if !Renamed(ss, steps, key, j) {
      forall k | at < k <= j ensures Content(ss[k].fs, key) == Content(ss[0].fs, key) {
        HistoryTracks(ss, steps, key, a, k);
        assert !Renamed(ss, steps, key, k);
      }
      UnchangedGet(ss, steps, t, key, at, j, Content(ss[0].fs, key));
    }
    if Renamed(ss, steps, key, at) {
      forall k | at < k < j ensures key in ss[k].fs.dir {
        RenamedIsThere(ss, steps, key, a, at, k);
      }
      ThereIsFound(ss, steps, t, key, at, j);
      if forall k :: at < k <= j ==> NonePutting(ss[k], key) {
        forall k | at < k <= j ensures Content(ss[k].fs, key) == Some(a) && !Renames(ss[k], QuietStep(steps, k), key) {
          QuietContent(ss, steps, key, a, at, k);
          NoRename(ss[k], QuietStep(steps, k), key);
        }
        UnchangedGet(ss, steps, t, key, at, j, Some(a));
      }
    }
  }

  /** The step after state `k`, or any step at the end. */
  function QuietStep(steps: seq<Step>, k: nat): Step {
    if k < |steps| then steps[k] else Finish(0)
  }

  lemma NoRename(s: State, step: Step, key: string)
    requires NonePutting(s, key)
    ensures !Renames(s, step, key)
  {
  }

  lemma QuietContent(ss: seq<State>, steps: seq<Step>, key: string, a: Bytes, at: nat, k: nat)
    requires History(ss, steps) && Ordinary(key) && Carries(steps, key, a)
    requires at < k <= |steps| && Renamed(ss, steps, key, at) && NonePutting(ss[k], key)
    ensures Content(ss[k].fs, key) == Some(a)
  {
    hide Next, Ordered, Quiet, Tracks, Content, Renames;
    HistoryTracks(ss, steps, key, a, k);
    TracksReads(ss[k], key, a, Content(ss[0].fs, key), Renamed(ss, steps, key, k));
  }

  /** From the moment it takes up a GET until it has an answer, a thread is at work on that GET. */
  lemma {:induction false} OwnKey(ss: seq<State>, steps: seq<Step>, t: nat, key: string, at: nat, j: nat)
    requires History(ss, steps) && at < j <= |steps| && steps[at] == BeginGet(t, key)
    requires forall k :: at < k < j ==> !PcOf(ss[k], t).GetDone? && !PcOf(ss[k], t).Idle?
    ensures var pc := PcOf(ss[j], t);
            pc.Failed? || InGet(pc, key) || (pc.GetDone? && pc.key == key)
    decreases j
  {
    assert Next(ss[j - 1], steps[j - 1]) == Some(ss[j - 1 + 1]);
    if j > at + 1 {
      OwnKey(ss, steps, t, key, at, j - 1);
    }
  }

  // ---- a PUT handled alone ----

  /** What a PUT makes of the content of every path. */
  ghost predicate Puts(before: Fs, after: Fs, key: string, data: Bytes) {
    && Content(after, key) == Some(data)
    && Content(after, TempPath(key)) == None
    && forall path :: path != key && path != TempPath(key) ==> Content(after, path) == Content(before, path)
  }

  /** A PUT that is handled alone does to every path what the broker's command protocol does to the store at
      one moment: its key holds the payload, the name of its temporary file names nothing, and nothing else
      changes. This holds of every key, also one that ends in `.tmp`. */
  lemma PutAlone(s: State, t: nat, key: string, data: Bytes) returns (steps: seq<Step>, end: State)
    requires DirSound(s.fs) && PcOf(s, t).Idle?
    ensures Exec(s, steps) == Some(end) && PcOf(end, t).Idle? && Puts(s.fs, end.fs, key, data)
  {
    hide Next, Exec, Puts;
    var s1, s2 := AloneOpens(s, t, key, data);
    var more := WriteOut(s2, t);
    var s3 := WrittenOut(s2, t);
    end := AloneRenames(s.fs, s2, t, key, data);
    ExecOne(s3, Replace(t));
    ExecJoin(s2, more, [Replace(t)]);
    ExecCons(s1, OpenTemp(t), s2, more + [Replace(t)]);
    ExecCons(s, BeginPut(t, key, data), s1, [OpenTemp(t)] + (more + [Replace(t)]));
    steps := [BeginPut(t, key, data)] + ([OpenTemp(t)] + (more + [Replace(t)]));
  }

  /** The temporary file is open and empty, and the other paths are as they were. */
  ghost predicate Opens(before: Fs, s: State, t: nat, key: string, data: Bytes) {
    && DirSound(s.fs) && TempPath(key) in s.fs.dir
    && PcOf(s, t) == Writing(key, data, s.fs.dir[TempPath(key)], 0)
    && s.fs.nodes[s.fs.dir[TempPath(key)]] == []
    && forall path :: path != TempPath(key) ==> Content(s.fs, path) == Content(before, path)
  }

  lemma AloneOpens(s: State, t: nat, key: string, data: Bytes) returns (s1: State, s2: State)
    requires DirSound(s.fs) && PcOf(s, t).Idle?
    ensures Next(s, BeginPut(t, key, data)) == Some(s1) && Next(s1, OpenTemp(t)) == Some(s2)
    ensures Opens(s.fs, s2, t, key, data)
  {
    s1 := Next(s, BeginPut(t, key, data)).value;
    s2 := Next(s1, OpenTemp(t)).value;
  }

  lemma AloneRenames(before: Fs, s: State, t: nat, key: string, data: Bytes) returns (end: State)
    requires Opens(before, s, t, key, data)
    ensures Next(WrittenOut(s, t), Replace(t)) == Some(end)
    ensures PcOf(end, t).Idle? && Puts(before, end.fs, key, data)
  {
    hide Finished;
    assert |TempPath(key)| != |key|;
    FinishedFromNothing(data);
    end := Next(WrittenOut(s, t), Replace(t)).value;
  }

  /** A GET that is handled alone reads the whole file of its key, or finds none. */
  lemma GetAlone(s: State, t: nat, key: string) returns (steps: seq<Step>)
    requires DirSound(s.fs) && PcOf(s, t).Idle?
    ensures Exec(s, steps) == Some(WithThread(s, t, GetDone(key, Content(s.fs, key))))
    ensures Exec(s, steps + [Finish(t)]) == Some(WithThread(s, t, Idle))
  {
    hide Exec;
    var s1, end := WithThread(s, t, GetReady(key)), WithThread(s, t, GetDone(key, Content(s.fs, key)));
    assert Next(s, BeginGet(t, key)) == Some(s1);
    if key in s.fs.dir {
      var more := ReadAlone(s, t, key);
      hide Next;
      ExecCons(s, BeginGet(t, key), s1, more);
      steps := [BeginGet(t, key)] + more;
    } else {
      assert s1.threads[t := GetDone(key, None)] == end.threads;
      assert Next(s1, Probe(t)) == Some(end);
      hide Next;
      ExecOne(s1, Probe(t));
      ExecCons(s, BeginGet(t, key), s1, [Probe(t)]);
      steps := [BeginGet(t, key)] + [Probe(t)];
    }
    FinishAlone(s, t, key, Content(s.fs, key));
    ExecOne(end, Finish(t));
    ExecJoin(s, steps, [Finish(t)]);
  }

  lemma FinishAlone(s: State, t: nat, key: string, c: Option<Bytes>)
    ensures Next(WithThread(s, t, GetDone(key, c)), Finish(t)) == Some(WithThread(s, t, Idle))
  {
    assert s.threads[t := GetDone(key, c)][t := Idle] == s.threads[t := Idle];
  }

  lemma ReadAlone(s: State, t: nat, key: string) returns (steps: seq<Step>)
    requires DirSound(s.fs) && key in s.fs.dir
    ensures Exec(WithThread(s, t, GetReady(key)), steps)
         == Some(WithThread(s, t, GetDone(key, Some(s.fs.nodes[s.fs.dir[key]]))))
  {
    hide Exec;
    var node := s.fs.dir[key];
    var s1, s2 := WithThread(s, t, GetReady(key)), WithThread(s, t, GetFound(key));
    var s3 := WithThread(s, t, Reading(key, node, []));
    assert s1.threads[t := GetFound(key)] == s2.threads && Next(s1, Probe(t)) == Some(s2);
    assert s2.threads[t := Reading(key, node, [])] == s3.threads && Next(s2, OpenBlob(t)) == Some(s3);
    hide Next;
    var more := ReadWhole(s, t, key, node);
    ExecCons(s2, OpenBlob(t), s3, more);
    ExecCons(s1, Probe(t), s2, [OpenBlob(t)] + more);
    steps := [Probe(t)] + ([OpenBlob(t)] + more);
  }

  lemma ReadWhole(s: State, t: nat, key: string, node: nat) returns (steps: seq<Step>)
    requires node in s.fs.nodes
    ensures Exec(WithThread(s, t, Reading(key, node, [])), steps)
         == Some(WithThread(s, t, GetDone(key, Some(s.fs.nodes[node]))))
  {
    hide Exec;
    var x := s.fs.nodes[node];
    var s3, s4 := WithThread(s, t, Reading(key, node, [])), WithThread(s, t, Reading(key, node, x));
    var end := WithThread(s, t, GetDone(key, Some(x)));
    assert s4.threads[t := GetDone(key, Some(x))] == end.threads && Next(s4, EndGet(t)) == Some(end);
    ExecOne(s4, EndGet(t));
    if x == [] {
      steps := [EndGet(t)];
    } else {
      assert [] + x[0..0 + |x|] == x;
      assert s3.threads[t := Reading(key, node, x)] == s4.threads;
      assert Next(s3, ReadSome(t, |x|)) == Some(s4);
      hide Next;
      ExecCons(s3, ReadSome(t, |x|), s4, [EndGet(t)]);
      steps := [ReadSome(t, |x|)] + [EndGet(t)];
    }
  }
}
