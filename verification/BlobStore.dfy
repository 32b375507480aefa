/** The broker's store under concurrent connections: PUT writes a temporary file and renames it, GET
    opens a file by name and reads it. Directory entries name inodes, so an open file stays the same
    file whatever happens to its name. */
module BlobStore {
  import opened Prelude
  import opened Files
  import opened BlobNames

  function TempPath(path: string): string {
    path + ".tmp"
  }

  /** Directory entries, inode contents, and the next inode number. */
  datatype Fs = Fs(dir: map<string, nat>, nodes: map<nat, Bytes>, next: nat)

  /** Where a connection thread is. */
  datatype Pc =
    | Idle
    | PutReady(key: string, data: Bytes)
    | Writing(key: string, data: Bytes, node: nat, written: nat)
    | GetReady(key: string)
    | GetFound(key: string)
    | Reading(key: string, node: nat, got: Bytes)
    | GetDone(key: string, result: Option<Bytes>)
    | Failed

  datatype State = State(fs: Fs, threads: map<nat, Pc>)

  function PcOf(s: State, t: nat): Pc {
    if t in s.threads then s.threads[t] else Idle
  }

  function WithThread(s: State, t: nat, pc: Pc): State {
    s.(threads := s.threads[t := pc])
  }

  datatype Step =
    | BeginPut(t: nat, key: string, data: Bytes)
    | OpenTemp(t: nat)
    | WriteSome(t: nat, n: nat)
    | Replace(t: nat)
    | BeginGet(t: nat, key: string)
    | Probe(t: nat)
    | OpenBlob(t: nat)
    | ReadSome(t: nat, n: nat)
    | EndGet(t: nat)
    | Finish(t: nat)

  /** `open(tmp, "wb")`: truncates the file of that name, or creates one. */
  function OpenForWriting(fs: Fs, path: string): Fs {
    if path in fs.dir then fs.(nodes := fs.nodes[fs.dir[path] := []])
    else Fs(fs.dir[path := fs.next], fs.nodes[fs.next := []], fs.next + 1)
  }

  /** One step of the system, or None when the thread is not at that point. */
  function Next(s: State, step: Step): Option<State> {
    match step
    case BeginPut(t, key, data) =>
      if PcOf(s, t).Idle? then Some(WithThread(s, t, PutReady(key, data))) else None
    case OpenTemp(t) =>
      (match PcOf(s, t)
       case PutReady(key, data) =>
         var fs := OpenForWriting(s.fs, TempPath(key));
         Some(WithThread(s.(fs := fs), t, Writing(key, data, fs.dir[TempPath(key)], 0)))
       case _ => None)
    case WriteSome(t, n) =>
      (match PcOf(s, t)
       case Writing(key, data, node, written) =>
         if 0 < n <= |data| - written && node in s.fs.nodes then
           var bytes := WriteAt(s.fs.nodes[node], written, data[written..written + n]);
           Some(WithThread(s.(fs := s.fs.(nodes := s.fs.nodes[node := bytes])),
                           t, Writing(key, data, node, written + n)))
         else None
       case _ => None)
    case Replace(t) =>
      (match PcOf(s, t)
       case Writing(key, data, node, written) =>
         var tmp := TempPath(key);
         if written != |data| then None
         else if tmp !in s.fs.dir then Some(WithThread(s, t, Failed))
         else Some(WithThread(s.(fs := s.fs.(dir := (s.fs.dir - {tmp})[key := s.fs.dir[tmp]])), t, Idle))
       case _ => None)
    case BeginGet(t, key) =>
      if PcOf(s, t).Idle? then Some(WithThread(s, t, GetReady(key))) else None
    case Probe(t) =>
      (match PcOf(s, t)
       case GetReady(key) => Some(WithThread(s, t, if key in s.fs.dir then GetFound(key) else GetDone(key, None)))
       case _ => None)
    case OpenBlob(t) =>
      (match PcOf(s, t)
       case GetFound(key) =>
         Some(WithThread(s, t, if key in s.fs.dir then Reading(key, s.fs.dir[key], []) else Failed))
       case _ => None)
    case ReadSome(t, n) =>
      (match PcOf(s, t)
       case Reading(key, node, got) =>
         if node in s.fs.nodes && 0 < n && |got| + n <= |s.fs.nodes[node]| then
           Some(WithThread(s, t, Reading(key, node, got + s.fs.nodes[node][|got|..|got| + n])))
         else None
       case _ => None)
    case EndGet(t) =>
      (match PcOf(s, t)
       case Reading(key, node, got) =>
         if node in s.fs.nodes && |got| >= |s.fs.nodes[node]|
         then Some(WithThread(s, t, GetDone(key, Some(got)))) else None
       case _ => None)
    case Finish(t) =>
      if PcOf(s, t).GetDone? then Some(WithThread(s, t, Idle)) else None
  }

  // ---- the hypotheses ----

  predicate Ordinary(key: string) {
    !EndsWith(key, ".tmp")
  }

  predicate Putting(pc: Pc, key: string) {
    (pc.PutReady? || pc.Writing?) && pc.key == key
  }

  /** No key ends in `.tmp`, and no PUT begins while another of the same key is in flight. */
  ghost predicate Admitted(s: State, step: Step) {
    && (step.BeginPut? ==>
          Ordinary(step.key) && forall t :: t in s.threads ==> !Putting(s.threads[t], step.key))
    && (step.BeginGet? ==> Ordinary(step.key))
  }

  // ---- the invariant ----

  ghost predicate DirSound(fs: Fs) {
    && (forall p :: p in fs.dir ==> fs.dir[p] in fs.nodes)
    && (forall n :: n in fs.nodes ==> n < fs.next)
    && (forall p, q :: p in fs.dir && q in fs.dir && p != q ==> fs.dir[p] != fs.dir[q])
  }

  ghost predicate ThreadSound(fs: Fs, pc: Pc) {
    match pc
    case PutReady(key, _) => Ordinary(key)
    case Writing(key, data, node, written) =>
      && Ordinary(key) && TempPath(key) in fs.dir && fs.dir[TempPath(key)] == node
      && node in fs.nodes
      && written <= |data| && fs.nodes[node] == data[..written]
    case GetReady(key) => Ordinary(key)
    case GetFound(key) => Ordinary(key) && key in fs.dir
    case Reading(key, node, got) =>
      && node in fs.nodes && got <= fs.nodes[node]
      && forall p :: p in fs.dir && fs.dir[p] == node ==> Ordinary(p)
    case _ => true
  }

  /** The two threads are not both putting the same key. */
  predicate Apart(a: Pc, b: Pc) {
    a.PutReady? || a.Writing? ==> !Putting(b, a.key)
  }

  ghost predicate Inv(s: State) {
    && DirSound(s.fs)
    && (forall t :: t in s.threads ==> ThreadSound(s.fs, s.threads[t]))
    && (forall t, u :: t in s.threads && u in s.threads && t != u ==> Apart(s.threads[t], s.threads[u]))
  }

  /** The plain map the store amounts to: the file named by each ordinary key. */
  ghost function Abs(fs: Fs): map<string, Bytes>
    requires DirSound(fs)
  {
    map key | key in fs.dir && Ordinary(key) :: fs.nodes[fs.dir[key]]
  }

  lemma TempIsNotOrdinary(key: string)
    ensures !Ordinary(TempPath(key))
  {
    assert TempPath(key)[|key|..] == ".tmp";
  }

  lemma TempInjective(a: string, b: string)
    requires TempPath(a) == TempPath(b)
    ensures a == b
  {
    assert a == TempPath(a)[..|TempPath(a)| - 4] == b;
  }

  // ---- single steps ----

  /** A step that leaves the files alone keeps the invariant if it keeps its own thread sound. */
  lemma ThreadStepKeeps(s: State, t: nat, pc: Pc)
    requires Inv(s) && ThreadSound(s.fs, pc)
    requires forall u :: u in s.threads && u != t ==> Apart(pc, s.threads[u]) && Apart(s.threads[u], pc)
    ensures Inv(WithThread(s, t, pc))
  {
    hide ThreadSound, DirSound, Apart;
  }

  /** A step that changes the files keeps the invariant if every other thread stays sound. */
  lemma FileStepKeeps(s: State, fs: Fs, t: nat, pc: Pc)
    requires Inv(s) && DirSound(fs) && ThreadSound(fs, pc)
    requires t in s.threads
    requires forall key :: Putting(pc, key) ==> Putting(s.threads[t], key)
    requires forall u :: u in s.threads && u != t ==> ThreadSound(fs, s.threads[u])
    ensures Inv(WithThread(s.(fs := fs), t, pc))
  {
    hide ThreadSound, DirSound;
    forall u | u in s.threads && u != t ensures Apart(pc, s.threads[u]) && Apart(s.threads[u], pc) {
      assert Apart(s.threads[t], s.threads[u]) && Apart(s.threads[u], s.threads[t]);
      if pc.PutReady? || pc.Writing? {
        assert Putting(pc, pc.key);
      }
    }
  }

  lemma OpenTempFs(fs: Fs, key: string)
    requires DirSound(fs) && Ordinary(key)
    ensures var fs' := OpenForWriting(fs, TempPath(key));
            && DirSound(fs') && TempPath(key) in fs'.dir
            && fs'.nodes[fs'.dir[TempPath(key)]] == []
            && Abs(fs') == Abs(fs)
            && (forall pc :: ThreadSound(fs, pc) && !Putting(pc, key) ==> ThreadSound(fs', pc))
  {
    var tmp := TempPath(key);
    TempIsNotOrdinary(key);
    var fs' := OpenForWriting(fs, tmp);
    forall pc | ThreadSound(fs, pc) && !Putting(pc, key) ensures ThreadSound(fs', pc) {
      if pc.Writing? && TempPath(pc.key) == tmp {
        TempInjective(pc.key, key);
      }
    }
  }

  lemma WriteFs(fs: Fs, key: string, data: Bytes, node: nat, written: nat, n: nat)
    requires DirSound(fs) && ThreadSound(fs, Writing(key, data, node, written))
    requires n <= |data| - written
    ensures var bytes := WriteAt(fs.nodes[node], written, data[written..written + n]);
            var fs' := fs.(nodes := fs.nodes[node := bytes]);
            && DirSound(fs') && ThreadSound(fs', Writing(key, data, node, written + n))
            && Abs(fs') == Abs(fs)
            && (forall pc :: ThreadSound(fs, pc) && !Putting(pc, key) ==> ThreadSound(fs', pc))
  {
    TempIsNotOrdinary(key);
    var bytes := WriteAt(fs.nodes[node], written, data[written..written + n]);
    assert bytes == data[..written + n];
    var fs' := fs.(nodes := fs.nodes[node := bytes]);
    forall pc | ThreadSound(fs, pc) && !Putting(pc, key) ensures ThreadSound(fs', pc) {
      if pc.Writing? && TempPath(pc.key) == TempPath(key) {
        TempInjective(pc.key, key);
      }
    }
  }

  lemma ReplaceFs(fs: Fs, key: string, data: Bytes, node: nat)
    requires DirSound(fs) && ThreadSound(fs, Writing(key, data, node, |data|))
    ensures var tmp := TempPath(key);
            var fs' := fs.(dir := (fs.dir - {tmp})[key := fs.dir[tmp]]);
            && DirSound(fs')
            && Abs(fs') == Abs(fs)[key := data]
            && (forall pc :: ThreadSound(fs, pc) && !Putting(pc, key) ==> ThreadSound(fs', pc))
  {
    var tmp := TempPath(key);
    TempIsNotOrdinary(key);
    var fs' := fs.(dir := (fs.dir - {tmp})[key := fs.dir[tmp]]);
    assert data[..|data|] == data;
    forall pc | ThreadSound(fs, pc) && !Putting(pc, key) ensures ThreadSound(fs', pc) {
      if pc.Writing? {
        TempIsNotOrdinary(pc.key);
        if TempPath(pc.key) == tmp {
          TempInjective(pc.key, key);
        }
      }
    }
  }

  /** The step completes a PUT of `data` under `key`. */
  ghost predicate Lands(s: State, step: Step, key: string, data: Bytes) {
    step.Replace? && PcOf(s, step.t).Writing? && PcOf(s, step.t).key == key && PcOf(s, step.t).data == data
  }

  lemma OthersApart(s: State, t: nat, key: string)
    requires Inv(s) && t in s.threads && Putting(s.threads[t], key)
    ensures forall u :: u in s.threads && u != t ==> !Putting(s.threads[u], key)
  {
    hide ThreadSound, DirSound;
    forall u | u in s.threads && u != t ensures !Putting(s.threads[u], key) {
      assert Apart(s.threads[t], s.threads[u]);
    }
  }

  /** Every step keeps the invariant; only the rename of a PUT changes the plain map, by exactly that
      PUT, and it never fails. */
  lemma StepRefines(s: State, step: Step)
    requires Inv(s) && Admitted(s, step) && Next(s, step).Some?
    ensures var s' := Next(s, step).value;
            && Inv(s')
            && (if step.Replace? then
                  Abs(s'.fs) == Abs(s.fs)[PcOf(s, step.t).key := PcOf(s, step.t).data] && PcOf(s', step.t) == Idle
                else
                  Abs(s'.fs) == Abs(s.fs))
            && !PcOf(s', step.t).Failed?
  {
    var t := step.t;
    match step
    case OpenTemp(_) =>
      OpenTempRefines(s, t);
    case WriteSome(_, n) =>
      WriteRefines(s, t, n);
    case Replace(_) =>
      ReplaceRefines(s, t);
    case _ =>
      OtherRefines(s, step);
  }

  lemma OpenTempRefines(s: State, t: nat)
    requires Inv(s) && Next(s, OpenTemp(t)).Some?
    ensures var s' := Next(s, OpenTemp(t)).value;
            Inv(s') && Abs(s'.fs) == Abs(s.fs) && !PcOf(s', t).Failed?
  {
    hide DirSound, ThreadSound, Abs;
    var PutReady(key, data) := PcOf(s, t);
    PutReadyIsOrdinary(s.fs, PcOf(s, t));
    OpenTempFs(s.fs, key);
    OthersApart(s, t, key);
    var fs := OpenForWriting(s.fs, TempPath(key));
    OpenedIsSound(fs, key, data);
    FileStepKeeps(s, fs, t, Writing(key, data, fs.dir[TempPath(key)], 0));
  }

  lemma PutReadyIsOrdinary(fs: Fs, pc: Pc)
    requires ThreadSound(fs, pc) && pc.PutReady?
    ensures Ordinary(pc.key)
  {
  }

  lemma OpenedIsSound(fs: Fs, key: string, data: Bytes)
    requires DirSound(fs) && Ordinary(key) && TempPath(key) in fs.dir
    requires fs.nodes[fs.dir[TempPath(key)]] == []
    ensures ThreadSound(fs, Writing(key, data, fs.dir[TempPath(key)], 0))
  {
  }

  lemma WriteRefines(s: State, t: nat, n: nat)
    requires Inv(s) && Next(s, WriteSome(t, n)).Some?
    ensures var s' := Next(s, WriteSome(t, n)).value;
            Inv(s') && Abs(s'.fs) == Abs(s.fs) && !PcOf(s', t).Failed?
  {
    hide DirSound, ThreadSound, Abs, WriteAt;
    var Writing(key, data, node, written) := PcOf(s, t);
    WriteFs(s.fs, key, data, node, written, n);
    OthersApart(s, t, key);
    var bytes := WriteAt(s.fs.nodes[node], written, data[written..written + n]);
    FileStepKeeps(s, s.fs.(nodes := s.fs.nodes[node := bytes]), t, Writing(key, data, node, written + n));
  }

  lemma ReplaceRefines(s: State, t: nat)
    requires Inv(s) && Next(s, Replace(t)).Some?
    ensures var s' := Next(s, Replace(t)).value;
            && Inv(s') && PcOf(s', t) == Idle
            && Abs(s'.fs) == Abs(s.fs)[PcOf(s, t).key := PcOf(s, t).data]
  {
    hide DirSound, Abs;
    var Writing(key, data, node, written) := PcOf(s, t);
    var tmp := TempPath(key);
    assert ThreadSound(s.fs, s.threads[t]);
    hide ThreadSound;
    ReplaceFs(s.fs, key, data, node);
    OthersApart(s, t, key);
    IdleIsSound(s.fs.(dir := (s.fs.dir - {tmp})[key := s.fs.dir[tmp]]));
    FileStepKeeps(s, s.fs.(dir := (s.fs.dir - {tmp})[key := s.fs.dir[tmp]]), t, Idle);
  }

  lemma IdleIsSound(fs: Fs)
    ensures ThreadSound(fs, Idle)
  {
  }

  lemma OtherRefines(s: State, step: Step)
    requires Inv(s) && Admitted(s, step) && Next(s, step).Some?
    requires !step.OpenTemp? && !step.WriteSome? && !step.Replace?
    ensures var s' := Next(s, step).value;
            Inv(s') && s'.fs == s.fs && !PcOf(s', step.t).Failed?
  {
    var t := step.t;
    var s' := Next(s, step).value;
    var pc := PcOf(s', t);
    assert s' == WithThread(s, t, pc);
    NextPcSound(s, step);
    forall u | u in s.threads && u != t ensures Apart(pc, s.threads[u]) && Apart(s.threads[u], pc) {
    }
    ThreadStepKeeps(s, t, pc);
  }

  lemma NextPcSound(s: State, step: Step)
    requires Inv(s) && Admitted(s, step) && Next(s, step).Some?
    requires !step.OpenTemp? && !step.WriteSome? && !step.Replace?
    ensures ThreadSound(s.fs, PcOf(Next(s, step).value, step.t)) && !PcOf(Next(s, step).value, step.t).Failed?
  {
  }
}
