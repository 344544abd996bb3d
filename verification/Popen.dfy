/** my_popen and my_pclose over the table of live streams, and who holds which pipe end. */
module Popen {
  import opened Descriptors

  type Stream = nat
  type Pid = nat

  // ---------- what the calls compute ----------

  /** fd[is_write]: the number the parent keeps. */
  function Kept(write: bool, rd: nat, wr: nat): nat { if write then wr else rd }

  /** fd[!is_write]: the number the child keeps. */
  function Given(write: bool, rd: nat, wr: nat): nat { if write then rd else wr }

  /** The child's end becomes its standard input or standard output. */
  function Std(write: bool): nat { if write then 0 else 1 }

  /** The descriptors of all streams in the table. */
  function StreamFds(files: map<Stream, nat>, live: set<Stream>): set<nat>
    requires live <= files.Keys
  {
    set s | s in live :: files[s]
  }

  lemma StreamFdsAdd(files: map<Stream, nat>, done: set<Stream>, fp: Stream)
    requires done <= files.Keys && fp in files
    ensures StreamFds(files, done + {fp}) == StreamFds(files, done) + {files[fp]}
  {
  }

  /** The parent's table after my_popen made pipe `id`. */
  function ParentTable(t: Table, write: bool, rd: nat, wr: nat, id: nat): Table {
    Close(Pipe(t, rd, wr, id), Given(write, rd, wr))
  }

  /** The table the forked child executes its command with. */
  function ChildTable(t: Table, streams: set<nat>, write: bool, rd: nat, wr: nat, id: nat): Table {
    var own := Close(Pipe(t, rd, wr, id) - streams, Kept(write, rd, wr));
    var given := Given(write, rd, wr);
    if given != Std(write) then Close(Dup2(own, given, Std(write)), given) else own
  }

  function KeptEnd(write: bool, id: nat): End { if write then WriteEnd(id) else ReadEnd(id) }

  function GivenEnd(write: bool, id: nat): End { if write then ReadEnd(id) else WriteEnd(id) }

  /** The parent gains its own end and nothing else. */
  lemma ParentTableIs(t: Table, write: bool, rd: nat, wr: nat, id: nat)
    requires CanPipe(t, rd, wr)
    ensures ParentTable(t, write, rd, wr, id) == if write then t[wr := WriteEnd(id)] else t[rd := ReadEnd(id)]
  {
  }

  /**
   * The child has the parent's table without the streams, and its end at the standard descriptor,
   * whichever two unused numbers pipe returned: 0 and 1 are no exception.
   */
  lemma ChildTableIs(t: Table, streams: set<nat>, write: bool, rd: nat, wr: nat, id: nat)
    requires CanPipe(t, rd, wr) && streams <= t.Keys
    ensures ChildTable(t, streams, write, rd, wr, id) ==
            if write then (t - streams)[0 := ReadEnd(id)] else (t - streams)[1 := WriteEnd(id)]
  {
    var own := Close(Pipe(t, rd, wr, id) - streams, Kept(write, rd, wr));
    assert own == (t - streams)[Given(write, rd, wr) := GivenEnd(write, id)];
  }

  // ---------- one process image ----------

  /** The memory and descriptors of one process; fork copies all of it. */
  class Process {
    var fds: Table
    var files: map<Stream, nat>
    var dict: map<Stream, Pid>

    constructor (fds: Table, files: map<Stream, nat>, dict: map<Stream, Pid>)
      ensures this.fds == fds && this.files == files && this.dict == dict
    {
      this.fds, this.files, this.dict := fds, files, dict;
    }

    method Fclose(fp: Stream)
      requires fp in files
      modifies this
      ensures fds == Close(old(fds), old(files)[fp]) && files == old(files) - {fp} && dict == old(dict)
    {
      fds, files := Close(fds, files[fp]), files - {fp};
    }

    /** unordered_map::insert leaves an existing key as it is. */
    method Insert(pid: Pid, fp: Stream)
      modifies this
      ensures dict == if fp in old(dict) then old(dict) else old(dict)[fp := pid]
      ensures fds == old(fds) && files == old(files)
    {
      if fp !in dict {
        dict := dict[fp := pid];
      }
    }

    /** Closes every stream in the table, in whatever order the map yields them, and empties it. */
    method Drop()
      requires dict.Keys <= files.Keys
      modifies this
      ensures fds == old(fds) - StreamFds(old(files), old(dict).Keys)
      ensures files == old(files) - old(dict).Keys && dict == map[]
    {
      ghost var fds0, files0, dict0 := fds, files, dict;
      var left := dict.Keys;
      ghost var done: set<Stream> := {};
      while left != {}
        invariant dict == dict0 && left + done == dict0.Keys && left !! done
        invariant files == files0 - done
        invariant fds == fds0 - StreamFds(files0, done)
        decreases left
      {
        var fp :| fp in left;
        StreamFdsAdd(files0, done, fp);
        Fclose(fp);
        left, done := left - {fp}, done + {fp};
      }
      assert done == dict0.Keys;
      dict := map[];
    }

    method Erase(fp: Stream)
      modifies this
      ensures dict == old(dict) - {fp} && fds == old(fds) && files == old(files)
    {
      dict := dict - {fp};
    }

    method GetPid(fp: Stream) returns (pid: Pid)
      requires fp in dict
      ensures pid == dict[fp]
    {
      pid := dict[fp];
    }

    /** `rd`, `wr`, `pid` and `fp` are what pipe, fork and fdopen return; `id` names the pipe. */
    method MyPopen(kind: char, rd: nat, wr: nat, pid: Pid, fp: Stream, id: nat) returns (child: Process)
      requires CanPipe(fds, rd, wr) && fp !in files && dict.Keys <= files.Keys
      modifies this
      ensures fds == ParentTable(old(fds), kind != 'r', rd, wr, id)
      ensures files == old(files)[fp := Kept(kind != 'r', rd, wr)]
      ensures dict == old(dict)[fp := pid]
      ensures fresh(child)
      ensures child.fds ==
              ChildTable(old(fds), StreamFds(old(files), old(dict).Keys), kind != 'r', rd, wr, id)
      ensures child.dict == map[]
      ensures fds == if kind == 'r' then old(fds)[rd := ReadEnd(id)] else old(fds)[wr := WriteEnd(id)]
      ensures files[fp] == if kind == 'r' then rd else wr
      ensures var streams := StreamFds(old(files), old(dict).Keys);
              streams <= old(fds).Keys ==>
                child.fds == if kind == 'r' then (old(fds) - streams)[1 := WriteEnd(id)]
                             else (old(fds) - streams)[0 := ReadEnd(id)]
    {
      ParentTableIs(fds, kind != 'r', rd, wr, id);
      ghost var streams := StreamFds(files, dict.Keys);
      if streams <= fds.Keys { ChildTableIs(fds, streams, kind != 'r', rd, wr, id); }
      var isWrite := kind != 'r';
      fds := Pipe(fds, rd, wr, id);
      child := new Process(fds, files, dict);
      child.RunChild(isWrite, rd, wr);
      files := files[fp := if isWrite then wr else rd];
      fds := Close(fds, if isWrite then rd else wr);
      Insert(pid, fp);
    }

    /** The child's branch, up to execl. */
    method RunChild(isWrite: bool, rd: nat, wr: nat)
      requires dict.Keys <= files.Keys
      modifies this
      ensures dict == map[]
      ensures var rest := old(fds) - StreamFds(old(files), old(dict).Keys);
              if isWrite then fds == if rd == 0 then Close(rest, wr) else Close(Dup2(Close(rest, wr), rd, 0), rd)
              else fds == if wr == 1 then Close(rest, rd) else Close(Dup2(Close(rest, rd), wr, 1), wr)
    {
      Drop();
      fds := Close(fds, if isWrite then wr else rd);
      var given, std := if isWrite then rd else wr, if isWrite then 0 else 1;
      if given != std {
        fds := Dup2(fds, given, std);
        fds := Close(fds, given);
      }
    }

    /** Closes the stream, forgets it, and yields the process that waitpid is then called for. */
    method MyPclose(fp: Stream) returns (pid: Pid)
      requires fp in dict && fp in files
      modifies this
      ensures pid == old(dict)[fp]
      ensures fds == Close(old(fds), old(files)[fp]) && files == old(files) - {fp} && dict == old(dict) - {fp}
    {
      pid := GetPid(fp);
      Fclose(fp);
      Erase(fp);
    }
  }

  // ---------- the wait ----------

  /** How one waitpid call ends. */
  datatype Answer = Reaped(pid: Pid) | Eintr | Failed

  /**
   * my_pclose's loop: `asked` is what the last waitpid call was for, -1 meaning any child, and `reaped` what it
   * returned. The result of an interrupted call overwrites the process it was for.
   */
  method Await(own: Pid, answers: seq<Answer>) returns (asked: int, reaped: int)
    requires exists k :: 0 <= k < |answers| && answers[k] != Eintr
    ensures exists k :: 0 <= k < |answers| && answers[k] != Eintr && (forall j :: 0 <= j < k ==> answers[j] == Eintr)
                        && asked == (if k == 0 then own else -1)
                        && reaped == if answers[k].Reaped? then answers[k].pid else -1
  {
    var k := 0;
    asked := own;
    while answers[k] == Eintr
      invariant k < |answers| && forall j :: 0 <= j < k ==> answers[j] == Eintr
      invariant asked == if k == 0 then own else -1
      decreases |answers| - k
    {
      asked := -1;
      k := k + 1;
    }
    reaped := if answers[k].Reaped? then answers[k].pid else -1;
  }

  // ---------- the parent and all its children ----------

  /** A forked child: its descriptors, whether it still runs, and the pipe and direction it was forked for. */
  datatype Child = Child(fds: Table, running: bool, write: bool, pipe: nat)

  /** What my_pclose is blocked on: its own child, or any child once a signal has interrupted the wait. */
  datatype Waiting = Nobody | ForChild(pid: Pid, pipe: nat) | ForAny(pipe: nat)

  /**
   * `made[i]` is the stream pipe `i` was made for; `wait` is what my_pclose is blocked on, with the pipe of the stream
   * it closed; `interrupted` tells whether a wait was ever interrupted.
   */
  datatype World = World(fds: Table, files: map<Stream, nat>, dict: map<Stream, Pid>,
                         kids: map<Pid, Child>, made: seq<Stream>, wait: Waiting, interrupted: bool)

  /**
   * popen and the two halves of pclose, the second of which may be interrupted, reap a child or find none;
   * a child that ends; and the parent opening or closing some descriptor that has nothing to do with a stream.
   */
  datatype Action =
    | DoPopen(write: bool, rd: nat, wr: nat, pid: Pid, fp: Stream)
    | DoClose(fp: Stream)
    | Interrupt
    | DoReap(pid: Pid)
    | NoChild
    | ChildEnds(pid: Pid)
    | OpenOther(fd: nat, id: nat)
    | CloseOther(fd: nat)

  /** waitpid can return this child. */
  predicate Awaited(w: World, pid: Pid) {
    w.wait.ForAny? || (w.wait.ForChild? && w.wait.pid == pid)
  }

  /** pipe yields unused numbers, fork an unused process id, fdopen a stream that is not open. */
  predicate Enabled(w: World, a: Action) {
    match a
    case DoPopen(_, rd, wr, pid, fp) => w.wait.Nobody? && CanPipe(w.fds, rd, wr) && pid !in w.kids && fp !in w.files
    case DoClose(fp) =>
      w.wait.Nobody? && fp in w.files && fp in w.dict && w.files[fp] in w.fds && !w.fds[w.files[fp]].Other?
    case Interrupt => !w.wait.Nobody?
    case DoReap(pid) => Awaited(w, pid) && pid in w.kids && !w.kids[pid].running
    case NoChild => !w.wait.Nobody? && forall p :: p in w.kids ==> !Awaited(w, p)
    case ChildEnds(pid) => pid in w.kids
    case OpenOther(fd, _) => w.wait.Nobody? && fd !in w.fds
    case CloseOther(fd) => w.wait.Nobody? && fd in w.fds && w.fds[fd].Other?
  }

  function Step(w: World, a: Action): World
    requires Enabled(w, a) && w.dict.Keys <= w.files.Keys
  {
    match a
    case DoPopen(write, rd, wr, pid, fp) =>
      var child := ChildTable(w.fds, StreamFds(w.files, w.dict.Keys), write, rd, wr, |w.made|);
      World(ParentTable(w.fds, write, rd, wr, |w.made|),
            w.files[fp := Kept(write, rd, wr)],
            if fp in w.dict then w.dict else w.dict[fp := pid],
            w.kids[pid := Child(child, true, write, |w.made|)],
            w.made + [fp], Nobody, w.interrupted)
    case DoClose(fp) =>
      w.(fds := Close(w.fds, w.files[fp]), files := w.files - {fp}, dict := w.dict - {fp},
         wait := ForChild(w.dict[fp], w.fds[w.files[fp]].pipe))
    case Interrupt => w.(wait := ForAny(w.wait.pipe), interrupted := true)
    case DoReap(pid) => w.(kids := w.kids - {pid}, wait := Nobody)
    case NoChild => w.(wait := Nobody)
    case ChildEnds(pid) => w.(kids := w.kids[pid := w.kids[pid].(fds := map[], running := false)])
    case OpenOther(fd, id) => w.(fds := w.fds[fd := Other(id)])
    case CloseOther(fd) => w.(fds := Close(w.fds, fd))
  }

  // ---------- invariant ----------

  function Opposite(e: End): End {
    match e
    case ReadEnd(p) => WriteEnd(p)
    case WriteEnd(p) => ReadEnd(p)
    case Other(_) => e
  }

  /** `e` is an end of the pipe made for `s`. */
  predicate MadeFor(w: World, e: End, s: Stream) {
    !e.Other? && e.pipe < |w.made| && w.made[e.pipe] == s
  }

  /** The live streams are exactly the keys of the table, each on its own descriptor and pipe. */
  ghost predicate StreamsOk(w: World) {
    && w.dict.Keys == w.files.Keys
    && (forall s :: s in w.files ==> w.files[s] in w.fds && MadeFor(w, w.fds[w.files[s]], s))
    && (forall fd :: fd in w.fds && !w.fds[fd].Other? ==>
          w.fds[fd].pipe < |w.made|
          && w.made[w.fds[fd].pipe] in w.files && w.files[w.made[w.fds[fd].pipe]] == fd)
  }

  /** A child holds its end of its own pipe at its standard descriptor, while it runs, and no other pipe end. */
  ghost predicate ChildOk(c: Child) {
    && (forall fd :: fd in c.fds && !c.fds[fd].Other? ==> fd == Std(c.write) && c.fds[fd] == GivenEnd(c.write, c.pipe))
    && (!c.running ==> c.fds == map[])
    && (c.running ==> Std(c.write) in c.fds && c.fds[Std(c.write)] == GivenEnd(c.write, c.pipe))
  }

  /** Every child has a pipe of its own, and the parent holds at most the other end of it. */
  ghost predicate KidsOk(w: World) {
    && (forall p :: p in w.kids ==> ChildOk(w.kids[p]) && w.kids[p].pipe < |w.made|)
    && (forall p, q :: p in w.kids && q in w.kids && w.kids[p].pipe == w.kids[q].pipe ==> p == q)
    && (forall p, fd :: p in w.kids && fd in w.fds && !w.fds[fd].Other? && w.fds[fd].pipe == w.kids[p].pipe ==>
          w.fds[fd] == KeptEnd(w.kids[p].write, w.kids[p].pipe))
  }

  /** The table knows the child of every live stream. */
  ghost predicate OwnersOk(w: World) {
    w.dict.Keys <= w.files.Keys
    && forall s :: s in w.dict ==>
         && w.dict[s] in w.kids && w.files[s] in w.fds && !w.fds[w.files[s]].Other?
         && w.kids[w.dict[s]].pipe == w.fds[w.files[s]].pipe
  }

  /** The child waited for is that of the stream just closed. */
  ghost predicate WaitOk(w: World) {
    && !w.wait.ForAny?
    && (w.wait.ForChild? ==>
          && w.wait.pid in w.kids && w.kids[w.wait.pid].pipe == w.wait.pipe
          && forall fd :: fd in w.fds && !w.fds[fd].Other? ==> w.fds[fd].pipe != w.wait.pipe)
  }

  ghost predicate Inv(w: World) {
    StreamsOk(w) && KidsOk(w) && (!w.interrupted ==> OwnersOk(w) && WaitOk(w))
  }

  lemma StreamsOpen(w: World)
    requires Inv(w)
    ensures var streams := StreamFds(w.files, w.dict.Keys);
            streams <= w.fds.Keys && NoPipes(w.fds - streams)
  {
  }

  /** The child of a new stream holds the other end of its pipe and no other pipe end. */
  lemma NewChildOk(t: Table, streams: set<nat>, write: bool, rd: nat, wr: nat, id: nat)
    requires CanPipe(t, rd, wr) && streams <= t.Keys && NoPipes(t - streams)
    ensures ChildOk(Child(ChildTable(t, streams, write, rd, wr, id), true, write, id))
  {
    ChildTableIs(t, streams, write, rd, wr, id);
  }

  lemma PopenStep(w: World, a: Action)
    requires Inv(w) && a.DoPopen? && Enabled(w, a)
    ensures var v := Step(w, a);
            && v.fds == w.fds[Kept(a.write, a.rd, a.wr) := KeptEnd(a.write, |w.made|)]
            && v.kids == w.kids[a.pid := v.kids[a.pid]] && v.dict == w.dict[a.fp := a.pid]
            && v.kids[a.pid].running && v.kids[a.pid].write == a.write && v.kids[a.pid].pipe == |w.made|
            && ChildOk(v.kids[a.pid])
  {
    StreamsOpen(w);
    ParentTableIs(w.fds, a.write, a.rd, a.wr, |w.made|);
    NewChildOk(w.fds, StreamFds(w.files, w.dict.Keys), a.write, a.rd, a.wr, |w.made|);
  }

  /** One more stream, on a fresh descriptor and a fresh pipe. */
  lemma MoreStreams(w: World, v: World, fp: Stream, kept: nat, e: End)
    requires StreamsOk(w) && fp !in w.files && kept !in w.fds && !e.Other? && e.pipe == |w.made|
    requires v.fds == w.fds[kept := e] && v.files == w.files[fp := kept] && v.made == w.made + [fp]
    requires v.dict.Keys == v.files.Keys
    ensures StreamsOk(v)
  {
    forall s | s in v.files ensures v.files[s] in v.fds && MadeFor(v, v.fds[v.files[s]], s) {
      if s != fp { assert w.files[s] in w.fds && MadeFor(w, w.fds[w.files[s]], s); }
    }
    forall fd | fd in v.fds && !v.fds[fd].Other?
      ensures v.fds[fd].pipe < |v.made|
      ensures v.made[v.fds[fd].pipe] in v.files && v.files[v.made[v.fds[fd].pipe]] == fd
    {
      if fd != kept { assert w.made[w.fds[fd].pipe] in w.files; }
    }
  }

  lemma PopenKeepsStreams(w: World, a: Action)
    requires Inv(w) && a.DoPopen? && Enabled(w, a)
    ensures StreamsOk(Step(w, a))
  {
    PopenStep(w, a);
    MoreStreams(w, Step(w, a), a.fp, Kept(a.write, a.rd, a.wr), KeptEnd(a.write, |w.made|));
  }

  lemma PopenKeepsKids(w: World, a: Action)
    requires Inv(w) && a.DoPopen? && Enabled(w, a)
    ensures KidsOk(Step(w, a))
  {
    PopenStep(w, a);
  }

  lemma PopenKeepsOwners(w: World, a: Action)
    requires Inv(w) && a.DoPopen? && Enabled(w, a) && !w.interrupted
    ensures OwnersOk(Step(w, a)) && WaitOk(Step(w, a))
  {
    PopenStep(w, a);
  }

  /** One stream less, and its descriptor with it. */
  lemma FewerStreams(w: World, v: World, fp: Stream)
    requires StreamsOk(w) && fp in w.files && v.made == w.made
    requires v.fds == w.fds - {w.files[fp]} && v.files == w.files - {fp} && v.dict == w.dict - {fp}
    ensures StreamsOk(v)
  {
    forall s | s in v.files ensures v.files[s] in v.fds && MadeFor(v, v.fds[v.files[s]], s) {
      assert MadeFor(w, w.fds[w.files[s]], s) && MadeFor(w, w.fds[w.files[fp]], fp);
    }
  }

  lemma CloseKeepsStreams(w: World, a: Action)
    requires Inv(w) && a.DoClose? && Enabled(w, a)
    ensures StreamsOk(Step(w, a))
  {
    FewerStreams(w, Step(w, a), a.fp);
  }

  lemma CloseKeepsKids(w: World, a: Action)
    requires Inv(w) && a.DoClose? && Enabled(w, a)
    ensures KidsOk(Step(w, a))
  {
  }

  /** The same pipe ends at the same descriptors. */
  ghost predicate SamePipes(t: Table, u: Table) {
    && (forall fd :: fd in t && !t[fd].Other? ==> fd in u && u[fd] == t[fd])
    && (forall fd :: fd in u && !u[fd].Other? ==> fd in t && u[fd] == t[fd])
  }

  /** A change that leaves the parent's pipe ends, the streams and the table as they are. */
  lemma SamePipesKeep(w: World, v: World)
    requires StreamsOk(w) && SamePipes(w.fds, v.fds) && v.files == w.files && v.dict == w.dict && v.made == w.made
    ensures StreamsOk(v)
    ensures forall s :: s in v.files ==> v.files[s] in v.fds && v.fds[v.files[s]] == w.fds[w.files[s]]
  {
    forall s | s in v.files ensures v.files[s] in v.fds && v.fds[v.files[s]] == w.fds[w.files[s]] {
      assert MadeFor(w, w.fds[w.files[s]], s);
    }
  }

  lemma SamePipesKeepKids(w: World, v: World)
    requires KidsOk(w) && SamePipes(w.fds, v.fds) && v.kids == w.kids && v.made == w.made
    ensures KidsOk(v)
  {
  }

  lemma SamePipesKeepOwners(w: World, v: World)
    requires StreamsOk(w) && OwnersOk(w) && WaitOk(w) && SamePipes(w.fds, v.fds)
    requires v.files == w.files && v.dict == w.dict && v.made == w.made && v.kids == w.kids && v.wait == w.wait
    ensures OwnersOk(v) && WaitOk(v)
  {
    SamePipesKeep(w, v);
  }

  lemma OtherSamePipes(t: Table, fd: nat, id: nat)
    ensures fd !in t ==> SamePipes(t, t[fd := Other(id)])
    ensures fd in t && t[fd].Other? ==> SamePipes(t, Close(t, fd))
  {
  }

  lemma OwnFdsKeep(w: World, a: Action)
    requires Inv(w) && (a.OpenOther? || a.CloseOther?) && Enabled(w, a)
    ensures Inv(Step(w, a))
  {
    var v := Step(w, a);
    OtherSamePipes(w.fds, a.fd, if a.OpenOther? then a.id else 0);
    SamePipesKeep(w, v);
    SamePipesKeepKids(w, v);
    if !w.interrupted { SamePipesKeepOwners(w, v); }
  }

  lemma EndKeepsKids(w: World, a: Action)
    requires Inv(w) && a.ChildEnds? && Enabled(w, a)
    ensures KidsOk(Step(w, a))
  {
  }

  lemma EndKeepsOwners(w: World, a: Action)
    requires Inv(w) && a.ChildEnds? && Enabled(w, a) && !w.interrupted
    ensures OwnersOk(Step(w, a)) && WaitOk(Step(w, a))
  {
  }

  lemma ReapKeepsOwners(w: World, a: Action)
    requires Inv(w) && a.DoReap? && Enabled(w, a) && !w.interrupted
    ensures OwnersOk(Step(w, a)) && WaitOk(Step(w, a))
  {
    assert forall s :: s in w.dict ==> w.kids[w.dict[s]].pipe != w.wait.pipe;
  }

  lemma KidEventsKeep(w: World, a: Action)
    requires Inv(w) && (a.ChildEnds? || a.DoReap? || a.NoChild? || a.Interrupt?) && Enabled(w, a)
    ensures Inv(Step(w, a))
  {
    SamePipesKeep(w, Step(w, a));
    if a.ChildEnds? {
      EndKeepsKids(w, a);
      if !w.interrupted { EndKeepsOwners(w, a); }
    } else if a.DoReap? {
      if !w.interrupted { ReapKeepsOwners(w, a); }
    }
  }

  /** Descriptors of different streams are on different pipes. */
  lemma PipesDiffer(w: World, fp: Stream, fd: nat)
    requires StreamsOk(w) && fp in w.files && fd in w.fds && !w.fds[fd].Other? && fd != w.files[fp]
    ensures w.fds[fd].pipe != w.fds[w.files[fp]].pipe
  {
    assert MadeFor(w, w.fds[w.files[fp]], fp);
  }

  lemma CloseKeepsOwners(w: World, a: Action)
    requires Inv(w) && a.DoClose? && Enabled(w, a) && !w.interrupted
    ensures OwnersOk(Step(w, a)) && WaitOk(Step(w, a))
  {
    var v := Step(w, a);
    forall fd | fd in v.fds && !v.fds[fd].Other? ensures v.fds[fd].pipe != v.wait.pipe { PipesDiffer(w, a.fp, fd); }
    forall s | s in v.dict ensures w.files[s] != w.files[a.fp] {
      assert MadeFor(w, w.fds[w.files[s]], s) && MadeFor(w, w.fds[w.files[a.fp]], a.fp);
    }
  }

  lemma StepKeeps(w: World, a: Action)
    requires Inv(w) && Enabled(w, a)
    ensures Inv(Step(w, a))
  {
    if a.DoPopen? {
      PopenKeepsStreams(w, a);
      PopenKeepsKids(w, a);
      if !w.interrupted { PopenKeepsOwners(w, a); }
    } else if a.DoClose? {
      CloseKeepsStreams(w, a);
      CloseKeepsKids(w, a);
      if !w.interrupted { CloseKeepsOwners(w, a); }
    } else if a.OpenOther? || a.CloseOther? {
      OwnFdsKeep(w, a);
    } else {
      KidEventsKeep(w, a);
    }
  }

  // ---------- every sequence of calls ----------

  function Fresh(fds: Table): World { World(fds, map[], map[], map[], [], Nobody, false) }

  ghost predicate Runs(w: World, acts: seq<Action>, v: World)
    decreases |acts|
  {
    if acts == [] then w == v
    else w.dict.Keys <= w.files.Keys && Enabled(w, acts[0]) && Runs(Step(w, acts[0]), acts[1..], v)
  }

  lemma {:induction false} RunKeeps(w: World, acts: seq<Action>, v: World)
    requires Inv(w) && Runs(w, acts, v)
    ensures Inv(v) && (v.interrupted <==> w.interrupted || Interrupt in acts)
    decreases |acts|
  {
    if acts != [] {
      StepKeeps(w, acts[0]);
      RunKeeps(Step(w, acts[0]), acts[1..], v);
      assert acts == [acts[0]] + acts[1..];
    }
  }

  /**
   * The pipe of a live stream is private: one end with the parent, the other with the child forked for that pipe and
   * nobody else; interruptions do not change that. Without any, that child is the one the table names.
   */
  lemma PipePrivate(fds: Table, acts: seq<Action>, w: World, s: Stream, p: Pid)
    requires NoPipes(fds) && Runs(Fresh(fds), acts, w) && s in w.files && p in w.kids
    ensures s in w.dict && w.files[s] in w.fds && !w.fds[w.files[s]].Other?
    ensures var e := w.fds[w.files[s]];
            && HeldAt(w.fds, e, {w.files[s]}) && HeldAt(w.fds, Opposite(e), {})
            && HeldAt(w.kids[p].fds, e, {})
            && HeldAt(w.kids[p].fds, Opposite(e),
                      if w.kids[p].pipe == e.pipe && w.kids[p].running then {if e.WriteEnd? then 0 else 1} else {})
    ensures Interrupt !in acts ==> w.dict[s] in w.kids && (w.kids[p].pipe == w.fds[w.files[s]].pipe <==> p == w.dict[s])
  {
    RunKeeps(Fresh(fds), acts, w);
    HoldersOf(w, s, p);
  }

  lemma HoldersOf(w: World, s: Stream, p: Pid)
    requires Inv(w) && s in w.files && p in w.kids
    ensures var e := w.fds[w.files[s]];
            && HeldAt(w.fds, e, {w.files[s]}) && HeldAt(w.fds, Opposite(e), {})
            && HeldAt(w.kids[p].fds, e, {})
            && HeldAt(w.kids[p].fds, Opposite(e),
                      if w.kids[p].pipe == e.pipe && w.kids[p].running then {if e.WriteEnd? then 0 else 1} else {})
  {
    forall fd | fd in w.fds && !w.fds[fd].Other? && fd != w.files[s]
      ensures w.fds[fd].pipe != w.fds[w.files[s]].pipe
    {
      PipesDiffer(w, s, fd);
    }
  }

  /** insert never meets an existing key: the table's keys are exactly the open streams. */
  lemma TableIsOpenStreams(fds: Table, acts: seq<Action>, w: World)
    requires NoPipes(fds) && Runs(Fresh(fds), acts, w)
    ensures w.dict.Keys == w.files.Keys
    ensures forall a: Action :: a.DoPopen? && Enabled(w, a) ==> a.fp !in w.dict
  {
    RunKeeps(Fresh(fds), acts, w);
  }

  /** When my_pclose waits, nobody holds the parent's end; while nothing was interrupted, it waits for its own child. */
  lemma CloseWaitsForOwn(fds: Table, acts: seq<Action>, w: World, fp: Stream, p: Pid)
    requires NoPipes(fds) && Runs(Fresh(fds), acts, w) && w.wait.Nobody? && fp in w.files
    ensures w.dict.Keys <= w.files.Keys && Enabled(w, DoClose(fp))
    ensures var v, e := Step(w, DoClose(fp)), w.fds[w.files[fp]];
            && v.wait == ForChild(w.dict[fp], e.pipe)
            && HeldAt(v.fds, e, {}) && HeldAt(v.fds, Opposite(e), {})
            && (p in v.kids ==> HeldAt(v.kids[p].fds, e, {}))
            && (Interrupt !in acts ==> w.dict[fp] in v.kids && v.kids[w.dict[fp]].pipe == e.pipe)
  {
    RunKeeps(Fresh(fds), acts, w);
    assert MadeFor(w, w.fds[w.files[fp]], fp);
    forall fd | fd in w.fds && !w.fds[fd].Other? && fd != w.files[fp]
      ensures w.fds[fd].pipe != w.fds[w.files[fp]].pipe
    {
      PipesDiffer(w, fp, fd);
    }
    if p in w.kids { HoldersOf(w, fp, p); }
  }

  /** While nothing was interrupted, every wait ends by reaping the child of the stream that was closed, and only so. */
  lemma ReapsOwn(fds: Table, acts: seq<Action>, w: World, a: Action)
    requires NoPipes(fds) && Runs(Fresh(fds), acts, w) && Interrupt !in acts && Enabled(w, a)
    ensures a != NoChild && (a.DoReap? ==> w.wait.ForChild? && a.pid in w.kids && w.kids[a.pid].pipe == w.wait.pipe)
  {
    RunKeeps(Fresh(fds), acts, w);
  }

  lemma {:induction false} RunsConcat(u: World, acts: seq<Action>, v: World, more: seq<Action>, w: World)
    requires Runs(u, acts, v) && Runs(v, more, w)
    ensures Runs(u, acts + more, w)
    decreases |acts|
  {
    if acts == [] {
      assert [] + more == more;
    } else {
      RunsConcat(Step(u, acts[0]), acts[1..], v, more, w);
      assert (acts + more)[1..] == acts[1..] + more;
    }
  }

  lemma OneStep(w: World, a: Action)
    requires w.dict.Keys <= w.files.Keys && Enabled(w, a)
    ensures Runs(w, [a], Step(w, a))
  {
    assert [a][1..] == [];
  }

  /** The child of `u` ends, `s` is closed, and the wait for its child is interrupted. */
  lemma InterruptedClose(w: World, s: Stream, u: Stream) returns (w1: World, w2: World, v: World)
    requires Inv(w) && !w.interrupted && w.wait.Nobody? && s in w.files && u in w.files && s != u
    ensures u in w.dict && s in w.dict && w.dict.Keys <= w.files.Keys && Enabled(w, ChildEnds(w.dict[u]))
    ensures w1 == Step(w, ChildEnds(w.dict[u])) && w1.dict.Keys <= w1.files.Keys && Enabled(w1, DoClose(s))
    ensures w2 == Step(w1, DoClose(s)) && w2.dict.Keys <= w2.files.Keys && Enabled(w2, Interrupt)
    ensures v == Step(w2, Interrupt) && v.wait.ForAny? && Enabled(v, DoReap(w.dict[u]))
    ensures v.kids[w.dict[u]].pipe != v.wait.pipe
    ensures w.dict[s] in v.kids && v.kids[w.dict[s]].pipe == v.wait.pipe
  {
    assert MadeFor(w, w.fds[w.files[s]], s) && MadeFor(w, w.fds[w.files[u]], u);
    w1 := Step(w, ChildEnds(w.dict[u]));
    w2 := Step(w1, DoClose(s));
    v := Step(w2, Interrupt);
  }

  /**
   * After an interruption the wait is for any child: with two streams open, one child may end, and the interrupted
   * close of the other stream then reaps that child, while its own is still there.
   */
  lemma InterruptedReapsOther(fds: Table, acts: seq<Action>, w: World, s: Stream, u: Stream)
    returns (more: seq<Action>, v: World)
    requires NoPipes(fds) && Runs(Fresh(fds), acts, w) && Interrupt !in acts
    requires w.wait.Nobody? && s in w.files && u in w.files && s != u
    ensures Runs(Fresh(fds), acts + more, v) && u in w.dict && s in w.dict
    ensures v.wait.ForAny? && Enabled(v, DoReap(w.dict[u])) && v.kids[w.dict[u]].pipe != v.wait.pipe
    ensures w.dict[s] in v.kids && v.kids[w.dict[s]].pipe == v.wait.pipe
  {
    RunKeeps(Fresh(fds), acts, w);
    var a, b := ChildEnds(w.dict[u]), DoClose(s);
    var w1, w2;
    w1, w2, v := InterruptedClose(w, s, u);
    OneStep(w, a);
    OneStep(w1, b);
    OneStep(w2, Interrupt);
    RunsConcat(w, [a], w1, [b], w2);
    RunsConcat(w, [a] + [b], w2, [Interrupt], v);
    more := [a] + [b] + [Interrupt];
    RunsConcat(Fresh(fds), acts, w, more, v);
  }

  /** Two streams can be open: the case above arises. */
  lemma TwoStreams() returns (acts: seq<Action>, w: World)
    ensures Runs(Fresh(map[]), acts, w) && Interrupt !in acts && w.wait.Nobody? && 0 in w.files && 1 in w.files
  {
    var a, b := DoPopen(false, 3, 4, 10, 0), DoPopen(false, 5, 6, 11, 1);
    var w1 := Step(Fresh(map[]), a);
    w := Step(w1, b);
    OneStep(Fresh(map[]), a);
    OneStep(w1, b);
    RunsConcat(Fresh(map[]), [a], w1, [b], w);
    acts := [a] + [b];
  }
}
