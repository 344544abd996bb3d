/** The shell's pipeline: processes fork from the last command backwards and rewire their descriptors. */
module Pipeline {
  import opened Descriptors

  /**
   * Where a process stands in run_command. `Older` is the forking side of one round, `Younger` the forked side;
   * `k` counts the three descriptor calls each of them makes.
   */
  datatype Pc =
    | Loop
    | NeedPipe
    | NeedFork(rd: nat, wr: nat)
    | Older(k: nat, rd: nat, wr: nat)
    | Younger(k: nat, rd: nat, wr: nat)
    | Exec

  datatype Process = Process(fds: Table, pc: Pc, index: nat)

  /** All processes in the order they were forked, and the number of pipes made so far. */
  datatype System = System(procs: seq<Process>, pipes: nat)

  /** Process `i` makes its next call; `rd` and `wr` are what pipe returns, should it be that call. */
  datatype Action = Action(i: nat, rd: nat, wr: nat)

  /** The first child of the shell, about to enter the loop with index = number of commands. */
  function Start(shell: Table, n: nat): System {
    System([Process(shell, Loop, n)], 0)
  }

  predicate Enabled(s: System, a: Action) {
    a.i < |s.procs| &&
    var p := s.procs[a.i];
    match p.pc
    case Loop => p.index >= 1
    case NeedPipe => CanPipe(p.fds, a.rd, a.wr)
    case Exec => false
    case _ => true
  }

  function Step(s: System, a: Action): System
    requires Enabled(s, a)
  {
    var p := s.procs[a.i];
    match p.pc
    case Loop =>
      s.(procs := s.procs[a.i := p.(index := p.index - 1, pc := if p.index - 1 == 0 then Exec else NeedPipe)])
    case NeedPipe =>
      System(s.procs[a.i := p.(fds := Pipe(p.fds, a.rd, a.wr, s.pipes), pc := NeedFork(a.rd, a.wr))], s.pipes + 1)
    case NeedFork(rd, wr) =>
      s.(procs := s.procs[a.i := p.(pc := Older(0, rd, wr))] + [p.(pc := Younger(0, rd, wr))])
    case Older(k, rd, wr) =>
      s.(procs := s.procs[a.i := if k == 0 then p.(fds := Close(p.fds, wr), pc := Older(1, rd, wr))
                                 else if k == 1 then p.(fds := Dup2(p.fds, rd, 0), pc := Older(2, rd, wr))
                                 else p.(fds := Close(p.fds, rd), pc := Exec)])
    case Younger(k, rd, wr) =>
      s.(procs := s.procs[a.i := if k == 0 then p.(fds := Close(p.fds, rd), pc := Younger(1, rd, wr))
                                 else if k == 1 then p.(fds := Dup2(p.fds, wr, 1), pc := Younger(2, rd, wr))
                                 else p.(fds := Close(p.fds, wr), pc := Loop)])
  }

  // ---------- invariant ----------

  /** The table of process `j` before it makes its own pipe: standard output goes into the previous pipe. */
  function Fed(shell: Table, j: nat): Table {
    if j == 0 then shell else shell[1 := WriteEnd(j - 1)]
  }

  /** The table process `j` of `n` executes its command with. */
  function Wired(shell: Table, n: nat, j: nat): Table {
    if j + 1 < n then Fed(shell, j)[0 := ReadEnd(j)] else Fed(shell, j)
  }

  /** The shell has its standard input and output open and holds no pipe. */
  ghost predicate ShellOk(shell: Table) {
    NoPipes(shell) && 0 in shell && 1 in shell
  }

  ghost predicate FreshEnds(shell: Table, rd: nat, wr: nat) {
    rd != wr && rd !in shell && wr !in shell
  }

  /** The table and index process `j` must have at each point. */
  ghost predicate ProcessOk(shell: Table, n: nat, j: nat, p: Process) {
    match p.pc
    case Loop => j < n && p.index == n - j && p.fds == Fed(shell, j)
    case NeedPipe => j + 1 < n && p.index == n - 1 - j && p.fds == Fed(shell, j)
    case NeedFork(rd, wr) =>
      j + 1 < n && p.index == n - 1 - j && FreshEnds(shell, rd, wr) && p.fds == Pipe(Fed(shell, j), rd, wr, j)
    case Older(k, rd, wr) =>
      && j + 1 < n && p.index == n - 1 - j && k <= 2 && FreshEnds(shell, rd, wr)
      && p.fds == (if k == 0 then Pipe(Fed(shell, j), rd, wr, j)
                   else if k == 1 then Fed(shell, j)[rd := ReadEnd(j)]
                   else Fed(shell, j)[rd := ReadEnd(j)][0 := ReadEnd(j)])
    case Younger(k, rd, wr) =>
      && 1 <= j < n && p.index == n - j && k <= 2 && FreshEnds(shell, rd, wr)
      && p.fds == (if k == 0 then Pipe(Fed(shell, j - 1), rd, wr, j - 1)
                   else if k == 1 then Fed(shell, j - 1)[wr := WriteEnd(j - 1)]
                   else Fed(shell, j)[wr := WriteEnd(j - 1)])
    case Exec => j < n && p.index == n - 1 - j && p.fds == Wired(shell, n, j)
  }

  /** Only the newest process is still in the loop; all others are on their way to their command. */
  ghost predicate Inv(shell: Table, n: nat, s: System) {
    && |s.procs| >= 1
    && (forall j {:trigger s.procs[j]} :: 0 <= j < |s.procs| ==> ProcessOk(shell, n, j, s.procs[j]))
    && (forall j {:trigger s.procs[j]} :: 0 <= j < |s.procs| - 1 ==> s.procs[j].pc.Older? || s.procs[j].pc.Exec?)
    && var last := s.procs[|s.procs| - 1];
       && !last.pc.Older?
       && (last.pc.Exec? ==> |s.procs| == n)
       && s.pipes == |s.procs| - 1 + (if last.pc.NeedFork? then 1 else 0)
  }

  lemma ProcessStep(shell: Table, n: nat, s: System, a: Action)
    requires ShellOk(shell) && Inv(shell, n, s) && Enabled(s, a)
    ensures ProcessOk(shell, n, a.i, Step(s, a).procs[a.i])
    ensures s.procs[a.i].pc.NeedFork? ==> ProcessOk(shell, n, a.i + 1, Step(s, a).procs[a.i + 1])
  {
  }

  lemma StepKeeps(shell: Table, n: nat, s: System, a: Action)
    requires ShellOk(shell) && Inv(shell, n, s) && Enabled(s, a)
    ensures Inv(shell, n, Step(s, a))
  {
    ProcessStep(shell, n, s, a);
    var t := Step(s, a);
    assert s.procs[a.i] == s.procs[a.i];
    forall j | 0 <= j < |t.procs| ensures ProcessOk(shell, n, j, t.procs[j]) {
      if j != a.i && j < |s.procs| { assert t.procs[j] == s.procs[j]; }
    }
    forall j | 0 <= j < |t.procs| - 1 ensures t.procs[j].pc.Older? || t.procs[j].pc.Exec? {
      if j != a.i { assert t.procs[j] == s.procs[j]; }
    }
  }

  // ---------- progress ----------

  function Rank(p: Process): int {
    match p.pc
    case Loop => 9 * (p.index - 1) + 1
    case NeedPipe => 9 * p.index
    case NeedFork(_, _) => 9 * p.index - 1
    case Older(k, _, _) => 3 - k
    case Younger(k, _, _) => 3 - k + 9 * (p.index - 1) + 1
    case Exec => 0
  }

  function Total(ps: seq<Process>): int {
    if ps == [] then 0 else Total(ps[..|ps| - 1]) + Rank(ps[|ps| - 1])
  }

  lemma {:induction false} TotalUpdate(ps: seq<Process>, i: nat, p: Process)
    requires i < |ps|
    ensures Total(ps[i := p]) == Total(ps) - Rank(ps[i]) + Rank(p)
    decreases |ps|
  {
    var l := |ps| - 1;
    if i < l {
      assert ps[i := p][..l] == ps[..l][i := p];
      TotalUpdate(ps[..l], i, p);
    } else {
      assert ps[i := p][..l] == ps[..l];
    }
  }

  lemma TotalAppend(ps: seq<Process>, p: Process)
    ensures Total(ps + [p]) == Total(ps) + Rank(p)
  {
    assert (ps + [p])[..|ps|] == ps;
  }

  /** Every call brings the system exactly one step closer to the end. */
  lemma StepCounts(shell: Table, n: nat, s: System, a: Action)
    requires Inv(shell, n, s) && Enabled(s, a)
    ensures Total(Step(s, a).procs) == Total(s.procs) - 1
  {
    var p := s.procs[a.i];
    assert ProcessOk(shell, n, a.i, p);
    TotalUpdate(s.procs, a.i, Step(s, a).procs[a.i]);
    if p.pc.NeedFork? {
      TotalAppend(s.procs[a.i := p.(pc := Older(0, p.pc.rd, p.pc.wr))], p.(pc := Younger(0, p.pc.rd, p.pc.wr)));
    }
  }

  lemma {:induction false} TotalPositive(shell: Table, n: nat, ps: seq<Process>)
    requires forall j :: 0 <= j < |ps| ==> ProcessOk(shell, n, j, ps[j])
    ensures Total(ps) >= 0
    ensures Total(ps) == 0 <==> forall j :: 0 <= j < |ps| ==> ps[j].pc.Exec?
    decreases |ps|
  {
    if ps != [] {
      var l := |ps| - 1;
      TotalPositive(shell, n, ps[..l]);
      assert ProcessOk(shell, n, l, ps[l]);
      assert (forall j :: 0 <= j < l ==> ps[..l][j].pc.Exec?) ==> forall j :: 0 <= j < l ==> ps[j].pc.Exec?;
    }
  }

  lemma NoDeadlock(shell: Table, n: nat, s: System, i: nat) returns (a: Action)
    requires Inv(shell, n, s) && i < |s.procs| && !s.procs[i].pc.Exec?
    ensures a.i == i && Enabled(s, a)
  {
    assert ProcessOk(shell, n, i, s.procs[i]);
    var rd, wr := TwoUnused(s.procs[i].fds);
    a := Action(i, rd, wr);
  }

  // ---------- whole runs ----------

  ghost predicate Runs(s: System, acts: seq<Action>, t: System)
    decreases |acts|
  {
    if acts == [] then s == t else Enabled(s, acts[0]) && Runs(Step(s, acts[0]), acts[1..], t)
  }

  lemma {:induction false} RunKeeps(shell: Table, n: nat, s: System, acts: seq<Action>, t: System)
    requires ShellOk(shell) && Inv(shell, n, s) && Runs(s, acts, t)
    ensures Inv(shell, n, t) && Total(t.procs) == Total(s.procs) - |acts|
    decreases |acts|
  {
    if acts != [] {
      StepKeeps(shell, n, s, acts[0]);
      StepCounts(shell, n, s, acts[0]);
      RunKeeps(shell, n, Step(s, acts[0]), acts[1..], t);
    }
  }

  ghost predicate AllExec(s: System) { forall j :: 0 <= j < |s.procs| ==> s.procs[j].pc.Exec? }

  /** The pipe that command `k` of `n` writes and command `k + 1` reads. */
  function PipeAfter(n: nat, k: nat): nat
    requires k + 1 < n
  {
    n - 2 - k
  }

  /** Every interleaving ends, after 9n-8 calls, and never earlier, with all `n` commands started. */
  lemma {:induction false} PipelineEnds(shell: Table, n: nat, acts: seq<Action>, t: System)
    requires ShellOk(shell) && n >= 1 && Runs(Start(shell, n), acts, t)
    ensures |acts| <= 9 * n - 8
    ensures AllExec(t) <==> |acts| == 9 * n - 8
    ensures AllExec(t) <==> forall a :: !Enabled(t, a)
  {
    RunKeeps(shell, n, Start(shell, n), acts, t);
    assert Start(shell, n).procs[..0] == [];
    TotalPositive(shell, n, t.procs);
    if !AllExec(t) {
      var i :| 0 <= i < |t.procs| && !t.procs[i].pc.Exec?;
      var a := NoDeadlock(shell, n, t, i);
    }
  }

  /** Each command is started exactly once, between its two pipes, with all its other descriptors the shell's own. */
  lemma PipelineWired(shell: Table, n: nat, acts: seq<Action>, t: System, k: nat)
    requires ShellOk(shell) && n >= 1 && Runs(Start(shell, n), acts, t) && AllExec(t) && k < n
    ensures |t.procs| == n && t.pipes == n - 1
    ensures forall j :: 0 <= j < n ==> (t.procs[j].index == k <==> j == n - 1 - k)
    ensures var fds := t.procs[n - 1 - k].fds;
            && fds.Keys == shell.Keys
            && fds[0] == (if k > 0 then ReadEnd(PipeAfter(n, k - 1)) else shell[0])
            && fds[1] == (if k + 1 < n then WriteEnd(PipeAfter(n, k)) else shell[1])
            && forall fd :: fd in shell && fd >= 2 ==> fds[fd] == shell[fd]
  {
    RunKeeps(shell, n, Start(shell, n), acts, t);
    assert t.procs[|t.procs| - 1].pc.Exec?;
    assert ProcessOk(shell, n, n - 1 - k, t.procs[n - 1 - k]);
    forall j | 0 <= j < n ensures t.procs[j].index == n - 1 - j {
      assert ProcessOk(shell, n, j, t.procs[j]);
    }
  }

  /** No stray holder keeps a pipe open: each end is held once, by its own command, and not by the shell. */
  lemma OneHolderEach(shell: Table, n: nat, acts: seq<Action>, t: System, k: nat, j: nat)
    requires ShellOk(shell) && n >= 1 && Runs(Start(shell, n), acts, t) && AllExec(t) && k + 1 < n && j < n
    ensures |t.procs| == n
    ensures HeldAt(t.procs[j].fds, WriteEnd(PipeAfter(n, k)), if t.procs[j].index == k then {1} else {})
    ensures HeldAt(t.procs[j].fds, ReadEnd(PipeAfter(n, k)), if t.procs[j].index == k + 1 then {0} else {})
    ensures HeldAt(shell, WriteEnd(PipeAfter(n, k)), {}) && HeldAt(shell, ReadEnd(PipeAfter(n, k)), {})
  {
    RunKeeps(shell, n, Start(shell, n), acts, t);
    assert t.procs[|t.procs| - 1].pc.Exec?;
    assert ProcessOk(shell, n, j, t.procs[j]);
  }

  // ---------- what the wiring depends on ----------

  /** The three descriptor calls of the forking side, after pipe and fork. */
  function OlderTable(t: Table, rd: nat, wr: nat, id: nat): Table {
    Close(Dup2(Close(Pipe(t, rd, wr, id), wr), rd, 0), rd)
  }

  /** The three descriptor calls of the forked side. */
  function YoungerTable(t: Table, rd: nat, wr: nat, id: nat): Table {
    Close(Dup2(Close(Pipe(t, rd, wr, id), rd), wr, 1), wr)
  }

  /** Each side gets its end exactly unless pipe hands out the very number the end should go to. */
  lemma RoundIff(t: Table, rd: nat, wr: nat, id: nat)
    requires CanPipe(t, rd, wr)
    ensures OlderTable(t, rd, wr, id) == t[0 := ReadEnd(id)] <==> rd != 0
    ensures YoungerTable(t, rd, wr, id) == t[1 := WriteEnd(id)] <==> wr != 1
  {
    if rd == 0 { assert 0 !in OlderTable(t, rd, wr, id); }
    if wr == 1 { assert 1 !in YoungerTable(t, rd, wr, id); }
  }

  ghost predicate Reachable(shell: Table, n: nat, s: System) {
    exists acts :: Runs(Start(shell, n), acts, s)
  }

  lemma {:induction false} RunMore(s: System, acts: seq<Action>, t: System, a: Action)
    requires Runs(s, acts, t) && Enabled(t, a)
    ensures Runs(s, acts + [a], Step(t, a))
    decreases |acts|
  {
    if acts == [] {
      assert [a][1..] == [];
    } else {
      RunMore(Step(s, acts[0]), acts[1..], t, a);
      assert (acts + [a])[1..] == acts[1..] + [a];
    }
  }

  lemma Go(shell: Table, n: nat, s: System, i: nat, rd: nat, wr: nat) returns (t: System)
    requires Reachable(shell, n, s) && Enabled(s, Action(i, rd, wr))
    ensures Reachable(shell, n, t) && t == Step(s, Action(i, rd, wr))
  {
    var acts :| Runs(Start(shell, n), acts, s);
    t := Step(s, Action(i, rd, wr));
    RunMore(Start(shell, n), acts, s, Action(i, rd, wr));
  }

  /** A process that is about to make its pipe forks: the new process comes last. */
  lemma PipeAndFork(shell: Table, n: nat, s: System, i: nat, rd: nat, wr: nat) returns (t: System)
    requires Reachable(shell, n, s) && i < |s.procs| && s.procs[i].pc.NeedPipe? && CanPipe(s.procs[i].fds, rd, wr)
    ensures Reachable(shell, n, t) && |t.procs| == |s.procs| + 1
    ensures var p, both := s.procs[i], Pipe(s.procs[i].fds, rd, wr, s.pipes);
            && t.procs[i] == Process(both, Older(0, rd, wr), p.index)
            && t.procs[|s.procs|] == Process(both, Younger(0, rd, wr), p.index)
  {
    t := Go(shell, n, s, i, rd, wr);
    t := Go(shell, n, t, i, rd, wr);
  }

  lemma OlderGoes(shell: Table, n: nat, s: System, i: nat, rd: nat, wr: nat) returns (t: System)
    requires Reachable(shell, n, s) && i < |s.procs| && s.procs[i].pc == Older(0, rd, wr)
    ensures Reachable(shell, n, t) && |t.procs| == |s.procs| && t.procs[i].pc.Exec?
    ensures t.procs[i].fds == Close(Dup2(Close(s.procs[i].fds, wr), rd, 0), rd)
  {
    t := Go(shell, n, s, i, rd, wr);
    t := Go(shell, n, t, i, rd, wr);
    t := Go(shell, n, t, i, rd, wr);
  }

  lemma YoungerGoes(shell: Table, n: nat, s: System, i: nat, rd: nat, wr: nat) returns (t: System)
    requires Reachable(shell, n, s) && i < |s.procs| && s.procs[i].pc == Younger(0, rd, wr)
    ensures Reachable(shell, n, t) && |t.procs| == |s.procs| && t.procs[i].pc == Loop
    ensures t.procs[i].fds == Close(Dup2(Close(s.procs[i].fds, rd), wr, 1), wr)
    ensures t.procs[i].index == s.procs[i].index
  {
    t := Go(shell, n, s, i, rd, wr);
    t := Go(shell, n, t, i, rd, wr);
    t := Go(shell, n, t, i, rd, wr);
  }

  /** The first process enters its first round. */
  lemma FirstRound(shell: Table, n: nat) returns (s: System)
    requires n >= 2
    ensures Reachable(shell, n, s) && |s.procs| == 1 && s.procs[0] == Process(shell, NeedPipe, n - 1)
  {
    assert Runs(Start(shell, n), [], Start(shell, n));
    s := Go(shell, n, Start(shell, n), 0, 0, 0);
  }

  /** With 0 closed, pipe may return it as the reading end, and the last command loses its input. */
  lemma NeedsInput(shell: Table, n: nat) returns (t: System)
    requires n >= 2 && 0 !in shell
    ensures Reachable(shell, n, t) && |t.procs| >= 1 && t.procs[0].pc.Exec? && 0 !in t.procs[0].fds
  {
    var _, wr := TwoUnused(shell[0 := Other(0)]);
    t := FirstRound(shell, n);
    t := PipeAndFork(shell, n, t, 0, 0, wr);
    t := OlderGoes(shell, n, t, 0, 0, wr);
  }

  /** With 1 closed, pipe may return it as the writing end, and the command before the last loses its output. */
  lemma NeedsOutput(shell: Table, n: nat) returns (t: System)
    requires n >= 2 && 1 !in shell
    ensures Reachable(shell, n, t) && |t.procs| >= 2 && t.procs[1].pc.Exec? && 1 !in t.procs[1].fds
  {
    var rd, wr := TwoUnused(shell[0 := Other(0)][1 := Other(1)]);
    t := FirstRound(shell, n);
    t := PipeAndFork(shell, n, t, 0, rd, 1);
    t := YoungerGoes(shell, n, t, 1, rd, 1);
    assert t.procs[1].fds == shell;
    t := Go(shell, n, t, 1, 0, 0);
    if n > 2 {
      t := PipeAndFork(shell, n, t, 1, rd, wr);
      t := OlderGoes(shell, n, t, 1, rd, wr);
    }
  }

  /** A process that has reached its command has the table it should have. */
  ghost predicate RightlyWired(shell: Table, n: nat, s: System, j: nat)
    requires j < |s.procs|
  {
    s.procs[j].pc.Exec? ==> s.procs[j].fds == Wired(shell, n, j)
  }

  ghost predicate AlwaysWired(shell: Table, n: nat) {
    forall s, j: nat :: Reachable(shell, n, s) && j < |s.procs| ==> RightlyWired(shell, n, s, j)
  }

  /** With two commands or more, every run wires every command rightly exactly when 0 and 1 are open in the shell. */
  lemma WiredIff(shell: Table, n: nat)
    requires NoPipes(shell) && n >= 2
    ensures AlwaysWired(shell, n) <==> 0 in shell && 1 in shell
  {
    if 0 !in shell {
      var t := NeedsInput(shell, n);
      assert !RightlyWired(shell, n, t, 0);
    } else if 1 !in shell {
      var t := NeedsOutput(shell, n);
      assert !RightlyWired(shell, n, t, 1);
    } else {
      forall s, j: nat | Reachable(shell, n, s) && j < |s.procs| ensures RightlyWired(shell, n, s, j) {
        var acts :| Runs(Start(shell, n), acts, s);
        RunKeeps(shell, n, Start(shell, n), acts, s);
        assert ProcessOk(shell, n, j, s.procs[j]);
      }
    }
  }

  // ---------- one process seen from inside ----------

  /** The loop of run_command as one process lives it; `forked[r]` says whether fork returned a child in round `r`. */
  method RunCommand(shell: Table, n: nat, ends: seq<(nat, nat)>, forked: seq<bool>) returns (fds: Table, index: nat)
    requires ShellOk(shell) && n >= 1 && |ends| == |forked| == n - 1
    requires forall r :: 0 <= r < n - 1 ==> FreshEnds(shell, ends[r].0, ends[r].1)
    ensures index < n && fds == Wired(shell, n, n - 1 - index)
    ensures forall r :: 0 <= r < n - 1 - index ==> !forked[r]
    ensures index > 0 ==> forked[n - 1 - index]
  {
    fds := shell;
    index := n - 1;
    while index != 0
      invariant 0 <= index < n && fds == Fed(shell, n - 1 - index)
      invariant forall r :: 0 <= r < n - 1 - index ==> !forked[r]
    {
      ghost var r := n - 1 - index;
      var (rd, wr) := ends[n - 1 - index];
      fds := Pipe(fds, rd, wr, n - 1 - index);
      if forked[n - 1 - index] {
        fds := Close(fds, wr);
        fds := Dup2(fds, rd, 0);
        fds := Close(fds, rd);
        assert fds == Fed(shell, r)[0 := ReadEnd(r)];
        break;
      } else {
        fds := Close(fds, rd);
        fds := Dup2(fds, wr, 1);
        fds := Close(fds, wr);
        assert fds == Fed(shell, r + 1);
      }
      index := index - 1;
    }
  }
}
