/** Two processes, two semaphores and one shared block: the writer copies its input, the reader its output. */
module Transfer {
  import opened BinarySems

  /** Where the writer stands; each constructor is the next atomic action of its main. */
  datatype WriterPc = WReserve | WRead | WStore | WRelease | WTest | WAdd | WLast | WRemove | WDone

  datatype ReaderPc = RReserve | RTest | RCount | RWrite | RRelease | RNext | RFinal | RDone

  /**
   * The shared segment (`cnt`, `buf`), the semaphore set (`wsem`, `rsem`, `removed`) and the locals of both sides.
   * `got` is what the writer's last read returned, `pos` how much of the input it has read.
   * `failed` is set by a semaphore operation on the removed set and by a write beyond the block.
   * `wturns` and `rturns` count how often each side got its semaphore.
   */
  datatype State = State(w: WriterPc, r: ReaderPc, wsem: int, rsem: int, removed: bool, failed: bool,
                         cnt: nat, buf: seq<bv8>, got: nat, pos: nat, out: seq<bv8>,
                         wbytes: nat, wxfrs: nat, rbytes: nat, rxfrs: nat, wturns: nat, rturns: nat)

  /** One atomic step. `n` is what read returns, should the writer be about to read. */
  datatype Action = Writer(n: nat) | Reader | WriterInterrupted | ReaderInterrupted

  /** The writer's input and the size of the block. */
  datatype Job = Job(input: seq<bv8>, size: nat)

  function Init(size: nat): State {
    State(WReserve, RReserve, 1, 0, false, false, 0, seq(size, _ => 0), 0, 0, [], 0, 0, 0, 0, 0, 0)
  }

  /** read returns 0 at the end of the input only, and otherwise any positive amount that fits. */
  predicate ReadReturns(j: Job, pos: nat, n: nat) {
    pos <= |j.input| && if pos == |j.input| then n == 0 else 1 <= n <= j.size && pos + n <= |j.input|
  }

  predicate Enabled(j: Job, s: State, a: Action) {
    match a
    case Writer(n) =>
      s.w != WDone
      && (s.w.WReserve? || s.w.WLast? ==> s.removed || s.wsem > 0)
      && (s.w.WRead? ==> ReadReturns(j, s.pos, n))
    case Reader => s.r != RDone && (s.r.RReserve? ==> s.removed || s.rsem > 0)
    case WriterInterrupted => s.w.WReserve? || s.w.WLast?
    case ReaderInterrupted => s.r.RReserve?
  }

  function WriterStep(j: Job, s: State, n: nat): State
    requires Enabled(j, s, Writer(n)) && |s.buf| == j.size
  {
    match s.w
    case WReserve
      => if s.removed then s.(failed := true, w := WDone)
         else s.(wsem := s.wsem - 1, wturns := s.wturns + 1, w := WRead)
    case WRead =>
      var chunk := j.input[s.pos..s.pos + n];
      s.(buf := chunk + s.buf[n..], got := n, pos := s.pos + n, w := WStore)
    case WStore => s.(cnt := s.got, w := WRelease)
    case WRelease => if s.removed then s.(failed := true, w := WDone) else s.(rsem := s.rsem + 1, w := WTest)
    case WTest => s.(w := if s.cnt != 0 then WAdd else WLast)
    case WAdd => s.(wxfrs := s.wxfrs + 1, wbytes := s.wbytes + s.cnt, w := WReserve)
    case WLast
      => if s.removed then s.(failed := true, w := WDone)
         else s.(wsem := s.wsem - 1, wturns := s.wturns + 1, w := WRemove)
    case WRemove => s.(removed := true, w := WDone)
  }

  function ReaderStep(j: Job, s: State): State
    requires Enabled(j, s, Reader)
  {
    match s.r
    case RReserve
      => if s.removed then s.(failed := true, r := RDone)
         else s.(rsem := s.rsem - 1, rturns := s.rturns + 1, r := RTest)
    case RTest => s.(r := if s.cnt == 0 then RFinal else RCount)
    case RCount => s.(rbytes := s.rbytes + s.cnt, r := RWrite)
    case RWrite =>
      if s.cnt > |s.buf| then s.(failed := true, r := RDone)
      else s.(out := s.out + s.buf[..s.cnt], r := RRelease)
    case RRelease => if s.removed then s.(failed := true, r := RDone) else s.(wsem := s.wsem + 1, r := RNext)
    case RNext => s.(rxfrs := s.rxfrs + 1, r := RReserve)
    case RFinal => if s.removed then s.(failed := true, r := RDone) else s.(wsem := s.wsem + 1, r := RDone)
  }

  /** An interrupted semop is retried: nothing has happened. */
  function Next(j: Job, s: State, a: Action): State
    requires Enabled(j, s, a) && |s.buf| == j.size
  {
    match a
    case Writer(n) => WriterStep(j, s, n)
    case Reader => ReaderStep(j, s)
    case _ => s
  }

  // ---------- invariant ----------

  function WriterHolds(s: State): int {
    if s.w in {WRead, WStore, WRelease, WRemove, WDone} then 1 else 0
  }

  function ReaderHolds(s: State): int {
    if s.r in {RTest, RCount, RWrite, RRelease, RFinal} then 1 else 0
  }

  /** The bytes the writer has read and the reader has not written yet. */
  function InFlight(s: State): int { s.pos - |s.out| }

  /** The writer has read its final, empty block. */
  predicate AtEnd(s: State) {
    (s.got == 0 && s.w in {WStore, WRelease, WTest}) || s.w in {WLast, WRemove, WDone}
  }

  /** The block in the buffer is the last part of what has been read. */
  ghost predicate Holds(j: Job, s: State, n: nat) {
    n <= s.pos <= |j.input| && n <= |s.buf| && s.buf[..n] == j.input[s.pos - n..s.pos]
  }

  /** Exactly one token: on a semaphore or with one side. */
  ghost predicate OneToken(s: State) {
    s.wsem >= 0 && s.rsem >= 0 && s.wsem + s.rsem + WriterHolds(s) + ReaderHolds(s) == 1
  }

  ghost predicate DataOk(j: Job, s: State) {
    && |s.buf| == j.size
    && |s.out| <= s.pos <= |j.input| && s.out == j.input[..|s.out|]
    && (s.w == WStore ==> InFlight(s) == s.got && Holds(j, s, s.got))
    && (s.w == WRelease ==> InFlight(s) == s.got == s.cnt && Holds(j, s, s.got))
    && (s.rsem == 1 || s.r in {RTest, RCount, RWrite, RFinal} ==> InFlight(s) == s.cnt && Holds(j, s, s.cnt))
    && (s.wsem == 1 || s.w == WRead || s.r == RRelease || s.w in {WRemove, WDone} ==> InFlight(s) == 0)
    && (s.r in {RCount, RWrite} ==> s.cnt > 0)
    && (s.r == RFinal ==> s.cnt == 0)
  }

  ghost predicate PhaseOk(j: Job, s: State) {
    && !s.failed && (s.removed <==> s.w == WDone)
    && (s.w in {WTest, WAdd} ==> s.cnt == s.got)
    && (s.w == WAdd ==> s.got > 0)
    && (s.w == WLast ==> s.cnt == 0)
    && (AtEnd(s) ==> s.pos == |j.input|)
    && (s.r in {RFinal, RDone} ==> AtEnd(s) && s.w in {WTest, WLast, WRemove, WDone})
    && (s.w in {WRemove, WDone} ==> s.r == RDone)
    && (AtEnd(s) && s.wsem == 1 ==> s.r == RDone)
    && (AtEnd(s) ==> s.r != RRelease)
    && (s.w == WReserve && (s.rsem == 1 || ReaderHolds(s) == 1) ==> s.cnt > 0)
    && (s.r == RDone && s.w in {WTest, WLast} ==> s.wsem == 1)
  }

  ghost predicate CountsOk(s: State) {
    && s.wturns == s.rturns + (if s.wsem == 1 || ReaderHolds(s) == 1 then 0 else 1)
    && s.wbytes + (if s.w in {WStore, WRelease, WTest, WAdd} then s.got else 0) == s.pos
    && s.rbytes == |s.out| + (if s.r == RWrite then s.cnt else 0)
    && s.wxfrs + (if s.w in {WStore, WRelease, WTest, WAdd} && s.got > 0 then 1 else 0) ==
       s.rxfrs + (if InFlight(s) > 0 then 1 else 0) + (if s.r in {RRelease, RNext} then 1 else 0)
  }

  ghost predicate Inv(j: Job, s: State) {
    OneToken(s) && DataOk(j, s) && PhaseOk(j, s) && CountsOk(s)
  }

  lemma InitInv(j: Job)
    ensures Inv(j, Init(j.size))
  {
  }

  lemma ReadKeepsData(j: Job, s: State, n: nat)
    requires Inv(j, s) && Enabled(j, s, Writer(n)) && s.w == WRead
    ensures DataOk(j, WriterStep(j, s, n))
  {
  }

  lemma WriterKeepsData(j: Job, s: State, n: nat)
    requires Inv(j, s) && Enabled(j, s, Writer(n))
    ensures DataOk(j, WriterStep(j, s, n))
  {
    if s.w == WRead {
      ReadKeepsData(j, s, n);
    }
  }

  lemma WriterKeepsCounts(j: Job, s: State, n: nat)
    requires Inv(j, s) && Enabled(j, s, Writer(n))
    ensures CountsOk(WriterStep(j, s, n))
  {
  }

  lemma WriterKeepsToken(j: Job, s: State, n: nat)
    requires Inv(j, s) && Enabled(j, s, Writer(n))
    ensures OneToken(WriterStep(j, s, n))
  {
  }

  lemma WriterKeeps(j: Job, s: State, n: nat)
    requires Inv(j, s) && Enabled(j, s, Writer(n))
    ensures Inv(j, WriterStep(j, s, n))
  {
    WriterKeepsData(j, s, n);
    WriterKeepsCounts(j, s, n);
    WriterKeepsToken(j, s, n);
  }

  lemma ReaderKeepsData(j: Job, s: State)
    requires Inv(j, s) && Enabled(j, s, Reader)
    ensures DataOk(j, ReaderStep(j, s))
  {
    if s.r == RWrite {
      assert s.out + s.buf[..s.cnt] == j.input[..|s.out|] + j.input[|s.out|..s.pos] == j.input[..s.pos];
    }
  }

  lemma ReaderKeepsPhase(j: Job, s: State)
    requires Inv(j, s) && Enabled(j, s, Reader)
    ensures OneToken(ReaderStep(j, s)) && PhaseOk(j, ReaderStep(j, s))
  {
  }

  lemma ReaderKeepsCounts(j: Job, s: State)
    requires Inv(j, s) && Enabled(j, s, Reader)
    ensures CountsOk(ReaderStep(j, s))
  {
  }

  lemma ReaderKeeps(j: Job, s: State)
    requires Inv(j, s) && Enabled(j, s, Reader)
    ensures Inv(j, ReaderStep(j, s))
  {
    ReaderKeepsData(j, s);
    ReaderKeepsPhase(j, s);
    ReaderKeepsCounts(j, s);
  }

  lemma StepKeeps(j: Job, s: State, a: Action)
    requires Inv(j, s) && Enabled(j, s, a)
    ensures Inv(j, Next(j, s, a))
  {
    match a
    case Writer(n) => WriterKeeps(j, s, n);
    case Reader => ReaderKeeps(j, s);
    case _ =>
  }

  // ---------- progress ----------

  predicate IsProgress(a: Action) { a.Writer? || a.Reader? }

  function WriterRank(s: State): nat {
    (if AtEnd(s) then 0 else 40) +
    match s.w
    case WReserve => 2
    case WRead => 1
    case WStore => 20
    case WRelease => 19
    case WTest => 7
    case WAdd => 6
    case WLast => 3
    case WRemove => 2
    case WDone => 0
  }

  function ReaderRank(s: State): nat {
    match s.r
    case RReserve => 1
    case RTest => 7
    case RCount => 6
    case RWrite => 5
    case RRelease => 4
    case RNext => 3
    case RFinal => 2
    case RDone => 0
  }

  /** What is left to do; every step but an interruption makes it smaller. */
  function Measure(j: Job, s: State): int {
    30 * (|j.input| - s.pos) + WriterRank(s) + ReaderRank(s) + 7 * s.rsem
  }

  lemma StepDecreases(j: Job, s: State, a: Action)
    requires Inv(j, s) && Enabled(j, s, a) && IsProgress(a)
    ensures Measure(j, Next(j, s, a)) < Measure(j, s)
  {
  }

  ghost predicate Finished(s: State) { s.w == WDone && s.r == RDone }

  lemma NoDeadlock(j: Job, s: State) returns (a: Action)
    requires Inv(j, s) && !Finished(s) && j.size >= 1
    ensures Enabled(j, s, a) && IsProgress(a)
  {
    if s.r != RDone && Enabled(j, s, Reader) {
      a := Reader;
    } else {
      a := Writer(if s.pos == |j.input| then 0 else 1);
    }
  }

  // ---------- whole runs ----------

  /** Carrying out `acts` one after the other leads from `s` to `t`. */
  ghost predicate Runs(j: Job, s: State, acts: seq<Action>, t: State)
    decreases |acts|
  {
    if acts == [] then s == t
    else |s.buf| == j.size && Enabled(j, s, acts[0]) && Runs(j, Next(j, s, acts[0]), acts[1..], t)
  }

  function ProgressSteps(acts: seq<Action>): nat {
    if acts == [] then 0 else (if IsProgress(acts[0]) then 1 else 0) + ProgressSteps(acts[1..])
  }

  lemma {:induction false} RunKeeps(j: Job, s: State, acts: seq<Action>, t: State)
    requires Inv(j, s) && Runs(j, s, acts, t)
    ensures Inv(j, t) && ProgressSteps(acts) + Measure(j, t) <= Measure(j, s)
    decreases |acts|
  {
    if acts != [] {
      StepKeeps(j, s, acts[0]);
      if IsProgress(acts[0]) { StepDecreases(j, s, acts[0]); }
      RunKeeps(j, Next(j, s, acts[0]), acts[1..], t);
    }
  }

  /** How many of the writer's reads in a run returned anything. */
  function BlocksRead(j: Job, s: State, acts: seq<Action>, t: State): nat
    requires Runs(j, s, acts, t)
    decreases |acts|
  {
    if acts == [] then 0
    else (if acts[0].Writer? && s.w.WRead? && acts[0].n > 0 then 1 else 0)
         + BlocksRead(j, Next(j, s, acts[0]), acts[1..], t)
  }

  /** The blocks the writer has counted, and the one it is about to count. */
  function BlocksCounted(s: State): int {
    s.wxfrs + if s.w in {WStore, WRelease, WTest, WAdd} && s.got > 0 then 1 else 0
  }

  lemma StepBlocks(j: Job, s: State, a: Action)
    requires Inv(j, s) && Enabled(j, s, a)
    ensures BlocksCounted(Next(j, s, a)) ==
            BlocksCounted(s) + if a.Writer? && s.w.WRead? && a.n > 0 then 1 else 0
  {
  }

  lemma {:induction false} RunBlocks(j: Job, s: State, acts: seq<Action>, t: State)
    requires Inv(j, s) && Runs(j, s, acts, t)
    ensures BlocksCounted(t) == BlocksCounted(s) + BlocksRead(j, s, acts, t)
    decreases |acts|
  {
    if acts != [] {
      StepKeeps(j, s, acts[0]);
      StepBlocks(j, s, acts[0]);
      RunBlocks(j, Next(j, s, acts[0]), acts[1..], t);
    }
  }

  /** read may return any amount up to the block and the rest of the input, but nothing only at its end. */
  lemma ReadIsFree(j: Job, s: State, n: nat)
    requires s.w.WRead? && s.pos <= |j.input|
    ensures Enabled(j, s, Writer(n)) <==>
            if s.pos == |j.input| then n == 0 else 1 <= n <= j.size && n <= |j.input| - s.pos
  {
  }

  ghost predicate Stuck(j: Job, s: State) {
    forall a: Action :: IsProgress(a) ==> !Enabled(j, s, a)
  }

  /** In every reachable state the output is a prefix of what was read, missing at most the block in the buffer. */
  lemma OutputIsPrefix(j: Job, acts: seq<Action>, t: State)
    requires Runs(j, Init(j.size), acts, t)
    ensures t.pos <= |j.input| && t.out <= j.input[..t.pos]
    ensures 0 <= InFlight(t) <= |t.buf| == j.size && t.out + t.buf[..InFlight(t)] == j.input[..t.pos]
  {
    InitInv(j);
    RunKeeps(j, Init(j.size), acts, t);
    if InFlight(t) > 0 {
      assert Holds(j, t, InFlight(t));
      assert j.input[..t.pos] == j.input[..|t.out|] + j.input[|t.out|..t.pos];
    }
  }

  /** Both semaphores stay binary, no operation meets a removed set, and the writer's re-read sees its own count. */
  lemma TokenConserved(j: Job, acts: seq<Action>, t: State)
    requires Runs(j, Init(j.size), acts, t)
    ensures t.wsem + t.rsem + WriterHolds(t) + ReaderHolds(t) == 1
    ensures 0 <= t.wsem <= 1 && 0 <= t.rsem <= 1
    ensures !(WriterHolds(t) == 1 && ReaderHolds(t) == 1)
    ensures t.wturns == t.rturns || t.wturns == t.rturns + 1
    ensures WriterHolds(t) == 1 ==> t.wturns == t.rturns + 1
    ensures ReaderHolds(t) == 1 ==> t.wturns == t.rturns
    ensures !t.failed && (t.removed ==> t.r == RDone)
    ensures t.w in {WTest, WAdd} ==> t.cnt == t.got
  {
    InitInv(j);
    RunKeeps(j, Init(j.size), acts, t);
  }

  /** Every run is finite, and one that cannot go on has delivered everything, with equal counts on both sides. */
  lemma TransferComplete(j: Job, acts: seq<Action>, t: State)
    requires j.size >= 1 && Runs(j, Init(j.size), acts, t)
    ensures ProgressSteps(acts) <= 30 * |j.input| + 43
    ensures Stuck(j, t) <==> Finished(t)
    ensures Finished(t) ==> t.out == j.input && t.rbytes == t.wbytes == |j.input| && t.rxfrs == t.wxfrs && t.removed
    ensures Finished(t) ==> t.wxfrs == BlocksRead(j, Init(j.size), acts, t)
  {
    InitInv(j);
    RunKeeps(j, Init(j.size), acts, t);
    RunBlocks(j, Init(j.size), acts, t);
    if !Finished(t) {
      var a := NoDeadlock(j, t);
    }
  }

  // ---------- reservations ----------

  predicate WriterReserves(s: State) { s.w.WReserve? || s.w.WLast? }

  /** What a writer that reserves its semaphore hears of one step. */
  function WriterHears(s: State, a: Action): seq<Event> {
    match a
    case WriterInterrupted => [Interrupted]
    case Reader => if s.r.RRelease? || s.r.RFinal? then [Released] else []
    case _ => []
  }

  function ReaderHears(s: State, a: Action): seq<Event> {
    match a
    case ReaderInterrupted => [Interrupted]
    case Writer(_) => if s.w.WRelease? then [Released] else []
    case _ => []
  }

  function WriterHearsAll(j: Job, s: State, acts: seq<Action>, t: State): seq<Event>
    requires Runs(j, s, acts, t)
    decreases |acts|
  {
    if acts == [] then []
    else WriterHears(s, acts[0]) + WriterHearsAll(j, Next(j, s, acts[0]), acts[1..], t)
  }

  function ReaderHearsAll(j: Job, s: State, acts: seq<Action>, t: State): seq<Event>
    requires Runs(j, s, acts, t)
    decreases |acts|
  {
    if acts == [] then []
    else ReaderHears(s, acts[0]) + ReaderHearsAll(j, Next(j, s, acts[0]), acts[1..], t)
  }

  /** Hearing of one step first, or starting to reserve after it, comes to the same. */
  lemma WriterHearsStep(j: Job, s: State, a: Action, rest: seq<Event>)
    requires Inv(j, s) && WriterReserves(s) && Enabled(j, s, a) && !a.Writer?
    ensures WriterReserves(Next(j, s, a))
    ensures Reservation(s.wsem, WriterHears(s, a) + rest, true) == Reservation(Next(j, s, a).wsem, rest, true)
  {
    var heard := WriterHears(s, a);
    assert heard == [] ==> heard + rest == rest;
    assert heard != [] ==> (heard + rest)[1..] == rest;
  }

  lemma ReaderHearsStep(j: Job, s: State, a: Action, rest: seq<Event>)
    requires Inv(j, s) && s.r.RReserve? && Enabled(j, s, a) && !a.Reader?
    ensures Next(j, s, a).r.RReserve?
    ensures Reservation(s.rsem, ReaderHears(s, a) + rest, true) == Reservation(Next(j, s, a).rsem, rest, true)
  {
    var heard := ReaderHears(s, a);
    assert heard == [] ==> heard + rest == rest;
    assert heard != [] ==> (heard + rest)[1..] == rest;
  }

  /**
   * The writer's reservation loop agrees with its one step here: however the reader moves and signals arrive meanwhile,
   * the loop succeeds exactly when that step is possible, and leaves the same value.
   */
  lemma {:induction false} WriterReservation(j: Job, s: State, acts: seq<Action>, t: State)
    requires Inv(j, s) && WriterReserves(s) && Runs(j, s, acts, t) && forall k :: 0 <= k < |acts| ==> !acts[k].Writer?
    ensures WriterReserves(t) && !t.removed
    ensures var out := Reservation(s.wsem, WriterHearsAll(j, s, acts, t), true);
            && (out.result == Success <==> Enabled(j, t, Writer(0)))
            && (out.result == Success ==> |t.buf| == j.size && out.val == WriterStep(j, t, 0).wsem)
            && (out.result != Success ==> out == Outcome(Waiting, t.wsem))
    decreases |acts|
  {
    if acts != [] {
      var u := Next(j, s, acts[0]);
      StepKeeps(j, s, acts[0]);
      WriterHearsStep(j, s, acts[0], WriterHearsAll(j, u, acts[1..], t));
      WriterReservation(j, u, acts[1..], t);
    }
  }

  lemma {:induction false} ReaderReservation(j: Job, s: State, acts: seq<Action>, t: State)
    requires Inv(j, s) && s.r.RReserve? && Runs(j, s, acts, t) && forall k :: 0 <= k < |acts| ==> !acts[k].Reader?
    ensures t.r.RReserve? && !t.removed
    ensures var out := Reservation(s.rsem, ReaderHearsAll(j, s, acts, t), true);
            && (out.result == Success <==> Enabled(j, t, Reader))
            && (out.result == Success ==> out.val == ReaderStep(j, t).rsem)
            && (out.result != Success ==> out == Outcome(Waiting, t.rsem))
    decreases |acts|
  {
    if acts != [] {
      var u := Next(j, s, acts[0]);
      StepKeeps(j, s, acts[0]);
      ReaderHearsStep(j, s, acts[0], ReaderHearsAll(j, u, acts[1..], t));
      ReaderReservation(j, u, acts[1..], t);
    }
  }
}
