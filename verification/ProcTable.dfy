/** The process table of pstree, its options, and the tables each pass leaves behind. */
module ProcTable {
  import opened Forest

  /** What the system reports about a process; no pass of pstree changes it. */
  datatype Info = Info(pid: int, ppid: int, pgid: int, thcount: nat, name: string, cmd: string)

  datatype Proc = Proc(info: Info, prints: bool, selected: bool, hidden: bool,
                       parent: int, child: int, sister: int)

  /** The command-line switches; `text` is the argument of -s, `user` that of -u. */
  datatype Options = Options(showAll: bool, user: string, notRoot: bool, pid: int,
                             search: bool, text: string, myPid: int,
                             hideParents: bool, hideInit: bool, noNames: bool, maxDepth: nat)

  predicate Occurs(text: string, s: string) {
    exists i :: 0 <= i <= |s| && text <= s[i..]
  }

  /** Somewhere in `s` there are exactly the characters of `text`. */
  lemma OccursIff(text: string, s: string)
    ensures Occurs(text, s) <==> exists before, after :: s == before + text + after
  {
    if i :| 0 <= i <= |s| && text <= s[i..] {
      assert s == s[..i] + text + s[i + |text|..];
    }
    if before, after :| s == before + text + after {
      assert s[|before|..] == text + after;
      assert text <= s[|before|..];
    }
  }

  /** The test behind -u, -U, -p and -s. */
  predicate Picked(o: Options, p: Info) {
    || p.name == o.user
    || (o.notRoot && p.name != "root")
    || p.pid == o.pid
    || (o.search && Occurs(o.text, p.cmd) && p.pid != o.myPid)
  }

  lemma PickedIff(o: Options, f: Info)
    ensures Picked(o, f) <==>
            || f.name == o.user
            || (o.notRoot && f.name != "root")
            || f.pid == o.pid
            || (o.search && f.pid != o.myPid && exists before, after :: f.cmd == before + o.text + after)
  {
    OccursIff(o.text, f.cmd);
  }

  // ---------- parents ----------

  /** The last index below `n` that holds `pid`, or -1. */
  function PidIndex(t: seq<Proc>, pid: int, n: nat): (k: int)
    requires n <= |t|
    ensures -1 <= k < n
    ensures k == -1 ==> forall j :: 0 <= j < n ==> t[j].info.pid != pid
    ensures k != -1 ==> t[k].info.pid == pid && forall j :: k < j < n ==> t[j].info.pid != pid
  {
    if n == 0 then -1 else if t[n - 1].info.pid == pid then n - 1 else PidIndex(t, pid, n - 1)
  }

  function ParentOf(t: seq<Proc>, me: nat): int
    requires me < |t|
  {
    var p := PidIndex(t, t[me].info.ppid, |t|);
    if p == me then -1 else p
  }

  function Parents(t: seq<Proc>): (par: seq<int>)
    ensures |par| == |t| && WellFormed(par)
    ensures forall i :: 0 <= i < |t| ==> par[i] == ParentOf(t, i)
  {
    seq(|t|, i requires 0 <= i < |t| => ParentOf(t, i))
  }

  /** `p` is the last row that holds the number `pid`. */
  ghost predicate LastWith(t: seq<Proc>, pid: int, p: nat) {
    p < |t| && t[p].info.pid == pid && forall q :: p < q < |t| ==> t[q].info.pid != pid
  }

  /** The parent of a row is the last row that holds its parent's number, unless that is the row itself. */
  lemma ParentIs(t: seq<Proc>, i: nat, p: nat)
    requires i < |t|
    ensures Parents(t)[i] == p <==>
            && p < |t| && p != i && t[p].info.pid == t[i].info.ppid
            && forall q :: p < q < |t| ==> t[q].info.pid != t[i].info.ppid
  {
  }

  ghost predicate SameInfo(t: seq<Proc>, u: seq<Proc>) {
    |t| == |u| && forall i :: 0 <= i < |t| ==> t[i].info == u[i].info
  }

  lemma PidIndexSame(t: seq<Proc>, u: seq<Proc>, pid: int, n: nat)
    requires SameInfo(t, u) && n <= |t|
    ensures PidIndex(t, pid, n) == PidIndex(u, pid, n)
    decreases n
  {
  }

  // ---------- what the passes compute ----------

  /** Row `i` once the first `n` processes have been attached to their parents. */
  function LinkRow(t: seq<Proc>, par: seq<int>, n: nat, i: nat): Proc
    requires |par| == |t| && n <= |t| && i < |t|
  {
    t[i].(parent := if i < n then par[i] else -1,
          child := Next(par, i, 0, n),
          sister := if i < n then Sister(par, i, n) else -1)
  }

  /** The table once the first `n` processes have been attached to their parents. */
  function LinkTable(t: seq<Proc>, par: seq<int>, n: nat): (u: seq<Proc>)
    requires |par| == |t| && n <= |t|
    ensures |u| == |t|
    ensures forall i :: 0 <= i < |t| ==> u[i] == LinkRow(t, par, n, i)
  {
    seq(|t|, i requires 0 <= i < |t| => LinkRow(t, par, n, i))
  }

  /** No process is attached yet, as the table is read in. */
  ghost predicate Unlinked(t: seq<Proc>) {
    forall i :: 0 <= i < |t| ==> t[i].parent == -1 && t[i].child == -1 && t[i].sister == -1
  }

  /** The table's links are exactly those of the forest `par`. */
  ghost predicate Linked(t: seq<Proc>, par: seq<int>) {
    && |t| == |par| && WellFormed(par)
    && forall i {:trigger t[i]} :: 0 <= i < |t| ==>
         t[i].parent == par[i] && t[i].child == Next(par, i, 0, |t|) && t[i].sister == Sister(par, i, |t|)
  }

  /** The table with the given flags switched on and everything else as it was. */
  ghost function Flag(t: seq<Proc>, show: set<int>, pick: set<int>, veil: set<int>): (u: seq<Proc>)
    ensures |u| == |t|
    ensures forall i :: 0 <= i < |t| ==>
              u[i] == t[i].(prints := t[i].prints || i in show,
                            selected := t[i].selected || i in pick,
                            hidden := t[i].hidden || i in veil)
  {
    seq(|t|, i requires 0 <= i < |t| => t[i].(prints := t[i].prints || i in show,
                                              selected := t[i].selected || i in pick,
                                              hidden := t[i].hidden || i in veil))
  }

  /** The picked processes among the first `n`. */
  ghost function PickedBelow(t: seq<Proc>, o: Options, n: nat): set<int>
    requires n <= |t|
  {
    set s | 0 <= s < n && Picked(o, t[s].info)
  }

  /** The walks up from all these processes end. */
  ghost predicate AllEnd(par: seq<int>, nodes: set<int>)
    requires WellFormed(par) && forall s :: s in nodes ==> 0 <= s < |par|
  {
    forall s :: s in nodes ==> WalkEnds(par, s)
  }

  /** `i` is an ancestor of, is, or descends from a picked process. */
  ghost predicate Touched(par: seq<int>, picked: set<int>, i: nat)
    requires WellFormed(par) && i < |par| && forall s :: s in picked ==> 0 <= s < |par|
  {
    exists s :: s in picked && (Anc(par, i, s) || Anc(par, s, i))
  }

  /** `i` is a strict ancestor of a picked process. */
  ghost predicate Covers(par: seq<int>, picked: set<int>, i: nat)
    requires WellFormed(par) && i < |par| && forall s :: s in picked ==> 0 <= s < |par|
  {
    exists s :: s in picked && StrictAnc(par, i, s)
  }

  ghost function OnLine(par: seq<int>, picked: set<int>): set<int>
    requires WellFormed(par) && forall s :: s in picked ==> 0 <= s < |par|
  {
    set i | 0 <= i < |par| && Touched(par, picked, i)
  }

  ghost function Over(par: seq<int>, picked: set<int>): set<int>
    requires WellFormed(par) && forall s :: s in picked ==> 0 <= s < |par|
  {
    set i | 0 <= i < |par| && Covers(par, picked, i)
  }

  /** The table after the marking pass has looked at the first `n` processes. */
  ghost function MarkTable(t: seq<Proc>, par: seq<int>, o: Options, n: nat): (u: seq<Proc>)
    requires |t| == |par| && n <= |t| && WellFormed(par)
    ensures |u| == |t|
  {
    if o.showAll then seq(|t|, i requires 0 <= i < |t| => t[i].(prints := t[i].prints || i < n))
    else
      var picked := PickedBelow(t, o, n);
      Flag(t, OnLine(par, picked), picked, if o.hideParents then Over(par, picked) else {})
  }

  function Prints(t: seq<Proc>): (keep: seq<bool>)
    ensures |keep| == |t| && forall i :: 0 <= i < |t| ==> keep[i] == t[i].prints
  {
    seq(|t|, i requires 0 <= i < |t| => t[i].prints)
  }

  /** Row `i` after pruning to the forest `q`; a process that does not print keeps its row. */
  function DropRow(p: Proc, q: seq<int>, o: Options, i: nat): Proc
    requires i < |q|
  {
    if !p.prints then p
    else p.(child := Next(q, i, 0, |q|),
            sister := Sister(q, i, |q|),
            hidden := p.hidden || (o.hideInit && p.info.pid == 1))
  }

  /** The table after the first `n` rows have been pruned to the forest `q`. */
  function DropTable(t: seq<Proc>, q: seq<int>, o: Options, n: nat): (u: seq<Proc>)
    requires |q| == |t| && n <= |t|
    ensures |u| == |t|
    ensures forall i :: 0 <= i < |t| ==> u[i] == if i < n then DropRow(t[i], q, o, i) else t[i]
  {
    seq(|t|, i requires 0 <= i < |t| => if i < n then DropRow(t[i], q, o, i) else t[i])
  }

  /** The forest of printing processes. */
  function Pruned(t: seq<Proc>, par: seq<int>): (q: seq<int>)
    requires |par| == |t|
    ensures |q| == |t|
  {
    Masked(par, Prints(t))
  }

  // ---------- drawing ----------

  datatype Cell = Bar | Blank
  datatype Corner = NoCorner | Fork | Last

  /** One printed line. `idx` is the process it stands for; the other fields are what it shows. */
  datatype Row = Row(idx: nat, head: seq<Cell>, corner: Corner, hasChild: bool, leader: bool,
                     pid: int, name: string, threads: nat, cmd: string)

  function RowFor(p: Proc, o: Options, idx: nat, head: seq<Cell>): Row {
    var f := p.info;
    Row(idx, head,
        if head == [] then NoCorner else if p.sister != -1 then Fork else Last,
        p.child != -1, f.pid == f.pgid, f.pid,
        if o.noNames then "" else f.name,
        if f.thcount > 1 then f.thcount else 0,
        f.cmd)
  }

  predicate Shown(p: Proc) { !p.hidden || p.selected }

  /** The prefix of the lines below a process whose own prefix is `head`. */
  function HeadBelow(p: Proc, head: seq<Cell>): seq<Cell> {
    if !Shown(p) then head
    else head + (if head == [] then [] else if p.sister != -1 then [Bar] else [Blank]) + [Blank]
  }

  /** Links stay inside the table and sister links only go forward. */
  ghost predicate Walkable(t: seq<Proc>) {
    forall i {:trigger t[i]} :: 0 <= i < |t| ==>
      -1 <= t[i].child < |t| && (t[i].sister == -1 || i < t[i].sister < |t|)
  }

  /** The lines drawn for `idx` and everything linked below it, at depth `d` of at most `o.maxDepth`. */
  ghost function Rows(t: seq<Proc>, o: Options, idx: nat, head: seq<Cell>, d: nat): seq<Row>
    requires Walkable(t) && idx < |t| && d <= o.maxDepth
    decreases o.maxDepth - d, 0, 0
  {
    if head == [] && !t[idx].prints then []
    else if d == o.maxDepth then []
    else (if Shown(t[idx]) then [RowFor(t[idx], o, idx, head)] else [])
         + RowsOf(t, o, t[idx].child, HeadBelow(t[idx], head), d + 1)
  }

  /** The lines drawn for the sister list that starts at `c`. */
  ghost function RowsOf(t: seq<Proc>, o: Options, c: int, head: seq<Cell>, d: nat): seq<Row>
    requires Walkable(t) && -1 <= c < |t| && d <= o.maxDepth
    decreases o.maxDepth - d, 1, if c == -1 then 0 else |t| - c
  {
    if c == -1 then [] else Rows(t, o, c, head, d) + RowsOf(t, o, t[c].sister, head, d)
  }
}
