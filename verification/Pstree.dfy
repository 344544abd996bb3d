/** The four passes of pstree over the shared, mutable process table. */
module Pstree {
  import opened Forest
  import opened ProcTable
  import opened EndToEnd

  class Pstree {
    const P: array<Proc>
    const opts: Options
    var atLdepth: nat
    var output: seq<Row>

    constructor (table: array<Proc>, o: Options)
      ensures P == table && opts == o && atLdepth == 0 && output == []
    {
      P, opts, atLdepth, output := table, o, 0, [];
    }

    method GetPidIndex(pid: int) returns (me: int)
      ensures me == PidIndex(P[..], pid, P.Length)
    {
      me := P.Length - 1;
      while me >= 0 && P[me].info.pid != pid
        invariant -1 <= me < P.Length
        invariant PidIndex(P[..], pid, P.Length) == PidIndex(P[..], pid, me + 1)
      {
        me := me - 1;
      }
    }

    /** Attaches every process to the end of its parent's sister list. No acyclicity is needed. */
    method MakeTree()
      requires Unlinked(P[..])
      modifies P
      ensures P[..] == LinkTable(old(P[..]), Parents(old(P[..])), P.Length)
      ensures forall i :: 0 <= i < P.Length ==> P[i].info == old(P[i].info) && -1 <= P[i].parent < P.Length
      ensures forall i, p: nat :: 0 <= i < P.Length ==>
                (P[i].parent == p <==> p != i && LastWith(P[..], P[i].info.ppid, p))
    {
      ghost var t := P[..];
      ghost var par := Parents(t);
      assert P[..] == LinkTable(t, par, 0);
      for me := 0 to P.Length
        invariant P[..] == LinkTable(t, par, me)
      {
        Attach(me, t, par);
      }
      ghost var u := P[..];
      LinkedSame(t, par);
      forall i, p: nat | 0 <= i < |u|
        ensures u[i].info == t[i].info && -1 <= u[i].parent < |u|
        ensures u[i].parent == p <==> p != i && LastWith(u, u[i].info.ppid, p)
      {
        ParentTold(t, u, i, p);
      }
    }

    /** The body of MakeTree's loop. */
    method Attach(me: nat, ghost t: seq<Proc>, ghost par: seq<int>)
      requires |t| == P.Length && par == Parents(t) && me < P.Length && P[..] == LinkTable(t, par, me)
      modifies P
      ensures P[..] == LinkTable(t, par, me + 1)
    {
      var parent := GetPidIndex(P[me].info.ppid);
      PidIndexSame(P[..], t, t[me].info.ppid, |t|);
      AttachNone(t, par, me);
      if parent != me && parent != -1 {
        AttachTo(me, parent, t, par);
      }
    }

    /** Puts `me` at the end of the list of `parent`. */
    method AttachTo(me: nat, parent: nat, ghost t: seq<Proc>, ghost par: seq<int>)
      requires |par| == |t| == P.Length && WellFormed(par) && me < P.Length && par[me] == parent
      requires P[..] == LinkTable(t, par, me)
      modifies P
      ensures P[..] == LinkTable(t, par, me + 1)
    {
      ghost var now := P[..];
      P[me] := P[me].(parent := parent);
      if P[parent].child == -1 {
        P[parent] := P[parent].(child := me);
        AttachFirst(t, par, me);
      } else {
        var sister := LastSister(me, parent, t, par);
        P[sister] := P[sister].(sister := me);
        AttachLast(t, par, me, sister);
      }
    }

    method MarkChildren(me: nat, ghost par: seq<int>)
      requires Linked(P[..], par) && me < P.Length && WalkEnds(par, me)
      modifies P
      ensures P[..] == Flag(old(P[..]), Downs(par, me), {}, {})
      decreases Downs(par, me)
    {
      ghost var t := P[..];
      P[me] := P[me].(prints := true);
      var child := P[me].child;
      ghost var c := if child == -1 then P.Length else child;
      BelowNone(par, me, c);
      while child != -1
        invariant -1 <= child < P.Length && c == if child == -1 then P.Length else child
        invariant child != -1 ==> par[child] == me
        invariant P[..] == Flag(t, BelowUpTo(par, me, c), {}, {})
        decreases P.Length - c
      {
        KidEnds(par, me, child);
        ghost var done := BelowUpTo(par, me, c);
        MarkChildren(child, par);
        FlagTwice(t, done, {}, {}, Downs(par, child), {}, {});
        child := P[child].sister;
        ghost var d := if child == -1 then P.Length else child;
        BelowStep(par, me, c, d);
        c := d;
      }
      BelowAll(par, me);
    }

    /** Flags the picked processes and everything on one line with them; the walks up from them must end. */
    method MarkProcs(ghost par: seq<int>)
      requires Linked(P[..], par)
      requires opts.showAll || AllEnd(par, PickedBelow(P[..], opts, P.Length))
      modifies P
      ensures P[..] == MarkTable(old(P[..]), par, opts, P.Length)
    {
      ghost var t := P[..];
      assert P[..] == MarkTable(t, par, opts, 0);
      for me := 0 to P.Length
        invariant P[..] == MarkTable(t, par, opts, me)
      {
        MarkOne(me, t, par);
      }
    }

    /** The body of MarkProcs' loop. */
    method MarkOne(me: nat, ghost t: seq<Proc>, ghost par: seq<int>)
      requires Linked(t, par) && me < P.Length == |t|
      requires opts.showAll || AllEnd(par, PickedBelow(t, opts, |t|))
      requires P[..] == MarkTable(t, par, opts, me)
      modifies P
      ensures P[..] == MarkTable(t, par, opts, me + 1)
    {
      MarkedLinks(t, par, opts, me);
      if opts.showAll {
        ShowStep(t, par, opts, me);
        P[me] := P[me].(prints := true);
      } else {
        MarkStep(t, par, opts, me);
        assert Picked(opts, t[me].info) ==> me in PickedBelow(t, opts, |t|);
        if Picked(opts, P[me].info) {
          MarkLine(me, par);
        }
      }
    }

    /** The body of MarkProcs' loop for a picked process. */
    method MarkLine(me: nat, ghost par: seq<int>)
      requires Linked(P[..], par) && me < P.Length && WalkEnds(par, me)
      modifies P
      ensures P[..] == Flag(old(P[..]), Ups(par, me) + Downs(par, me), {me},
                            if opts.hideParents then Ups(par, me) - {me} else {})
    {
      ghost var t := P[..];
      P[me] := P[me].(selected := true);
      assert P[..] == Flag(t, {}, {me}, {});
      MarkParents(me, par);
      ghost var up := Ups(par, me) - {me};
      ghost var veil := if opts.hideParents then up else {};
      FlagTwice(t, {}, {me}, {}, up, {}, veil);
      MarkChildren(me, par);
      FlagTwice(t, {} + up, {me} + {}, {} + veil, Downs(par, me), {}, {});
      AncUnfold(par, me, me);
      assert {} + up + Downs(par, me) == Ups(par, me) + Downs(par, me);
      assert {me} + {} + {} == {me} && {} + veil + {} == veil;
    }

    method MarkParent(parent: nat)
      requires parent < P.Length
      modifies P
      ensures P[..] == Flag(old(P[..]), {parent}, {}, if opts.hideParents then {parent} else {})
    {
      P[parent] := P[parent].(prints := true);
      if opts.hideParents {
        P[parent] := P[parent].(hidden := true);
      }
    }

    method MarkParents(me: nat, ghost par: seq<int>)
      requires Linked(P[..], par) && me < P.Length && WalkEnds(par, me)
      modifies P
      ensures P[..] == Flag(old(P[..]), Ups(par, me) - {me}, {}, if opts.hideParents then Ups(par, me) - {me} else {})
    {
      ghost var t := P[..];
      var parent := P[me].parent;
      ghost var done: set<int> := {};
      UpsUnfold(par, me);
      while parent != -1
        invariant -1 <= parent < P.Length && (parent != -1 ==> WalkEnds(par, parent))
        invariant Ups(par, me) - {me} == done + (if parent == -1 then {} else Ups(par, parent))
        invariant P[..] == Flag(t, done, {}, if opts.hideParents then done else {})
        decreases if parent == -1 then {} else Ups(par, parent)
      {
        MarkParent(parent);
        ghost var veil := if opts.hideParents then {parent} else {};
        FlagTwice(t, done, {}, if opts.hideParents then done else {}, {parent}, {}, veil);
        UpsUnfold(par, parent);
        done := done + {parent};
        parent := P[parent].parent;
      }
    }

    /** Rewrites the links of printing processes in place, while walking the very same links. */
    method DropProcs(ghost par: seq<int>)
      requires Linked(P[..], par)
      modifies P
      ensures P[..] == DropTable(old(P[..]), Pruned(old(P[..]), par), opts, P.Length)
    {
      ghost var t := P[..];
      ghost var q := Pruned(t, par);
      assert P[..] == DropTable(t, q, opts, 0);
      for me := 0 to P.Length
        invariant P[..] == DropTable(t, q, opts, me)
      {
        DropStep(t, q, opts, me);
        if P[me].prints {
          StillLinked(t, par, q, opts, me);
          DropAt(me, par, Prints(t));
        }
      }
    }

    /** The body of DropProcs' loop for a printing process. */
    method DropAt(me: nat, ghost par: seq<int>, ghost keep: seq<bool>)
      requires SilentKeepLinks(P[..], par, keep) && WellFormed(par) && me < P.Length && P[me].prints
      requires P[me].parent == par[me] && P[me].child == Next(par, me, 0, P.Length)
      requires P[me].sister == Sister(par, me, P.Length)
      modifies P
      ensures P[..] == old(P[..])[me := DropRow(old(P[me]), Masked(par, keep), opts, me)]
    {
      ghost var t := P[..];
      assert t[me].prints == keep[me];
      var child := SkipSilent(P[me].child, me, 0, par, keep);
      P[me] := P[me].(child := child);
      assert P[..] == t[me := t[me].(child := child)];
      StillSilent(t, par, keep, me, child);
      DropSister(me, par, keep);
      if opts.hideInit && P[me].info.pid == 1 {
        P[me] := P[me].(hidden := true);
      }
    }

    /** Drops the sisters that do not print from behind a printing process. */
    method DropSister(me: nat, ghost par: seq<int>, ghost keep: seq<bool>)
      requires SilentKeepLinks(P[..], par, keep) && WellFormed(par) && me < P.Length && P[me].prints
      requires P[me].sister == Sister(par, me, P.Length)
      modifies P
      ensures P[..] == old(P[..])[me := old(P[me]).(sister := Sister(Masked(par, keep), me, P.Length))]
    {
      assert P[..][me].prints == keep[me];
      if par[me] != -1 {
        NextSkips(par, keep, par[me], me + 1);
      }
      var sister := P[me].sister;
      if sister != -1 {
        sister := SkipSilent(sister, par[me], me + 1, par, keep);
      }
      P[me] := P[me].(sister := sister);
    }

    /** Walks a sister list from `start`, the first child of `p` at or after `from`, to one that prints. */
    method SkipSilent(start: int, ghost p: int, ghost from: nat, ghost par: seq<int>, ghost keep: seq<bool>)
      returns (c: int)
      requires |par| == |keep| == P.Length && 0 <= p && from <= |par|
      requires start == Next(par, p, from, |par|)
      requires SilentKeepLinks(P[..], par, keep)
      ensures c == Next(Masked(par, keep), p, from, |par|)
    {
      c := start;
      ghost var q := Masked(par, keep);
      ghost var k := from;
      while c != -1 && !P[c].prints
        invariant -1 <= c < P.Length && from <= k <= |par| && c == Next(par, p, k, |par|)
        invariant Next(q, p, from, |par|) == Next(q, p, k, |par|)
        decreases |par| - k
      {
        NextSkips(par, keep, p, k);
        assert P[..][c] == P[c];
        k := c + 1;
        c := P[c].sister;
      }
      NextSkips(par, keep, p, k);
      assert c != -1 ==> P[..][c] == P[c];
    }

    /** Draws the process `idx` and what is linked below it; the depth counter bounds the recursion. */
    method PrintTree(idx: nat, head: seq<Cell>)
      requires Walkable(P[..]) && idx < P.Length && atLdepth <= opts.maxDepth
      modifies this`atLdepth, this`output
      ensures output == old(output) + Rows(P[..], opts, idx, head, old(atLdepth))
      ensures atLdepth == old(atLdepth)
      decreases opts.maxDepth - atLdepth, 0
    {
      ghost var t := P[..];
      if head == [] && !P[idx].prints {
        return;
      }
      if atLdepth == opts.maxDepth {
        return;
      }
      atLdepth := atLdepth + 1;
      var nhead := head;
      ghost var before, own: seq<Row> := output, [];
      if Shown(P[idx]) {
        own := [RowFor(P[idx], opts, idx, head)];
        output := output + [RowFor(P[idx], opts, idx, head)];
        nhead := HeadBelow(P[idx], head);
      }
      assert output == before + own;
      RowsUnfold(t, opts, idx, head, atLdepth - 1);
      PrintKids(P[idx].child, nhead);
      atLdepth := atLdepth - 1;
      ConcatAssoc(before, own, RowsOf(t, opts, t[idx].child, nhead, atLdepth + 1));
    }

    /** The three passes in main's order. Only the marking pass needs a condition: its walks must end. */
    method BuildTree()
      requires Fresh(P[..]) && (opts.showAll || PickedEnd(P[..], opts))
      modifies P
      ensures P[..] == Final(old(P[..]), opts)
    {
      ghost var t := P[..];
      ghost var par := Parents(t);
      MakeTree();
      LinkTableLinked(t, par);
      assert PickedBelow(P[..], opts, P.Length) == PickedBelow(t, opts, |t|);
      MarkProcs(par);
      MarkedLinked(t, opts);
      DropProcs(par);
    }

    /** One of the four loops of GetRootPid. */
    method FindByRule(k: nat) returns (me: int)
      ensures me == FirstBy(P[..], k, 0)
    {
      me := 0;
      while me < P.Length
        invariant 0 <= me <= P.Length && FirstBy(P[..], k, 0) == FirstBy(P[..], k, me)
      {
        if RootRule(k, P[me].info) {
          return;
        }
        me := me + 1;
      }
      me := -1;
    }

    method GetRootPid() returns (pid: int)
      ensures pid == RootPid(P[..], 0)
      ensures var t := P[..];
              if exists i :: 0 <= i < |t| && t[i].info.pid == 1 then pid == 1
              else if exists i :: 0 <= i < |t| && t[i].info.ppid == 0 then
                exists i :: 0 <= i < |t| && t[i].info.ppid == 0 && pid == t[i].info.pid
                            && forall j :: 0 <= j < i ==> t[j].info.ppid != 0
              else if exists i :: 0 <= i < |t| && t[i].info.ppid == 1 then
                exists i :: 0 <= i < |t| && t[i].info.ppid == 1 && pid == t[i].info.pid
                            && forall j :: 0 <= j < i ==> t[j].info.ppid != 1
              else if exists i :: 0 <= i < |t| && t[i].info.ppid == t[i].info.pid then
                exists i :: 0 <= i < |t| && t[i].info.ppid == t[i].info.pid == pid
                            && forall j :: 0 <= j < i ==> t[j].info.ppid != t[j].info.pid
              else pid == -1
    {
      RootPidIs(P[..]);
      var k := 0;
      while k < 4
        invariant RootPid(P[..], 0) == RootPid(P[..], k)
      {
        var me := FindByRule(k);
        if me != -1 {
          return P[me].info.pid;
        }
        k := k + 1;
      }
      return -1;
    }

    /** main without process arguments, on a table just read in; without a start the source reads a row -1. */
    method Show() returns (started: bool)
      requires Fresh(P[..]) && (opts.showAll || PickedEnd(P[..], opts))
      requires atLdepth == 0 && output == []
      modifies P, this`atLdepth, this`output
      ensures atLdepth == 0 && P[..] == Final(old(P[..]), opts) && Walkable(P[..])
      ensures started <==> HasStart(old(P[..]))
      ensures !started ==> output == []
      ensures started ==> 0 <= StartRow(old(P[..])) < P.Length
                          && output == Rows(P[..], opts, StartRow(old(P[..])), [], 0)
                          && RightOutput(old(P[..]), opts, StartRow(old(P[..])), output)
    {
      ghost var t := P[..];
      var rootPid := GetRootPid();
      BuildTree();
      FinalWalkable(t, opts);
      FinalPidIndex(t, opts, rootPid);
      StartIsRowIff(t);
      var root := GetPidIndex(rootPid);
      if root == -1 {
        return false;
      }
      PrintTree(root, []);
      OutputRight(t, opts, root);
      return true;
    }

    /** main with process arguments: one tree for each that exists, in the order given. */
    method ShowEach(pids: seq<int>)
      requires Fresh(P[..]) && (opts.showAll || PickedEnd(P[..], opts))
      requires atLdepth == 0 && output == []
      modifies P, this`atLdepth, this`output
      ensures atLdepth == 0 && P[..] == Final(old(P[..]), opts) && Walkable(P[..])
      ensures output == Concat(Blocks(P[..], opts, pids))
      ensures forall k :: 0 <= k < |pids| ==> GoodBlock(old(P[..]), opts, pids[k], Blocks(P[..], opts, pids)[k])
    {
      ghost var t := P[..];
      BuildTree();
      FinalWalkable(t, opts);
      DrawEach(pids);
      forall k | 0 <= k < |pids| ensures GoodBlock(t, opts, pids[k], Blocks(P[..], opts, pids)[k]) {
        BlockGood(t, opts, pids[k]);
      }
    }

    /** main's loop over its process arguments. */
    method DrawEach(pids: seq<int>)
      requires Walkable(P[..]) && atLdepth == 0 && output == []
      modifies this`atLdepth, this`output
      ensures atLdepth == 0 && output == Concat(Blocks(P[..], opts, pids))
    {
      for k := 0 to |pids|
        invariant atLdepth == 0 && output == Concat(Blocks(P[..], opts, pids[..k]))
      {
        BlocksMore(P[..], opts, pids, k);
        var idx := GetPidIndex(pids[k]);
        if idx > -1 {
          PrintTree(idx, []);
        }
      }
      assert pids[..|pids|] == pids;
    }

    /** PrintTree's loop over a sister list. */
    method PrintKids(first: int, nhead: seq<Cell>)
      requires Walkable(P[..]) && -1 <= first < P.Length && atLdepth <= opts.maxDepth
      modifies this`atLdepth, this`output
      ensures output == old(output) + RowsOf(P[..], opts, first, nhead, old(atLdepth))
      ensures atLdepth == old(atLdepth)
      decreases opts.maxDepth - atLdepth, 1
    {
      ghost var t, d := P[..], atLdepth;
      ghost var drawn: seq<Row> := [];
      var child := first;
      while child != -1
        invariant -1 <= child < P.Length && atLdepth == d
        invariant output == old(output) + drawn
        invariant drawn + RowsOf(t, opts, child, nhead, d) == RowsOf(t, opts, first, nhead, d)
        decreases if child == -1 then 0 else P.Length - child
      {
        PrintTree(child, nhead);
        ghost var block, rest := Rows(t, opts, child, nhead, d), RowsOf(t, opts, t[child].sister, nhead, d);
        ConcatAssoc(drawn, block, rest);
        ConcatAssoc(old(output), drawn, block);
        drawn := drawn + block;
        child := P[child].sister;
      }
    }

    method LastSister(me: nat, parent: nat, ghost t: seq<Proc>, ghost par: seq<int>) returns (sister: nat)
      requires |par| == |t| == P.Length && WellFormed(par) && me < P.Length && parent < P.Length
      requires forall i {:trigger P[i]} :: 0 <= i < P.Length ==>
                 P[i].child == LinkRow(t, par, me, i).child && P[i].sister == LinkRow(t, par, me, i).sister
      requires P[parent].child != -1
      ensures sister < me && par[sister] == parent && LinkRow(t, par, me, sister).sister == -1
    {
      sister := P[parent].child;
      while P[sister].sister != -1
        invariant 0 <= sister < me && par[sister] == parent
        decreases me - sister
      {
        sister := P[sister].sister;
      }
    }
  }

  lemma RowsUnfold(t: seq<Proc>, o: Options, idx: nat, head: seq<Cell>, d: nat)
    requires Walkable(t) && idx < |t| && d < o.maxDepth && (head != [] || t[idx].prints)
    ensures Rows(t, o, idx, head, d) ==
            (if Shown(t[idx]) then [RowFor(t[idx], o, idx, head)] else [])
            + RowsOf(t, o, t[idx].child, HeadBelow(t[idx], head), d + 1)
  {
  }

  lemma ConcatAssoc(a: seq<Row>, b: seq<Row>, c: seq<Row>)
    ensures (a + b) + c == a + (b + c)
  {
  }

  // ---------- marking ----------

  lemma FlagTwice(t: seq<Proc>, a: set<int>, b: set<int>, c: set<int>, d: set<int>, e: set<int>, f: set<int>)
    ensures Flag(Flag(t, a, b, c), d, e, f) == Flag(t, a + d, b + e, c + f)
  {
  }

  ghost predicate InKidsBefore(par: seq<int>, me: nat, c: nat, i: nat)
    requires WellFormed(par) && i < |par| && c <= |par|
  {
    i == me || exists k :: 0 <= k < c && par[k] == me && Anc(par, k, i)
  }

  /** The node `me` and the subtrees of those of its children that come before `c`. */
  ghost function BelowUpTo(par: seq<int>, me: nat, c: nat): set<int>
    requires WellFormed(par) && me < |par| && c <= |par|
  {
    set i | 0 <= i < |par| && InKidsBefore(par, me, c, i)
  }

  lemma BelowNone(par: seq<int>, me: nat, c: nat)
    requires WellFormed(par) && me < |par| && c <= |par|
    requires c == if Next(par, me, 0, |par|) == -1 then |par| else Next(par, me, 0, |par|)
    ensures BelowUpTo(par, me, c) == {me}
  {
    forall k | 0 <= k < c ensures par[k] != me {
      if par[k] == me { NextLeast(par, me, 0, |par|, k); }
    }
  }

  lemma BelowStep(par: seq<int>, me: nat, c: nat, d: nat)
    requires WellFormed(par) && me < |par| && c < |par| && par[c] == me
    requires d == if Sister(par, c, |par|) == -1 then |par| else Sister(par, c, |par|)
    ensures BelowUpTo(par, me, d) == BelowUpTo(par, me, c) + Downs(par, c)
  {
    forall k | c < k < d ensures par[k] != me {
      if par[k] == me { NextLeast(par, me, c + 1, |par|, k); }
    }
  }

  lemma KidEnds(par: seq<int>, me: nat, child: nat)
    requires WellFormed(par) && me < |par| && child < |par| && par[child] == me && WalkEnds(par, me)
    ensures WalkEnds(par, child) && Downs(par, child) < Downs(par, me)
  {
    AncUnfold(par, me, me);
    AncUnfold(par, me, child);
    EndsBelow(par, me, child);
    EndsAbove(par, child);
    StepShrinks(par, child);
  }

  lemma BelowAll(par: seq<int>, me: nat)
    requires WellFormed(par) && me < |par|
    ensures BelowUpTo(par, me, |par|) == Downs(par, me)
  {
    forall i | 0 <= i < |par| ensures i in BelowUpTo(par, me, |par|) <==> i in Downs(par, me) {
      Below(par, me, i);
    }
  }

  lemma UpsUnfold(par: seq<int>, d: nat)
    requires WellFormed(par) && d < |par| && WalkEnds(par, d)
    ensures d in Ups(par, d) && !StrictAnc(par, d, d)
    ensures par[d] != -1 ==> WalkEnds(par, par[d])
    ensures par[d] == -1 ==> Ups(par, d) == {d}
    ensures par[d] != -1 ==> Ups(par, d) - {d} == Ups(par, par[d]) && Ups(par, par[d]) < Ups(par, d)
  {
    AncUnfold(par, d, d);
    EndsAbove(par, d);
    forall a: nat | a < |par| ensures a in Ups(par, d) <==> a == d || StrictAnc(par, a, d) {
      AncUnfold(par, a, d);
    }
    if par[d] != -1 {
      StepShrinks(par, d);
    }
  }

  lemma MarkedLinks(t: seq<Proc>, par: seq<int>, o: Options, me: nat)
    requires Linked(t, par) && me < |t|
    ensures Linked(MarkTable(t, par, o, me), par) && MarkTable(t, par, o, me)[me].info == t[me].info
  {
  }

  lemma ShowStep(t: seq<Proc>, par: seq<int>, o: Options, me: nat)
    requires |t| == |par| && me < |t| && WellFormed(par) && o.showAll
    ensures var now := MarkTable(t, par, o, me);
            MarkTable(t, par, o, me + 1) == now[me := now[me].(prints := true)]
  {
  }

  /** Looking at one more process adds its line when it is picked, and nothing otherwise. */
  lemma MarkStep(t: seq<Proc>, par: seq<int>, o: Options, me: nat)
    requires |t| == |par| && me < |t| && WellFormed(par) && !o.showAll
    requires Picked(o, t[me].info) ==> WalkEnds(par, me)
    ensures MarkTable(t, par, o, me + 1) ==
            if !Picked(o, t[me].info) then MarkTable(t, par, o, me)
            else Flag(MarkTable(t, par, o, me), Ups(par, me) + Downs(par, me), {me},
                      if o.hideParents then Ups(par, me) - {me} else {})
  {
    var before, now := PickedBelow(t, o, me), PickedBelow(t, o, me + 1);
    if !Picked(o, t[me].info) {
      assert now == before;
    } else {
      assert now == before + {me};
      UpsUnfold(par, me);
      forall i | 0 <= i < |par|
        ensures i in OnLine(par, now) <==> i in OnLine(par, before) + (Ups(par, me) + Downs(par, me))
        ensures i in Over(par, now) <==> i in Over(par, before) + (Ups(par, me) - {me})
      {
        AncUnfold(par, i, me);
      }
      assert OnLine(par, now) == OnLine(par, before) + (Ups(par, me) + Downs(par, me));
      assert Over(par, now) == Over(par, before) + (Ups(par, me) - {me});
    }
  }

  // ---------- pruning ----------

  /** Rows that do not print still hold the sister links of the full forest. */
  ghost predicate SilentKeepLinks(t: seq<Proc>, par: seq<int>, keep: seq<bool>) {
    && |t| == |par| == |keep|
    && forall i {:trigger t[i]} :: 0 <= i < |t| ==>
         t[i].prints == keep[i] && (!keep[i] ==> t[i].sister == Sister(par, i, |t|))
  }

  lemma DropStep(t: seq<Proc>, q: seq<int>, o: Options, me: nat)
    requires |q| == |t| && me < |t|
    ensures DropTable(t, q, o, me)[me] == t[me]
    ensures DropTable(t, q, o, me + 1) == DropTable(t, q, o, me)[me := DropRow(t[me], q, o, me)]
    ensures !t[me].prints ==> DropTable(t, q, o, me + 1) == DropTable(t, q, o, me)
  {
  }

  lemma StillLinked(t: seq<Proc>, par: seq<int>, q: seq<int>, o: Options, n: nat)
    requires Linked(t, par) && |q| == |t| && n <= |t|
    ensures SilentKeepLinks(DropTable(t, q, o, n), par, Prints(t))
  {
  }

  /** Rewriting the child of a printing row leaves the silent rows alone. */
  lemma StillSilent(t: seq<Proc>, par: seq<int>, keep: seq<bool>, me: nat, child: int)
    requires SilentKeepLinks(t, par, keep) && me < |t| && t[me].prints
    ensures SilentKeepLinks(t[me := t[me].(child := child)], par, keep)
  {
    assert t[me].prints == keep[me];
  }

  /** The first printing child at or after `k` is the first child, when that one prints, or comes later. */
  lemma NextSkips(par: seq<int>, keep: seq<bool>, p: int, k: nat)
    requires |keep| == |par| && 0 <= p && k <= |par|
    ensures var c, q := Next(par, p, k, |par|), Masked(par, keep);
            Next(q, p, k, |par|) ==
            if c == -1 then -1 else if keep[c] then c else Next(q, p, c + 1, |par|)
    decreases |par| - k
  {
    var c, q := Next(par, p, k, |par|), Masked(par, keep);
    if k < |par| && par[k] != p {
      NextSkips(par, keep, p, k + 1);
    }
  }

  // ---------- the tree ----------

  lemma LinkedSame(t: seq<Proc>, par: seq<int>)
    requires |par| == |t|
    ensures var u := LinkTable(t, par, |t|);
            SameInfo(t, u) && forall i :: 0 <= i < |t| ==> u[i].parent == par[i]
  {
  }

  /** The links tell the parent of each row: the last row that holds its parent's number, unless that is itself. */
  lemma ParentTold(t: seq<Proc>, u: seq<Proc>, i: nat, p: nat)
    requires SameInfo(t, u) && i < |t| && u[i].parent == Parents(t)[i]
    ensures u[i].info == t[i].info && -1 <= u[i].parent < |u|
    ensures u[i].parent == p <==> p != i && LastWith(u, u[i].info.ppid, p)
  {
    ParentIs(t, i, p);
    assert forall q :: 0 <= q < |u| ==> u[q].info.pid == t[q].info.pid;
  }

  /** What attaching process `me` changes in row `i`: at most one link. */
  lemma AttachRow(t: seq<Proc>, par: seq<int>, me: nat, i: nat)
    requires |par| == |t| && WellFormed(par) && me < |t| && i < |t|
    ensures var now := LinkRow(t, par, me, i);
            LinkRow(t, par, me + 1, i) ==
            if par[me] == -1 then now
            else if i == me then now.(parent := par[me])
            else if i == par[me] && now.child == -1 then now.(child := me)
            else if i < me && par[i] == par[me] && now.sister == -1 then now.(sister := me)
            else now
  {
    NextExtend(par, i, 0, me);
    if i < me && par[i] != -1 {
      NextExtend(par, par[i], i + 1, me);
    }
  }

  lemma AttachNone(t: seq<Proc>, par: seq<int>, me: nat)
    requires |par| == |t| && WellFormed(par) && me < |t|
    ensures par[me] == -1 ==> LinkTable(t, par, me + 1) == LinkTable(t, par, me)
  {
    forall i | 0 <= i < |t| { AttachRow(t, par, me, i); }
  }

  lemma AttachFirst(t: seq<Proc>, par: seq<int>, me: nat)
    requires |par| == |t| && WellFormed(par) && me < |t| && par[me] != -1
    requires LinkTable(t, par, me)[par[me]].child == -1
    ensures var now := LinkTable(t, par, me);
            LinkTable(t, par, me + 1) ==
            now[me := now[me].(parent := par[me])][par[me] := now[par[me]].(child := me)]
  {
    var now := LinkTable(t, par, me);
    var after := now[me := now[me].(parent := par[me])][par[me] := now[par[me]].(child := me)];
    forall i | 0 <= i < |t| ensures LinkTable(t, par, me + 1)[i] == after[i] {
      AttachRow(t, par, me, i);
      if i < me && par[i] == par[me] {
        NextLeast(par, par[me], 0, me, i);
      }
    }
  }

  lemma AttachLast(t: seq<Proc>, par: seq<int>, me: nat, last: nat)
    requires |par| == |t| && WellFormed(par) && last < me < |t| && par[me] == par[last] != -1
    requires LinkTable(t, par, me)[last].sister == -1
    ensures var now := LinkTable(t, par, me);
            LinkTable(t, par, me + 1) ==
            now[me := now[me].(parent := par[me])][last := now[last].(sister := me)]
  {
    var now := LinkTable(t, par, me);
    var after := now[me := now[me].(parent := par[me])][last := now[last].(sister := me)];
    NextLeast(par, par[me], 0, me, last);
    forall i | 0 <= i < |t| ensures LinkTable(t, par, me + 1)[i] == after[i] {
      AttachRow(t, par, me, i);
      if i < last && par[i] == par[me] {
        NextLeast(par, par[me], i + 1, me, last);
      } else if last < i < me && par[i] == par[me] {
        NextLeast(par, par[me], last + 1, me, i);
      }
    }
  }
}
