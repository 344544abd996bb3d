/** The three passes together: which processes are printed, in which lists, and which lines come out. */
module EndToEnd {
  import opened Forest
  import opened ProcTable
  import opened Listing
  import opened Drawing

  // ---------- the lists ----------

  /** The sister list that starts at `c`. */
  function Chain(t: seq<Proc>, c: int): seq<int>
    requires Walkable(t) && -1 <= c < |t|
    decreases if c == -1 then 0 else |t| - c
  {
    if c == -1 then [] else [c] + Chain(t, t[c].sister)
  }

  function Filter(s: seq<int>, keep: seq<bool>): seq<int>
    requires forall k :: 0 <= k < |s| ==> 0 <= s[k] < |keep|
  {
    if s == [] then [] else (if keep[s[0]] then [s[0]] else []) + Filter(s[1..], keep)
  }

  lemma {:induction false} ChainIsKids(t: seq<Proc>, q: seq<int>, p: nat, from: nat)
    requires Walkable(t) && |q| == |t| && from <= |t|
    requires forall i {:trigger t[i]} :: 0 <= i < |t| && q[i] == p ==> t[i].sister == Sister(q, i, |t|)
    ensures Chain(t, Next(q, p, from, |t|)) == Kids(q, p, from, |t|)
    decreases |t| - from
  {
    if from < |t| {
      ChainIsKids(t, q, p, from + 1);
      if q[from] == p {
        assert t[from].sister == Next(q, p, from + 1, |t|);
      }
    }
  }

  lemma FilterCons(x: nat, rest: seq<int>, keep: seq<bool>)
    requires x < |keep| && forall k :: 0 <= k < |rest| ==> 0 <= rest[k] < |keep|
    ensures Filter([x] + rest, keep) == (if keep[x] then [x] else []) + Filter(rest, keep)
  {
  }

  lemma {:induction false} KidsMasked(par: seq<int>, keep: seq<bool>, q: seq<int>, p: nat, from: nat)
    requires |keep| == |par| == |q| && from <= |par|
    requires forall i {:trigger q[i]} :: 0 <= i < |q| ==> q[i] == if keep[i] then par[i] else -1
    ensures Kids(q, p, from, |q|) == Filter(Kids(par, p, from, |par|), keep)
    decreases |par| - from
  {
    if from < |par| {
      KidsMasked(par, keep, q, p, from + 1);
      FilterCons(from, Kids(par, p, from + 1, |par|), keep);
    }
  }

  lemma LinkTableLinked(t: seq<Proc>, par: seq<int>)
    requires |par| == |t| && WellFormed(par)
    ensures Linked(LinkTable(t, par, |t|), par) && Walkable(LinkTable(t, par, |t|))
  {
  }

  /** After MakeTree, cyclic table or not, each process heads exactly the increasing list of its children. */
  lemma MakeTreeLists(t: seq<Proc>, p: nat)
    requires p < |t|
    ensures var u, par := LinkTable(t, Parents(t), |t|), Parents(t);
            && Walkable(u)
            && Chain(u, u[p].child) == Kids(par, p, 0, |t|)
            && (forall i :: 0 <= i < |t| ==> (i in Chain(u, u[p].child) <==> u[i].parent == p))
            && (forall i :: 0 <= i < |t| ==> (u[i].parent == p <==>
                  (p != i && t[p].info.pid == t[i].info.ppid
                   && forall q :: p < q < |t| ==> t[q].info.pid != t[i].info.ppid)))
  {
    forall i | 0 <= i < |t|
      ensures Parents(t)[i] == p <==>
              && p != i && t[p].info.pid == t[i].info.ppid
              && forall q :: p < q < |t| ==> t[q].info.pid != t[i].info.ppid
    {
      ParentIs(t, i, p);
    }
    KidsExact(Parents(t), p, 0, |t|);
    var par := Parents(t);
    LinkTableLinked(t, par);
    ChainIsKids(LinkTable(t, par, |t|), par, p, 0);
  }

  lemma DropTableWalkable(t: seq<Proc>, par: seq<int>, o: Options)
    requires Linked(t, par)
    ensures Walkable(DropTable(t, Pruned(t, par), o, |t|))
  {
  }

  /** DropProcs is an in-place filter: a printing process keeps its printing children, in their order. */
  lemma DropProcsFilters(t: seq<Proc>, par: seq<int>, o: Options, p: nat)
    requires Linked(t, par) && p < |t| && t[p].prints
    ensures var u := DropTable(t, Pruned(t, par), o, |t|);
            && Walkable(u)
            && Chain(u, u[p].child) == Filter(Kids(par, p, 0, |t|), Prints(t))
  {
    var q := Pruned(t, par);
    DropTableWalkable(t, par, o);
    ChainIsKids(DropTable(t, q, o, |t|), q, p, 0);
    KidsMasked(par, Prints(t), q, p, 0);
  }

  // ---------- which processes print ----------

  /** A table as it is read in: no links and no flags. */
  ghost predicate Fresh(t: seq<Proc>) {
    Unlinked(t) && forall i {:trigger t[i]} :: 0 <= i < |t| ==> !t[i].prints && !t[i].selected && !t[i].hidden
  }

  ghost function Marked(t: seq<Proc>, o: Options): (u: seq<Proc>)
    ensures |u| == |t|
  {
    MarkTable(LinkTable(t, Parents(t), |t|), Parents(t), o, |t|)
  }

  /** The table PrintTree works on. */
  ghost function Final(t: seq<Proc>, o: Options): (u: seq<Proc>)
    ensures |u| == |t|
  {
    DropTable(Marked(t, o), Pruned(Marked(t, o), Parents(t)), o, |t|)
  }

  /** The process stays: an ancestor or a descendant of a picked process, or one itself. */
  ghost predicate Kept(t: seq<Proc>, o: Options, i: nat)
    requires i < |t|
  {
    o.showAll || Touched(Parents(t), PickedBelow(t, o, |t|), i)
  }

  /** The process stays in the tree but its own line is left out. */
  ghost predicate Veiled(t: seq<Proc>, o: Options, i: nat)
    requires i < |t|
  {
    && ((!o.showAll && o.hideParents && Covers(Parents(t), PickedBelow(t, o, |t|), i))
        || (o.hideInit && t[i].info.pid == 1))
    && (o.showAll || !Picked(o, t[i].info))
  }

  lemma MarkedLinked(t: seq<Proc>, o: Options)
    ensures Linked(Marked(t, o), Parents(t))
  {
  }

  lemma MarkedFlags(t: seq<Proc>, o: Options, i: nat)
    requires Fresh(t) && i < |t|
    ensures Marked(t, o)[i].prints <==> Kept(t, o, i)
    ensures Marked(t, o)[i].info == t[i].info
    ensures Marked(t, o)[i].prints ==> (Veiled(t, o, i) <==> !Shown(Final(t, o)[i]))
  {
    var par, u := Parents(t), LinkTable(t, Parents(t), |t|);
    LinkTableLinked(t, par);
    assert PickedBelow(u, o, |t|) == PickedBelow(t, o, |t|);
    assert u[i].info == t[i].info && !u[i].prints && !u[i].selected && !u[i].hidden;
  }

  /** MarkProcs is the exact two-way closure of the picked processes. */
  lemma MarkedExactly(t: seq<Proc>, o: Options, i: nat)
    requires Fresh(t) && i < |t| && !o.showAll
    ensures var m, par, picked := Marked(t, o)[i], Parents(t), PickedBelow(t, o, |t|);
            && (m.prints <==> exists s :: s in picked && (Anc(par, i, s) || Anc(par, s, i)))
            && (m.selected <==> Picked(o, t[i].info))
            && (m.hidden <==> o.hideParents && exists s :: s in picked && StrictAnc(par, i, s))
  {
  }

  /** What -u, -U, -p and -s select. */
  lemma SelectedIff(t: seq<Proc>, o: Options, i: nat)
    requires Fresh(t) && i < |t| && !o.showAll
    ensures Marked(t, o)[i].selected <==>
            var f := t[i].info;
            || f.name == o.user
            || (o.notRoot && f.name != "root")
            || f.pid == o.pid
            || (o.search && f.pid != o.myPid && exists before, after :: f.cmd == before + o.text + after)
  {
    MarkedExactly(t, o, i);
    PickedIff(o, t[i].info);
  }

  /** Each of the four switches on its own; the others are off when they match no process. */
  lemma EachSwitchAlone(t: seq<Proc>, o: Options, i: nat)
    requires Fresh(t) && i < |t| && !o.showAll
    ensures var f, picked := t[i].info, Marked(t, o)[i].selected;
            && (!o.notRoot && f.pid != o.pid && !o.search ==> (picked <==> f.name == o.user))
            && (f.name != o.user && f.pid != o.pid && !o.search && o.notRoot ==> (picked <==> f.name != "root"))
            && (f.name != o.user && !o.notRoot && !o.search ==> (picked <==> f.pid == o.pid))
            && (f.name != o.user && !o.notRoot && f.pid != o.pid && o.search ==>
                  (picked <==> f.pid != o.myPid && exists before, after :: f.cmd == before + o.text + after))
  {
    MarkedExactly(t, o, i);
    PickedIff(o, t[i].info);
  }

  /** The printed set is closed under `parent`, so pruning orphans nobody. */
  lemma KeptUpClosed(t: seq<Proc>, o: Options, i: nat)
    requires i < |t| && Kept(t, o, i) && Parents(t)[i] != -1
    ensures Kept(t, o, Parents(t)[i])
  {
    var par, picked := Parents(t), PickedBelow(t, o, |t|);
    if !o.showAll {
      var p := par[i];
      var s :| s in picked && (Anc(par, i, s) || Anc(par, s, i));
      AncUnfold(par, p, i);
      AncUnfold(par, p, p);
      if Anc(par, i, s) {
        AncTransitive(par, p, i, s);
      } else {
        AncUnfold(par, s, i);
        AncUnfold(par, p, s);
      }
    }
  }

  // ---------- the printed forest ----------

  ghost function KeptFlags(t: seq<Proc>, o: Options): (keep: seq<bool>)
    ensures |keep| == |t| && forall i :: 0 <= i < |t| ==> keep[i] == Kept(t, o, i)
  {
    seq(|t|, i requires 0 <= i < |t| => Kept(t, o, i))
  }

  /** The forest of the processes that stay. */
  ghost function KeptForest(t: seq<Proc>, o: Options): (q: seq<int>)
    ensures |q| == |t| && WellFormed(q)
  {
    Masked(Parents(t), KeptFlags(t, o))
  }

  /** The walks up from all picked processes end: what MarkProcs needs to come to an end itself. */
  ghost predicate PickedEnd(t: seq<Proc>, o: Options) {
    AllEnd(Parents(t), PickedBelow(t, o, |t|))
  }

  /** The printed forest is acyclic exactly when the marking pass ends, or the whole table is acyclic under showall. */
  lemma KeptAcyclicIff(t: seq<Proc>, o: Options)
    ensures Acyclic(KeptForest(t, o)) <==> if o.showAll then Acyclic(Parents(t)) else PickedEnd(t, o)
  {
    var par, picked := Parents(t), PickedBelow(t, o, |t|);
    KeptFlagsUpClosed(t, o);
    MaskedAcyclic(par, KeptFlags(t, o));
    if !o.showAll && PickedEnd(t, o) {
      forall i | 0 <= i < |t| && Kept(t, o, i) ensures !StrictAnc(par, i, i) {
        var s :| s in picked && (Anc(par, i, s) || Anc(par, s, i));
        if Anc(par, s, i) { EndsBelow(par, s, i); EndsAbove(par, i); } else { WalkEndsIff(par, s); }
      }
    }
    if !o.showAll && Acyclic(KeptForest(t, o)) {
      forall s | s in picked ensures WalkEnds(par, s) {
        forall a | 0 <= a < |par| && Anc(par, a, s) ensures !StrictAnc(par, a, a) {
          assert Kept(t, o, a);
        }
        WalkEndsIff(par, s);
      }
    }
  }

  lemma KeptFlagsUpClosed(t: seq<Proc>, o: Options)
    ensures UpClosed(Parents(t), KeptFlags(t, o))
  {
    forall i | 0 <= i < |t| && Kept(t, o, i) && Parents(t)[i] != -1 ensures Kept(t, o, Parents(t)[i]) {
      KeptUpClosed(t, o, i);
    }
  }

  lemma MarkedPrints(t: seq<Proc>, o: Options)
    requires Fresh(t)
    ensures Prints(Marked(t, o)) == KeptFlags(t, o)
    ensures Pruned(Marked(t, o), Parents(t)) == KeptForest(t, o)
  {
    forall i | 0 <= i < |t| ensures Prints(Marked(t, o))[i] == KeptFlags(t, o)[i] {
      MarkedFlags(t, o, i);
    }
  }

  lemma FinalWalkable(t: seq<Proc>, o: Options)
    requires Fresh(t)
    ensures Walkable(Final(t, o))
  {
  }

  lemma FinalFlags(t: seq<Proc>, o: Options, i: nat)
    requires Fresh(t) && i < |t|
    ensures Final(t, o)[i].prints <==> Kept(t, o, i)
    ensures Final(t, o)[i].info == t[i].info
    ensures Kept(t, o, i) ==> (Shown(Final(t, o)[i]) <==> !Veiled(t, o, i))
  {
    MarkedFlags(t, o, i);
  }

  /** A process that stays has exactly the links of the printed forest. */
  lemma FinalLinks(t: seq<Proc>, o: Options, i: nat)
    requires Fresh(t) && i < |t| && Kept(t, o, i)
    ensures Final(t, o)[i].child == Next(KeptForest(t, o), i, 0, |t|)
    ensures Final(t, o)[i].sister == Sister(KeptForest(t, o), i, |t|)
  {
    MarkedPrints(t, o);
    MarkedFlags(t, o, i);
  }

  // ---------- what is listed ----------

  /** The tree of `r` in the printed forest, with the link above `r` cut. */
  ghost function TreeBelow(t: seq<Proc>, o: Options, r: nat): (v: seq<int>)
    ensures |v| == |t| && WellFormed(v) && Acyclic(v)
  {
    TreeAcyclic(Parents(t), KeptFlags(t, o), r);
    Tree(Parents(t), KeptFlags(t, o), r)
  }

  /** The process has a line below `r`: it stays, it is not veiled, and it is not too deep. */
  ghost predicate Expected(t: seq<Proc>, o: Options, r: nat, i: int) {
    && 0 <= i < |t| && Anc(Parents(t), r, i)
    && Kept(t, o, i) && !Veiled(t, o, i)
    && |Path(TreeBelow(t, o, r), r, i)| <= o.maxDepth
  }

  /** The processes with a later sister that stays. */
  ghost function KeptLaters(t: seq<Proc>, o: Options): set<int> {
    set i | 0 <= i < |t| && HasLaterSister(KeptForest(t, o), i)
  }

  ghost function Unveiled(t: seq<Proc>, o: Options): set<int> {
    set i | 0 <= i < |t| && !Veiled(t, o, i)
  }

  /** The prefix of the line for `i` in the drawing of `r`. */
  ghost function Prefix(t: seq<Proc>, o: Options, r: nat, i: nat): seq<Cell>
    requires i < |t|
  {
    HeadOf(TreeBelow(t, o, r), KeptLaters(t, o), Unveiled(t, o), r, i)
  }

  /** The whole line for `i` in the drawing of `r`, in terms of the table as it was read in. */
  ghost function Line(t: seq<Proc>, o: Options, r: nat, i: nat): Row
    requires i < |t|
  {
    var f, head := t[i].info, Prefix(t, o, r, i);
    Row(i, head,
        if head == [] then NoCorner else if i in KeptLaters(t, o) then Fork else Last,
        HasKid(KeptForest(t, o), i), f.pid == f.pgid, f.pid,
        if o.noNames then "" else f.name,
        if f.thcount > 1 then f.thcount else 0,
        f.cmd)
  }

  /** The lines are those of the expected processes, each once, parents first and sisters in index order. */
  ghost predicate GoodListing(t: seq<Proc>, o: Options, r: nat, rows: seq<Row>) {
    && (forall i :: Lists(rows, i) <==> Expected(t, o, r, i))
    && Ordered(TreeBelow(t, o, r), r, rows)
    && forall k :: 0 <= k < |rows| ==> rows[k].idx < |t| && rows[k] == Line(t, o, r, rows[k].idx)
  }

  /** In an acyclic table, depth and order in the printed tree are those in the full one. */
  lemma PathsInFull(t: seq<Proc>, o: Options, r: nat, i: nat)
    requires Acyclic(Parents(t)) && r < |t| && i < |t| && Kept(t, o, i)
    ensures Path(TreeBelow(t, o, r), r, i) == Path(Parents(t), r, i)
  {
    KeptFlagsUpClosed(t, o);
    TreeAcyclic(Parents(t), KeptFlags(t, o), r);
    TreePath(Parents(t), KeptFlags(t, o), r, i);
  }

  /** A good listing is unique, line for line: set, order and contents leave no choice. */
  lemma ListingUnique(t: seq<Proc>, o: Options, r: nat, a: seq<Row>, b: seq<Row>)
    requires GoodListing(t, o, r, a) && GoodListing(t, o, r, b)
    ensures a == b
  {
    var v := TreeBelow(t, o, r);
    OrderedAgree(v, r, a, b, |a|);
    OrderedAgree(v, r, b, a, |b|);
    forall k | 0 <= k < |a| ensures a[k] == b[k] {
      assert a[k].idx == b[k].idx;
    }
  }

  // ---------- when the listing is good ----------

  /** A cycle brings the start back where it, or its children when it is veiled, are within the depth bound. */
  ghost predicate ShortCycle(t: seq<Proc>, o: Options, r: nat)
    requires r < |t|
  {
    exists n: nat :: n >= 1 && n + (if Veiled(t, o, r) then 1 else 0) < o.maxDepth && Climb(Parents(t), r, n) == r
  }

  lemma FinalKeptLinks(t: seq<Proc>, o: Options)
    requires Fresh(t)
    ensures KeptLinks(Final(t, o), KeptForest(t, o))
  {
    FinalWalkable(t, o);
    forall i | 0 <= i < |t|
      ensures Final(t, o)[i].prints <==> KeptFlags(t, o)[i]
      ensures Kept(t, o, i) ==> Final(t, o)[i].child == Next(KeptForest(t, o), i, 0, |t|)
      ensures Kept(t, o, i) ==> Final(t, o)[i].sister == Sister(KeptForest(t, o), i, |t|)
    {
      FinalFlags(t, o, i);
      if Kept(t, o, i) { FinalLinks(t, o, i); }
    }
  }

  lemma FinalPruned(t: seq<Proc>, o: Options, r: nat)
    requires Fresh(t) && r < |t| && Kept(t, o, r) && !ShortCycle(t, o, r)
    ensures PrunedTo(Final(t, o), TreeBelow(t, o, r), r, o)
  {
    FinalKeptLinks(t, o);
    KeptFlagsUpClosed(t, o);
    forall i | 0 <= i < |t| && KeptFlags(t, o)[i] ensures Final(t, o)[i].prints { FinalFlags(t, o, i); }
    FinalFlags(t, o, r);
    LinksPruned(Final(t, o), Parents(t), KeptFlags(t, o), TreeBelow(t, o, r), r, o);
  }

  lemma FinalRowsListed(t: seq<Proc>, o: Options, r: nat, i: nat)
    requires Fresh(t) && r < |t| && i < |t| && Kept(t, o, r)
    requires PrunedTo(Final(t, o), TreeBelow(t, o, r), r, o)
    ensures Lists(Rows(Final(t, o), o, r, [], 0), i) <==> Expected(t, o, r, i)
  {
    var v := TreeBelow(t, o, r);
    AtTop(v, r);
    RowsMembers(Final(t, o), v, o, r, r, [], 0, i);
    KeptFlagsUpClosed(t, o);
    TreeAnc(Parents(t), KeptFlags(t, o), r, i);
    AncUnfold(Parents(t), r, r);
    FinalFlags(t, o, i);
  }

  /** Prefixes depend only on which proper ancestors have lines and later sisters. */
  lemma {:induction false} SameHead(q: seq<int>, later: set<int>, shown: set<int>, later': set<int>, shown': set<int>,
                                    top: nat, i: nat)
    requires WellFormed(q) && Acyclic(q) && i < |q|
    requires forall a :: 0 <= a < |q| && q[i] != -1 && Anc(q, a, q[i]) && Anc(q, top, a) ==>
               (a in later <==> a in later') && (a in shown <==> a in shown')
    requires Anc(q, top, i)
    ensures HeadOf(q, later, shown, top, i) == HeadOf(q, later', shown', top, i)
    decreases Ups(q, i)
  {
    AncUnfold(q, top, i);
    if i != top && q[i] != -1 {
      StepShrinks(q, i);
      AncUnfold(q, q[i], q[i]);
      forall a | 0 <= a < |q| && q[q[i]] != -1 && Anc(q, a, q[q[i]]) && Anc(q, top, a)
        ensures (a in later <==> a in later') && (a in shown <==> a in shown')
      {
        AncUnfold(q, a, q[i]);
      }
      SameHead(q, later, shown, later', shown', top, q[i]);
    }
  }

  lemma FinalHead(t: seq<Proc>, o: Options, r: nat, i: nat)
    requires Fresh(t) && r < |t| && i < |t| && Kept(t, o, r) && Anc(TreeBelow(t, o, r), r, i)
    ensures TableHead(Final(t, o), TreeBelow(t, o, r), r, i) == Prefix(t, o, r, i)
  {
    var f, v := Final(t, o), TreeBelow(t, o, r);
    forall a | 0 <= a < |t| && Anc(v, r, a)
      ensures (a in Laters(f) <==> a in KeptLaters(t, o)) && (a in Showns(f) <==> a in Unveiled(t, o))
    {
      KeptFlagsUpClosed(t, o);
      TreeAnc(Parents(t), KeptFlags(t, o), r, a);
      FinalFlags(t, o, a);
      FinalLinks(t, o, a);
      LinksMean(KeptForest(t, o), a);
    }
    SameHead(v, Laters(f), Showns(f), KeptLaters(t, o), Unveiled(t, o), r, i);
  }

  lemma FinalRowIs(t: seq<Proc>, o: Options, r: nat, k: nat)
    requires Fresh(t) && r < |t| && Kept(t, o, r)
    requires PrunedTo(Final(t, o), TreeBelow(t, o, r), r, o) && k < |Rows(Final(t, o), o, r, [], 0)|
    ensures var row := Rows(Final(t, o), o, r, [], 0)[k]; row.idx < |t| && row == Line(t, o, r, row.idx)
  {
    var f := Final(t, o);
    RowAt(f, TreeBelow(t, o, r), o, r, k);
    var i := Rows(f, o, r, [], 0)[k].idx;
    KeptFlagsUpClosed(t, o);
    TreeAnc(Parents(t), KeptFlags(t, o), r, i);
    FinalHead(t, o, r, i);
    FinalFlags(t, o, i);
    FinalLinks(t, o, i);
    LinksMean(KeptForest(t, o), i);
  }

  lemma KeptListing(t: seq<Proc>, o: Options, r: nat)
    requires Fresh(t) && r < |t| && Kept(t, o, r)
    requires PrunedTo(Final(t, o), TreeBelow(t, o, r), r, o)
    ensures GoodListing(t, o, r, Rows(Final(t, o), o, r, [], 0))
  {
    var rows := Rows(Final(t, o), o, r, [], 0);
    AtTop(TreeBelow(t, o, r), r);
    RowsOrdered(Final(t, o), TreeBelow(t, o, r), o, r, r, [], 0);
    forall i: int ensures Lists(rows, i) <==> Expected(t, o, r, i) {
      if 0 <= i < |t| { FinalRowsListed(t, o, r, i); }
    }
    forall k | 0 <= k < |rows| ensures rows[k].idx < |t| && rows[k] == Line(t, o, r, rows[k].idx) {
      FinalRowIs(t, o, r, k);
    }
  }

  /** When the start process does not stay, nothing below it does. */
  lemma SilentListing(t: seq<Proc>, o: Options, r: nat)
    requires r < |t| && !Kept(t, o, r)
    ensures GoodListing(t, o, r, [])
  {
    forall i: int ensures !Expected(t, o, r, i) {
      if Expected(t, o, r, i) { KeptAbove(t, o, r, i); }
    }
  }

  /** Nothing of the pruned listing is lost or repeated: the exact lines, in the exact order. */
  lemma FinalListing(t: seq<Proc>, o: Options, r: nat)
    requires Fresh(t) && r < |t| && (Kept(t, o, r) ==> !ShortCycle(t, o, r))
    ensures Walkable(Final(t, o)) && GoodListing(t, o, r, Rows(Final(t, o), o, r, [], 0))
  {
    FinalWalkable(t, o);
    FinalFlags(t, o, r);
    if Kept(t, o, r) {
      FinalPruned(t, o, r);
      KeptListing(t, o, r);
    } else {
      SilentListing(t, o, r);
    }
  }

  /** What is climbed in the table from a process that stays is climbed in the printed forest. */
  lemma KeptClimb(t: seq<Proc>, o: Options, i: nat, n: nat)
    requires i < |t| && Kept(t, o, i)
    ensures Climb(KeptForest(t, o), i, n) == Climb(Parents(t), i, n)
  {
    KeptFlagsUpClosed(t, o);
    MaskedClimb(Parents(t), KeptFlags(t, o), KeptForest(t, o), i, n);
  }

  /** An unveiled start that stays on a short cycle is listed again. */
  lemma SecondLine(t: seq<Proc>, o: Options, r: nat)
    requires Fresh(t) && r < |t| && Kept(t, o, r) && !Veiled(t, o, r) && ShortCycle(t, o, r)
    ensures Walkable(Final(t, o)) && FirstAgain(Rows(Final(t, o), o, r, [], 0), r)
  {
    var n: nat :| n >= 1 && n < o.maxDepth && Climb(Parents(t), r, n) == r;
    KeptClimb(t, o, r, n);
    FinalKeptLinks(t, o);
    FinalFlags(t, o, r);
    CycleRepeats(Final(t, o), KeptForest(t, o), o, r, [], 0, n);
  }

  /** Two parents with the same number are the same process: the last one that has it. */
  lemma ParentsDiffer(t: seq<Proc>, i: nat, j: nat)
    requires i < |t| && j < |t| && Parents(t)[i] != -1 && Parents(t)[j] != -1
    requires t[Parents(t)[i]].info.pid == t[Parents(t)[j]].info.pid
    ensures Parents(t)[i] == Parents(t)[j]
  {
  }

  /** The child of `r` on its cycle, and a child of that child. */
  lemma CycleChild(par: seq<int>, r: nat, n: nat) returns (c: nat, e: nat)
    requires WellFormed(par) && r < |par| && n >= 1 && Climb(par, r, n) == r
    ensures c < |par| && e < |par| && par[c] == r && par[e] == c && c != r && Climb(par, c, n) == c
  {
    c := LastStep(par, r, n);
    assert Climb(par, r, 1) != r;
    e := LastStep(par, r, n - 1);
    assert Climb(par, c, n) == Climb(par, par[c], n - 1);
  }

  /** A veiled start on a short cycle under showall: its child on the cycle is listed twice. */
  lemma ChildTwice(t: seq<Proc>, o: Options, r: nat) returns (c: nat)
    requires Fresh(t) && r < |t| && o.showAll && Veiled(t, o, r) && ShortCycle(t, o, r)
    ensures Walkable(Final(t, o)) && c < |t| && Parents(t)[c] == r && Twice(Rows(Final(t, o), o, r, [], 0), c)
  {
    var n: nat :| n >= 1 && n + 1 < o.maxDepth && Climb(Parents(t), r, n) == r;
    var e: nat;
    c, e := CycleChild(Parents(t), r, n);
    if t[c].info.pid == 1 { ParentsDiffer(t, c, e); }
    assert !Veiled(t, o, c);
    KeptClimb(t, o, c, n);
    KeptClimb(t, o, c, 1);
    FinalKeptLinks(t, o);
    FinalFlags(t, o, r);
    FinalFlags(t, o, c);
    HiddenCycleRepeats(Final(t, o), KeptForest(t, o), o, r, c, n);
  }

  /** For every start, wherever marking ends: a listing is good iff no short cycle comes back to a start that stays. */
  lemma GoodListingIff(t: seq<Proc>, o: Options, r: nat)
    requires Fresh(t) && r < |t| && (o.showAll || PickedEnd(t, o))
    ensures Walkable(Final(t, o))
    ensures GoodListing(t, o, r, Rows(Final(t, o), o, r, [], 0)) <==> (Kept(t, o, r) ==> !ShortCycle(t, o, r))
  {
    FinalWalkable(t, o);
    if Kept(t, o, r) && ShortCycle(t, o, r) {
      if !o.showAll { MarkingEndsOffCycles(t, o, r); }
      var i := r;
      if Veiled(t, o, r) { i := ChildTwice(t, o, r); } else { SecondLine(t, o, r); }
      var rows := Rows(Final(t, o), o, r, [], 0);
      if Ordered(TreeBelow(t, o, r), r, rows) { OrderedOnce(TreeBelow(t, o, r), r, rows, i); }
    } else {
      FinalListing(t, o, r);
    }
  }

  /** Where the marking pass ends, no start that stays lies on a cycle. */
  lemma MarkingEndsOffCycles(t: seq<Proc>, o: Options, r: nat)
    requires PickedEnd(t, o) && !o.showAll && r < |t| && Kept(t, o, r)
    ensures !StrictAnc(Parents(t), r, r) && !ShortCycle(t, o, r)
  {
    var par := Parents(t);
    KeptAcyclicIff(t, o);
    KeptFlagsUpClosed(t, o);
    MaskedAcyclic(par, KeptFlags(t, o));
    assert !StrictAnc(par, r, r);
    forall n: nat | n >= 1 ensures Climb(par, r, n) != r {
      if par[r] != -1 { assert Climb(par, r, n) == Climb(par, par[r], n - 1); }
    }
  }

  /** Two processes that are each other's parents: a cycle of two. */
  lemma MutualParents(a: Info, b: Info)
    requires a.pid != b.pid && a.ppid == b.pid && b.ppid == a.pid
    ensures Parents([Unread(a), Unread(b)]) == [1, 0]
    ensures WellFormed([1, 0]) && Climb([1, 0], 0, 2) == 0 && Climb([1, 0], 0, 1) == 1
  {
    var t := [Unread(a), Unread(b)];
    assert PidIndex(t, b.pid, 2) == 1 && PidIndex(t, a.pid, 2) == 0;
    assert Climb([1, 0], 1, 1) == 0;
  }

  /** Drawn from one of them, with everything shown, the start has two lines. */
  lemma TwoLines(a: Info, b: Info, o: Options)
    requires a.pid != b.pid && a.ppid == b.pid && b.ppid == a.pid
    requires o.showAll && !o.hideInit && o.maxDepth >= 3
    ensures var t := [Unread(a), Unread(b)]; Walkable(Final(t, o)) && FirstAgain(Rows(Final(t, o), o, 0, [], 0), 0)
  {
    MutualParents(a, b);
    SecondLine([Unread(a), Unread(b)], o, 0);
  }

  /** Drawn from process 1 under -r and three levels deep, the second copy of the hidden start shows nothing. */
  lemma HiddenStartUnseen(a: Info, b: Info, o: Options)
    requires a.pid == 1 && b.pid != 1 && a.ppid == b.pid && b.ppid == 1
    requires o.showAll && o.hideInit && o.maxDepth == 3
    ensures var t := [Unread(a), Unread(b)];
            Walkable(Final(t, o)) && GoodListing(t, o, 0, Rows(Final(t, o), o, 0, [], 0))
  {
    MutualParents(a, b);
    FinalListing([Unread(a), Unread(b)], o, 0);
  }

  /** A row as it is read in. */
  function Unread(f: Info): Proc { Proc(f, false, false, false, -1, -1, -1) }

  // ---------- the drawing ----------

  lemma ListedHangs(t: seq<Proc>, o: Options, r: nat, i: nat)
    requires r < |t| && Expected(t, o, r, i)
    ensures Anc(TreeBelow(t, o, r), r, i)
  {
    KeptFlagsUpClosed(t, o);
    TreeAnc(Parents(t), KeptFlags(t, o), r, i);
  }

  /** The listed process on line `k` has the same parent in the tree as in the table. */
  lemma ListedParent(t: seq<Proc>, o: Options, r: nat, i: nat)
    requires r < |t| && Expected(t, o, r, i) && i != r
    ensures Parents(t)[i] != -1 && TreeBelow(t, o, r)[i] == Parents(t)[i] && Kept(t, o, Parents(t)[i])
  {
    AncUnfold(Parents(t), r, i);
    KeptUpClosed(t, o, i);
  }

  /** No listed process but the start has a veiled parent. */
  ghost predicate NoVeiledParent(t: seq<Proc>, o: Options, r: nat) {
    forall i: nat :: Expected(t, o, r, i) && i != r ==> Parents(t)[i] != -1 && !Veiled(t, o, Parents(t)[i])
  }

  lemma ParentsShownIs(t: seq<Proc>, o: Options, r: nat, rows: seq<Row>)
    requires Fresh(t) && r < |t| && GoodListing(t, o, r, rows)
    ensures ParentsShown(Final(t, o), TreeBelow(t, o, r), r, rows) <==> NoVeiledParent(t, o, r)
  {
    forall i: nat | Expected(t, o, r, i) && i != r
      ensures TreeBelow(t, o, r)[i] == Parents(t)[i] != -1
      ensures Shown(Final(t, o)[Parents(t)[i]]) <==> !Veiled(t, o, Parents(t)[i])
    {
      ListedParent(t, o, r, i);
      FinalFlags(t, o, Parents(t)[i]);
    }
    forall k | 0 <= k < |rows| ensures Expected(t, o, r, rows[k].idx) {
      assert Lists(rows, rows[k].idx);
    }
    if ParentsShown(Final(t, o), TreeBelow(t, o, r), r, rows) {
      forall i: nat | Expected(t, o, r, i) && i != r ensures !Veiled(t, o, Parents(t)[i]) {
        assert Lists(rows, i);
        var k :| 0 <= k < |rows| && rows[k].idx == i;
      }
    }
  }

  /** Reading back the tree and reading back the parents in the table are the same. */
  lemma ReadsBackSame(t: seq<Proc>, o: Options, r: nat, rows: seq<Row>)
    requires r < |t| && GoodListing(t, o, r, rows)
    ensures ReadsBack(Parents(t), r, rows) <==> ReadsBack(TreeBelow(t, o, r), r, rows)
  {
    forall k | 0 <= k < |rows|
      ensures LineReadsBack(Parents(t), r, rows, k) <==> LineReadsBack(TreeBelow(t, o, r), r, rows, k)
    {
      if k > 0 {
        assert Lists(rows, rows[0].idx) && Lists(rows, rows[k].idx);
        ListedHangs(t, o, r, rows[0].idx);
        StartFirst(TreeBelow(t, o, r), r, rows, k);
        ListedParent(t, o, r, rows[k].idx);
      }
    }
  }

  lemma KeptDrawing(t: seq<Proc>, o: Options, r: nat)
    requires Fresh(t) && r < |t| && PrunedTo(Final(t, o), TreeBelow(t, o, r), r, o)
    requires GoodListing(t, o, r, Rows(Final(t, o), o, r, [], 0))
    ensures ReadsBack(Parents(t), r, Rows(Final(t, o), o, r, [], 0)) <==> NoVeiledParent(t, o, r)
  {
    var rows := Rows(Final(t, o), o, r, [], 0);
    DrawingDeterminesTree(Final(t, o), TreeBelow(t, o, r), o, r);
    ParentsShownIs(t, o, r, rows);
    ReadsBackSame(t, o, r, rows);
  }

  lemma SilentDrawing(t: seq<Proc>, o: Options, r: nat)
    requires r < |t| && GoodListing(t, o, r, [])
    ensures ReadsBack(Parents(t), r, []) && NoVeiledParent(t, o, r)
  {
    forall i: nat ensures !Expected(t, o, r, i) { assert !Lists([], i); }
  }

  /** What is drawn gives back the tree exactly when no listed process but the start has a veiled parent. */
  lemma FinalDrawing(t: seq<Proc>, o: Options, r: nat)
    requires Fresh(t) && r < |t| && (Kept(t, o, r) ==> !ShortCycle(t, o, r))
    ensures Walkable(Final(t, o))
    ensures ReadsBack(Parents(t), r, Rows(Final(t, o), o, r, [], 0)) <==> NoVeiledParent(t, o, r)
  {
    FinalListing(t, o, r);
    FinalFlags(t, o, r);
    if Kept(t, o, r) {
      FinalPruned(t, o, r);
      KeptDrawing(t, o, r);
    } else {
      SilentDrawing(t, o, r);
    }
  }

  /** Where nothing that stays is veiled, a line d levels down has 2d-1 cells, bars for ancestors with later sisters. */
  lemma PlainPrefix(t: seq<Proc>, o: Options, r: nat, i: nat)
    requires r < |t| && Expected(t, o, r, i) && forall a: nat :: a < |t| && Kept(t, o, a) ==> !Veiled(t, o, a)
    ensures var h, path := Prefix(t, o, r, i), Path(TreeBelow(t, o, r), r, i);
            && |path| >= 1 && |h| == (if i == r then 0 else 2 * (|path| - 1) - 1)
            && forall j {:trigger path[j]} :: 1 <= j < |path| - 1 ==>
                 0 <= path[j] < |t| && (h[2 * j - 1] == Bar <==> HasLaterSister(KeptForest(t, o), path[j]))
  {
    var v, path := TreeBelow(t, o, r), Path(TreeBelow(t, o, r), r, i);
    KeptFlagsUpClosed(t, o);
    KeptAbove(t, o, r, i);
    TreeAnc(Parents(t), KeptFlags(t, o), r, i);
    forall a | 0 <= a < |v| && Anc(v, r, a) ensures a in Unveiled(t, o) {
      TreeAnc(Parents(t), KeptFlags(t, o), r, a);
    }
    AllShownAbove(v, Unveiled(t, o), r, i);
    HeadCells(v, KeptLaters(t, o), Unveiled(t, o), r, i);
    PathNodes(v, r, i);
    AncUnfold(v, r, i);
    var s := ShownAbove(v, Unveiled(t, o), r, i);
    forall j | 1 <= j < |path| - 1 ensures path[j] == s[j] { assert (s + [i])[j] == s[j]; }
    if i != r { PathFound(v, r, i); }
  }

  lemma LaterMeans(t: seq<Proc>, o: Options, i: nat)
    requires i < |t|
    ensures i in KeptLaters(t, o) <==>
            Kept(t, o, i) && exists s :: i < s < |t| && Kept(t, o, s) && Parents(t)[s] == Parents(t)[i] != -1
  {
    var q := KeptForest(t, o);
    if HasLaterSister(q, i) {
      var s :| i < s < |t| && q[s] == q[i];
      assert Kept(t, o, s) && Parents(t)[s] == Parents(t)[i];
    }
    if s :| i < s < |t| && Kept(t, o, i) && Kept(t, o, s) && Parents(t)[s] == Parents(t)[i] != -1 {
      assert q[s] == q[i];
    }
  }

  lemma KidMeans(t: seq<Proc>, o: Options, i: nat)
    requires i < |t|
    ensures HasKid(KeptForest(t, o), i) <==> exists c :: 0 <= c < |t| && Kept(t, o, c) && Parents(t)[c] == i
  {
    var q := KeptForest(t, o);
    if c :| 0 <= c < |t| && Kept(t, o, c) && Parents(t)[c] == i {
      assert q[c] == i;
    }
  }

  /** No corner without a line above; else a fork iff a later sister stays; a joint iff a child stays. */
  lemma Marks(t: seq<Proc>, o: Options, r: nat, i: nat)
    requires r < |t| && i < |t|
    ensures var line := Line(t, o, r, i);
            && (line.corner == NoCorner <==> ShownAbove(TreeBelow(t, o, r), Unveiled(t, o), r, i) == [])
            && (line.corner != NoCorner ==> (line.corner == Fork <==>
                  (Kept(t, o, i)
                   && exists s :: i < s < |t| && Kept(t, o, s) && Parents(t)[s] == Parents(t)[i] != -1)))
            && (line.hasChild <==> exists c :: 0 <= c < |t| && Kept(t, o, c) && Parents(t)[c] == i)
  {
    HeadCells(TreeBelow(t, o, r), KeptLaters(t, o), Unveiled(t, o), r, i);
    LaterMeans(t, o, i);
    KidMeans(t, o, i);
  }

  lemma {:induction false} PathNodes(q: seq<int>, r: nat, i: nat)
    requires WellFormed(q) && Acyclic(q) && i < |q|
    ensures forall j :: 0 <= j < |Path(q, r, i)| ==> 0 <= Path(q, r, i)[j] < |q|
    decreases Ups(q, i)
  {
    if i != r && q[i] != -1 {
      StepShrinks(q, i);
      PathNodes(q, r, q[i]);
    }
  }

  lemma ThreeInLine()
    ensures var par := [-1, 0, 1];
            && WellFormed(par) && Acyclic(par) && Anc(par, 0, 2) && Anc(par, 2, 2) && StrictAnc(par, 1, 2)
            && |Path(par, 0, 2)| == 3 && forall n: nat :: n >= 1 ==> Climb(par, 0, n) == -1
  {
    var par := [-1, 0, 1];
    assert Climb(par, 1, 1) == 0 && Climb(par, 1, 0) == 1 && Climb(par, 2, 0) == 2;
    assert Climb(par, 2, 2) == 0;
    forall i | 0 <= i < 3 ensures !StrictAnc(par, i, i) {
      assert Climb(par, i, 3) == -1;
      EndsAbove(par, i);
    }
    assert Path(par, 0, 0) == [0];
  }

  /** Under -H, three processes in a line with the last one picked: its only line does not give back the tree. */
  lemma VeiledExample(a: Info, b: Info, c: Info, o: Options)
    requires a.pid != b.pid && b.pid != c.pid && a.pid != c.pid
    requires a.ppid == a.pid && b.ppid == a.pid && c.ppid == b.pid
    requires !o.showAll && o.hideParents && o.maxDepth >= 3
    requires !Picked(o, a) && !Picked(o, b) && Picked(o, c)
    ensures var t := [Unread(a), Unread(b), Unread(c)];
            Walkable(Final(t, o)) && !ReadsBack(Parents(t), 0, Rows(Final(t, o), o, 0, [], 0))
  {
    var t := [Unread(a), Unread(b), Unread(c)];
    assert t[0].info == a && t[1].info == b && t[2].info == c;
    assert PidIndex(t, a.pid, 3) == 0 && PidIndex(t, b.pid, 3) == 1;
    var par := Parents(t);
    assert par == [-1, 0, 1];
    ThreeInLine();
    var picked := PickedBelow(t, o, 3);
    assert 2 in picked;
    assert Covers(par, picked, 1) && Veiled(t, o, 1);
    assert Touched(par, picked, 2) && Kept(t, o, 2);
    PathsInFull(t, o, 0, 2);
    assert Expected(t, o, 0, 2);
    assert !ShortCycle(t, o, 0);
    FinalDrawing(t, o, 0);
    assert !NoVeiledParent(t, o, 0);
  }

  // ---------- main ----------

  /**
   * The exact lines, unless everything is shown and a short cycle comes back to the start; and then a drawing that
   * gives back the tree exactly when no listed process but the start has a veiled parent.
   */
  ghost predicate RightOutput(t: seq<Proc>, o: Options, r: nat, rows: seq<Row>)
    requires r < |t|
  {
    && (GoodListing(t, o, r, rows) <==> (o.showAll ==> !ShortCycle(t, o, r)))
    && (GoodListing(t, o, r, rows) ==> (ReadsBack(Parents(t), r, rows) <==> NoVeiledParent(t, o, r)))
  }

  lemma KeptMeans(t: seq<Proc>, o: Options, i: nat)
    requires i < |t|
    ensures var par := Parents(t);
            Kept(t, o, i) <==>
            o.showAll || exists s :: 0 <= s < |t| && Picked(o, t[s].info) && (Anc(par, i, s) || Anc(par, s, i))
  {
    var par := Parents(t);
    if s :| 0 <= s < |t| && Picked(o, t[s].info) && (Anc(par, i, s) || Anc(par, s, i)) {
      assert s in PickedBelow(t, o, |t|);
    }
  }

  lemma VeiledMeans(t: seq<Proc>, o: Options, i: nat)
    requires i < |t|
    ensures !Veiled(t, o, i) <==>
            || (!o.showAll && Picked(o, t[i].info))
            || (&& (o.hideInit ==> t[i].info.pid != 1)
                && (!o.showAll && o.hideParents ==>
                      forall s :: 0 <= s < |t| && Picked(o, t[s].info) ==> !StrictAnc(Parents(t), i, s)))
  {
    var par := Parents(t);
    if s :| 0 <= s < |t| && Picked(o, t[s].info) && StrictAnc(par, i, s) {
      assert s in PickedBelow(t, o, |t|);
    }
  }

  /** Which processes have a line below `r`, in terms of the switches and the table as read in. */
  lemma ListedIff(t: seq<Proc>, o: Options, r: nat, i: nat)
    requires Fresh(t) && r < |t| && i < |t|
    requires if o.showAll then !ShortCycle(t, o, r) else PickedEnd(t, o)
    ensures Walkable(Final(t, o))
    ensures Lists(Rows(Final(t, o), o, r, [], 0), i) <==>
            var par := Parents(t);
            && Anc(par, r, i) && |Path(TreeBelow(t, o, r), r, i)| <= o.maxDepth
            && (o.showAll || exists s :: 0 <= s < |t| && Picked(o, t[s].info) && (Anc(par, i, s) || Anc(par, s, i)))
            && (|| (!o.showAll && Picked(o, t[i].info))
                || (&& (o.hideInit ==> t[i].info.pid != 1)
                    && (!o.showAll && o.hideParents ==>
                          forall s :: 0 <= s < |t| && Picked(o, t[s].info) ==> !StrictAnc(par, i, s))))
  {
    if !o.showAll && Kept(t, o, r) { MarkingEndsOffCycles(t, o, r); }
    FinalListing(t, o, r);
    KeptMeans(t, o, i);
    VeiledMeans(t, o, i);
  }

  /** What a line shows of its process: the owner unless -n, the threads when there are more than one. */
  lemma RowShows(t: seq<Proc>, o: Options, r: nat, k: nat)
    requires Fresh(t) && r < |t|
    requires if o.showAll then !ShortCycle(t, o, r) else PickedEnd(t, o)
    requires Walkable(Final(t, o)) && k < |Rows(Final(t, o), o, r, [], 0)|
    ensures var row := Rows(Final(t, o), o, r, [], 0)[k];
            && row.idx < |t|
            && var f := t[row.idx].info;
               && row.pid == f.pid && row.cmd == f.cmd && (row.leader <==> f.pid == f.pgid)
               && (if o.noNames then row.name == "" else row.name == f.name)
               && (f.thcount > 1 ==> row.threads == f.thcount) && (f.thcount <= 1 ==> row.threads == 0)
  {
    if !o.showAll && Kept(t, o, r) { MarkingEndsOffCycles(t, o, r); }
    FinalListing(t, o, r);
  }

  /** What main draws of one process, whichever it is. */
  lemma OutputRight(t: seq<Proc>, o: Options, r: nat)
    requires Fresh(t) && r < |t| && (o.showAll || PickedEnd(t, o))
    ensures Walkable(Final(t, o)) && RightOutput(t, o, r, Rows(Final(t, o), o, r, [], 0))
  {
    GoodListingIff(t, o, r);
    if !o.showAll && Kept(t, o, r) { MarkingEndsOffCycles(t, o, r); }
    if Kept(t, o, r) ==> !ShortCycle(t, o, r) { FinalDrawing(t, o, r); }
  }

  // ---------- the start ----------

  /** The four rules GetRootPid tries one after the other. */
  predicate RootRule(k: nat, f: Info) {
    (k == 0 && f.pid == 1) || (k == 1 && f.ppid == 0) || (k == 2 && f.ppid == 1) || (k == 3 && f.pid == f.ppid)
  }

  /** The first row from `from` on that a rule picks, or -1. */
  function FirstBy(t: seq<Proc>, k: nat, from: nat): (i: int)
    requires from <= |t|
    ensures i == -1 ==> forall j :: from <= j < |t| ==> !RootRule(k, t[j].info)
    ensures i != -1 ==> from <= i < |t| && RootRule(k, t[i].info)
    ensures i != -1 ==> forall j :: from <= j < i ==> !RootRule(k, t[j].info)
    decreases |t| - from
  {
    if from == |t| then -1 else if RootRule(k, t[from].info) then from else FirstBy(t, k, from + 1)
  }

  /** The number of the process the rules from `k` on pick, or -1. */
  function RootPid(t: seq<Proc>, k: nat): int
    decreases 4 - k
  {
    if k >= 4 then -1
    else if FirstBy(t, k, 0) != -1 then t[FirstBy(t, k, 0)].info.pid
    else RootPid(t, k + 1)
  }

  /** The row main starts from when it has no arguments, or -1. */
  function StartRow(t: seq<Proc>): int { PidIndex(t, RootPid(t, 0), |t|) }

  /** Some process that main can start from. */
  predicate HasStart(t: seq<Proc>) {
    exists i :: 0 <= i < |t| && var f := t[i].info;
      f.pid == 1 || f.ppid == 0 || f.ppid == 1 || f.pid == f.ppid || f.pid == -1
  }

  lemma {:induction false} RootPidFound(t: seq<Proc>, k: nat)
    ensures (exists j, i :: k <= j < 4 && 0 <= i < |t| && RootRule(j, t[i].info)) ==>
              PidIndex(t, RootPid(t, k), |t|) != -1
    ensures !(exists j, i :: k <= j < 4 && 0 <= i < |t| && RootRule(j, t[i].info)) ==> RootPid(t, k) == -1
    decreases 4 - k
  {
    if k < 4 {
      RootPidFound(t, k + 1);
      if FirstBy(t, k, 0) != -1 { assert RootRule(k, t[FirstBy(t, k, 0)].info); }
    }
  }

  /**
   * Number 1 when a process has it; otherwise the number of the first process with parent 0; otherwise of the first
   * with parent 1; otherwise of the first that is its own parent; otherwise -1.
   */
  lemma RootPidIs(t: seq<Proc>)
    ensures var pid := RootPid(t, 0);
            if exists i :: 0 <= i < |t| && t[i].info.pid == 1 then pid == 1
            else if exists i :: 0 <= i < |t| && t[i].info.ppid == 0 then
              exists i :: 0 <= i < |t| && t[i].info.ppid == 0 && pid == t[i].info.pid
                          && forall j :: 0 <= j < i ==> t[j].info.ppid != 0
            else if exists i :: 0 <= i < |t| && t[i].info.ppid == 1 then
              exists i :: 0 <= i < |t| && t[i].info.ppid == 1 && pid == t[i].info.pid
                          && forall j :: 0 <= j < i ==> t[j].info.ppid != 1
            else if exists i :: 0 <= i < |t| && t[i].info.ppid == t[i].info.pid then
              exists i :: 0 <= i < |t| && t[i].info.ppid == t[i].info.pid == pid
                          && forall j :: 0 <= j < i ==> t[j].info.ppid != t[j].info.pid
            else pid == -1
  {
    forall i | 0 <= i < |t|
      ensures (RootRule(0, t[i].info) <==> t[i].info.pid == 1) && (RootRule(1, t[i].info) <==> t[i].info.ppid == 0)
      ensures (RootRule(2, t[i].info) <==> t[i].info.ppid == 1)
      ensures (RootRule(3, t[i].info) <==> t[i].info.ppid == t[i].info.pid)
    {
    }
    var a, b, c, d := FirstBy(t, 0, 0), FirstBy(t, 1, 0), FirstBy(t, 2, 0), FirstBy(t, 3, 0);
    assert RootPid(t, 3) == if d != -1 then t[d].info.pid else RootPid(t, 4);
    assert RootPid(t, 2) == if c != -1 then t[c].info.pid else RootPid(t, 3);
    assert RootPid(t, 1) == if b != -1 then t[b].info.pid else RootPid(t, 2);
    assert RootPid(t, 0) == if a != -1 then t[a].info.pid else RootPid(t, 1);
  }

  /** main's start is a row of the table exactly when some rule picks a process, or one has the number -1. */
  lemma StartIsRowIff(t: seq<Proc>)
    ensures StartRow(t) != -1 <==> HasStart(t)
  {
    RootPidFound(t, 0);
    forall i | 0 <= i < |t|
      ensures var f := t[i].info; (exists j :: 0 <= j < 4 && RootRule(j, f)) <==>
                f.pid == 1 || f.ppid == 0 || f.ppid == 1 || f.pid == f.ppid
    {
      var f := t[i].info;
      assert (RootRule(0, f) <==> f.pid == 1) && (RootRule(1, f) <==> f.ppid == 0);
      assert (RootRule(2, f) <==> f.ppid == 1) && (RootRule(3, f) <==> f.pid == f.ppid);
    }
  }

  /** No pass changes which row has which number. */
  lemma FinalPidIndex(t: seq<Proc>, o: Options, pid: int)
    requires Fresh(t)
    ensures PidIndex(Final(t, o), pid, |t|) == PidIndex(t, pid, |t|)
  {
    forall i | 0 <= i < |t| ensures Final(t, o)[i].info == t[i].info { FinalFlags(t, o, i); }
    PidIndexSame(Final(t, o), t, pid, |t|);
  }

  // ---------- the arguments ----------

  /** What is drawn for one argument: nothing when there is no such process. */
  ghost function Block(t: seq<Proc>, o: Options, pid: int): seq<Row>
    requires Walkable(t)
  {
    var i := PidIndex(t, pid, |t|);
    if i == -1 then [] else Rows(t, o, i, [], 0)
  }

  ghost function Blocks(t: seq<Proc>, o: Options, pids: seq<int>): (blocks: seq<seq<Row>>)
    requires Walkable(t)
    ensures |blocks| == |pids|
  {
    seq(|pids|, k requires 0 <= k < |pids| => Block(t, o, pids[k]))
  }

  function Concat(blocks: seq<seq<Row>>): seq<Row> {
    if blocks == [] then [] else Concat(blocks[..|blocks| - 1]) + blocks[|blocks| - 1]
  }

  lemma BlocksMore(t: seq<Proc>, o: Options, pids: seq<int>, k: nat)
    requires Walkable(t) && k < |pids|
    ensures Concat(Blocks(t, o, pids[..k + 1])) == Concat(Blocks(t, o, pids[..k])) + Block(t, o, pids[k])
  {
    assert Blocks(t, o, pids[..k + 1])[..k] == Blocks(t, o, pids[..k]);
  }

  /** No lines for an unknown number; for a process in the table as read in, its right output. */
  ghost predicate GoodBlock(t: seq<Proc>, o: Options, pid: int, rows: seq<Row>) {
    var r := PidIndex(t, pid, |t|);
    if r == -1 then rows == [] else RightOutput(t, o, r, rows)
  }

  lemma BlockGood(t: seq<Proc>, o: Options, pid: int)
    requires Fresh(t) && (o.showAll || PickedEnd(t, o))
    ensures Walkable(Final(t, o)) && GoodBlock(t, o, pid, Block(Final(t, o), o, pid))
  {
    FinalWalkable(t, o);
    FinalPidIndex(t, o, pid);
    var r := PidIndex(t, pid, |t|);
    if r != -1 { OutputRight(t, o, r); }
  }

  lemma KeptAbove(t: seq<Proc>, o: Options, r: nat, i: nat)
    requires r < |t| && i < |t| && Kept(t, o, i) && Anc(Parents(t), r, i)
    ensures Kept(t, o, r)
  {
    var k: nat :| Climb(Parents(t), i, k) == r;
    KeptOnTheWay(t, o, i, k);
  }

  lemma {:induction false} KeptOnTheWay(t: seq<Proc>, o: Options, i: nat, k: nat)
    requires i < |t| && Kept(t, o, i)
    ensures Climb(Parents(t), i, k) != -1 ==> Kept(t, o, Climb(Parents(t), i, k))
    decreases k
  {
    if k > 0 && Parents(t)[i] != -1 {
      KeptUpClosed(t, o, i);
      KeptOnTheWay(t, o, Parents(t)[i], k - 1);
    }
  }
}
