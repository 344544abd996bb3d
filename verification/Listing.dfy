/** What the lines drawn by PrintTree are, for a table that shows the tree `q` below its start. */
module Listing {
  import opened Forest
  import opened ProcTable

  /** `i` hangs `d` levels below `top` in the tree `q`. */
  ghost predicate At(q: seq<int>, top: nat, i: nat, d: nat)
    requires WellFormed(q) && Acyclic(q)
  {
    top < |q| && i < |q| && Anc(q, top, i) && |Path(q, top, i)| == d + 1
  }

  /** From `c` on and from `e` on, the same lines are drawn at depth `d`. */
  ghost predicate DrawnAlike(t: seq<Proc>, o: Options, c: int, e: int, d: nat)
    requires Walkable(t) && -1 <= c < |t| && -1 <= e < |t| && d <= o.maxDepth
  {
    forall head: seq<Cell> :: RowsOf(t, o, c, head, d) == RowsOf(t, o, e, head, d)
  }

  /** The row of a process at depth `d` prints, and along its links the same is drawn as along those of `q`. */
  ghost predicate LinksAt(t: seq<Proc>, q: seq<int>, top: nat, o: Options, i: nat, d: nat)
    requires |t| == |q| && i < |t| && Walkable(t)
  {
    && t[i].prints
    && (d < o.maxDepth ==> DrawnAlike(t, o, t[i].child, Next(q, i, 0, |t|), d + 1))
    && (i != top && d <= o.maxDepth ==> DrawnAlike(t, o, t[i].sister, Sister(q, i, |t|), d))
  }

  /** Below `top`, what is drawn of the table is the tree `q`. */
  ghost predicate PrunedTo(t: seq<Proc>, q: seq<int>, top: nat, o: Options) {
    && |t| == |q| && WellFormed(q) && Acyclic(q) && Walkable(t)
    && top < |t| && q[top] == -1
    && forall i: nat, d: nat {:trigger LinksAt(t, q, top, o, i, d)} :: At(q, top, i, d) ==> LinksAt(t, q, top, o, i, d)
  }

  lemma AtTop(q: seq<int>, top: nat)
    requires WellFormed(q) && Acyclic(q) && top < |q|
    ensures At(q, top, top, 0)
  {
    AncUnfold(q, top, top);
    assert Path(q, top, top) == [top];
  }

  lemma AtKid(q: seq<int>, top: nat, p: nat, d: nat, c: nat)
    requires WellFormed(q) && Acyclic(q) && At(q, top, p, d) && c < |q| && q[c] == p && q[top] == -1
    ensures At(q, top, c, d + 1) && Path(q, top, c) == Path(q, top, p) + [c]
  {
    AncUnfold(q, top, c);
    PathFound(q, top, p);
  }

  /** The line of `r`, if it has one, and then those of its children in the tree. */
  lemma RowsSplit(t: seq<Proc>, q: seq<int>, o: Options, top: nat, r: nat, head: seq<Cell>, d: nat)
    requires PrunedTo(t, q, top, o) && At(q, top, r, d) && d < o.maxDepth
    ensures var kids := RowsOf(t, o, Next(q, r, 0, |t|), HeadBelow(t[r], head), d + 1);
            Rows(t, o, r, head, d) == if Shown(t[r]) then [RowFor(t[r], o, r, head)] + kids else kids
  {
    assert LinksAt(t, q, top, o, r, d);
    var kids := RowsOf(t, o, Next(q, r, 0, |t|), HeadBelow(t[r], head), d + 1);
    assert [] + kids == kids;
  }

  ghost predicate Lists(rows: seq<Row>, i: int) {
    exists k :: 0 <= k < |rows| && rows[k].idx == i
  }

  /** `i` lies in the subtree of `r`, within the top `b` levels, and is shown. */
  ghost predicate InView(t: seq<Proc>, q: seq<int>, r: nat, i: nat, b: int)
    requires |t| == |q| && WellFormed(q) && Acyclic(q) && i < |t|
  {
    Anc(q, r, i) && |Path(q, r, i)| <= b && Shown(t[i])
  }

  ghost predicate InViewOfSister(t: seq<Proc>, q: seq<int>, p: nat, c: int, i: nat, b: int)
    requires |t| == |q| && WellFormed(q) && Acyclic(q) && i < |t|
  {
    c != -1 && exists k {:trigger q[k]} :: c <= k < |t| && 0 <= k && q[k] == p && InView(t, q, k, i, b)
  }

  lemma ListsConcat(a: seq<Row>, b: seq<Row>, i: int)
    ensures Lists(a + b, i) <==> Lists(a, i) || Lists(b, i)
  {
    if k :| 0 <= k < |a| && a[k].idx == i { assert (a + b)[k].idx == i; }
    if k :| 0 <= k < |b| && b[k].idx == i { assert (a + b)[|a| + k].idx == i; }
  }

  lemma ListsCons(row: Row, rows: seq<Row>, i: int)
    ensures Lists([row] + rows, i) <==> row.idx == i || Lists(rows, i)
  {
    ListsConcat([row], rows, i);
    assert [row][0] == row;
  }

  lemma {:induction false} PathLength(q: seq<int>, p: nat, k: nat, i: nat)
    requires WellFormed(q) && Acyclic(q) && k < |q| && i < |q| && q[k] == p && Anc(q, k, i)
    ensures Anc(q, p, i) && p != i && |Path(q, p, i)| == 1 + |Path(q, k, i)|
  {
    PathFromParent(q, k, i);
    PathFound(q, k, i);
    PathFound(q, p, i);
  }

  /** Exactly the processes in view are drawn. */
  lemma {:induction false} RowsMembers(t: seq<Proc>, q: seq<int>, o: Options, top: nat, r: nat, head: seq<Cell>,
                                       d: nat, i: nat)
    requires PrunedTo(t, q, top, o) && At(q, top, r, d) && d <= o.maxDepth && i < |t|
    ensures Lists(Rows(t, o, r, head, d), i) <==> InView(t, q, r, i, o.maxDepth - d)
    decreases o.maxDepth - d, 0, 0
  {
    if d == o.maxDepth {
      PathFound(q, r, i);
    } else {
      var c, nhead := Next(q, r, 0, |t|), HeadBelow(t[r], head);
      RowsSplit(t, q, o, top, r, head, d);
      RowsOfMembers(t, q, o, top, r, c, nhead, d + 1, i);
      ViewSplits(t, q, r, i, o.maxDepth - d);
      ListsCons(RowFor(t[r], o, r, head), RowsOf(t, o, c, nhead, d + 1), i);
    }
  }

  /** In view below `r` is `r` itself and, one level deeper, what is in view below its children. */
  lemma ViewSplits(t: seq<Proc>, q: seq<int>, r: nat, i: nat, b: int)
    requires |t| == |q| && WellFormed(q) && Acyclic(q) && r < |t| && i < |t| && b >= 1
    ensures InView(t, q, r, i, b) <==>
            (i == r && Shown(t[i])) || InViewOfSister(t, q, r, Next(q, r, 0, |q|), i, b - 1)
  {
    Below(q, r, i);
    AncUnfold(q, r, r);
    assert Path(q, r, r) == [r];
    forall k | 0 <= k < |t| && q[k] == r && Anc(q, k, i)
      ensures 0 <= Next(q, r, 0, |q|) <= k && i != r && |Path(q, r, i)| == 1 + |Path(q, k, i)|
    {
      NextLeast(q, r, 0, |q|, k);
      PathLength(q, r, k, i);
    }
  }

  lemma {:induction false} RowsOfMembers(t: seq<Proc>, q: seq<int>, o: Options, top: nat, p: nat, c: int,
                                         head: seq<Cell>, d: nat, i: nat)
    requires PrunedTo(t, q, top, o) && 1 <= d <= o.maxDepth && At(q, top, p, d - 1)
    requires -1 <= c < |t| && i < |t| && (c != -1 ==> q[c] == p)
    ensures Lists(RowsOf(t, o, c, head, d), i) <==> InViewOfSister(t, q, p, c, i, o.maxDepth - d)
    decreases o.maxDepth - d, 1, if c == -1 then 0 else |t| - c
  {
    if c != -1 {
      AtKid(q, top, p, d - 1, c);
      assert LinksAt(t, q, top, o, c, d);
      var s := Next(q, p, c + 1, |t|);
      RowsMembers(t, q, o, top, c, head, d, i);
      RowsOfMembers(t, q, o, top, p, s, head, d, i);
      ListsConcat(Rows(t, o, c, head, d), RowsOf(t, o, s, head, d), i);
      SisterView(t, q, p, c, i, o.maxDepth - d);
    }
  }

  lemma SisterView(t: seq<Proc>, q: seq<int>, p: nat, c: nat, i: nat, b: int)
    requires |t| == |q| && WellFormed(q) && Acyclic(q) && c < |t| && i < |t| && q[c] == p
    ensures InViewOfSister(t, q, p, c, i, b) <==>
            InView(t, q, c, i, b) || InViewOfSister(t, q, p, Next(q, p, c + 1, |q|), i, b)
  {
    var s := Next(q, p, c + 1, |q|);
    if InViewOfSister(t, q, p, c, i, b) {
      var k :| c <= k < |t| && q[k] == p && InView(t, q, k, i, b);
      if k != c { NextLeast(q, p, c + 1, |q|, k); }
    }
  }

  // ---------- order ----------

  ghost predicate Ordered(q: seq<int>, r: nat, rows: seq<Row>)
    requires WellFormed(q) && Acyclic(q)
  {
    && (forall k :: 0 <= k < |rows| ==> rows[k].idx < |q|)
    && forall j, k :: 0 <= j < k < |rows| ==> LexLess(Path(q, r, rows[j].idx), Path(q, r, rows[k].idx))
  }

  /** The path from `p` to `i` passes through its child `k`. */
  lemma PathVia(q: seq<int>, p: nat, k: nat, i: nat)
    requires WellFormed(q) && Acyclic(q) && k < |q| && i < |q| && q[k] == p && Anc(q, k, i)
    ensures Path(q, p, i) == [p] + Path(q, k, i)
    ensures |Path(q, k, i)| >= 1 && Path(q, k, i)[0] == k
  {
    PathFromParent(q, k, i);
    PathFound(q, k, i);
  }

  lemma ParentBefore(q: seq<int>, r: nat, e: nat, i: nat)
    requires WellFormed(q) && Acyclic(q) && r < |q| && e < |q| && i < |q| && q[e] == r && Anc(q, e, i)
    ensures LexLess(Path(q, r, r), Path(q, r, i))
  {
    PathVia(q, r, e, i);
    assert Path(q, r, r) == [r];
    assert ([r] + Path(q, e, i))[1..] == Path(q, e, i);
  }

  lemma SisterBefore(q: seq<int>, p: nat, c: nat, e: nat, i: nat, j: nat)
    requires WellFormed(q) && Acyclic(q) && c < e < |q| && i < |q| && j < |q|
    requires q[c] == q[e] == p && Anc(q, c, i) && Anc(q, e, j)
    ensures LexLess(Path(q, p, i), Path(q, p, j))
  {
    PathVia(q, p, c, i);
    PathVia(q, p, e, j);
    LexLessSecond(Path(q, p, i), Path(q, p, j));
  }

  ghost predicate Follows(q: seq<int>, r: nat, a: seq<Row>, b: seq<Row>)
    requires WellFormed(q) && Acyclic(q)
  {
    forall j, k :: 0 <= j < |a| && 0 <= k < |b| && a[j].idx < |q| && b[k].idx < |q| ==>
      LexLess(Path(q, r, a[j].idx), Path(q, r, b[k].idx))
  }

  lemma OrderedNone(q: seq<int>, r: nat, rows: seq<Row>)
    requires WellFormed(q) && Acyclic(q) && rows == []
    ensures Ordered(q, r, rows)
  {
  }

  lemma OrderedConcat(q: seq<int>, r: nat, a: seq<Row>, b: seq<Row>)
    requires WellFormed(q) && Acyclic(q) && Ordered(q, r, a) && Ordered(q, r, b) && Follows(q, r, a, b)
    ensures Ordered(q, r, a + b)
  {
  }

  /** A block of lines below `c` is ordered just the same when seen from the parent of `c`. */
  lemma OrderedFromParent(q: seq<int>, p: nat, c: nat, a: seq<Row>)
    requires WellFormed(q) && Acyclic(q) && c < |q| && q[c] == p && Ordered(q, c, a)
    requires forall k :: 0 <= k < |a| ==> Anc(q, c, a[k].idx)
    ensures Ordered(q, p, a)
  {
    forall j, k | 0 <= j < k < |a| ensures LexLess(Path(q, p, a[j].idx), Path(q, p, a[k].idx)) {
      PathVia(q, p, c, a[j].idx);
      PathVia(q, p, c, a[k].idx);
      LexLessPrepend(p, Path(q, c, a[j].idx), Path(q, c, a[k].idx));
    }
  }

  /** Every line drawn for the sisters from `c` on belongs below one of them. */
  lemma RowsOfBelow(t: seq<Proc>, q: seq<int>, o: Options, top: nat, p: nat, c: int, head: seq<Cell>, d: nat, k: nat)
    returns (e: nat)
    requires PrunedTo(t, q, top, o) && 1 <= d <= o.maxDepth && At(q, top, p, d - 1)
    requires -1 <= c < |t| && (c != -1 ==> q[c] == p)
    requires k < |RowsOf(t, o, c, head, d)| && RowsOf(t, o, c, head, d)[k].idx < |t|
    ensures c <= e < |t| && q[e] == p && Anc(q, e, RowsOf(t, o, c, head, d)[k].idx)
  {
    var i := RowsOf(t, o, c, head, d)[k].idx;
    RowsOfMembers(t, q, o, top, p, c, head, d, i);
    assert Lists(RowsOf(t, o, c, head, d), i);
    e :| c <= e < |t| && q[e] == p && InView(t, q, e, i, o.maxDepth - d);
  }

  lemma OrderedCons(q: seq<int>, r: nat, row: Row, rows: seq<Row>)
    requires WellFormed(q) && Acyclic(q) && Ordered(q, r, rows) && row.idx < |q|
    requires forall k :: 0 <= k < |rows| ==> LexLess(Path(q, r, row.idx), Path(q, r, rows[k].idx))
    ensures Ordered(q, r, [row] + rows)
  {
  }

  lemma ParentFirst(t: seq<Proc>, q: seq<int>, o: Options, top: nat, r: nat, c: int, head: seq<Cell>, d: nat, row: Row)
    requires PrunedTo(t, q, top, o) && 1 <= d <= o.maxDepth && At(q, top, r, d - 1) && row.idx == r
    requires -1 <= c < |t| && (c != -1 ==> q[c] == r)
    requires Ordered(q, r, RowsOf(t, o, c, head, d))
    ensures Ordered(q, r, [row] + RowsOf(t, o, c, head, d))
  {
    var kids := RowsOf(t, o, c, head, d);
    forall k | 0 <= k < |kids| ensures LexLess(Path(q, r, r), Path(q, r, kids[k].idx)) {
      var e := RowsOfBelow(t, q, o, top, r, c, head, d, k);
      ParentBefore(q, r, e, kids[k].idx);
    }
    OrderedCons(q, r, row, kids);
  }

  lemma {:induction false} RowsOrdered(t: seq<Proc>, q: seq<int>, o: Options, top: nat, r: nat, head: seq<Cell>, d: nat)
    requires PrunedTo(t, q, top, o) && At(q, top, r, d) && d <= o.maxDepth
    ensures Ordered(q, r, Rows(t, o, r, head, d))
    decreases o.maxDepth - d, 0, 0
  {
    if d == o.maxDepth {
      OrderedNone(q, r, Rows(t, o, r, head, d));
    } else {
      var c, nhead := Next(q, r, 0, |t|), HeadBelow(t[r], head);
      RowsOfOrdered(t, q, o, top, r, c, nhead, d + 1);
      ParentFirst(t, q, o, top, r, c, nhead, d + 1, RowFor(t[r], o, r, head));
      RowsSplit(t, q, o, top, r, head, d);
    }
  }

  lemma {:induction false} RowsOfOrdered(t: seq<Proc>, q: seq<int>, o: Options, top: nat, p: nat, c: int,
                                         head: seq<Cell>, d: nat)
    requires PrunedTo(t, q, top, o) && 1 <= d <= o.maxDepth && At(q, top, p, d - 1)
    requires -1 <= c < |t| && (c != -1 ==> q[c] == p)
    ensures Ordered(q, p, RowsOf(t, o, c, head, d))
    decreases o.maxDepth - d, 1, if c == -1 then 0 else |t| - c
  {
    if c != -1 {
      AtKid(q, top, p, d - 1, c);
      assert LinksAt(t, q, top, o, c, d);
      var s := Next(q, p, c + 1, |t|);
      RowsOrdered(t, q, o, top, c, head, d);
      RowsOfOrdered(t, q, o, top, p, s, head, d);
      SistersOrdered(t, q, o, top, p, c, s, head, d);
    }
  }

  /** The lines of one child come before those of its later sisters. */
  lemma SistersOrdered(t: seq<Proc>, q: seq<int>, o: Options, top: nat, p: nat, c: nat, s: int, head: seq<Cell>, d: nat)
    requires PrunedTo(t, q, top, o) && 1 <= d <= o.maxDepth && At(q, top, p, d - 1) && At(q, top, c, d)
    requires c < |t| && q[c] == p && -1 <= s < |t| && (s != -1 ==> c < s && q[s] == p)
    requires Ordered(q, c, Rows(t, o, c, head, d)) && Ordered(q, p, RowsOf(t, o, s, head, d))
    ensures Ordered(q, p, Rows(t, o, c, head, d) + RowsOf(t, o, s, head, d))
  {
    var a, b := Rows(t, o, c, head, d), RowsOf(t, o, s, head, d);
    forall k | 0 <= k < |a| ensures Anc(q, c, a[k].idx) {
      assert Lists(a, a[k].idx);
      RowsMembers(t, q, o, top, c, head, d, a[k].idx);
    }
    OrderedFromParent(q, p, c, a);
    forall j, k | 0 <= j < |a| && 0 <= k < |b| ensures LexLess(Path(q, p, a[j].idx), Path(q, p, b[k].idx)) {
      var e := RowsOfBelow(t, q, o, top, p, s, head, d, k);
      SisterBefore(q, p, c, e, a[j].idx, b[k].idx);
    }
    OrderedConcat(q, p, a, b);
  }

  lemma LexLessPrepend(p: int, a: seq<int>, b: seq<int>)
    requires LexLess(a, b)
    ensures LexLess([p] + a, [p] + b)
  {
  }

  lemma LexLessSecond(a: seq<int>, b: seq<int>)
    requires |a| >= 2 && |b| >= 2 && a[0] == b[0] && a[1] < b[1]
    ensures LexLess(a, b)
  {
  }

  // ---------- uniqueness ----------

  /** An ordered list has no process twice. */
  lemma OrderedOnce(q: seq<int>, r: nat, rows: seq<Row>, i: int)
    requires WellFormed(q) && Acyclic(q) && Ordered(q, r, rows)
    ensures !Twice(rows, i)
  {
    forall j, k | 0 <= j < k < |rows| ensures rows[j].idx != rows[k].idx {
      LexLessStrict(Path(q, r, rows[j].idx), Path(q, r, rows[k].idx));
    }
  }

  /** The start is never listed below the first line. */
  lemma StartFirst(q: seq<int>, r: nat, rows: seq<Row>, k: nat)
    requires WellFormed(q) && Acyclic(q) && Ordered(q, r, rows) && r < |q| && 0 < k < |rows|
    requires Anc(q, r, rows[0].idx)
    ensures rows[k].idx != r
  {
    PathFound(q, r, rows[0].idx);
    if rows[k].idx == r {
      assert Path(q, r, r) == [r] && [r][1..] == [];
      var first := Path(q, r, rows[0].idx);
      assert LexLess(first, [r]) && first[0] == r;
      assert !LexLess(first[1..], []);
    }
  }

  ghost predicate SameProcs(a: seq<Row>, b: seq<Row>) { forall i :: Lists(a, i) <==> Lists(b, i) }

  /** Two ordered lists of lines for the same processes agree, line by line. */
  lemma {:induction false} OrderedAgree(q: seq<int>, r: nat, a: seq<Row>, b: seq<Row>, k: nat)
    requires WellFormed(q) && Acyclic(q) && Ordered(q, r, a) && Ordered(q, r, b) && SameProcs(a, b) && k <= |a|
    ensures k <= |b| && forall j :: 0 <= j < k ==> a[j].idx == b[j].idx
    decreases k
  {
    if k > 0 {
      OrderedAgree(q, r, a, b, k - 1);
      var j := PositionFrom(q, r, a, b, k - 1);
      if j != k - 1 {
        var i := PositionFrom(q, r, b, a, k - 1);
        LexLessStrict(Path(q, r, b[k - 1].idx), Path(q, r, a[k - 1].idx));
      }
    }
  }

  /** The process at `k` in one list is found in the other, not before `k` when the two agree up to there. */
  lemma PositionFrom(q: seq<int>, r: nat, a: seq<Row>, b: seq<Row>, k: nat) returns (j: nat)
    requires WellFormed(q) && Acyclic(q) && Ordered(q, r, a) && Ordered(q, r, b) && SameProcs(a, b)
    requires k < |a| && k <= |b| && forall j :: 0 <= j < k ==> a[j].idx == b[j].idx
    ensures k <= j < |b| && b[j].idx == a[k].idx
  {
    var x := a[k].idx;
    assert Lists(a, x);
    assert Lists(b, x);
    j :| 0 <= j < |b| && b[j].idx == x;
    if j < k {
      LexLessStrict(Path(q, r, a[j].idx), Path(q, r, x));
    }
  }

  // ---------- cycles ----------

  /** The links of printing rows are those of `q`, which holds printing rows only; `q` may have cycles. */
  ghost predicate KeptLinks(t: seq<Proc>, q: seq<int>) {
    && |t| == |q| && WellFormed(q) && Walkable(t)
    && (forall i {:trigger t[i]} :: 0 <= i < |t| && t[i].prints ==>
          t[i].child == Next(q, i, 0, |t|) && t[i].sister == Sister(q, i, |t|))
    && (forall i {:trigger q[i], t[i]} :: 0 <= i < |t| && q[i] != -1 ==> t[i].prints)
  }

  /** A process draws nothing at depth `d`: it is too deep, or hidden and its children are. */
  predicate Unseen(t: seq<Proc>, o: Options, r: nat, d: nat)
    requires r < |t|
  {
    d + (if Shown(t[r]) then 0 else 1) >= o.maxDepth
  }

  /** Below the depth bound nothing is drawn. */
  lemma {:induction false} RowsOfDeep(t: seq<Proc>, o: Options, c: int, head: seq<Cell>)
    requires Walkable(t) && -1 <= c < |t|
    ensures RowsOf(t, o, c, head, o.maxDepth) == []
    decreases if c == -1 then 0 else |t| - c
  {
    if c != -1 { RowsOfDeep(t, o, t[c].sister, head); }
  }

  lemma UnseenRows(t: seq<Proc>, o: Options, r: nat, head: seq<Cell>, d: nat)
    requires Walkable(t) && r < |t| && d <= o.maxDepth && Unseen(t, o, r, d)
    ensures Rows(t, o, r, head, d) == []
  {
    if d < o.maxDepth {
      RowsOfDeep(t, o, t[r].child, HeadBelow(t[r], head));
    }
  }

  lemma SkipUnseen(t: seq<Proc>, q: seq<int>, r: nat, o: Options, d: nat)
    requires KeptLinks(t, q) && r < |q| && q[r] != -1 && d <= o.maxDepth && Unseen(t, o, r, d)
    ensures DrawnAlike(t, o, r, Next(q, q[r], r + 1, |q|), d)
  {
    assert t[r].sister == Sister(q, r, |q|);
    forall head: seq<Cell> ensures RowsOf(t, o, r, head, d) == RowsOf(t, o, t[r].sister, head, d) {
      UnseenRows(t, o, r, head, d);
    }
  }

  /** The kept children of a node at depth `d-1` draw the same with and without `r`, which draws nothing there. */
  lemma KidsAlike(t: seq<Proc>, par: seq<int>, keep: seq<bool>, r: nat, o: Options, p: nat, from: nat, d: nat)
    requires WellFormed(par) && |keep| == |par| && r < |par| && p < |par| && from <= |par|
    requires KeptLinks(t, Masked(par, keep)) && 1 <= d <= o.maxDepth && Climb(par, p, d - 1) == r
    requires Climb(par, r, d) == r ==> Unseen(t, o, r, d)
    ensures DrawnAlike(t, o, Next(Masked(par, keep), p, from, |par|), Next(Tree(par, keep, r), p, from, |par|), d)
  {
    TreeKids(par, keep, r, p, d - 1, from);
    if Next(Masked(par, keep), p, from, |par|) == r {
      SkipUnseen(t, Masked(par, keep), r, o, d);
    }
  }

  lemma LinksDrawn(t: seq<Proc>, par: seq<int>, keep: seq<bool>, r: nat, o: Options, i: nat, d: nat)
    requires WellFormed(par) && |keep| == |par| && r < |par| && i < |par| && keep[i]
    requires KeptLinks(t, Masked(par, keep)) && t[i].prints && Climb(par, i, d) == r && d < o.maxDepth
    requires Climb(par, r, d + 1) == r ==> Unseen(t, o, r, d + 1)
    ensures DrawnAlike(t, o, t[i].child, Next(Tree(par, keep, r), i, 0, |par|), d + 1)
  {
    KidsAlike(t, par, keep, r, o, i, 0, d + 1);
  }

  lemma SistersDrawn(t: seq<Proc>, par: seq<int>, keep: seq<bool>, r: nat, o: Options, i: nat, d: nat)
    requires WellFormed(par) && |keep| == |par| && r < |par| && i < |par| && keep[i] && par[i] != -1 && keep[par[i]]
    requires KeptLinks(t, Masked(par, keep)) && t[i].prints && Climb(par, i, d) == r && 1 <= d <= o.maxDepth
    requires Climb(par, r, d) == r ==> Unseen(t, o, r, d)
    ensures DrawnAlike(t, o, t[i].sister, Next(Tree(par, keep, r), par[i], i + 1, |par|), d)
  {
    var q := Masked(par, keep);
    assert q[i] == par[i];
    assert t[i].sister == Next(q, par[i], i + 1, |q|);
    KidsAlike(t, par, keep, r, o, par[i], i + 1, d);
  }

  lemma LinkShown(t: seq<Proc>, par: seq<int>, keep: seq<bool>, v: seq<int>, r: nat, o: Options, i: nat, d: nat)
    requires WellFormed(par) && |keep| == |par| && r < |par| && i < |par| && keep[i] && Climb(par, i, d) == r
    requires KeptLinks(t, Masked(par, keep)) && t[i].prints && v == Tree(par, keep, r)
    requires i != r ==> d >= 1 && v[i] == par[i] != -1 && keep[par[i]]
    requires d >= 1 && Climb(par, r, d) == r ==> Unseen(t, o, r, d)
    requires Climb(par, r, d + 1) == r ==> Unseen(t, o, r, d + 1)
    ensures LinksAt(t, v, r, o, i, d)
  {
    if d < o.maxDepth { LinksDrawn(t, par, keep, r, o, i, d); }
    if i != r && d <= o.maxDepth { SistersDrawn(t, par, keep, r, o, i, d); }
  }

  lemma AtClimb(par: seq<int>, keep: seq<bool>, v: seq<int>, r: nat, i: nat, d: nat)
    requires WellFormed(par) && |keep| == |par| && UpClosed(par, keep) && r < |par| && keep[r] && i < |par|
    requires v == Tree(par, keep, r) && Acyclic(v) && At(v, r, i, d)
    ensures keep[i] && Climb(par, i, d) == r
    ensures i != r ==> d >= 1 && v[i] == par[i] != -1 && keep[par[i]]
  {
    var k := TreeAt(par, keep, v, r, i);
  }

  /** Unless a cycle brings `r` back where it is seen, the drawing of kept links shows the tree below `r`. */
  lemma LinksPruned(t: seq<Proc>, par: seq<int>, keep: seq<bool>, v: seq<int>, r: nat, o: Options)
    requires WellFormed(par) && |keep| == |par| && UpClosed(par, keep) && r < |par| && keep[r]
    requires KeptLinks(t, Masked(par, keep))
    requires forall i {:trigger keep[i], t[i]} :: 0 <= i < |par| && keep[i] ==> t[i].prints
    requires v == Tree(par, keep, r) && Acyclic(v)
    requires forall n: nat :: n >= 1 && Climb(par, r, n) == r ==> Unseen(t, o, r, n)
    ensures PrunedTo(t, v, r, o)
  {
    forall i: nat, d: nat | At(v, r, i, d) ensures LinksAt(t, v, r, o, i, d) {
      AtClimb(par, keep, v, r, i, d);
      assert t[i].prints;
      LinkShown(t, par, keep, v, r, o, i, d);
    }
  }

  /** The last step of a climb. */
  lemma LastStep(q: seq<int>, i: nat, k: nat) returns (c: nat)
    requires WellFormed(q) && i < |q| && k >= 1 && Climb(q, i, k) != -1
    ensures c < |q| && c == Climb(q, i, k - 1) && q[c] == Climb(q, i, k)
  {
    if Climb(q, i, k - 1) == -1 { ClimbStops(q, i, k - 1, k); }
    c := Climb(q, i, k - 1);
    ClimbAdd(q, i, k - 1, 1);
    assert Climb(q, c, 1) == q[c];
  }

  /** Whoever can climb to `r` in few enough steps has a line in the drawing of `r`. */
  lemma {:induction false} Reached(t: seq<Proc>, q: seq<int>, o: Options, r: nat, head: seq<Cell>, d: nat,
                                   i: nat, k: nat)
    requires KeptLinks(t, q) && r < |t| && t[r].prints && i < |t| && Shown(t[i])
    requires Climb(q, i, k) == r && d + k < o.maxDepth
    ensures Lists(Rows(t, o, r, head, d), i)
    decreases k, 1, 0
  {
    var kids := RowsOf(t, o, t[r].child, HeadBelow(t[r], head), d + 1);
    if k > 0 { ReachedBelow(t, q, o, r, HeadBelow(t[r], head), d, i, k); }
    if Shown(t[r]) { ListsCons(RowFor(t[r], o, r, head), kids, i); } else { assert [] + kids == kids; }
  }

  lemma {:induction false} ReachedBelow(t: seq<Proc>, q: seq<int>, o: Options, r: nat, head: seq<Cell>, d: nat,
                                        i: nat, k: nat)
    requires KeptLinks(t, q) && r < |t| && t[r].prints && i < |t| && Shown(t[i])
    requires k >= 1 && Climb(q, i, k) == r && d + k < o.maxDepth
    ensures Lists(RowsOf(t, o, t[r].child, head, d + 1), i)
    decreases k, 0, 0
  {
    var c := LastStep(q, i, k);
    NextLeast(q, r, 0, |q|, c);
    ReachedSister(t, q, o, r, t[r].child, c, head, d + 1, i, k - 1);
  }

  lemma {:induction false} ReachedSister(t: seq<Proc>, q: seq<int>, o: Options, p: nat, e: nat, c: nat,
                                         head: seq<Cell>, d: nat, i: nat, k: nat)
    requires KeptLinks(t, q) && e <= c < |t| && q[e] == q[c] == p && i < |t| && Shown(t[i])
    requires Climb(q, i, k) == c && d + k < o.maxDepth
    ensures Lists(RowsOf(t, o, e, head, d), i)
    decreases k, 2, c - e
  {
    assert t[e].prints && t[c].prints;
    if e == c {
      Reached(t, q, o, c, head, d, i, k);
    } else {
      NextLeast(q, p, e + 1, |q|, c);
      ReachedSister(t, q, o, p, t[e].sister, c, head, d, i, k);
    }
    ListsConcat(Rows(t, o, e, head, d), RowsOf(t, o, t[e].sister, head, d), i);
  }

  /** Two lines for `i`. */
  ghost predicate Twice(rows: seq<Row>, i: int) {
    exists j, k :: 0 <= j < k < |rows| && rows[j].idx == rows[k].idx == i
  }

  /** The first line is for `i`, and a later one too. */
  ghost predicate FirstAgain(rows: seq<Row>, i: int) {
    |rows| > 0 && rows[0].idx == i && Twice(rows, i)
  }

  lemma TwiceConcat(a: seq<Row>, b: seq<Row>, i: int)
    requires Twice(a, i) || Twice(b, i)
    ensures Twice(a + b, i)
  {
    var s := a + b;
    if j, k :| 0 <= j < k < |a| && a[j].idx == a[k].idx == i {
      assert s[j].idx == s[k].idx == i;
    } else {
      var j, k :| 0 <= j < k < |b| && b[j].idx == b[k].idx == i;
      assert s[|a| + j].idx == s[|a| + k].idx == i;
    }
  }

  /** A shown process on a cycle that the depth bound lets be walked around is listed again further down. */
  lemma CycleRepeats(t: seq<Proc>, q: seq<int>, o: Options, r: nat, head: seq<Cell>, d: nat, n: nat)
    requires KeptLinks(t, q) && r < |t| && t[r].prints && Shown(t[r])
    requires n >= 1 && d + n < o.maxDepth && Climb(q, r, n) == r
    ensures FirstAgain(Rows(t, o, r, head, d), r)
  {
    var nhead := HeadBelow(t[r], head);
    ReachedBelow(t, q, o, r, nhead, d, r, n);
    var kids := RowsOf(t, o, t[r].child, nhead, d + 1);
    var j :| 0 <= j < |kids| && kids[j].idx == r;
    var rows := [RowFor(t[r], o, r, head)] + kids;
    assert Rows(t, o, r, head, d) == rows;
    assert rows[0].idx == rows[j + 1].idx == r;
  }

  /** What is listed twice below one child is listed twice in the sister list. */
  lemma {:induction false} SisterRepeats(t: seq<Proc>, q: seq<int>, o: Options, p: nat, e: nat, c: nat,
                                         head: seq<Cell>, d: nat)
    requires KeptLinks(t, q) && e <= c < |t| && q[e] == q[c] == p && d <= o.maxDepth
    requires Twice(Rows(t, o, c, head, d), c)
    ensures Twice(RowsOf(t, o, e, head, d), c)
    decreases c - e
  {
    assert t[e].prints;
    if e < c {
      NextLeast(q, p, e + 1, |q|, c);
      SisterRepeats(t, q, o, p, t[e].sister, c, head, d);
    }
    TwiceConcat(Rows(t, o, e, head, d), RowsOf(t, o, t[e].sister, head, d), c);
  }

  /** A hidden start on such a cycle: its child on the cycle, when shown, is listed twice. */
  lemma HiddenCycleRepeats(t: seq<Proc>, q: seq<int>, o: Options, r: nat, c: nat, n: nat)
    requires KeptLinks(t, q) && r < |t| && t[r].prints && !Shown(t[r])
    requires c < |t| && q[c] == r && Shown(t[c]) && n >= 1 && n + 1 < o.maxDepth && Climb(q, c, n) == c
    ensures Twice(Rows(t, o, r, [], 0), c)
  {
    assert t[c].prints;
    CycleRepeats(t, q, o, c, [], 1, n);
    NextLeast(q, r, 0, |q|, c);
    SisterRepeats(t, q, o, r, t[r].child, c, [], 1);
    var kids := RowsOf(t, o, t[r].child, [], 1);
    assert [] + kids == kids;
  }
}
