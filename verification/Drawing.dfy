/** The prefixes of the drawn lines: what they show, and when they determine the tree. */
module Drawing {
  import opened Forest
  import opened ProcTable
  import opened Listing

  /** The prefix for `i` below `top`, when the nodes in `later` have later sisters and those in `shown` have lines. */
  ghost function HeadOf(q: seq<int>, later: set<int>, shown: set<int>, top: nat, i: nat): (h: seq<Cell>)
    requires WellFormed(q) && Acyclic(q) && i < |q|
    decreases Ups(q, i)
  {
    if i == top || q[i] == -1 then []
    else
      StepShrinks(q, i);
      var up := HeadOf(q, later, shown, top, q[i]);
      if q[i] !in shown then up
      else up + (if up == [] then [] else if q[i] in later then [Bar] else [Blank]) + [Blank]
  }

  /** The proper ancestors of `i` that have a line, from `top` down. */
  ghost function ShownAbove(q: seq<int>, shown: set<int>, top: nat, i: nat): seq<int>
    requires WellFormed(q) && Acyclic(q) && i < |q|
    decreases Ups(q, i)
  {
    if i == top || q[i] == -1 then []
    else
      StepShrinks(q, i);
      ShownAbove(q, shown, top, q[i]) + if q[i] in shown then [q[i]] else []
  }

  /** Below n >= 1 shown ancestors a prefix has 2n-1 cells, and cell 2j-1 is a bar iff the j-th has a later sister. */
  lemma {:induction false} HeadCells(q: seq<int>, later: set<int>, shown: set<int>, top: nat, i: nat)
    requires WellFormed(q) && Acyclic(q) && i < |q|
    ensures var h, s := HeadOf(q, later, shown, top, i), ShownAbove(q, shown, top, i);
            && |h| == (if s == [] then 0 else 2 * |s| - 1)
            && (forall j {:trigger s[j]} :: 1 <= j < |s| ==> (h[2 * j - 1] == Bar <==> s[j] in later))
            && (forall j {:trigger s[j]} :: 0 <= j < |s| ==> h[2 * j] == Blank)
    decreases Ups(q, i)
  {
    if i != top && q[i] != -1 {
      StepShrinks(q, i);
      HeadCells(q, later, shown, top, q[i]);
      var up, s := ShownAbove(q, shown, top, q[i]), ShownAbove(q, shown, top, i);
      forall j | 0 <= j < |s| ensures HeadOf(q, later, shown, top, i)[2 * j] == Blank {
        if j < |up| { assert s[j] == up[j]; }
      }
    }
  }

  /** When every proper ancestor below `top` has a line, they are the whole path. */
  lemma {:induction false} AllShownAbove(q: seq<int>, shown: set<int>, top: nat, i: nat)
    requires WellFormed(q) && Acyclic(q) && top < |q| && i < |q| && Anc(q, top, i)
    requires forall a :: 0 <= a < |q| && q[i] != -1 && Anc(q, top, a) && Anc(q, a, q[i]) ==> a in shown
    ensures ShownAbove(q, shown, top, i) + [i] == Path(q, top, i)
    decreases Ups(q, i)
  {
    AncUnfold(q, top, i);
    if i != top {
      var p := q[i];
      StepShrinks(q, i);
      AncUnfold(q, p, p);
      PathFound(q, top, p);
      forall a | 0 <= a < |q| && q[p] != -1 && Anc(q, top, a) && Anc(q, a, q[p]) ensures a in shown {
        AncUnfold(q, a, p);
      }
      AllShownAbove(q, shown, top, p);
    }
  }

  ghost function Laters(t: seq<Proc>): set<int> { set i | 0 <= i < |t| && t[i].sister != -1 }

  ghost function Showns(t: seq<Proc>): set<int> { set i | 0 <= i < |t| && Shown(t[i]) }

  /** The prefix for `i` in the drawing of the table. */
  ghost function TableHead(t: seq<Proc>, q: seq<int>, top: nat, i: nat): seq<Cell>
    requires WellFormed(q) && Acyclic(q) && i < |q|
  {
    HeadOf(q, Laters(t), Showns(t), top, i)
  }

  lemma KidHead(t: seq<Proc>, q: seq<int>, top: nat, p: nat, c: nat)
    requires |t| == |q| && WellFormed(q) && Acyclic(q) && p < |t| && c < |t| && q[c] == p && c != top
    ensures TableHead(t, q, top, c) == HeadBelow(t[p], TableHead(t, q, top, p))
  {
  }

  /** Every line carries exactly the prefix of its place in the tree, whatever is hidden. */
  lemma {:induction false} RowsHeads(t: seq<Proc>, q: seq<int>, o: Options, top: nat, r: nat, d: nat, k: nat)
    requires PrunedTo(t, q, top, o) && At(q, top, r, d) && d <= o.maxDepth
    requires k < |Rows(t, o, r, TableHead(t, q, top, r), d)|
    ensures var row := Rows(t, o, r, TableHead(t, q, top, r), d)[k];
            row.idx < |t| && row == RowFor(t[row.idx], o, row.idx, TableHead(t, q, top, row.idx))
    decreases o.maxDepth - d, 0, 0
  {
    assert d < o.maxDepth;
    RowsSplit(t, q, o, top, r, TableHead(t, q, top, r), d);
    var n := if Shown(t[r]) then 1 else 0;
    if k >= n {
      var nhead := HeadBelow(t[r], TableHead(t, q, top, r));
      RowsOfHeads(t, q, o, top, r, Next(q, r, 0, |t|), nhead, d + 1, k - n);
    }
  }

  lemma {:induction false} RowsOfHeads(t: seq<Proc>, q: seq<int>, o: Options, top: nat, p: nat, c: int,
                                       head: seq<Cell>, d: nat, k: nat)
    requires PrunedTo(t, q, top, o) && 1 <= d <= o.maxDepth && At(q, top, p, d - 1)
    requires -1 <= c < |t| && (c != -1 ==> q[c] == p) && head == HeadBelow(t[p], TableHead(t, q, top, p))
    requires k < |RowsOf(t, o, c, head, d)|
    ensures var row := RowsOf(t, o, c, head, d)[k];
            row.idx < |t| && row == RowFor(t[row.idx], o, row.idx, TableHead(t, q, top, row.idx))
    decreases o.maxDepth - d, 1, if c == -1 then 0 else |t| - c
  {
    AtKid(q, top, p, d - 1, c);
    KidHead(t, q, top, p, c);
    assert LinksAt(t, q, top, o, c, d);
    var n := |Rows(t, o, c, head, d)|;
    if k < n {
      RowsHeads(t, q, o, top, c, d, k);
    } else {
      RowsOfHeads(t, q, o, top, p, Next(q, p, c + 1, |t|), head, d, k - n);
    }
  }

  // ---------- reading the tree off the drawing ----------

  /** Whatever lies between a path and one of its extensions by one node is longer than the path. */
  lemma {:induction false} LexBetween(a: seq<int>, m: seq<int>, x: int)
    requires LexLess(a, m) && LexLess(m, a + [x])
    ensures |m| > |a|
  {
    if a != [] {
      assert (a + [x])[1..] == a[1..] + [x];
      LexBetween(a[1..], m[1..], x);
    }
  }

  lemma {:induction false} LexLessExtend(a: seq<int>, x: int)
    ensures LexLess(a, a + [x])
  {
    if a != [] {
      assert (a + [x])[1..] == a[1..] + [x];
      LexLessExtend(a[1..], x);
    }
  }

  /** The nearest line before `k` with a shorter prefix: it can be found by looking at the drawing alone. */
  function Shallower(rows: seq<Row>, k: nat, j: nat): int
    requires j <= k < |rows|
  {
    if j == 0 then -1
    else if |rows[j - 1].head| < |rows[k].head| then j - 1
    else Shallower(rows, k, j - 1)
  }

  lemma {:induction false} ShallowerIs(rows: seq<Row>, k: nat, j: nat, m: nat)
    requires m < j <= k < |rows| && |rows[m].head| < |rows[k].head|
    requires forall i :: m < i < j ==> |rows[i].head| >= |rows[k].head|
    ensures Shallower(rows, k, j) == m
    decreases j
  {
    if j - 1 != m {
      ShallowerIs(rows, k, j - 1, m);
    }
  }

  /** Line `k` stands for a child of the process on the nearest shallower line above it, the first line for `r`. */
  ghost predicate LineReadsBack(par: seq<int>, r: nat, rows: seq<Row>, k: nat)
    requires k < |rows|
  {
    && rows[k].idx < |par|
    && if k == 0 then rows[k].idx == r
       else var j := Shallower(rows, k, k); 0 <= j < k && par[rows[k].idx] == rows[j].idx
  }

  /** The drawing gives back the tree. */
  ghost predicate ReadsBack(par: seq<int>, r: nat, rows: seq<Row>) {
    forall k :: 0 <= k < |rows| ==> LineReadsBack(par, r, rows, k)
  }

  /** Every listed process but the start has a shown parent. */
  ghost predicate ParentsShown(t: seq<Proc>, q: seq<int>, r: nat, rows: seq<Row>)
    requires |t| == |q| && WellFormed(q)
  {
    forall k :: 0 <= k < |rows| && rows[k].idx < |q| && rows[k].idx != r ==>
      q[rows[k].idx] != -1 && Shown(t[q[rows[k].idx]])
  }

  /** Line `k` stands for a process in view, with the prefix of its place. */
  lemma RowAt(t: seq<Proc>, q: seq<int>, o: Options, r: nat, k: nat)
    requires PrunedTo(t, q, r, o) && k < |Rows(t, o, r, [], 0)|
    ensures var i := Rows(t, o, r, [], 0)[k].idx;
            && i < |t| && InView(t, q, r, i, o.maxDepth)
            && Rows(t, o, r, [], 0)[k] == RowFor(t[i], o, i, TableHead(t, q, r, i))
  {
    AtTop(q, r);
    RowsHeads(t, q, o, r, r, 0, k);
    assert Lists(Rows(t, o, r, [], 0), Rows(t, o, r, [], 0)[k].idx);
    RowsMembers(t, q, o, r, r, [], 0, Rows(t, o, r, [], 0)[k].idx);
  }

  /** With shown parents, the parent of a listed process is listed and one level up. */
  lemma ParentListed(t: seq<Proc>, q: seq<int>, o: Options, r: nat, i: nat)
    requires PrunedTo(t, q, r, o) && ParentsShown(t, q, r, Rows(t, o, r, [], 0))
    requires i < |t| && i != r && Lists(Rows(t, o, r, [], 0), i)
    ensures q[i] != -1 && Lists(Rows(t, o, r, [], 0), q[i]) && Shown(t[q[i]])
    ensures Anc(q, r, q[i]) && Path(q, r, i) == Path(q, r, q[i]) + [i] && |Path(q, r, q[i])| >= 1
  {
    AtTop(q, r);
    RowsMembers(t, q, o, r, r, [], 0, i);
    AncUnfold(q, r, i);
    PathFound(q, r, q[i]);
    RowsMembers(t, q, o, r, r, [], 0, q[i]);
  }

  /** With shown parents, the length of a prefix tells the depth. */
  lemma {:induction false} DepthShows(t: seq<Proc>, q: seq<int>, o: Options, r: nat, i: nat)
    requires PrunedTo(t, q, r, o) && ParentsShown(t, q, r, Rows(t, o, r, [], 0))
    requires i < |t| && Lists(Rows(t, o, r, [], 0), i)
    ensures |TableHead(t, q, r, i)| == if i == r then 0 else 2 * |Path(q, r, i)| - 3
    ensures i != r ==> |Path(q, r, i)| >= 2
    decreases Ups(q, i)
  {
    if i != r {
      ParentListed(t, q, o, r, i);
      StepShrinks(q, i);
      DepthShows(t, q, o, r, q[i]);
      assert Path(q, r, r) == [r];
    }
  }

  /** The parent of the process on line `k` has a line above it. */
  lemma ParentLine(t: seq<Proc>, q: seq<int>, o: Options, r: nat, k: nat) returns (j: nat)
    requires PrunedTo(t, q, r, o) && ParentsShown(t, q, r, Rows(t, o, r, [], 0))
    requires k < |Rows(t, o, r, [], 0)| && Rows(t, o, r, [], 0)[k].idx != r
    ensures var rows := Rows(t, o, r, [], 0); j < k && rows[k].idx < |t| && rows[j].idx == q[rows[k].idx]
    ensures var i := Rows(t, o, r, [], 0)[k].idx; Path(q, r, i) == Path(q, r, q[i]) + [i]
  {
    var rows := Rows(t, o, r, [], 0);
    RowAt(t, q, o, r, k);
    var i := rows[k].idx;
    assert Lists(rows, i);
    ParentListed(t, q, o, r, i);
    j :| 0 <= j < |rows| && rows[j].idx == q[i];
    AtTop(q, r);
    RowsOrdered(t, q, o, r, r, [], 0);
    LexLessExtend(Path(q, r, q[i]), i);
    LexLessStrict(Path(q, r, q[i]), Path(q, r, i));
    assert k != j;
  }

  /** Between a line and its parent's line there are only lines at least as deep, and the parent's is less deep. */
  lemma BetweenDeeper(t: seq<Proc>, q: seq<int>, o: Options, r: nat, j: nat, m: nat, k: nat)
    requires PrunedTo(t, q, r, o) && ParentsShown(t, q, r, Rows(t, o, r, [], 0))
    requires j <= m < k < |Rows(t, o, r, [], 0)| && Rows(t, o, r, [], 0)[k].idx != r
    requires var rows := Rows(t, o, r, [], 0); rows[k].idx < |t| && rows[j].idx == q[rows[k].idx]
    requires var i := Rows(t, o, r, [], 0)[k].idx; Path(q, r, i) == Path(q, r, q[i]) + [i]
    ensures |Rows(t, o, r, [], 0)[m].head| < |Rows(t, o, r, [], 0)[k].head| <==> m == j
  {
    var rows := Rows(t, o, r, [], 0);
    AtTop(q, r);
    RowsOrdered(t, q, o, r, r, [], 0);
    RowAt(t, q, o, r, m);
    RowAt(t, q, o, r, k);
    assert Lists(rows, rows[m].idx) && Lists(rows, rows[k].idx);
    DepthShows(t, q, o, r, rows[m].idx);
    DepthShows(t, q, o, r, rows[k].idx);
    assert Path(q, r, r) == [r];
    if j < m {
      LexBetween(Path(q, r, rows[j].idx), Path(q, r, rows[m].idx), rows[k].idx);
    }
  }

  /** With shown parents the first line is the start's, and no other line is. */
  lemma RootFirst(t: seq<Proc>, q: seq<int>, o: Options, r: nat, k: nat)
    requires PrunedTo(t, q, r, o) && ParentsShown(t, q, r, Rows(t, o, r, [], 0))
    requires k < |Rows(t, o, r, [], 0)|
    ensures Rows(t, o, r, [], 0)[k].idx == r <==> k == 0
  {
    var rows := Rows(t, o, r, [], 0);
    if rows[0].idx != r {
      var j := ParentLine(t, q, o, r, 0);
    }
    if k > 0 && rows[k].idx == r {
      AtTop(q, r);
      RowsOrdered(t, q, o, r, r, [], 0);
      LexLessStrict(Path(q, r, r), Path(q, r, r));
    }
  }

  /** The drawing gives back the tree exactly when every listed process but the start has a shown parent. */
  lemma DrawingDeterminesTree(t: seq<Proc>, q: seq<int>, o: Options, r: nat)
    requires PrunedTo(t, q, r, o)
    ensures ReadsBack(q, r, Rows(t, o, r, [], 0)) <==> ParentsShown(t, q, r, Rows(t, o, r, [], 0))
  {
    var rows := Rows(t, o, r, [], 0);
    if ParentsShown(t, q, r, rows) {
      forall k | 0 <= k < |rows| ensures LineReadsBack(q, r, rows, k) {
        RootFirst(t, q, o, r, k);
        if k > 0 {
          var j := ParentLine(t, q, o, r, k);
          forall m | j <= m < k ensures |rows[m].head| < |rows[k].head| <==> m == j {
            BetweenDeeper(t, q, o, r, j, m, k);
          }
          ShallowerIs(rows, k, k, j);
        }
      }
    }
    if ReadsBack(q, r, rows) {
      forall k | 0 <= k < |rows| && rows[k].idx < |q| && rows[k].idx != r
        ensures q[rows[k].idx] != -1 && Shown(t[q[rows[k].idx]])
      {
        assert LineReadsBack(q, r, rows, k);
        RowAt(t, q, o, r, if k > 0 then Shallower(rows, k, k) else 0);
      }
    }
  }
}
