/** Forests given by a parent sequence: `par[i]` is the parent of node `i`, or -1 when it has none. */
module Forest {

  ghost predicate WellFormed(par: seq<int>) {
    forall i :: 0 <= i < |par| ==> -1 <= par[i] < |par| && par[i] != i
  }

  // ---------- sibling order ----------

  /** The least index in [from, n) whose parent is `p`, or -1. */
  function Next(par: seq<int>, p: int, from: nat, n: nat): (k: int)
    requires n <= |par|
    ensures -1 <= k < n
    ensures k != -1 ==> from <= k && par[k] == p
    decreases n - from
  {
    if from >= n then -1
    else if par[from] == p then from
    else Next(par, p, from + 1, n)
  }

  lemma {:induction false} NextLeast(par: seq<int>, p: int, from: nat, n: nat, j: nat)
    requires n <= |par| && from <= j < n && par[j] == p
    ensures -1 < Next(par, p, from, n) <= j
    decreases n - from
  {
    if par[from] != p {
      NextLeast(par, p, from + 1, n, j);
    }
  }

  /** The next node after `i` with the same parent; a node without a parent has no sisters. */
  function Sister(par: seq<int>, i: nat, n: nat): (k: int)
    requires i < n <= |par|
    ensures -1 <= k < n
    ensures k != -1 ==> i < k && par[k] == par[i]
  {
    if par[i] == -1 then -1 else Next(par, par[i], i + 1, n)
  }

  predicate HasKid(par: seq<int>, p: int) {
    exists c :: 0 <= c < |par| && par[c] == p
  }

  predicate HasLaterSister(par: seq<int>, i: nat)
    requires i < |par|
  {
    par[i] != -1 && exists s :: i < s < |par| && par[s] == par[i]
  }

  lemma LinksMean(par: seq<int>, i: nat)
    requires i < |par|
    ensures Next(par, i, 0, |par|) != -1 <==> HasKid(par, i)
    ensures Sister(par, i, |par|) != -1 <==> HasLaterSister(par, i)
  {
    if HasKid(par, i) {
      var c :| 0 <= c < |par| && par[c] == i;
      NextLeast(par, i, 0, |par|, c);
    }
    if HasLaterSister(par, i) {
      var s :| i < s < |par| && par[s] == par[i];
      NextLeast(par, par[i], i + 1, |par|, s);
    }
  }

  /** How appending one node changes the least index found so far. */
  lemma {:induction false} NextExtend(par: seq<int>, p: int, from: nat, n: nat)
    requires n < |par|
    ensures Next(par, p, from, n + 1) ==
            if Next(par, p, from, n) != -1 then Next(par, p, from, n)
            else if from <= n && par[n] == p then n else -1
    decreases n - from
  {
    if from < n && par[from] != p {
      NextExtend(par, p, from + 1, n);
    }
  }

  /** The children of `p` among [from, n), in increasing index order. */
  function Kids(par: seq<int>, p: int, from: nat, n: nat): (s: seq<int>)
    requires n <= |par|
    ensures forall k :: 0 <= k < |s| ==> from <= s[k] < n
    decreases n - from
  {
    if from >= n then []
    else if par[from] == p then [from] + Kids(par, p, from + 1, n)
    else Kids(par, p, from + 1, n)
  }

  /** The list of children is increasing and holds exactly the children. */
  lemma {:induction false} KidsExact(par: seq<int>, p: int, from: nat, n: nat)
    requires n <= |par|
    ensures var s := Kids(par, p, from, n);
            && (forall j, k :: 0 <= j < k < |s| ==> s[j] < s[k])
            && (forall i :: i in s <==> from <= i < n && par[i] == p)
    decreases n - from
  {
    if from < n {
      KidsExact(par, p, from + 1, n);
    }
  }

  // ---------- ancestors ----------

  /** The node reached from `d` after `k` steps towards the root, or -1. */
  ghost function Climb(par: seq<int>, d: nat, k: nat): (a: int)
    requires WellFormed(par) && d < |par|
    ensures -1 <= a < |par|
    decreases k
  {
    if k == 0 then d else if par[d] == -1 then -1 else Climb(par, par[d], k - 1)
  }

  /** `a` is `d` or one of its ancestors. */
  ghost predicate Anc(par: seq<int>, a: nat, d: nat)
    requires WellFormed(par) && d < |par|
  {
    exists k: nat :: Climb(par, d, k) == a
  }

  /** `a` is a proper ancestor of `d`. */
  ghost predicate StrictAnc(par: seq<int>, a: nat, d: nat)
    requires WellFormed(par) && d < |par|
  {
    par[d] != -1 && Anc(par, a, par[d])
  }

  /** No node is its own proper ancestor. */
  ghost predicate Acyclic(par: seq<int>)
    requires WellFormed(par)
  {
    forall i :: 0 <= i < |par| ==> !StrictAnc(par, i, i)
  }

  lemma AncUnfold(par: seq<int>, a: nat, d: nat)
    requires WellFormed(par) && d < |par|
    ensures Anc(par, a, d) <==> a == d || StrictAnc(par, a, d)
    ensures Anc(par, d, d)
    ensures Anc(par, a, d) ==> a < |par|
  {
    assert Climb(par, d, 0) == d;
    if Anc(par, a, d) && a != d {
      var k: nat :| Climb(par, d, k) == a;
      assert Climb(par, par[d], k - 1) == a;
    }
    if StrictAnc(par, a, d) {
      var k: nat :| Climb(par, par[d], k) == a;
      assert Climb(par, d, k + 1) == a;
    }
  }

  lemma {:induction false} ClimbFrom(par: seq<int>, a: nat, b: nat, c: nat, k: nat)
    requires WellFormed(par) && b < |par| && c < |par|
    requires Anc(par, a, b) && Climb(par, c, k) == b
    ensures Anc(par, a, c)
    decreases k
  {
    AncUnfold(par, a, c);
    if k > 0 {
      ClimbFrom(par, a, b, par[c], k - 1);
    }
  }

  lemma AncTransitive(par: seq<int>, a: nat, b: nat, c: nat)
    requires WellFormed(par) && b < |par| && c < |par|
    requires Anc(par, a, b) && Anc(par, b, c)
    ensures Anc(par, a, c)
  {
    var k: nat :| Climb(par, c, k) == b;
    ClimbFrom(par, a, b, c, k);
  }

  /** Below `a` comes `a` itself or everything below one of its children. */
  lemma {:induction false} AncThroughKid(par: seq<int>, a: nat, d: nat, k: nat) returns (c: nat)
    requires WellFormed(par) && d < |par| && a != d
    requires Climb(par, d, k) == a
    ensures c < |par| && par[c] == a && Anc(par, c, d)
    decreases k
  {
    AncUnfold(par, a, d);
    if par[d] == a {
      c := d;
      AncUnfold(par, d, d);
    } else {
      c := AncThroughKid(par, a, par[d], k - 1);
      AncUnfold(par, c, d);
    }
  }

  lemma Below(par: seq<int>, a: nat, d: nat)
    requires WellFormed(par) && a < |par| && d < |par|
    ensures Anc(par, a, d) <==>
            a == d || exists c :: 0 <= c < |par| && par[c] == a && Anc(par, c, d)
  {
    AncUnfold(par, a, d);
    if Anc(par, a, d) && a != d {
      var k: nat :| Climb(par, d, k) == a;
      var c := AncThroughKid(par, a, d, k);
    }
    if c :| 0 <= c < |par| && par[c] == a && Anc(par, c, d) {
      AncUnfold(par, a, a);
      AncUnfold(par, a, c);
      AncTransitive(par, a, c, d);
    }
  }

  // ---------- termination measures ----------

  ghost function Ups(par: seq<int>, d: nat): set<int>
    requires WellFormed(par) && d < |par|
  {
    set a | 0 <= a < |par| && Anc(par, a, d)
  }

  ghost function Downs(par: seq<int>, a: nat): set<int>
    requires WellFormed(par) && a < |par|
  {
    set d | 0 <= d < |par| && Anc(par, a, d)
  }

  /** Stepping to the parent strictly shrinks the set of ancestors, to a child that of descendants. */
  lemma StepShrinks(par: seq<int>, d: nat)
    requires WellFormed(par) && d < |par| && par[d] != -1 && !StrictAnc(par, d, d)
    ensures Ups(par, par[d]) < Ups(par, d)
    ensures Downs(par, d) < Downs(par, par[d])
  {
    var p := par[d];
    AncUnfold(par, d, d);
    AncUnfold(par, p, p);
    AncUnfold(par, p, d);
    forall a | a in Ups(par, p) ensures a in Ups(par, d) { AncUnfold(par, a, d); }
    assert !StrictAnc(par, d, d);
    assert d in Ups(par, d) && d !in Ups(par, p);
    forall x | x in Downs(par, d) ensures x in Downs(par, p) { AncTransitive(par, p, d, x); }
    assert p in Downs(par, p) && p !in Downs(par, d);
  }

  // ---------- when walking up ends ----------

  lemma {:induction false} ClimbStops(par: seq<int>, d: nat, j: nat, k: nat)
    requires WellFormed(par) && d < |par| && j <= k && Climb(par, d, j) == -1
    ensures Climb(par, d, k) == -1
    decreases j
  {
    if par[d] != -1 {
      ClimbStops(par, par[d], j - 1, k - 1);
    }
  }

  lemma {:induction false} ClimbAdd(par: seq<int>, d: nat, j: nat, k: nat)
    requires WellFormed(par) && d < |par| && Climb(par, d, j) != -1
    ensures Climb(par, d, j + k) == Climb(par, Climb(par, d, j), k)
    decreases j
  {
    if j > 0 {
      ClimbAdd(par, par[d], j - 1, k);
    }
  }

  lemma {:induction false} CycleGoesOn(par: seq<int>, d: nat, m: nat, k: nat)
    requires WellFormed(par) && d < |par| && m > 0 && Climb(par, d, m) == d
    ensures Climb(par, d, k) != -1
    decreases k
  {
    if k < m {
      if Climb(par, d, k) == -1 { ClimbStops(par, d, k, m); }
    } else {
      ClimbAdd(par, d, m, k - m);
      CycleGoesOn(par, d, m, k - m);
    }
  }

  /** No process on the way up from `d` is its own proper ancestor. */
  ghost predicate NoCycleAbove(par: seq<int>, d: nat)
    requires WellFormed(par) && d < |par|
  {
    forall a :: 0 <= a < |par| && Anc(par, a, d) ==> !StrictAnc(par, a, a)
  }

  lemma {:induction false} StraightWalkEnds(par: seq<int>, d: nat) returns (k: nat)
    requires WellFormed(par) && d < |par| && NoCycleAbove(par, d)
    ensures Climb(par, d, k) == -1
    decreases Ups(par, d)
  {
    if par[d] == -1 {
      k := 1;
    } else {
      AncUnfold(par, d, d);
      StepShrinks(par, d);
      forall a | 0 <= a < |par| && Anc(par, a, par[d]) ensures !StrictAnc(par, a, a) { AncUnfold(par, a, d); }
      k := StraightWalkEnds(par, par[d]);
      k := k + 1;
    }
  }

  /** Following `parent` from `d` runs out of parents after finitely many steps. */
  ghost predicate WalkEnds(par: seq<int>, d: nat)
    requires WellFormed(par) && d < |par|
  {
    exists k: nat :: Climb(par, d, k) == -1
  }

  lemma EndsAbove(par: seq<int>, d: nat)
    requires WellFormed(par) && d < |par| && WalkEnds(par, d)
    ensures !StrictAnc(par, d, d)
    ensures par[d] != -1 ==> WalkEnds(par, par[d])
  {
    var k: nat :| Climb(par, d, k) == -1;
    if par[d] != -1 { assert Climb(par, par[d], k - 1) == -1; }
    if StrictAnc(par, d, d) {
      var m: nat :| Climb(par, par[d], m) == d;
      assert Climb(par, d, m + 1) == d;
      CycleGoesOn(par, d, m + 1, k);
    }
  }

  lemma EndsBelow(par: seq<int>, a: nat, d: nat)
    requires WellFormed(par) && a < |par| && d < |par| && WalkEnds(par, a) && Anc(par, a, d)
    ensures WalkEnds(par, d)
  {
    var k: nat :| Climb(par, a, k) == -1;
    var j: nat :| Climb(par, d, j) == a;
    ClimbAdd(par, d, j, k);
  }

  lemma {:induction false} EndsOnTheWay(par: seq<int>, d: nat, k: nat)
    requires WellFormed(par) && d < |par| && WalkEnds(par, d) && Climb(par, d, k) != -1
    ensures WalkEnds(par, Climb(par, d, k))
    decreases k
  {
    if k > 0 {
      EndsAbove(par, d);
      EndsOnTheWay(par, par[d], k - 1);
    }
  }

  /** Following `parent` from `d` ends exactly when the way up meets no node that is its own proper ancestor. */
  lemma WalkEndsIff(par: seq<int>, d: nat)
    requires WellFormed(par) && d < |par|
    ensures WalkEnds(par, d) <==> NoCycleAbove(par, d)
  {
    if NoCycleAbove(par, d) {
      var k := StraightWalkEnds(par, d);
    }
    if WalkEnds(par, d) {
      forall a | 0 <= a < |par| && Anc(par, a, d) ensures !StrictAnc(par, a, a) {
        var k: nat :| Climb(par, d, k) == a;
        EndsOnTheWay(par, d, k);
        EndsAbove(par, a);
      }
    }
  }

  // ---------- paths ----------

  /** The nodes from `r` down to `i`; empty when `r` is not on the way up from `i`. */
  ghost function Path(par: seq<int>, r: nat, i: nat): seq<int>
    requires WellFormed(par) && Acyclic(par) && i < |par|
    decreases Ups(par, i)
  {
    if i == r then [r]
    else if par[i] == -1 then []
    else
      StepShrinks(par, i);
      var up := Path(par, r, par[i]);
      if up == [] then [] else up + [i]
  }

  /** The order in which a tree is listed: parents before children, sisters by index. */
  predicate LexLess(a: seq<int>, b: seq<int>) {
    b != [] && (a == [] || a[0] < b[0] || (a[0] == b[0] && LexLess(a[1..], b[1..])))
  }

  lemma {:induction false} LexLessStrict(a: seq<int>, b: seq<int>)
    requires LexLess(a, b)
    ensures a != b && !LexLess(b, a)
  {
    if a != [] && a[0] == b[0] {
      LexLessStrict(a[1..], b[1..]);
    }
  }

  lemma {:induction false} PathFound(par: seq<int>, r: nat, i: nat)
    requires WellFormed(par) && Acyclic(par) && i < |par|
    ensures Path(par, r, i) != [] <==> Anc(par, r, i)
    ensures Anc(par, r, i) ==> Path(par, r, i)[0] == r && Path(par, r, i)[|Path(par, r, i)| - 1] == i
    decreases Ups(par, i)
  {
    AncUnfold(par, r, i);
    if i != r && par[i] != -1 {
      StepShrinks(par, i);
      PathFound(par, r, par[i]);
    }
  }

  /** Seen from the parent, a path is one node longer at the front. */
  lemma {:induction false} PathFromParent(par: seq<int>, c: nat, i: nat)
    requires WellFormed(par) && Acyclic(par) && i < |par| && c < |par| && par[c] != -1
    requires Anc(par, c, i)
    ensures Path(par, par[c], i) == [par[c]] + Path(par, c, i)
    decreases Ups(par, i)
  {
    var p := par[c];
    AncUnfold(par, c, i);
    AncUnfold(par, c, p);
    if i == c {
      assert Path(par, p, p) == [p];
    } else {
      StepShrinks(par, i);
      PathFromParent(par, c, par[i]);
      PathFound(par, c, par[i]);
      assert !StrictAnc(par, c, c);
      assert [p] + Path(par, c, par[i]) + [i] == [p] + (Path(par, c, par[i]) + [i]);
    }
  }

  // ---------- sub-forests ----------

  /** The forest that keeps only the nodes in `keep`; the others lose their place in it. */
  function Masked(par: seq<int>, keep: seq<bool>): (q: seq<int>)
    requires |keep| == |par|
    ensures |q| == |par|
    ensures forall i :: 0 <= i < |q| ==> q[i] == if keep[i] then par[i] else -1
  {
    seq(|par|, i requires 0 <= i < |par| => if keep[i] then par[i] else -1)
  }

  ghost predicate UpClosed(par: seq<int>, keep: seq<bool>)
    requires WellFormed(par) && |keep| == |par|
  {
    forall i {:trigger keep[par[i]]} :: 0 <= i < |par| && keep[i] && par[i] != -1 ==> keep[par[i]]
  }

  lemma {:induction false} MaskedClimb(par: seq<int>, keep: seq<bool>, q: seq<int>, d: nat, k: nat)
    requires WellFormed(par) && |keep| == |par| && d < |par| && keep[d] && UpClosed(par, keep)
    requires WellFormed(q) && |q| == |par| && forall i :: 0 <= i < |q| && keep[i] ==> q[i] == par[i]
    ensures Climb(q, d, k) == Climb(par, d, k)
    ensures Climb(par, d, k) != -1 ==> keep[Climb(par, d, k)]
    decreases k
  {
    if k > 0 && par[d] != -1 {
      assert keep[par[d]];
      MaskedClimb(par, keep, q, par[d], k - 1);
    }
  }

  /** Ancestors of a kept node are the same in the pruned forest. */
  lemma MaskedAnc(par: seq<int>, keep: seq<bool>, a: nat, d: nat)
    requires WellFormed(par) && |keep| == |par| && d < |par| && UpClosed(par, keep)
    ensures WellFormed(Masked(par, keep))
    ensures keep[d] ==> (Anc(Masked(par, keep), a, d) <==> Anc(par, a, d))
    ensures keep[d] && Anc(par, a, d) ==> a < |par| && keep[a]
    ensures !keep[d] ==> (Anc(Masked(par, keep), a, d) <==> a == d)
  {
    var q := Masked(par, keep);
    assert WellFormed(q);
    if keep[d] {
      forall k: nat ensures Climb(q, d, k) == Climb(par, d, k) && (Climb(par, d, k) != -1 ==> keep[Climb(par, d, k)]) {
        MaskedClimb(par, keep, q, d, k);
      }
      if Anc(par, a, d) {
        var k: nat :| Climb(par, d, k) == a;
        assert Climb(q, d, k) == a;
      }
    } else {
      AncUnfold(q, a, d);
    }
  }

  /** A pruned forest is acyclic exactly when no kept node is its own proper ancestor in the full one. */
  lemma MaskedAcyclic(par: seq<int>, keep: seq<bool>)
    requires WellFormed(par) && |keep| == |par| && UpClosed(par, keep)
    ensures WellFormed(Masked(par, keep))
    ensures Acyclic(Masked(par, keep)) <==> forall i :: 0 <= i < |par| && keep[i] ==> !StrictAnc(par, i, i)
  {
    var q := Masked(par, keep);
    assert WellFormed(q);
    forall i | 0 <= i < |q| ensures StrictAnc(q, i, i) <==> keep[i] && StrictAnc(par, i, i) {
      if keep[i] && par[i] != -1 {
        MaskedAnc(par, keep, i, par[i]);
      }
    }
  }

  // ---------- the tree below one node ----------

  /** The kept nodes below `r`, with the link above `r` cut: a tree even when `r` lies on a cycle. */
  ghost function Tree(par: seq<int>, keep: seq<bool>, r: nat): (q: seq<int>)
    requires WellFormed(par) && |keep| == |par|
    ensures |q| == |par| && WellFormed(q)
    ensures forall i {:trigger q[i]} :: 0 <= i < |par| ==>
              q[i] == if i != r && keep[i] && Anc(par, r, i) then par[i] else -1
  {
    seq(|par|, i requires 0 <= i < |par| => if i != r && keep[i] && Anc(par, r, i) then par[i] else -1)
  }

  lemma {:induction false} TreeWalkEnds(par: seq<int>, keep: seq<bool>, r: nat, d: nat, k: nat)
    requires WellFormed(par) && |keep| == |par| && d < |par| && Climb(par, d, k) == r
    ensures WalkEnds(Tree(par, keep, r), d)
    decreases k
  {
    var q := Tree(par, keep, r);
    if q[d] == -1 {
      assert Climb(q, d, 1) == -1;
    } else {
      TreeWalkEnds(par, keep, r, par[d], k - 1);
      var j: nat :| Climb(q, par[d], j) == -1;
      assert Climb(q, d, j + 1) == -1;
    }
  }

  lemma TreeAcyclic(par: seq<int>, keep: seq<bool>, r: nat)
    requires WellFormed(par) && |keep| == |par|
    ensures Acyclic(Tree(par, keep, r))
  {
    var q := Tree(par, keep, r);
    forall d | 0 <= d < |q| ensures !StrictAnc(q, d, d) {
      if q[d] != -1 {
        var k: nat :| Climb(par, d, k) == r;
        TreeWalkEnds(par, keep, r, d, k);
        EndsAbove(q, d);
      }
    }
  }

  /** What can be climbed in the tree can be climbed in the forest. */
  lemma {:induction false} TreeClimb(par: seq<int>, keep: seq<bool>, r: nat, d: nat, k: nat)
    requires WellFormed(par) && |keep| == |par| && d < |par|
    ensures Climb(Tree(par, keep, r), d, k) != -1 ==> Climb(par, d, k) == Climb(Tree(par, keep, r), d, k)
    decreases k
  {
    var q := Tree(par, keep, r);
    if k > 0 && q[d] != -1 {
      TreeClimb(par, keep, r, par[d], k - 1);
    }
  }

  lemma {:induction false} TreeHangs(par: seq<int>, keep: seq<bool>, r: nat, d: nat, k: nat)
    requires WellFormed(par) && |keep| == |par| && d < |par| && UpClosed(par, keep)
    requires keep[d] && Climb(par, d, k) == r
    ensures Anc(Tree(par, keep, r), r, d)
    decreases k
  {
    var q := Tree(par, keep, r);
    AncUnfold(q, r, d);
    if d != r {
      assert keep[par[d]];
      TreeHangs(par, keep, r, par[d], k - 1);
      assert Anc(par, r, d);
    }
  }

  /** The tree holds `r` and exactly the kept nodes below it. */
  lemma TreeAnc(par: seq<int>, keep: seq<bool>, r: nat, d: nat)
    requires WellFormed(par) && |keep| == |par| && r < |par| && d < |par| && UpClosed(par, keep)
    ensures Anc(Tree(par, keep, r), r, d) <==> d == r || (keep[d] && Anc(par, r, d))
  {
    var q := Tree(par, keep, r);
    AncUnfold(q, r, d);
    if keep[d] && Anc(par, r, d) {
      var k: nat :| Climb(par, d, k) == r;
      TreeHangs(par, keep, r, d, k);
    }
  }

  /** In an acyclic forest the way down from `r` is the same as in the tree. */
  lemma {:induction false} TreePath(par: seq<int>, keep: seq<bool>, r: nat, i: nat)
    requires WellFormed(par) && |keep| == |par| && r < |par| && UpClosed(par, keep) && Acyclic(par)
    requires i < |par| && keep[i] && Acyclic(Tree(par, keep, r))
    ensures Path(Tree(par, keep, r), r, i) == Path(par, r, i)
    decreases Ups(par, i)
  {
    AncUnfold(par, r, i);
    PathFound(par, r, i);
    if i != r && par[i] != -1 {
      StepShrinks(par, i);
      TreePath(par, keep, r, par[i]);
    }
  }

  /** Climbing a path of n nodes takes n-1 steps. */
  lemma {:induction false} PathClimb(q: seq<int>, r: nat, i: nat)
    requires WellFormed(q) && Acyclic(q) && i < |q| && Anc(q, r, i)
    ensures |Path(q, r, i)| >= 1 && Climb(q, i, |Path(q, r, i)| - 1) == r
    decreases Ups(q, i)
  {
    AncUnfold(q, r, i);
    PathFound(q, r, i);
    if i != r {
      StepShrinks(q, i);
      PathClimb(q, r, q[i]);
      PathFound(q, r, q[i]);
    }
  }

  /** A node of the tree is kept, and can be climbed from in as many steps as it is deep. */
  lemma TreeAt(par: seq<int>, keep: seq<bool>, v: seq<int>, r: nat, i: nat) returns (k: nat)
    requires WellFormed(par) && |keep| == |par| && UpClosed(par, keep) && r < |par| && keep[r] && i < |par|
    requires v == Tree(par, keep, r) && Acyclic(v) && Anc(v, r, i)
    ensures keep[i] && |Path(v, r, i)| == k + 1 && Climb(par, i, k) == r
    ensures i != r ==> k >= 1 && v[i] == par[i] != -1 && keep[par[i]]
  {
    TreeAnc(par, keep, r, i);
    PathClimb(v, r, i);
    k := |Path(v, r, i)| - 1;
    TreeClimb(par, keep, r, i, k);
  }

  /** Taking `r` out of a forest takes it out of the list of its sisters. */
  lemma {:induction false} NextWithout(q: seq<int>, v: seq<int>, r: nat, p: int, from: nat, n: nat)
    requires n <= |q| && n <= |v| && p >= 0 && r < n
    requires forall c :: from <= c < n ==> (v[c] == p <==> q[c] == p && c != r)
    ensures Next(v, p, from, n) ==
            if Next(q, p, from, n) == r then Next(q, p, r + 1, n) else Next(q, p, from, n)
    decreases n - from
  {
    if from < n {
      NextWithout(q, v, r, p, from + 1, n);
      if from == r { NextApart(q, v, p, r + 1, n); }
    }
  }

  lemma {:induction false} NextApart(q: seq<int>, v: seq<int>, p: int, from: nat, n: nat)
    requires n <= |q| && n <= |v| && forall c :: from <= c < n ==> (v[c] == p <==> q[c] == p)
    ensures Next(v, p, from, n) == Next(q, p, from, n)
    decreases n - from
  {
    if from < n { NextApart(q, v, p, from + 1, n); }
  }

  /** The children of a node in the tree are its kept children without `r`. */
  lemma TreeKids(par: seq<int>, keep: seq<bool>, r: nat, i: nat, d: nat, from: nat)
    requires WellFormed(par) && |keep| == |par| && r < |par| && i < |par| && from <= |par| && Climb(par, i, d) == r
    ensures var k := Next(Masked(par, keep), i, from, |par|);
            Next(Tree(par, keep, r), i, from, |par|) == if k == r then Next(Masked(par, keep), i, r + 1, |par|) else k
  {
    forall c | from <= c < |par| ensures Tree(par, keep, r)[c] == i <==> Masked(par, keep)[c] == i && c != r {
      if par[c] == i {
        assert Climb(par, c, d + 1) == r;
      }
    }
    NextWithout(Masked(par, keep), Tree(par, keep, r), r, i, from, |par|);
  }

  /** Two nodes that are each other's parents: the walk up from them never ends. */
  lemma WalkNeverEnds()
    ensures WellFormed([1, 0]) && !WalkEnds([1, 0], 0)
  {
    var par := [1, 0];
    assert Climb(par, 1, 1) == 0;
    assert StrictAnc(par, 0, 0);
    if WalkEnds(par, 0) { EndsAbove(par, 0); }
  }
}
