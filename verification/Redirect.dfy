/** Redirection cuts its symbol and file name out of a null-terminated argument vector, in place. */
module Redirect {

  /** A `char *`: null, or the address of a heap string. */
  datatype Ptr = Null | At(addr: nat)

  /** The vector up to its first null. */
  function Args(cells: seq<Ptr>): (args: seq<nat>)
    ensures |args| <= |cells|
  {
    if cells == [] || cells[0] == Null then [] else [cells[0].addr] + Args(cells[1..])
  }

  lemma {:induction false} ArgsCells(cells: seq<Ptr>)
    ensures var args := Args(cells);
            && (forall k :: 0 <= k < |args| ==> cells[k] == At(args[k]))
            && (|args| < |cells| ==> cells[|args|] == Null)
    decreases |cells|
  {
    if cells != [] && cells[0] != Null {
      ArgsCells(cells[1..]);
      var rest := Args(cells[1..]);
      forall k | 1 <= k < 1 + |rest| ensures cells[k] == At(Args(cells)[k]) {
        assert cells[1..][k - 1] == At(rest[k - 1]);
      }
    }
  }

  /** There is a terminating null. */
  predicate Terminated(cells: seq<Ptr>) { |Args(cells)| < |cells| }

  predicate Distinct(args: seq<nat>) {
    forall j, k :: 0 <= j < k < |args| ==> args[j] != args[k]
  }

  /** Pairwise distinct, allocated strings. */
  ghost predicate Allocated(heap: map<nat, string>, args: seq<nat>) {
    Distinct(args) && forall k :: 0 <= k < |args| ==> args[k] in heap
  }

  /** The character `*tok` reads: the terminator when the string is empty. */
  function FirstChar(s: string): char { if s == "" then '\0' else s[0] }

  /** The first character of the string at an address. */
  function Head(heap: map<nat, string>, a: nat): char { if a in heap then FirstChar(heap[a]) else '\0' }

  /** The first argument that begins with `mode`, or the number of arguments. */
  function Symbol(heap: map<nat, string>, args: seq<nat>, mode: char): (p: nat)
    ensures p <= |args|
  {
    if args == [] || Head(heap, args[0]) == mode then 0 else 1 + Symbol(heap, args[1..], mode)
  }

  /** The arguments without the symbol and the name after it; unchanged when there is no such pair. */
  function Cut(heap: map<nat, string>, args: seq<nat>, mode: char): seq<nat> {
    var p := Symbol(heap, args, mode);
    if p + 1 < |args| then Without(args, p) else args
  }

  /** The vector without the two cells from `p` on. */
  function Without(args: seq<nat>, p: nat): seq<nat>
    requires p + 1 < |args|
  {
    args[..p] + args[p + 2..]
  }

  /** What Cut takes away. */
  function Trash(heap: map<nat, string>, args: seq<nat>, mode: char): seq<nat> {
    var p := Symbol(heap, args, mode);
    if p + 1 < |args| then [args[p], args[p + 1]] else []
  }

  /** The descriptor a redirection goes to: standard input or standard output. */
  function Target(mode: char): int { if mode == '<' then 0 else 1 }

  /** The file to be opened and where it goes, when there is a pair. */
  function Request(heap: map<nat, string>, args: seq<nat>, mode: char): seq<(int, string)> {
    var t := Trash(heap, args, mode);
    if t == [] || t[1] !in heap then [] else [(Target(mode), heap[t[1]])]
  }

  function SetOf(args: seq<nat>): set<nat> { set k | 0 <= k < |args| :: args[k] }

  lemma {:induction false} ArgsAre(cells: seq<Ptr>, args: seq<nat>)
    requires |args| < |cells| && cells[|args|] == Null
    requires forall k :: 0 <= k < |args| ==> cells[k] == At(args[k])
    ensures Args(cells) == args
    decreases |args|
  {
    if args != [] {
      ArgsAre(cells[1..], args[1..]);
    }
  }

  lemma {:induction false} SymbolIs(heap: map<nat, string>, args: seq<nat>, mode: char, p: nat)
    requires p <= |args| && forall k :: 0 <= k < p ==> Head(heap, args[k]) != mode
    requires p < |args| ==> Head(heap, args[p]) == mode
    ensures Symbol(heap, args, mode) == p
    decreases p
  {
    if p > 0 { SymbolIs(heap, args[1..], mode, p - 1); }
  }

  /** Cut acts on the first argument that begins with `mode`. */
  lemma {:induction false} SymbolIsFirst(heap: map<nat, string>, args: seq<nat>, mode: char)
    ensures var p := Symbol(heap, args, mode);
            && (p < |args| ==> Head(heap, args[p]) == mode)
            && forall k :: 0 <= k < p ==> Head(heap, args[k]) != mode
    decreases |args|
  {
    if args != [] && Head(heap, args[0]) != mode {
      SymbolIsFirst(heap, args[1..], mode);
      assert forall k :: 1 <= k < |args| ==> args[k] == args[1..][k - 1];
    }
  }

  /**
   * Redirection acts on the first argument that begins with `mode`, if a name follows: those two go, the others keep
   * their order, and the named file goes to descriptor 0 for `<` and 1 for `>`. Without such a pair nothing happens.
   */
  lemma CutMeans(heap: map<nat, string>, args: seq<nat>, mode: char) returns (p: nat)
    requires mode in {'<', '>'} && forall k :: 0 <= k < |args| ==> args[k] in heap
    ensures p <= |args|
    ensures forall k :: 0 <= k < p ==> heap[args[k]] == "" || heap[args[k]][0] != mode
    ensures p < |args| ==> heap[args[p]] != "" && heap[args[p]][0] == mode
    ensures p + 1 < |args| ==>
              && Cut(heap, args, mode) == args[..p] + args[p + 2..] && Trash(heap, args, mode) == [args[p], args[p + 1]]
              && Request(heap, args, mode) == [(if mode == '<' then 0 else 1, heap[args[p + 1]])]
    ensures p + 1 >= |args| ==>
              Cut(heap, args, mode) == args && Trash(heap, args, mode) == [] && Request(heap, args, mode) == []
  {
    p := Symbol(heap, args, mode);
    SymbolIsFirst(heap, args, mode);
    forall k | 0 <= k < |args|
      ensures Head(heap, args[k]) == mode <==> heap[args[k]] != "" && heap[args[k]][0] == mode
    {
      assert args[k] in heap;
    }
  }

  // ---------- the vector and the heap ----------

  class Argv {
    const cmd: array<Ptr>
    /** The strings that are allocated; free takes them out. */
    var heap: map<nat, string>
    /** The files opened so far, each with the descriptor it was put on. */
    var redirected: seq<(int, string)>
    var vectorFreed: bool

    constructor (cells: array<Ptr>, strings: map<nat, string>)
      ensures cmd == cells && heap == strings && redirected == [] && !vectorFreed
    {
      cmd, heap, redirected, vectorFreed := cells, strings, [], false;
    }

    /** Null-terminated, and its strings are allocated and pairwise distinct. */
    ghost predicate Valid()
      reads this, cmd
    {
      !vectorFreed && Terminated(cmd[..]) && Allocated(heap, Args(cmd[..]))
    }

    /** Freeing a string that is not allocated is an error the callers must exclude. */
    method Free(p: Ptr)
      requires p.At? && p.addr in heap
      modifies this`heap
      ensures heap == old(heap) - {p.addr}
    {
      heap := heap - {p.addr};
    }

    /** The index after the first argument that begins with `mode`; not found when the null comes first. */
    method FindSymbol(mode: char) returns (found: bool, i: nat)
      requires Valid()
      ensures found <==> Symbol(heap, Args(cmd[..]), mode) < |Args(cmd[..])|
      ensures found ==> i == Symbol(heap, Args(cmd[..]), mode) + 1
    {
      ghost var args := Args(cmd[..]);
      ArgsCells(cmd[..]);
      i := 0;
      while true
        invariant i <= |args| && forall k :: 0 <= k < i ==> Head(heap, args[k]) != mode
        decreases |args| - i
      {
        var tok := cmd[i];
        assert tok == cmd[..][i];
        i := i + 1;
        if tok == Null {
          SymbolIs(heap, args, mode, i - 1);
          return false, i;
        }
        assert tok == At(args[i - 1]);
        if FirstChar(heap[tok.addr]) == mode {
          SymbolIs(heap, args, mode, i - 1);
          return true, i;
        }
      }
    }

    /** Shifts everything behind the pair down by two cells, up to and including the null at `j`. */
    method ShiftDown(i: nat, j: nat)
      requires 1 <= i < j < cmd.Length
      modifies cmd
      ensures forall k :: 0 <= k < cmd.Length ==>
                cmd[k] == old(cmd[if i - 1 <= k < j - 1 then k + 2 else k])
    {
      for k := i - 1 to j - 1
        invariant forall m :: 0 <= m < cmd.Length ==>
                    cmd[m] == old(cmd[if i - 1 <= m < k then m + 2 else m])
      {
        cmd[k] := cmd[k + 2];
      }
    }

    /** Takes the pair before and at `i` out of the vector that ends at `j`, and frees its two strings. */
    method RemovePair(i: nat, j: nat)
      requires Valid() && 1 <= i < j == |Args(cmd[..])|
      modifies this`heap, cmd
      ensures Args(cmd[..]) == Without(old(Args(cmd[..])), i - 1) && Terminated(cmd[..])
      ensures heap == old(heap) - {old(Args(cmd[..]))[i - 1], old(Args(cmd[..]))[i]}
    {
      ghost var cells, args := cmd[..], Args(cmd[..]);
      ArgsCells(cells);
      assert cells[i - 1] == At(args[i - 1]) && cells[i] == At(args[i]);
      var trash1, trash2 := cmd[i - 1], cmd[i];
      ShiftDown(i, j);
      forall k | 0 <= k < j - 2 ensures cmd[..][k] == At(Without(args, i - 1)[k]) {
        assert cmd[k] == cells[if i - 1 <= k then k + 2 else k];
      }
      assert cmd[..][j - 2] == cells[j];
      ArgsAre(cmd[..], Without(args, i - 1));
      Free(trash1);
      Free(trash2);
    }

    /** The index of the terminating null, found by walking on from `i`. */
    method FindEnd(i: nat) returns (j: nat)
      requires Terminated(cmd[..]) && i < |Args(cmd[..])|
      ensures j == |Args(cmd[..])|
    {
      ghost var cells, args := cmd[..], Args(cmd[..]);
      ArgsCells(cells);
      j := i + 1;
      assert cmd[j] == cells[j];
      while cmd[j] != Null
        invariant i < j <= |args| && cmd[j] == cells[j]
        decreases |args| - j
      {
        j := j + 1;
        assert cmd[j] == cells[j];
      }
    }

    /** Opens the file and puts it on standard input for `<`, on standard output for `>`. */
    method RedirectFile(mode: char, file: Ptr)
      requires mode in {'<', '>'} && file.At? && file.addr in heap
      modifies this`redirected
      ensures redirected == old(redirected) + [(if mode == '<' then 0 else 1, heap[file.addr])]
    {
      var io := (mode as int / 2) % 2;
      redirected := redirected + [(io, heap[file.addr])];
    }

    method RedirectTo(mode: char)
      requires Valid() && mode in {'<', '>'}
      modifies this`heap, this`redirected, cmd
      ensures Valid()
      ensures Args(cmd[..]) == Cut(old(heap), old(Args(cmd[..])), mode)
      ensures heap == old(heap) - SetOf(Trash(old(heap), old(Args(cmd[..])), mode))
      ensures redirected == old(redirected) + Request(old(heap), old(Args(cmd[..])), mode)
      ensures forall k :: |old(redirected)| <= k < |redirected| ==>
                redirected[k].0 == if mode == '<' then 0 else 1
    {
      ghost var cells, args := cmd[..], Args(cmd[..]);
      ArgsCells(cells);
      CutAllocated(heap, args, mode);
      CutCases(heap, args, mode);
      var found, i := FindSymbol(mode);
      if !found {
        return;
      }
      assert cmd[i] == cells[i];
      if cmd[i] == Null {
        return;
      }
      assert cells[i] == At(args[i]);
      RedirectFile(mode, cmd[i]);
      var j := FindEnd(i);
      RemovePair(i, j);
    }

    method RedirectBoth()
      requires Valid()
      modifies this`heap, this`redirected, cmd
      ensures Valid()
      ensures Args(cmd[..]) == Cut(old(heap), Cut(old(heap), old(Args(cmd[..])), '<'), '>')
      ensures heap == old(heap) - SetOf(Gone(old(heap), old(Args(cmd[..]))))
      ensures redirected == old(redirected) + Request(old(heap), old(Args(cmd[..])), '<')
                            + Request(old(heap), Cut(old(heap), old(Args(cmd[..])), '<'), '>')
    {
      ghost var heap0, args0 := heap, Args(cmd[..]);
      RedirectTo('<');
      ghost var heap1, args1 := heap, Args(cmd[..]);
      CutAllocated(heap0, args0, '<');
      CutSame(heap0, heap1, args1, '>');
      TrashAllocated(heap1, args1, '>');
      RequestSame(heap0, heap1, args1, '>');
      RedirectTo('>');
      SetOfConcat(Trash(heap0, args0, '<'), Trash(heap0, args1, '>'));
      RemoveBoth(heap0, SetOf(Trash(heap0, args0, '<')), SetOf(Trash(heap0, args1, '>')));
    }

    /** FREE_UNTIL_NULL: every string of the vector, then the vector. */
    method FreeUntilNull()
      requires Valid()
      modifies this`heap, this`vectorFreed
      ensures heap == old(heap) - SetOf(Args(cmd[..])) && vectorFreed
    {
      ghost var args := Args(cmd[..]);
      ArgsCells(cmd[..]);
      var i := 0;
      assert cmd[..][0] == cmd[0];
      while cmd[i] != Null
        invariant i <= |args| && heap == old(heap) - SetOf(args[..i])
        decreases |args| - i
      {
        assert cmd[..][i] == cmd[i];
        Free(cmd[i]);
        assert SetOf(args[..i + 1]) == SetOf(args[..i]) + {args[i]};
        i := i + 1;
      }
      assert cmd[..][i] == cmd[i];
      assert args[..i] == args;
      vectorFreed := true;
    }

    /** redirect and, when exec fails, the clean-up: every string of the vector is freed, each exactly once. */
    method RedirectAndClean()
      requires Valid()
      modifies this`heap, this`redirected, this`vectorFreed, cmd
      ensures heap == old(heap) - SetOf(old(Args(cmd[..]))) && vectorFreed
    {
      ghost var heap0, args := heap, Args(cmd[..]);
      RedirectBoth();
      ghost var gone, left := SetOf(Gone(heap0, args)), SetOf(Args(cmd[..]));
      FreeUntilNull();
      GoneAndLeft(heap0, args);
      RemoveBoth(heap0, gone, left);
    }
  }

  /** The strings both redirections take away. */
  function Gone(heap: map<nat, string>, args: seq<nat>): seq<nat> {
    Trash(heap, args, '<') + Trash(heap, Cut(heap, args, '<'), '>')
  }

  lemma SetOfConcat(a: seq<nat>, b: seq<nat>)
    ensures SetOf(a + b) == SetOf(a) + SetOf(b)
  {
    var s := a + b;
    assert forall k :: 0 <= k < |a| ==> s[k] == a[k];
    assert forall k :: 0 <= k < |b| ==> s[|a| + k] == b[k];
  }

  lemma GoneAndLeft(heap: map<nat, string>, args: seq<nat>)
    ensures SetOf(args) == SetOf(Gone(heap, args)) + SetOf(Cut(heap, Cut(heap, args, '<'), '>'))
  {
    var mid := Cut(heap, args, '<');
    CutSet(heap, args, '<');
    CutSet(heap, mid, '>');
    SetOfConcat(Trash(heap, args, '<'), Trash(heap, mid, '>'));
  }

  /** Cutting looks only at the first characters of the arguments. */
  lemma CutSame(heap: map<nat, string>, other: map<nat, string>, args: seq<nat>, mode: char)
    requires forall k :: 0 <= k < |args| ==> Head(heap, args[k]) == Head(other, args[k])
    ensures Symbol(heap, args, mode) == Symbol(other, args, mode)
    ensures Cut(heap, args, mode) == Cut(other, args, mode) && Trash(heap, args, mode) == Trash(other, args, mode)
  {
    SymbolIsFirst(heap, args, mode);
    SymbolIs(other, args, mode, Symbol(heap, args, mode));
  }

  lemma TrashAllocated(heap: map<nat, string>, args: seq<nat>, mode: char)
    requires Allocated(heap, args)
    ensures forall k :: 0 <= k < |Trash(heap, args, mode)| ==> Trash(heap, args, mode)[k] in heap
  {
  }

  /** The file asked for is the same when strings outside the vector are gone. */
  lemma RequestSame(heap: map<nat, string>, other: map<nat, string>, args: seq<nat>, mode: char)
    requires Trash(heap, args, mode) == Trash(other, args, mode)
    requires forall k :: 0 <= k < |Trash(other, args, mode)| ==> Trash(other, args, mode)[k] in other
    requires other.Keys <= heap.Keys && forall a :: a in other ==> other[a] == heap[a]
    ensures Request(heap, args, mode) == Request(other, args, mode)
  {
  }

  lemma WithoutAllocated(heap: map<nat, string>, args: seq<nat>, p: nat)
    requires Allocated(heap, args) && p + 1 < |args|
    ensures Allocated(heap - {args[p], args[p + 1]}, Without(args, p))
  {
    var cut := Without(args, p);
    assert forall k :: 0 <= k < |cut| ==> cut[k] == args[if k < p then k else k + 2];
  }

  /** What stays in the vector is not among what is freed. */
  lemma {:induction false} CutAllocated(heap: map<nat, string>, args: seq<nat>, mode: char)
    requires Allocated(heap, args)
    ensures Allocated(heap - SetOf(Trash(heap, args, mode)), Cut(heap, args, mode))
  {
    var p := Symbol(heap, args, mode);
    TrashSet(heap, args, mode);
    if p + 1 < |args| {
      WithoutAllocated(heap, args, p);
    } else {
      assert heap - {} == heap;
    }
  }

  /** Everything that depends on whether there is a pair. */
  lemma CutCases(heap: map<nat, string>, args: seq<nat>, mode: char)
    requires Allocated(heap, args)
    ensures var p, t := Symbol(heap, args, mode), SetOf(Trash(heap, args, mode));
            if p + 1 < |args|
            then Cut(heap, args, mode) == Without(args, p) && t == {args[p], args[p + 1]}
                 && args[p + 1] in heap && Request(heap, args, mode) == [(Target(mode), heap[args[p + 1]])]
            else Cut(heap, args, mode) == args && t == {} && Request(heap, args, mode) == []
  {
    TrashSet(heap, args, mode);
  }

  lemma {:induction false} TrashSet(heap: map<nat, string>, args: seq<nat>, mode: char)
    ensures var p := Symbol(heap, args, mode);
            SetOf(Trash(heap, args, mode)) == if p + 1 < |args| then {args[p], args[p + 1]} else {}
  {
    var p := Symbol(heap, args, mode);
    if p + 1 < |args| {
      var t := [args[p], args[p + 1]];
      assert SetOf(t) == {t[0], t[1]};
    }
  }

  /** Cutting takes one stretch out of the middle. */
  lemma CutParts(heap: map<nat, string>, args: seq<nat>, mode: char) returns (a: seq<nat>, b: seq<nat>, c: seq<nat>)
    ensures args == a + b + c && Cut(heap, args, mode) == a + c && Trash(heap, args, mode) == b
  {
    var p := Symbol(heap, args, mode);
    if p + 1 < |args| {
      a, b, c := args[..p], [args[p], args[p + 1]], args[p + 2..];
    } else {
      a, b, c := args, [], [];
    }
  }

  /** Cutting loses no string and duplicates none: what stays and what is taken away split the arguments. */
  lemma CutSplits(heap: map<nat, string>, args: seq<nat>, mode: char)
    ensures multiset(args) == multiset(Cut(heap, args, mode)) + multiset(Trash(heap, args, mode))
  {
    var a, b, c := CutParts(heap, args, mode);
    MiddleOut(a, b, c);
  }

  lemma MiddleOut(a: seq<nat>, b: seq<nat>, c: seq<nat>)
    ensures multiset(a + b + c) == multiset(a + c) + multiset(b)
  {
  }

  lemma RemoveBoth(heap: map<nat, string>, a: set<nat>, b: set<nat>)
    ensures heap - a - b == heap - (a + b)
  {
  }

  lemma CutSet(heap: map<nat, string>, args: seq<nat>, mode: char)
    ensures SetOf(args) == SetOf(Cut(heap, args, mode)) + SetOf(Trash(heap, args, mode))
  {
    var a, b, c := CutParts(heap, args, mode);
    SetOfConcat(a + b, c);
    SetOfConcat(a, b);
    SetOfConcat(a, c);
  }
}
