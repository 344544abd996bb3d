/** The shell's parser: strtok over a private copy, commands split at `|`, arguments at white space. */
module Parser {

  // ---------- strtok ----------

  type Chars = set<char>

  function SkipAny(s: string, cs: Chars): (r: string)
    ensures |r| <= |s|
  {
    if s != "" && s[0] in cs then SkipAny(s[1..], cs) else s
  }

  /** The length of the longest prefix without any of `cs`. */
  function Span(s: string, cs: Chars): (n: nat)
    ensures n <= |s|
  {
    if s == "" || s[0] in cs then 0 else 1 + Span(s[1..], cs)
  }

  lemma {:induction false} SpanIs(s: string, cs: Chars, n: nat)
    requires n <= |s| && (n < |s| ==> s[n] in cs) && forall k :: 0 <= k < n ==> s[k] !in cs
    ensures Span(s, cs) == n
    decreases n
  {
    if n > 0 { SpanIs(s[1..], cs, n - 1); }
  }

  lemma {:induction false} SkipIs(s: string, cs: Chars, n: nat)
    requires n <= |s| && (n < |s| ==> s[n] !in cs) && forall k :: 0 <= k < n ==> s[k] in cs
    ensures SkipAny(s, cs) == s[n..]
    decreases n
  {
    if n > 0 { SkipIs(s[1..], cs, n - 1); }
  }

  /** What is left behind a token of length `n`: its delimiter is gone too. */
  function Behind(s: string, n: nat): string
    requires n <= |s|
  {
    if n < |s| then s[n + 1..] else ""
  }

  /** All tokens that repeated calls of strtok deliver. */
  function Tokens(s: string, cs: Chars): (toks: seq<string>)
    decreases |s|
  {
    var r := SkipAny(s, cs);
    if r == "" then [] else
      var n := Span(r, cs);
      [r[..n]] + Tokens(Behind(r, n), cs)
  }

  /** With `n` tokens delivered, the next one is at the front of what is left. */
  lemma TokensStep(s: string, cs: Chars, all: seq<string>, n: nat)
    requires n <= |all| && Tokens(s, cs) == all[n..]
    ensures var r := SkipAny(s, cs);
            if r == "" then n == |all|
            else n < |all| && r[..Span(r, cs)] == all[n] && Tokens(Behind(r, Span(r, cs)), cs) == all[n + 1..]
  {
  }

  datatype Slot = Null | Str(s: string)

  /** strtok's hidden state: the buffer it cuts, and where it goes on; `end` is the terminator it must not pass. */
  class Tokenizer {
    const buf: array<char>
    var save: nat
    ghost const end: nat

    /** strdup of the input, and the first strtok call's argument. */
    constructor (input: string)
      requires '\0' !in input
      ensures Valid() && Rest() == input && fresh(buf)
    {
      buf := new char[|input| + 1](k requires 0 <= k <= |input| => if k < |input| then input[k] else '\0');
      save := 0;
      end := |input|;
    }

    ghost predicate Valid()
      reads this, buf
    {
      save <= end < buf.Length && buf[end] == '\0' && forall k :: save <= k < end ==> buf[k] != '\0'
    }

    /** What has not been cut into tokens yet. */
    ghost function Rest(): string
      reads this, buf
      requires Valid()
    {
      buf[save..end]
    }

    /** The first position from `save` on that is not a delimiter. */
    method FindStart(delim: Chars) returns (start: nat)
      requires Valid() && '\0' !in delim
      ensures save <= start <= end && buf[start..end] == SkipAny(Rest(), delim)
    {
      start := save;
      while buf[start] in delim
        invariant save <= start <= end && forall k :: save <= k < start ==> buf[k] in delim
        decreases end - start
      {
        start := start + 1;
      }
      ghost var rest := Rest();
      assert start < end ==> rest[start - save] == buf[start];
      SkipIs(rest, delim, start - save);
    }

    /** The first position from `start` on that is a delimiter or the terminator. */
    method FindStop(start: nat, delim: Chars) returns (stop: nat)
      requires Valid() && save <= start <= end
      ensures start <= stop <= end && stop - start == Span(buf[start..end], delim)
    {
      stop := start;
      while buf[stop] != '\0' && buf[stop] !in delim
        invariant start <= stop <= end && forall k :: start <= k < stop ==> buf[k] !in delim
        decreases end - stop
      {
        stop := stop + 1;
      }
      SpanIs(buf[start..end], delim, stop - start);
    }

    /** Ends the token at `stop` and steps over its delimiter, if there is one. */
    method CutAt(start: nat, stop: nat)
      requires Valid() && save <= start <= stop <= end
      modifies this`save, buf
      ensures Valid() && Rest() == Behind(old(buf[start..end]), stop - start)
    {
      ghost var r := buf[start..end];
      if buf[stop] != '\0' {
        assert buf[stop + 1..end] == r[stop - start + 1..];
        buf[stop] := '\0';
        save := stop + 1;
      } else {
        save := stop;
      }
    }

    /** One call of strtok, the result already duplicated by the caller. */
    method Next(delim: Chars) returns (tok: Slot)
      requires Valid() && '\0' !in delim
      modifies this`save, buf
      ensures Valid()
      ensures var r := SkipAny(old(Rest()), delim);
              if r == "" then tok == Null && Rest() == ""
              else tok == Str(r[..Span(r, delim)]) && Rest() == Behind(r, Span(r, delim))
    {
      var start := FindStart(delim);
      if buf[start] == '\0' {
        save := start;
        return Null;
      }
      var stop := FindStop(start, delim);
      tok := Str(buf[start..stop]);
      assert buf[start..stop] == buf[start..end][..stop - start];
      CutAt(start, stop);
    }

    /** Calls of strtok deliver the tokens one by one. */
    method NextToken(delim: Chars, ghost all: seq<string>, ghost n: nat) returns (tok: Slot)
      requires Valid() && '\0' !in delim && n <= |all| && Tokens(Rest(), delim) == all[n..]
      modifies this`save, buf
      ensures Valid()
      ensures if n == |all| then tok == Null else tok == Str(all[n]) && Tokens(Rest(), delim) == all[n + 1..]
    {
      TokensStep(Rest(), delim, all, n);
      tok := Next(delim);
    }
  }

  // ---------- pipe_spliter ----------

  const PIPE: Chars := {'|'}
  const MAX_PIPE_NUM := 512

  /** The first `n` cells hold the first `n` tokens. */
  ghost predicate Filled(cells: seq<Slot>, toks: seq<string>, n: nat) {
    n <= |toks| && n <= |cells| && forall k :: 0 <= k < n ==> cells[k] == Str(toks[k])
  }

  lemma FilledMore(cells: seq<Slot>, toks: seq<string>, n: nat)
    requires Filled(cells, toks, n) && n < |toks| && n < |cells|
    ensures Filled(cells[n := Str(toks[n])], toks, n + 1)
  {
  }

  /** A null-terminated vector that holds exactly `toks`. */
  ghost predicate HoldsTokens(cells: seq<Slot>, toks: seq<string>) {
    |toks| < |cells| && cells[|toks|] == Null && forall k :: 0 <= k < |toks| ==> cells[k] == Str(toks[k])
  }

  /** A line has no command, and PipeSpliter no defined result, exactly when it is made of bars alone. */
  lemma {:induction false} NoCommand(line: string)
    ensures Tokens(line, {'|'}) == [] <==> forall k :: 0 <= k < |line| ==> line[k] == '|'
    decreases |line|
  {
    if line != "" && line[0] == '|' {
      NoCommand(line[1..]);
      assert forall k :: 1 <= k < |line| ==> line[k] == line[1..][k - 1];
    }
  }

  /** The source neither survives a line without commands nor one with more than fit its vector. */
  method PipeSpliter(input: string) returns (commands: array<Slot>)
    requires '\0' !in input && 1 <= |Tokens(input, PIPE)| < MAX_PIPE_NUM
    ensures fresh(commands) && commands.Length == MAX_PIPE_NUM
    ensures HoldsTokens(commands[..], Tokens(input, {'|'}))
  {
    commands := new Slot[MAX_PIPE_NUM];
    var copied := new Tokenizer(input);
    ghost var all := Tokens(input, PIPE);
    var cmd := copied.NextToken(PIPE, all, 0);
    var count := 0;
    while cmd != Null
      invariant copied.Valid() && fresh(copied) && fresh(copied.buf) && copied.buf as object != commands
      invariant count <= |all| && cmd == if count == |all| then Null else Str(all[count])
      invariant count < |all| ==> Tokens(copied.Rest(), PIPE) == all[count + 1..]
      invariant Filled(commands[..], all, count)
      decreases |all| - count
    {
      FilledMore(commands[..], all, count);
      commands[count] := cmd;
      count := count + 1;
      cmd := copied.NextToken(PIPE, all, count);
    }
    commands[count] := Null;
  }

  // ---------- getArgs ----------

  const DELIM: Chars := {' ', '\t', '\n'}
  /** What isspace accepts: the delimiters, vertical tab, form feed and carriage return. */
  const SPACE: Chars := {' ', '\t', '\n', '\U{B}', '\U{C}', '\r'}
  const ARGV_DEFAULT_SIZE := 512

  predicate Stops(tok: string) { tok != "" && tok[0] == '&' }

  /** The arguments before the first one that begins with `&`. */
  function BeforeAmpersand(toks: seq<string>): (args: seq<string>)
    ensures |args| <= |toks|
  {
    if toks == [] || Stops(toks[0]) then []
    else [toks[0]] + BeforeAmpersand(toks[1..])
  }

  /** `Blank` stands for the vector of one uninitialised string that a blank command gets. */
  datatype Argv = Blank | Args(args: seq<string>)

  /** The first token is taken as it is; the later ones up to one that begins with `&`. */
  function ArgsOf(command: string): Argv {
    var toks := Tokens(SkipAny(command, SPACE), DELIM);
    if toks == [] then Blank else Args([toks[0]] + BeforeAmpersand(toks[1..]))
  }

  /** Delimiters are white space, so the text behind leading white space is blank or begins with a token. */
  lemma {:induction false} SkippedHasToken(s: string)
    ensures var r := SkipAny(s, SPACE); Tokens(r, DELIM) == [] <==> r == ""
    decreases |s|
  {
    if s != "" && s[0] in SPACE { SkippedHasToken(s[1..]); }
  }

  /** Growing the vector is not modelled: the arguments and the null must fit its first size. */
  method GetArgs(command: string) returns (blank: bool, argv: array<Slot>)
    requires '\0' !in command
    requires ArgsOf(command).Args? ==> |ArgsOf(command).args| < ARGV_DEFAULT_SIZE
    ensures fresh(argv) && (blank <==> ArgsOf(command).Blank?)
    ensures !blank ==> HoldsTokens(argv[..], ArgsOf(command).args)
  {
    var rest := command;
    while rest != "" && rest[0] in SPACE
      invariant SkipAny(rest, SPACE) == SkipAny(command, SPACE) && '\0' !in rest
      decreases |rest|
    {
      rest := rest[1..];
    }
    SkippedHasToken(command);
    if rest == "" {
      argv := new Slot[2];
      argv[1] := Null;
      blank := true;
    } else {
      argv := CollectArgs(rest, Tokens(rest, DELIM));
      blank := false;
    }
  }

  /** The do loop of getArgs, over a copy of what is left of the command. */
  method CollectArgs(rest: string, ghost all: seq<string>) returns (argv: array<Slot>)
    requires '\0' !in rest && Tokens(rest, DELIM) == all && 1 <= |all|
    requires 1 + |BeforeAmpersand(all[1..])| < ARGV_DEFAULT_SIZE
    ensures fresh(argv) && HoldsTokens(argv[..], [all[0]] + BeforeAmpersand(all[1..]))
  {
    argv := new Slot[ARGV_DEFAULT_SIZE];
    var local := new Tokenizer(rest);
    var tok := local.NextToken(DELIM, all, 0);
    argv[0] := tok;
    var count := CollectRest(local, argv, all);
    ArgsCollected(all, count);
    argv[count] := Null;
  }

  lemma ArgsCollected(all: seq<string>, count: nat)
    requires 1 <= count <= |all| && (count < |all| ==> Stops(all[count]))
    requires forall k :: 1 <= k < count ==> !Stops(all[k])
    ensures [all[0]] + BeforeAmpersand(all[1..]) == all[..count]
  {
    BeforeAmpersandIs(all[1..], count - 1);
    assert all[..count] == [all[0]] + all[1..][..count - 1];
  }

  /** All rounds of the loop but the first: stores tokens until there are no more or one begins with `&`. */
  method CollectRest(local: Tokenizer, argv: array<Slot>, ghost all: seq<string>) returns (count: nat)
    requires local.Valid() && 1 <= |all| && 1 + |BeforeAmpersand(all[1..])| < argv.Length
    requires Tokens(local.Rest(), DELIM) == all[1..] && argv[0] == Str(all[0])
    modifies local, local.buf, argv
    ensures 1 <= count <= |all| && (count < |all| ==> Stops(all[count]))
    ensures forall k :: 1 <= k < count ==> !Stops(all[k])
    ensures Filled(argv[..], all, count)
  {
    count := 1;
    var tok := local.NextToken(DELIM, all, 1);
    while tok != Null && !Stops(tok.s)
      invariant local.Valid()
      invariant 1 <= count <= |all| && tok == if count == |all| then Null else Str(all[count])
      invariant count < |all| ==> Tokens(local.Rest(), DELIM) == all[count + 1..]
      invariant Filled(argv[..], all, count)
      invariant forall k :: 1 <= k < count ==> !Stops(all[k])
      decreases |all| - count
    {
      BeforeAmpersandAtLeast(all[1..], count);
      FilledMore(argv[..], all, count);
      argv[count] := tok;
      count := count + 1;
      tok := local.NextToken(DELIM, all, count);
    }
  }

  lemma {:induction false} BeforeAmpersandAtLeast(toks: seq<string>, n: nat)
    requires n <= |toks| && forall k :: 0 <= k < n ==> !Stops(toks[k])
    ensures |BeforeAmpersand(toks)| >= n
    decreases n
  {
    if n > 0 { BeforeAmpersandAtLeast(toks[1..], n - 1); }
  }

  lemma {:induction false} BeforeAmpersandIs(toks: seq<string>, n: nat)
    requires n <= |toks| && (n < |toks| ==> Stops(toks[n])) && forall k :: 0 <= k < n ==> !Stops(toks[k])
    ensures BeforeAmpersand(toks) == toks[..n]
    decreases n
  {
    if n > 0 {
      BeforeAmpersandIs(toks[1..], n - 1);
      assert toks[..n] == [toks[0]] + toks[1..][..n - 1];
    }
  }

  // ---------- printing and parsing ----------

  function Join(parts: seq<string>, sep: char): string {
    if parts == [] then "" else if |parts| == 1 then parts[0] else parts[0] + [sep] + Join(parts[1..], sep)
  }

  ghost predicate FreeOf(s: string, cs: Chars) { forall k :: 0 <= k < |s| ==> s[k] !in cs }

  /** A token at the front of a text, with a delimiter or nothing behind it, is the next one to be delivered. */
  lemma FirstToken(w: string, rest: string, cs: Chars)
    requires w != "" && FreeOf(w, cs) && (rest != "" ==> rest[0] in cs)
    ensures Tokens(w + rest, cs) == [w] + Tokens(if rest == "" then "" else rest[1..], cs)
  {
    var s := w + rest;
    assert s[0] == w[0];
    forall k | 0 <= k < |w| ensures s[k] !in cs { assert s[k] == w[k]; }
    assert |w| < |s| ==> s[|w|] == rest[0];
    SpanIs(s, cs, |w|);
    assert s[..|w|] == w;
    assert rest != "" ==> s[|w| + 1..] == rest[1..];
  }

  lemma JoinedToken(w: string, rest: string, sep: char, cs: Chars)
    requires sep in cs && w != "" && FreeOf(w, cs)
    ensures Tokens(w + [sep] + rest, cs) == [w] + Tokens(rest, cs)
  {
    var tail := [sep] + rest;
    assert tail[0] == sep && tail[1..] == rest && w + [sep] + rest == w + tail;
    FirstToken(w, tail, cs);
  }

  /** strtok undoes a join: the tokens of joined parts are the parts. */
  lemma {:induction false} TokensOfJoin(parts: seq<string>, sep: char, cs: Chars)
    requires sep in cs && forall k :: 0 <= k < |parts| ==> parts[k] != "" && FreeOf(parts[k], cs)
    ensures Tokens(Join(parts, sep), cs) == parts
    decreases |parts|
  {
    if |parts| == 1 {
      assert parts[0] + "" == parts[0];
      FirstToken(parts[0], "", cs);
      assert Tokens("", cs) == [];
    } else if |parts| > 1 {
      TokensOfJoin(parts[1..], sep, cs);
      JoinedToken(parts[0], Join(parts[1..], sep), sep, cs);
      assert parts == [parts[0]] + parts[1..];
    }
  }

  /** One or more non-empty words without delimiters, bars or terminators. */
  ghost predicate Words(words: seq<string>) {
    words != [] && forall k {:trigger words[k]} :: 0 <= k < |words| ==>
                     words[k] != "" && FreeOf(words[k], DELIM + PIPE + {'\0'})
  }

  /** No word but the first begins with `&`, and the first does not begin with white space. */
  predicate Plain(words: seq<string>) {
    && words != []
    && (words[0] != "" ==> words[0][0] !in SPACE)
    && forall k :: 1 <= k < |words| ==> !Stops(words[k])
  }

  lemma {:induction false} BeforeAmpersandAll(toks: seq<string>)
    ensures BeforeAmpersand(toks) == toks <==> forall k :: 0 <= k < |toks| ==> !Stops(toks[k])
    decreases |toks|
  {
    if toks != [] {
      BeforeAmpersandAll(toks[1..]);
      if !Stops(toks[0]) {
        assert BeforeAmpersand(toks) == [toks[0]] + BeforeAmpersand(toks[1..]);
        assert toks == [toks[0]] + toks[1..];
        assert forall k :: 1 <= k < |toks| ==> toks[k] == toks[1..][k - 1];
      }
    }
  }

  lemma JoinHead(words: seq<string>)
    requires Words(words)
    ensures Join(words, ' ') != "" && Join(words, ' ')[0] == words[0][0]
    ensures words[0][0] !in SPACE ==> SkipAny(Join(words, ' '), SPACE) == Join(words, ' ')
  {
  }

  /** Stripping white space from the front leaves a shorter first token or fewer tokens. */
  lemma {:induction false} StrippedDiffers(words: seq<string>)
    requires Words(words)
    ensures var toks := Tokens(SkipAny(Join(words, ' '), SPACE), DELIM);
            && |toks| <= |words|
            && (words[0][0] in SPACE ==> |toks| < |words| || |toks[0]| < |words[0]|)
    decreases |words|
  {
    assert words[0] != "" && FreeOf(words[0], DELIM);
    var w := words[0];
    var line := Join(words, ' ');
    var rest := if |words| == 1 then "" else [' '] + Join(words[1..], ' ');
    assert line == w + rest;
    var v := SkipAny(w, SPACE);
    SkipConcat(w, rest, SPACE);
    if v != "" {
      SkipLeaves(w, SPACE);
      assert FreeOf(v, DELIM);
      FirstToken(v, rest, DELIM);
      if |words| > 1 {
        assert rest[1..] == Join(words[1..], ' ');
        TokensOfJoin(words[1..], ' ', DELIM);
      } else {
        assert Tokens("", DELIM) == [];
      }
    } else if |words| > 1 {
      assert Words(words[1..]);
      StrippedDiffers(words[1..]);
      assert rest[1..] == Join(words[1..], ' ');
    } else {
      assert Tokens("", DELIM) == [];
    }
  }

  lemma {:induction false} SkipConcat(w: string, rest: string, cs: Chars)
    ensures SkipAny(w + rest, cs) == if SkipAny(w, cs) == "" then SkipAny(rest, cs) else SkipAny(w, cs) + rest
    decreases |w|
  {
    if w == "" {
      assert w + rest == rest;
    } else if w[0] in cs {
      assert (w + rest)[1..] == w[1..] + rest;
      SkipConcat(w[1..], rest, cs);
    }
  }

  /** Skipping leaves a suffix, shorter when there was something to skip. */
  lemma {:induction false} SkipLeaves(w: string, cs: Chars)
    ensures var v := SkipAny(w, cs);
            && v == w[|w| - |v|..]
            && (w != "" && w[0] in cs ==> |v| < |w|)
            && (v != "" ==> v[0] !in cs)
    decreases |w|
  {
    if w != "" && w[0] in cs { SkipLeaves(w[1..], cs); }
  }

  /** getArgs undoes the printing of a command exactly when the command is plain. */
  lemma ArgsRoundTrip(words: seq<string>)
    requires Words(words)
    ensures ArgsOf(Join(words, ' ')) == Args(words) <==> Plain(words)
  {
    JoinHead(words);
    var toks := Tokens(SkipAny(Join(words, ' '), SPACE), DELIM);
    if words[0][0] in SPACE {
      StrippedDiffers(words);
    } else {
      forall k | 0 <= k < |words| ensures words[k] != "" && FreeOf(words[k], DELIM) { assert words[k] != ""; }
      TokensOfJoin(words, ' ', DELIM);
      BeforeAmpersandAll(words[1..]);
      assert words == [words[0]] + words[1..];
      assert forall k :: 1 <= k < |words| ==> words[k] == words[1..][k - 1];
    }
  }

  lemma LaterAmpersand(words: seq<string>, k: nat)
    requires Words(words) && 1 <= k < |words| && Stops(words[k])
    ensures ArgsOf(Join(words, ' ')) != Args(words)
  {
    ArgsRoundTrip(words);
  }

  /** A command that does not come back: its second word begins with `&`. */
  lemma AmpersandLost()
    ensures Words(["a", "&"]) && ArgsOf(Join(["a", "&"], ' ')) != Args(["a", "&"])
  {
    LaterAmpersand(["a", "&"], 1);
  }

  // ---------- what strtok and getArgs make of any text ----------

  /** Texts and gaps by turns, a gap first and last. */
  function Interleave(gaps: seq<string>, toks: seq<string>): string
    requires |gaps| == |toks| + 1
  {
    if toks == [] then gaps[0] else gaps[0] + toks[0] + Interleave(gaps[1..], toks[1..])
  }

  ghost predicate Only(s: string, cs: Chars) { forall k :: 0 <= k < |s| ==> s[k] in cs }

  /** Gaps of delimiters only, none of the inner ones empty, and non-empty tokens without delimiters. */
  ghost predicate Apart(gaps: seq<string>, toks: seq<string>, cs: Chars) {
    && |gaps| == |toks| + 1
    && (forall k {:trigger gaps[k]} :: 0 <= k < |gaps| ==> Only(gaps[k], cs))
    && (forall k {:trigger gaps[k]} :: 1 <= k < |toks| ==> gaps[k] != "")
    && (forall k {:trigger toks[k]} :: 0 <= k < |toks| ==> toks[k] != "" && FreeOf(toks[k], cs))
  }

  lemma GapSkipped(gap: string, rest: string, cs: Chars)
    requires Only(gap, cs)
    ensures SkipAny(gap + rest, cs) == SkipAny(rest, cs) && Tokens(gap + rest, cs) == Tokens(rest, cs)
  {
    SkipIs(gap, cs, |gap|);
    assert gap[|gap|..] == "";
    SkipConcat(gap, rest, cs);
  }

  lemma ApartRest(gaps: seq<string>, toks: seq<string>, cs: Chars)
    requires Apart(gaps, toks, cs) && toks != []
    ensures Apart(gaps[1..], toks[1..], cs)
  {
  }

  lemma Assoc(a: string, b: string, c: string)
    ensures (a + b) + c == a + (b + c)
  {
  }

  lemma InterleaveFirst(g: string, gaps: seq<string>, toks: seq<string>)
    requires |gaps| == |toks|
    ensures Interleave([g] + gaps, toks) == g + Interleave([""] + gaps, toks)
  {
    if toks != [] {
      var rest := Interleave(gaps, toks[1..]);
      assert ([g] + gaps)[1..] == gaps && ([""] + gaps)[1..] == gaps;
      assert "" + toks[0] == toks[0];
      Assoc(g, toks[0], rest);
    } else {
      assert g + "" == g;
    }
  }

  /** strtok finds exactly the tokens, whatever delimiters there are before, between and behind them. */
  lemma {:induction false} TokensExact(gaps: seq<string>, toks: seq<string>, cs: Chars)
    requires Apart(gaps, toks, cs)
    ensures Tokens(Interleave(gaps, toks), cs) == toks
    decreases |toks|
  {
    var text := Interleave(gaps, toks);
    assert Only(gaps[0], cs);
    if toks == [] {
      assert gaps[0] + "" == gaps[0];
      GapSkipped(gaps[0], "", cs);
      assert Tokens("", cs) == [];
    } else {
      var w, rest := toks[0], Interleave(gaps[1..], toks[1..]);
      assert text == gaps[0] + (w + rest);
      GapSkipped(gaps[0], w + rest, cs);
      ApartRest(gaps, toks, cs);
      TokensExact(gaps[1..], toks[1..], cs);
      RestStarts(gaps[1..], toks[1..], cs);
      FirstToken(w, rest, cs);
      if rest != "" {
        assert [rest[0]] + rest[1..] == rest;
        GapSkipped([rest[0]], rest[1..], cs);
      }
      assert toks == [w] + toks[1..];
    }
  }

  /** Behind a token comes a delimiter or nothing. */
  lemma RestStarts(gaps: seq<string>, toks: seq<string>, cs: Chars)
    requires Apart(gaps, toks, cs) && (toks != [] ==> gaps[0] != "")
    ensures var rest := Interleave(gaps, toks); rest != "" ==> rest[0] in cs
  {
    assert Only(gaps[0], cs);
  }

  /** One more token in front, with a delimiter behind it. */
  lemma MoreApart(gap: string, w: string, d: char, more: seq<string>, toks: seq<string>, cs: Chars)
    requires Only(gap, cs) && w != "" && FreeOf(w, cs) && d in cs && Apart(more, toks, cs)
    ensures Apart([gap, [d] + more[0]] + more[1..], [w] + toks, cs)
  {
    assert Only(more[0], cs);
    var gaps := [gap, [d] + more[0]] + more[1..];
    assert forall k :: 2 <= k < |gaps| ==> gaps[k] == more[k - 1];
    assert forall k :: 1 <= k <= |toks| ==> ([w] + toks)[k] == toks[k - 1];
  }

  lemma MoreText(gap: string, w: string, d: char, more: seq<string>, toks: seq<string>)
    requires |more| == |toks| + 1
    ensures Interleave([gap, [d] + more[0]] + more[1..], [w] + toks) == gap + w + ([d] + Interleave(more, toks))
  {
    var first := [d] + more[0];
    var gaps := [gap, first] + more[1..];
    assert gaps[1..] == [first] + more[1..] && ([w] + toks)[1..] == toks;
    var tail := Interleave([""] + more[1..], toks);
    FrontGap(first, more[1..], toks, tail);
    FrontGap(more[0], more[1..], toks, tail);
    assert more == [more[0]] + more[1..];
    Assoc([d], more[0], tail);
  }

  lemma FrontGap(g: string, gaps: seq<string>, toks: seq<string>, tail: string)
    requires |gaps| == |toks| && tail == Interleave([""] + gaps, toks)
    ensures Interleave([g] + gaps, toks) == g + tail
  {
    InterleaveFirst(g, gaps, toks);
  }

  lemma TokensUnfold(s: string, cs: Chars)
    ensures var r := SkipAny(s, cs);
            Tokens(s, cs) == if r == "" then [] else [r[..Span(r, cs)]] + Tokens(Behind(r, Span(r, cs)), cs)
  {
  }

  lemma NoToken(gap: string, cs: Chars)
    requires Only(gap, cs)
    ensures Apart([gap], [], cs) && Interleave([gap], []) == gap
  {
  }

  lemma LastToken(gap: string, w: string, cs: Chars)
    requires Only(gap, cs) && w != "" && FreeOf(w, cs)
    ensures Apart([gap, ""], [w], cs) && Interleave([gap, ""], [w]) == gap + w
  {
    assert [gap, ""][1..] == [""] && [w][1..] == [];
    assert gap + w + "" == gap + w;
  }

  /** Every text is tokens and gaps by turns. */
  lemma {:induction false} TokensApart(s: string, cs: Chars) returns (gaps: seq<string>)
    ensures Apart(gaps, Tokens(s, cs), cs) && s == Interleave(gaps, Tokens(s, cs))
    decreases |s|, 1
  {
    var r := SkipAny(s, cs);
    SkipLeaves(s, cs);
    var gap := s[..|s| - |r|];
    SkippedAre(s, cs);
    assert s == gap + r;
    TokensUnfold(s, cs);
    if r == "" {
      NoToken(gap, cs);
      gaps := [gap];
    } else {
      gaps := TokenApart(gap, r, cs);
    }
  }

  /** The case where a token comes next. */
  lemma {:induction false} TokenApart(gap: string, r: string, cs: Chars) returns (gaps: seq<string>)
    requires Only(gap, cs) && r != "" && r[0] !in cs
    ensures var toks := [r[..Span(r, cs)]] + Tokens(Behind(r, Span(r, cs)), cs);
            Apart(gaps, toks, cs) && gap + r == Interleave(gaps, toks)
    decreases |r|, 0
  {
    var n := Span(r, cs);
    SpanMeans(r, cs);
    var w, toks := r[..n], Tokens(Behind(r, n), cs);
    if n == |r| {
      TokensUnfold("", cs);
      LastToken(gap, w, cs);
      gaps := [gap, ""];
      assert [w] + [] == [w];
    } else {
      var more := TokensApart(r[n + 1..], cs);
      gaps := [gap, [r[n]] + more[0]] + more[1..];
      MoreApart(gap, w, r[n], more, toks, cs);
      MoreText(gap, w, r[n], more, toks);
      assert r == w + ([r[n]] + r[n + 1..]);
      Assoc(gap, w, [r[n]] + r[n + 1..]);
    }
  }

  /** What is skipped are delimiters. */
  lemma {:induction false} SkippedAre(s: string, cs: Chars)
    ensures Only(s[..|s| - |SkipAny(s, cs)|], cs)
    decreases |s|
  {
    if s != "" && s[0] in cs {
      SkippedAre(s[1..], cs);
      var n := |s| - |SkipAny(s, cs)|;
      assert s[..n] == [s[0]] + s[1..][..n - 1];
    }
  }

  lemma {:induction false} SpanMeans(s: string, cs: Chars)
    ensures var n := Span(s, cs); FreeOf(s[..n], cs) && (n < |s| ==> s[n] in cs) && (s != "" && s[0] !in cs ==> n > 0)
    decreases |s|
  {
    if s != "" && s[0] !in cs {
      SpanMeans(s[1..], cs);
      var n := Span(s, cs);
      assert s[..n] == [s[0]] + s[1..][..n - 1];
    }
  }

  /**
   * getArgs on any command that is not blank: after leading white space, words apart by blanks, tabs and newlines; the
   * arguments are the first word and the later ones up to one that begins with `&`, whatever follows it.
   */
  lemma ArgsExact(lead: string, gaps: seq<string>, words: seq<string>, n: nat)
    requires Only(lead, {' ', '\t', '\n', '\U{B}', '\U{C}', '\r'}) && Apart(gaps, words, {' ', '\t', '\n'})
    requires words != [] && gaps[0] == "" && words[0][0] !in {'\U{B}', '\U{C}', '\r'}
    requires 1 <= n <= |words| && (forall k :: 1 <= k < n ==> words[k] != "" && words[k][0] != '&')
    requires n < |words| ==> words[n] != "" && words[n][0] == '&'
    ensures ArgsOf(lead + Interleave(gaps, words)) == Args(words[..n])
  {
    var text := Interleave(gaps, words);
    assert words[0] != "" && FreeOf(words[0], DELIM);
    assert text[0] == words[0][0];
    SkipIs(text, SPACE, 0);
    GapSkipped(lead, text, SPACE);
    assert text[0..] == text;
    TokensExact(gaps, words, DELIM);
    BeforeAmpersandIs(words[1..], n - 1);
    assert words[..n] == [words[0]] + words[1..][..n - 1];
  }

  /** A command is blank exactly when it is white space only. */
  lemma BlankExact(command: string)
    ensures ArgsOf(command).Blank? <==> Only(command, {' ', '\t', '\n', '\U{B}', '\U{C}', '\r'})
  {
    SkippedHasToken(command);
    SkippedAre(command, SPACE);
    SkipLeaves(command, SPACE);
    var rest := SkipAny(command, SPACE);
    if rest == "" {
      assert command[..|command|] == command;
    } else {
      assert rest[0] == command[|command| - |rest|];
    }
  }

  /** Every command of a line, parsed. */
  function ParseLine(line: string): (cmds: seq<Argv>)
    ensures |cmds| == |Tokens(line, PIPE)|
  {
    var parts := Tokens(line, PIPE);
    seq(|parts|, k requires 0 <= k < |parts| => ArgsOf(parts[k]))
  }

  function Printed(cmds: seq<seq<string>>): (parts: seq<string>)
    ensures |parts| == |cmds| && forall k :: 0 <= k < |cmds| ==> parts[k] == Join(cmds[k], ' ')
  {
    seq(|cmds|, k requires 0 <= k < |cmds| => Join(cmds[k], ' '))
  }

  lemma {:induction false} JoinFree(words: seq<string>, cs: Chars)
    requires ' ' !in cs && forall k :: 0 <= k < |words| ==> FreeOf(words[k], cs)
    ensures FreeOf(Join(words, ' '), cs)
    decreases |words|
  {
    if |words| > 1 { JoinFree(words[1..], cs); }
  }

  /** Printing a pipeline and parsing it gives the pipeline back, for exactly those whose commands are all plain. */
  lemma LineRoundTrip(cmds: seq<seq<string>>)
    requires forall k :: 0 <= k < |cmds| ==> Words(cmds[k])
    ensures var got := ParseLine(Join(Printed(cmds), '|'));
            && |got| == |cmds|
            && forall k :: 0 <= k < |cmds| ==> (got[k] == Args(cmds[k]) <==> Plain(cmds[k]))
  {
    var parts := Printed(cmds);
    forall k | 0 <= k < |cmds| ensures parts[k] != "" && FreeOf(parts[k], PIPE) {
      JoinHead(cmds[k]);
      forall i | 0 <= i < |cmds[k]| ensures FreeOf(cmds[k][i], PIPE) { assert cmds[k][i] != ""; }
      JoinFree(cmds[k], PIPE);
    }
    TokensOfJoin(parts, '|', PIPE);
    forall k | 0 <= k < |cmds| ensures ArgsOf(parts[k]) == Args(cmds[k]) <==> Plain(cmds[k]) {
      ArgsRoundTrip(cmds[k]);
    }
  }

  /** The number of commands before the terminating null. */
  method CmdNum(commands: array<Slot>, ghost cmds: seq<string>) returns (num: nat)
    requires HoldsTokens(commands[..], cmds)
    ensures num == |cmds|
  {
    ghost var cells := commands[..];
    num := 0;
    assert commands[0] == cells[0];
    while commands[num] != Null
      invariant num <= |cmds| && commands[num] == cells[num]
      decreases |cmds| - num
    {
      num := num + 1;
      assert commands[num] == cells[num];
    }
  }
}
