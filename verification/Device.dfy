/** The character device: exclusive open, a message made at each open, and chunked reads of it. */
module Device {

  const BUF_LEN := 80

  // ---------- the message ----------

  function Decimal(n: nat): (s: string)
    ensures |s| >= 1 && '\0' !in s
  {
    if n < 10 then ["0123456789"[n]] else Decimal(n / 10) + ["0123456789"[n % 10]]
  }

  function Power10(k: nat): nat { if k == 0 then 1 else 10 * Power10(k - 1) }

  lemma {:induction false} DecimalLength(n: nat, k: nat)
    requires k >= 1 && n < Power10(k)
    ensures |Decimal(n)| <= k
    decreases k
  {
    if n >= 10 {
      assert Power10(0) == 1;
      DecimalLength(n / 10, k - 1);
    }
  }

  /** What sprintf makes of the open counter. */
  function Message(counter: nat): (s: string)
    ensures '\0' !in s && s != ""
  {
    "I already told you " + Decimal(counter) + " times Hello world!\n"
  }

  /** A counter of the width of C's int always fits the buffer, with its terminator. */
  lemma MessageFits(counter: nat)
    requires counter < 0x8000_0000
    ensures |Message(counter)| < BUF_LEN
  {
    assert Power10(10) == 10 * Power10(9) == 100 * Power10(8) == 1000 * Power10(7) == 10000 * Power10(6);
    assert Power10(6) == 10 * Power10(5) == 100 * Power10(4) == 1000 * Power10(3) == 10000 * Power10(2);
    assert Power10(2) == 100;
    DecimalLength(counter, 10);
  }

  predicate IsDigit(c: char) { '0' <= c <= '9' }

  /** The number that a string of decimal digits stands for. */
  function Value(s: string): int {
    if s == "" then 0 else 10 * Value(s[..|s| - 1]) + (s[|s| - 1] as int - '0' as int)
  }

  lemma LastDigit(k: nat)
    requires k < 10
    ensures "0123456789"[k] as int == '0' as int + k
  {
  }

  /** Reading the digits back gives the number, and there is no leading zero. */
  lemma {:induction false} DecimalReads(n: nat)
    ensures var d := Decimal(n);
            && Value(d) == n && (forall k :: 0 <= k < |d| ==> IsDigit(d[k]))
            && (d[0] == '0' ==> n == 0)
    decreases n
  {
    var d := Decimal(n);
    LastDigit(n % 10);
    if n < 10 {
      assert d[..0] == "" && Value("") == 0;
    } else {
      DecimalReads(n / 10);
      assert d[..|d| - 1] == Decimal(n / 10);
    }
  }

  /** The message counts the opens before it, in decimal digits without leading zeros. */
  lemma MessageIs(counter: nat) returns (digits: string)
    ensures Message(counter) == "I already told you " + digits + " times Hello world!\n"
    ensures digits != "" && (forall k :: 0 <= k < |digits| ==> '0' <= digits[k] <= '9')
    ensures Value(digits) == counter && (digits[0] == '0' ==> counter == 0 && |digits| == 1)
  {
    digits := Decimal(counter);
    DecimalReads(counter);
  }

  // ---------- one read ----------

  /** A zero-terminated string at the start of a buffer. */
  ghost predicate HoldsText(buf: seq<char>, text: string) {
    |text| < |buf| && buf[..|text|] == text && buf[|text|] == '\0' && '\0' !in text
  }

  /** What a read of at most `length` characters at `offset` delivers, and the new offset. */
  function ReadAt(text: string, offset: nat, length: nat): (string, nat)
    requires offset <= |text|
  {
    if offset == |text| then ("", 0)
    else
      var end := if offset + length <= |text| then offset + length else |text|;
      (text[offset..end], end)
  }

  class File {
    var offset: nat
    constructor () ensures offset == 0 { offset := 0; }
  }

  class Driver {
    const msg: array<char>
    var alreadyOpen: bool
    var counter: nat

    constructor ()
      ensures fresh(msg) && msg.Length == BUF_LEN && !alreadyOpen && counter == 0
    {
      msg, alreadyOpen, counter := new char[BUF_LEN](_ => '\0'), false, 0;
    }

    /** Yields false (EBUSY) and changes nothing when the device is open. */
    method Open() returns (ok: bool)
      requires msg.Length == BUF_LEN && counter < 0x7FFF_FFFF
      modifies this, msg
      ensures ok == !old(alreadyOpen) && alreadyOpen
      ensures ok ==> counter == old(counter) + 1 && HoldsText(msg[..], Message(old(counter)))
      ensures !ok ==> counter == old(counter) && msg[..] == old(msg[..])
    {
      if alreadyOpen {
        return false;
      }
      alreadyOpen := true;
      var text := Message(counter);
      MessageFits(counter);
      for k := 0 to |text|
        invariant alreadyOpen && counter == old(counter) && msg[..k] == text[..k]
      {
        msg[k] := text[k];
      }
      msg[|text|] := '\0';
      counter := counter + 1;
      return true;
    }

    method Release()
      modifies this`alreadyOpen
      ensures !alreadyOpen
    {
      alreadyOpen := false;
    }

    /** Copies one character at a time until `length` or the terminator is reached. */
    method Read(file: File, length: nat, ghost text: string) returns (buffer: string)
      requires HoldsText(msg[..], text) && file.offset <= |text|
      modifies file
      ensures (buffer, file.offset) == ReadAt(text, old(file.offset), length)
      ensures old(file.offset) == |text| ==> buffer == "" && file.offset == 0
      ensures old(file.offset) < |text| ==>
                && |buffer| == (if length <= |text| - old(file.offset) then length else |text| - old(file.offset))
                && buffer == text[old(file.offset)..old(file.offset) + |buffer|]
                && file.offset == old(file.offset) + |buffer|
    {
      assert forall k :: 0 <= k < |text| ==> msg[k] == text[k];
      buffer := "";
      if msg[file.offset] == '\0' {
        file.offset := 0;
        return;
      }
      var ptr, left := file.offset, length;
      while left > 0 && msg[ptr] != '\0'
        invariant file.offset <= ptr <= |text| && ptr - file.offset == |buffer| == length - left
        invariant buffer == text[file.offset..ptr]
        decreases left
      {
        buffer := buffer + [msg[ptr]];
        ptr := ptr + 1;
        left := left - 1;
      }
      file.offset := file.offset + |buffer|;
    }
  }

  // ---------- all processes ----------

  /**
   * An open file: its offset, the message made for it, what its reads have delivered so far,
   * and how many of them were made at the end of the message.
   */
  datatype Session = Session(offset: nat, text: string, data: string, ends: nat)

  /** `sessions` are the files open on the device; `text` is what its buffer holds. */
  datatype State = State(alreadyOpen: bool, counter: nat, text: string, sessions: map<nat, Session>)

  /** Process `p` opens, which it may try at any time, or reads or releases its open file. */
  datatype Action = DoOpen(p: nat) | DoRead(p: nat, length: nat) | DoRelease(p: nat)

  predicate Enabled(s: State, a: Action) {
    match a
    case DoOpen(_) => true
    case DoRead(p, _) => p in s.sessions && s.sessions[p].offset <= |s.text|
    case DoRelease(p) => p in s.sessions
  }

  function Step(s: State, a: Action): State
    requires Enabled(s, a)
  {
    match a
    case DoOpen(p) =>
      if s.alreadyOpen then s
      else State(true, s.counter + 1, Message(s.counter),
                 s.sessions[p := Session(0, Message(s.counter), "", 0)])
    case DoRead(p, length) =>
      var f := s.sessions[p];
      var (chunk, offset) := ReadAt(s.text, f.offset, length);
      var ended := f.offset == |s.text|;
      var ends := if ended then f.ends + 1 else f.ends;
      s.(sessions := s.sessions[p := f.(offset := offset, data := f.data + chunk, ends := ends)])
    case DoRelease(p) => s.(alreadyOpen := false, sessions := s.sessions - {p})
  }

  function Repeat(text: string, n: nat): string {
    if n == 0 then "" else Repeat(text, n - 1) + text
  }

  /** The message delivered in full `n` times, and then its first `k` characters. */
  ghost predicate Delivered(data: string, text: string, n: nat, k: nat)
    requires k <= |text|
  {
    data == Repeat(text, n) + text[..k]
  }

  ghost predicate SessionOk(s: State, f: Session) {
    f.text == s.text && f.offset <= |f.text| && Delivered(f.data, f.text, f.ends, f.offset)
  }

  ghost predicate Inv(s: State) {
    && (forall p, q :: p in s.sessions && q in s.sessions ==> p == q)
    && (s.alreadyOpen <==> exists p :: p in s.sessions)
    && (forall p :: p in s.sessions ==> SessionOk(s, s.sessions[p]))
    && (s.alreadyOpen ==> s.counter >= 1 && s.text == Message(s.counter - 1))
  }

  lemma MoreDelivered(data: string, text: string, n: nat, j: nat, k: nat)
    requires j <= k <= |text| && Delivered(data, text, n, j)
    ensures Delivered(data + text[j..k], text, n, k)
  {
  }

  lemma AllDelivered(data: string, text: string, n: nat)
    requires Delivered(data, text, n, |text|)
    ensures Delivered(data + "", text, n + 1, 0)
  {
  }

  lemma StepKeeps(s: State, a: Action)
    requires Inv(s) && Enabled(s, a)
    ensures Inv(Step(s, a))
  {
    if a.DoRead? {
      var f, g := s.sessions[a.p], Step(s, a).sessions[a.p];
      if f.offset == |s.text| {
        AllDelivered(f.data, s.text, f.ends);
      } else {
        MoreDelivered(f.data, s.text, f.ends, f.offset, g.offset);
      }
    } else if a.DoOpen? {
      assert Message(s.counter)[..0] == "";
      assert !s.alreadyOpen ==> a.p in Step(s, a).sessions;
    } else {
      assert Step(s, a).sessions == map[];
    }
  }

  function Start(): State { State(false, 0, "", map[]) }

  ghost predicate Runs(s: State, acts: seq<Action>, t: State)
    decreases |acts|
  {
    if acts == [] then s == t else Enabled(s, acts[0]) && Runs(Step(s, acts[0]), acts[1..], t)
  }

  lemma {:induction false} RunKeeps(s: State, acts: seq<Action>, t: State)
    requires Inv(s) && Runs(s, acts, t)
    ensures Inv(t)
    decreases |acts|
  {
    if acts != [] {
      StepKeeps(s, acts[0]);
      RunKeeps(Step(s, acts[0]), acts[1..], t);
    }
  }

  /** At most one process holds the device, and its message is the one made by its own open. */
  lemma OneHolder(acts: seq<Action>, t: State, p: nat, q: nat)
    requires Runs(Start(), acts, t) && p in t.sessions && q in t.sessions
    ensures p == q && t.alreadyOpen && t.counter >= 1
    ensures t.sessions[p].text == t.text == Message(t.counter - 1)
  {
    RunKeeps(Start(), acts, t);
  }

  /** What a holder has read is its whole message once for every end it has met, and then a prefix of it. */
  lemma ReadsReassemble(acts: seq<Action>, t: State, p: nat)
    requires Runs(Start(), acts, t) && p in t.sessions
    ensures var f := t.sessions[p]; f.offset <= |f.text| && f.data == Repeat(f.text, f.ends) + f.text[..f.offset]
    ensures forall length: nat :: Enabled(t, DoRead(p, length))
  {
    RunKeeps(Start(), acts, t);
  }

  /** One read delivers as much as was asked for or as is left, whichever is less, and moves the offset by that. */
  lemma ReadDelivers(s: State, p: nat, length: nat)
    requires Enabled(s, DoRead(p, length))
    ensures var f, g := s.sessions[p], Step(s, DoRead(p, length)).sessions[p];
            if f.offset == |s.text| then g == f.(offset := 0, ends := f.ends + 1)
            else
              var n := if length <= |s.text| - f.offset then length else |s.text| - f.offset;
              g == f.(offset := f.offset + n, data := f.data + s.text[f.offset..f.offset + n])
  {
    var f := s.sessions[p];
    assert f.data + "" == f.data;
  }

  /** Once the holder releases the device, the next open succeeds, whoever makes it. */
  lemma ReleaseFrees(acts: seq<Action>, t: State, p: nat, q: nat)
    requires Runs(Start(), acts, t) && p in t.sessions
    ensures var u := Step(t, DoRelease(p));
            && !u.alreadyOpen && u.sessions == map[]
            && Enabled(u, DoOpen(q)) && q in Step(u, DoOpen(q)).sessions
            && Step(u, DoOpen(q)).sessions[q] == Session(0, Message(t.counter), "", 0)
  {
    RunKeeps(Start(), acts, t);
    assert Step(t, DoRelease(p)).sessions == map[];
  }

  /** A positive-length read is empty exactly when the message has been delivered in full, and starts it over. */
  lemma EndMeansComplete(acts: seq<Action>, t: State, p: nat, length: nat)
    requires Runs(Start(), acts, t) && p in t.sessions && length > 0
    ensures t.sessions[p].offset <= |t.text|
    ensures var f, g := t.sessions[p], Step(t, DoRead(p, length)).sessions[p];
            && (g.data == f.data <==> f.offset == |f.text|)
            && (g.data == f.data ==> f.data == Repeat(f.text, f.ends + 1) && g.offset == 0)
  {
    RunKeeps(Start(), acts, t);
    var f := t.sessions[p];
    if f.offset == |f.text| {
      assert f.text[..f.offset] == f.text;
    } else {
      var (chunk, _) := ReadAt(t.text, f.offset, length);
      assert |chunk| > 0 && |f.data + chunk| > |f.data|;
    }
  }

  /** While the device is held nobody else gets in, and no step of anybody changes the message. */
  lemma HeldIsStable(acts: seq<Action>, t: State, p: nat, a: Action)
    requires Runs(Start(), acts, t) && p in t.sessions && Enabled(t, a) && a != DoRelease(p)
    ensures var u := Step(t, a); u.text == t.text && u.counter == t.counter && u.sessions.Keys == t.sessions.Keys
  {
    RunKeeps(Start(), acts, t);
  }
}
