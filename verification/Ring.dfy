/** A producer that overwrites a ring of slots, and a consumer that polls it and counts what it sees. */
module Ring {

  /** `slots` is B, the number of ring slots in use; `messages` is M. */
  datatype Config = Config(slots: nat, messages: nat)

  predicate ValidConfig(c: Config) { c.slots >= 1 && c.messages >= 1 }

  // ---------- slot numbers ----------

  /** k modulo b, without multiplication. */
  function Slot(k: nat, b: nat): (i: nat)
    requires b >= 1
    ensures i < b
    decreases k
  {
    if k < b then k else Slot(k - b, b)
  }

  lemma {:induction false} SlotIsModulo(k: nat, b: nat)
    requires b >= 1
    ensures Slot(k, b) == k % b
    decreases k
  {
    if k >= b {
      SlotIsModulo(k - b, b);
      SameRemainder(k, b);
    }
  }

  lemma SameRemainder(k: nat, b: nat)
    requires 1 <= b <= k
    ensures (k - b) % b == k % b
  {
    var d := k / b - 1 - (k - b) / b;
    assert d * b == (k - b) % b - k % b;
    SmallMultiple(d, b);
  }

  lemma SmallMultiple(d: int, b: nat)
    requires -(b as int) < d * b < b
    ensures d == 0
  {
  }

  /** Counting up goes around the ring. */
  lemma {:induction false} RoundRobin(k: nat, b: nat)
    requires b >= 1
    ensures Slot(k + 1, b) == if Slot(k, b) + 1 == b then 0 else Slot(k, b) + 1
    decreases k
  {
    if k >= b { RoundRobin(k - b, b); }
  }

  lemma {:induction false} SlotAdvance(k: nat, b: nat, d: nat)
    requires b >= 1 && Slot(k, b) + d < b
    ensures Slot(k + d, b) == Slot(k, b) + d
    decreases d
  {
    if d > 0 {
      SlotAdvance(k, b, d - 1);
      RoundRobin(k + d - 1, b);
    }
  }

  /** Some read among any B consecutive ones goes to the given slot. */
  lemma VisitsSlot(b: nat, s: nat, i: nat) returns (k: nat)
    requires b >= 1 && i < b
    ensures s <= k < s + b && Slot(k, b) == i
  {
    var r := Slot(s, b);
    if r <= i {
      k := s + (i - r);
      SlotAdvance(s, b, i - r);
    } else {
      SlotAdvance(s, b, b - 1 - r);
      RoundRobin(s + (b - 1 - r), b);
      SlotAdvance(s + (b - r), b, i);
      k := s + (b - r) + i;
    }
  }

  // ---------- producer ----------

  /** The shared array (one slot longer than the ring) after the producer's first `w` writes. */
  function Shared(c: Config, w: nat): (a: seq<int>)
    requires c.slots >= 1 && w <= c.messages + 1
    ensures |a| == c.slots + 1
  {
    if w == 0 then seq(c.slots + 1, _ => 0)
    else Shared(c, w - 1)[Slot(w - 1, c.slots) := if w - 1 < c.messages then w - 1 else -1]
  }

  /** The contents of the array after 0, 1, ... writes. */
  ghost function States(c: Config, n: nat): (s: seq<seq<int>>)
    requires c.slots >= 1 && n <= c.messages + 2
  {
    seq(n, w requires 0 <= w < n => Shared(c, w))
  }

  /** Writes all messages and the final -1; `states` are the array contents between the writes. */
  method ProducerJob(bc: array<int>, c: Config) returns (ghost states: seq<seq<int>>)
    requires c.slots >= 1 && bc.Length == c.slots + 1 && bc[..] == Shared(c, 0)
    modifies bc
    ensures states == States(c, c.messages + 2) && bc[..] == Shared(c, c.messages + 1)
    ensures |states| == c.messages + 2 && states[0] == seq(c.slots + 1, _ => 0)
    ensures forall w :: 0 <= w < c.messages ==> states[w + 1] == states[w][w % c.slots := w]
    ensures states[c.messages + 1] == states[c.messages][c.messages % c.slots := -1]
  {
    states := [bc[..]];
    for i := 0 to c.messages
      invariant bc[..] == Shared(c, i) && states == States(c, i + 1)
    {
      SlotIsModulo(i, c.slots);
      bc[i % c.slots] := i;
      states := states + [bc[..]];
    }
    SlotIsModulo(c.messages, c.slots);
    bc[c.messages % c.slots] := -1;
    states := states + [bc[..]];
    forall w | 0 <= w < c.messages ensures states[w + 1] == states[w][w % c.slots := w] {
      SharedStep(c, w);
    }
    SharedStep(c, c.messages);
  }

  /** One write changes one slot. */
  lemma SharedStep(c: Config, w: nat)
    requires c.slots >= 1 && w <= c.messages
    ensures w % c.slots < c.slots + 1
    ensures Shared(c, w + 1) == Shared(c, w)[w % c.slots := if w < c.messages then w else -1]
  {
    SlotIsModulo(w, c.slots);
  }

  lemma {:induction false} LastWritten(c: Config, w: nat, i: nat, k: nat)
    requires c.slots >= 1 && w <= c.messages && i < c.slots && k < w && Slot(k, c.slots) == i
    requires forall j: nat :: k < j < w ==> Slot(j, c.slots) != i
    ensures Shared(c, w)[i] == k
    decreases w
  {
    if k < w - 1 {
      LastWritten(c, w - 1, i, k);
    }
  }

  lemma {:induction false} NeverWritten(c: Config, w: nat, i: nat)
    requires c.slots >= 1 && w <= c.messages && i <= c.slots
    requires forall j: nat :: j < w ==> Slot(j, c.slots) != i
    ensures Shared(c, w)[i] == 0
    decreases w
  {
    if w > 0 {
      NeverWritten(c, w - 1, i);
    }
  }

  /** Before the sentinel, slot `i` holds the last message below `w` with remainder `i`, and 0 if there is none. */
  lemma SlotHolds(c: Config, w: nat, i: nat)
    requires c.slots >= 1 && w <= c.messages && i < c.slots
    ensures forall k: nat :: k < w && k % c.slots == i && (forall j: nat :: k < j < w ==> j % c.slots != i)
                             ==> Shared(c, w)[i] == k
    ensures (forall k: nat :: k < w ==> k % c.slots != i) ==> Shared(c, w)[i] == 0
    ensures Shared(c, w)[c.slots] == 0
    ensures Shared(c, c.messages + 1) == Shared(c, c.messages)[c.messages % c.slots := -1]
  {
    forall j: nat ensures Slot(j, c.slots) == j % c.slots { SlotIsModulo(j, c.slots); }
    forall k: nat | k < w && k % c.slots == i && forall j: nat :: k < j < w ==> j % c.slots != i
      ensures Shared(c, w)[i] == k
    {
      forall j: nat | k < j < w ensures Slot(j, c.slots) != i { assert j % c.slots != i; }
      LastWritten(c, w, i, k);
    }
    if forall k: nat :: k < w ==> k % c.slots != i {
      forall j: nat | j < w ensures Slot(j, c.slots) != i { assert j % c.slots != i; }
      NeverWritten(c, w, i);
    }
    NeverWritten(c, w, c.slots);
    SharedStep(c, c.messages);
  }

  /** Before the sentinel, a slot holds 0 or the latest message written to it; all are below the write count. */
  lemma {:induction false} SlotBounds(c: Config, w: nat, i: nat)
    requires ValidConfig(c) && w <= c.messages && i < c.slots
    ensures 0 <= Shared(c, w)[i] <= (if w == 0 then 0 else w - 1)
    ensures w > 0 && i == Slot(w - 1, c.slots) ==> Shared(c, w)[i] == w - 1
    decreases w
  {
    if w > 0 {
      SlotBounds(c, w - 1, i);
    }
  }

  lemma FinalSlots(c: Config, i: nat)
    requires ValidConfig(c) && i < c.slots
    ensures -1 <= Shared(c, c.messages + 1)[i] < c.messages
    ensures Shared(c, c.messages + 1)[i] == -1 <==> i == Slot(c.messages, c.slots)
  {
    SlotBounds(c, c.messages, i);
  }

  // ---------- consumer ----------

  /** The interleaving: `seen[k]` is how many writes had been made when the consumer made its k-th read. */
  ghost predicate Interleaving(c: Config, seen: seq<nat>) {
    && (forall k :: 0 <= k < |seen| ==> seen[k] <= c.messages + 1)
    && (forall j, k :: 0 <= j < k < |seen| ==> seen[j] <= seen[k])
  }

  /** What the consumer's first `n` reads return: the k-th one goes to slot k modulo B. */
  function ReadsUpTo(c: Config, seen: seq<nat>, n: nat): (vals: seq<int>)
    requires ValidConfig(c) && n <= |seen| && forall k :: 0 <= k < |seen| ==> seen[k] <= c.messages + 1
    ensures |vals| == n
  {
    if n == 0 then [] else ReadsUpTo(c, seen, n - 1) + [Shared(c, seen[n - 1])[Slot(n - 1, c.slots)]]
  }

  function Reads(c: Config, seen: seq<nat>): (vals: seq<int>)
    requires ValidConfig(c) && forall k :: 0 <= k < |seen| ==> seen[k] <= c.messages + 1
    ensures |vals| == |seen|
  {
    ReadsUpTo(c, seen, |seen|)
  }

  lemma {:induction false} ReadIs(c: Config, seen: seq<nat>, n: nat, k: nat)
    requires ValidConfig(c) && k < n <= |seen| && forall k :: 0 <= k < |seen| ==> seen[k] <= c.messages + 1
    ensures ReadsUpTo(c, seen, n)[k] == Shared(c, seen[k])[Slot(k, c.slots)]
    decreases n
  {
    if k < n - 1 { ReadIs(c, seen, n - 1, k); }
  }

  /** The k-th read returns what slot k mod B holds after the writes made by then. */
  lemma ReadsAt(c: Config, seen: seq<nat>, k: nat)
    requires ValidConfig(c) && Interleaving(c, seen) && k < |seen|
    ensures k % c.slots < c.slots && Reads(c, seen)[k] == Shared(c, seen[k])[k % c.slots]
  {
    ReadIs(c, seen, |seen|, k);
    SlotIsModulo(k, c.slots);
  }

  /** The consumer after some reads: the values it counted, the last of them, and whether it met the sentinel. */
  datatype Tally = Tally(counted: seq<int>, prev: int, stopped: bool)

  /** One read. */
  function Count(t: Tally, cur: int): Tally {
    if t.stopped then t
    else if cur > t.prev then Tally(t.counted + [cur], cur, false)
    else if cur == -1 then t.(stopped := true)
    else t
  }

  function After(vals: seq<int>, n: nat): Tally
    requires n <= |vals|
  {
    if n == 0 then Tally([], -1, false) else Count(After(vals, n - 1), vals[n - 1])
  }

  datatype Result = Polling | Loss(lost: int)

  /** The polling loop against an interleaving; `Polling` when the reads run out before the sentinel is met. */
  method ConsumerJob(c: Config, seen: seq<nat>) returns (r: Result)
    requires ValidConfig(c) && Interleaving(c, seen)
    ensures var t := After(Reads(c, seen), |seen|);
            r == if t.stopped then Loss(c.messages - |t.counted|) else Polling
    ensures Patient(c, seen) ==> r == Loss(0)
  {
    if Patient(c, seen) { PatientLosesNothing(c, seen); }
    var counter, prev, i := 0, -1, 0;
    ghost var vals := Reads(c, seen);
    for k := 0 to |seen|
      invariant 0 <= i < c.slots && i == Slot(k, c.slots)
      invariant !After(vals, k).stopped
      invariant counter == |After(vals, k).counted| && prev == After(vals, k).prev
    {
      var cur := Shared(c, seen[k])[i];
      ReadIs(c, seen, |seen|, k);
      if cur > prev {
        counter := counter + 1;
        prev := cur;
      } else if cur == -1 {
        StaysStopped(vals, k + 1, |seen|);
        return Loss(c.messages - counter);
      }
      i := i + 1;
      RoundRobin(k, c.slots);
      if i == c.slots {
        i := 0;
      }
    }
    return Polling;
  }

  lemma {:induction false} StaysStopped(vals: seq<int>, m: nat, n: nat)
    requires m <= n <= |vals| && After(vals, m).stopped
    ensures After(vals, n) == After(vals, m)
    decreases n
  {
    if m < n { StaysStopped(vals, m, n - 1); }
  }

  // ---------- accounting ----------

  /** The k-th read is larger than -1 and than every read before it. */
  ghost predicate RunningMaximum(vals: seq<int>, k: nat)
    requires k < |vals|
  {
    vals[k] > -1 && forall j :: 0 <= j < k ==> vals[j] < vals[k]
  }

  ghost function Maxima(vals: seq<int>, n: nat): seq<int>
    requires n <= |vals|
  {
    if n == 0 then []
    else Maxima(vals, n - 1) + if RunningMaximum(vals, n - 1) then [vals[n - 1]] else []
  }

  /** Until the sentinel, the values counted are exactly the strict running maxima of the reads. */
  lemma {:induction false} CountsAreMaxima(vals: seq<int>, n: nat)
    requires n <= |vals| && forall k :: 0 <= k < n ==> vals[k] > -1
    ensures !After(vals, n).stopped
    ensures After(vals, n).counted == Maxima(vals, n)
    ensures forall k :: 0 <= k < n ==> vals[k] <= After(vals, n).prev
    ensures n > 0 ==> exists k :: 0 <= k < n && vals[k] == After(vals, n).prev
    decreases n
  {
    if n > 0 {
      CountsAreMaxima(vals, n - 1);
      if vals[n - 1] <= After(vals, n - 1).prev {
        var j :| 0 <= j < n - 1 && vals[j] == After(vals, n - 1).prev;
        assert vals[j] >= vals[n - 1];
      }
    }
  }

  /** A whole run: the values counted are the strict running maxima of the reads before the first -1, where it stops. */
  lemma CountsUpToSentinel(vals: seq<int>, n: nat)
    requires n < |vals| && vals[n] == -1 && forall k :: 0 <= k < n ==> vals[k] > -1
    ensures After(vals, |vals|).stopped && After(vals, |vals|).counted == Maxima(vals, n)
  {
    CountsAreMaxima(vals, n);
    PrevAtLeast(vals, n);
    StaysStopped(vals, n + 1, |vals|);
  }

  /** The counted values increase strictly and lie in [0, M), so at most M are counted. */
  lemma {:induction false} CountBounds(vals: seq<int>, m: nat, n: nat)
    requires n <= |vals| && forall k :: 0 <= k < |vals| ==> -1 <= vals[k] < m
    ensures var t := After(vals, n);
            && -1 <= t.prev < m && |t.counted| <= t.prev + 1
            && (forall k :: 0 <= k < |t.counted| ==> 0 <= t.counted[k] <= t.prev)
            && (forall j, k :: 0 <= j < k < |t.counted| ==> t.counted[j] < t.counted[k])
    decreases n
  {
    if n > 0 { CountBounds(vals, m, n - 1); }
  }

  lemma ReadBounds(c: Config, seen: seq<nat>, k: nat)
    requires ValidConfig(c) && Interleaving(c, seen) && k < |seen|
    ensures -1 <= Reads(c, seen)[k] < c.messages
    ensures Reads(c, seen)[k] == -1 <==> seen[k] == c.messages + 1 && Slot(k, c.slots) == Slot(c.messages, c.slots)
  {
    ReadIs(c, seen, |seen|, k);
    if seen[k] <= c.messages { SlotBounds(c, seen[k], Slot(k, c.slots)); } else { FinalSlots(c, Slot(k, c.slots)); }
  }

  /** Under any interleaving the reported loss lies between 0 and M. */
  lemma LossInRange(c: Config, seen: seq<nat>)
    requires ValidConfig(c) && Interleaving(c, seen)
    ensures var t := After(Reads(c, seen), |seen|);
            && 0 <= c.messages - |t.counted| <= c.messages
            && forall k :: 0 <= k < |t.counted| ==> 0 <= t.counted[k] < c.messages
  {
    forall k | 0 <= k < |seen| ensures -1 <= Reads(c, seen)[k] < c.messages { ReadBounds(c, seen, k); }
    CountBounds(Reads(c, seen), c.messages, |seen|);
  }

  lemma {:induction false} StopsAt(vals: seq<int>, k: nat, n: nat)
    requires k < n <= |vals| && vals[k] == -1
    requires forall j :: 0 <= j < |vals| ==> -1 <= vals[j]
    ensures After(vals, n).stopped
    decreases n
  {
    if k < n - 1 {
      StopsAt(vals, k, n - 1);
    } else {
      PrevAtLeast(vals, k);
    }
  }

  lemma {:induction false} PrevAtLeast(vals: seq<int>, n: nat)
    requires n <= |vals|
    ensures After(vals, n).prev >= -1
    decreases n
  {
    if n > 0 { PrevAtLeast(vals, n - 1); }
  }

  /** Once the sentinel is stored the consumer stops within B reads. */
  lemma StopsWithinRound(c: Config, seen: seq<nat>, s: nat, n: nat)
    requires ValidConfig(c) && Interleaving(c, seen) && s + c.slots <= n <= |seen|
    requires seen[s] == c.messages + 1
    ensures After(Reads(c, seen), n).stopped
  {
    var k := VisitsSlot(c.slots, s, Slot(c.messages, c.slots));
    forall j | 0 <= j < |seen| ensures -1 <= Reads(c, seen)[j] { ReadBounds(c, seen, j); }
    assert seen[s] <= seen[k];
    ReadBounds(c, seen, k);
    StopsAt(Reads(c, seen), k, n);
  }

  // ---------- no loss ----------

  /** After write number `w` and before the next one the consumer makes at least B reads, from read `s` on. */
  ghost predicate FullRound(c: Config, seen: seq<nat>, w: nat, s: nat) {
    s + c.slots <= |seen| && forall k :: s <= k < s + c.slots ==> seen[k] == w
  }

  ghost predicate HasRound(c: Config, seen: seq<nat>, w: nat) {
    exists s: nat :: FullRound(c, seen, w, s)
  }

  ghost predicate Patient(c: Config, seen: seq<nat>) {
    Interleaving(c, seen) && forall w :: 1 <= w <= c.messages + 1 ==> HasRound(c, seen, w)
  }

  /** The values 0, 1, ..., n-1. */
  function UpTo(n: nat): (s: seq<int>)
    ensures |s| == n && forall i :: 0 <= i < n ==> s[i] == i
  {
    if n == 0 then [] else UpTo(n - 1) + [n - 1]
  }

  /**
   * The tally after `n` reads of a patient consumer: complete up to the write before the last one it has seen,
   * and ahead of everything it has read since that last one. `m` is the number of messages.
   */
  ghost predicate KeepsUp(vals: seq<int>, seen: seq<nat>, m: nat, n: nat)
    requires |vals| == |seen| && 1 <= n <= |seen|
  {
    Complete(After(vals, n), m, seen[n - 1]) && AheadOf(vals, seen, n, seen[n - 1], After(vals, n).prev)
  }

  ghost predicate Complete(t: Tally, m: nat, w: nat) {
    && t.prev >= -1 && t.counted == UpTo(t.prev + 1)
    && (w <= m ==> !t.stopped && w - 2 <= t.prev <= (if w == 0 then 0 else w - 1))
    && (w == m + 1 ==> t.prev == m - 1)
  }

  ghost predicate AheadOf(vals: seq<int>, seen: seq<nat>, n: nat, w: nat, prev: int)
    requires |vals| == |seen| && n <= |seen|
  {
    forall k :: 0 <= k < n && seen[k] == w ==> vals[k] <= prev
  }

  /** A full round after write `w` leaves no message behind. */
  lemma RoundCatchesUp(c: Config, seen: seq<nat>, n: nat, w: nat, s: nat, prev: int)
    requires ValidConfig(c) && Interleaving(c, seen) && n <= |seen| && 1 <= w <= c.messages
    requires FullRound(c, seen, w, s) && s + c.slots <= n && AheadOf(Reads(c, seen), seen, n, w, prev)
    ensures prev >= w - 1
  {
    var k := VisitsSlot(c.slots, s, Slot(w - 1, c.slots));
    SlotBounds(c, w, Slot(k, c.slots));
    ReadIs(c, seen, |seen|, k);
  }

  /** When the write count moves on, it moves on by one. */
  lemma MovesByOne(c: Config, seen: seq<nat>, n: nat)
    requires ValidConfig(c) && Patient(c, seen) && 1 <= n < |seen| && seen[n - 1] < seen[n]
    ensures seen[n] == seen[n - 1] + 1
  {
    var w := seen[n - 1];
    assert HasRound(c, seen, w + 1);
    var s: nat :| FullRound(c, seen, w + 1, s);
    assert seen[s] == w + 1;
  }

  /** By then the round for the old count was complete. */
  lemma RoundOver(c: Config, seen: seq<nat>, n: nat, prev: int)
    requires ValidConfig(c) && Patient(c, seen) && 1 <= n < |seen| && 1 <= seen[n - 1] < seen[n]
    requires AheadOf(Reads(c, seen), seen, n, seen[n - 1], prev)
    ensures prev >= seen[n - 1] - 1
  {
    var w := seen[n - 1];
    assert HasRound(c, seen, w);
    var s: nat :| FullRound(c, seen, w, s);
    assert seen[s + c.slots - 1] == w;
    RoundCatchesUp(c, seen, n, w, s, prev);
  }

  /** The write count stays, or moves on by one after a complete round. */
  ghost predicate OnTime(seen: seq<nat>, m: nat, n: nat, prev: int)
    requires 1 <= n < |seen|
  {
    && (forall k :: 0 <= k < n ==> seen[k] <= seen[n - 1])
    && (seen[n] == seen[n - 1]
        || (seen[n] == seen[n - 1] + 1 <= m + 1 && (seen[n - 1] >= 1 ==> prev >= seen[n - 1] - 1)))
  }

  lemma PatientOnTime(c: Config, seen: seq<nat>, n: nat, prev: int)
    requires ValidConfig(c) && Patient(c, seen) && 1 <= n < |seen|
    requires AheadOf(Reads(c, seen), seen, n, seen[n - 1], prev)
    ensures OnTime(seen, c.messages, n, prev)
  {
    assert seen[n - 1] <= seen[n];
    if seen[n - 1] < seen[n] {
      MovesByOne(c, seen, n);
      if seen[n - 1] >= 1 { RoundOver(c, seen, n, prev); }
    }
  }

  /** The tally fits the write count the next read is about to see. */
  lemma MoveOn(vals: seq<int>, seen: seq<nat>, m: nat, n: nat)
    requires |vals| == |seen| && 1 <= n < |seen| && m >= 1 && KeepsUp(vals, seen, m, n)
    requires OnTime(seen, m, n, After(vals, n).prev)
    ensures Complete(After(vals, n), m, seen[n]) && AheadOf(vals, seen, n, seen[n], After(vals, n).prev)
  {
  }

  /** A value that can stand in the ring after `w` writes. */
  predicate Fits(cur: int, m: nat, w: nat) {
    && w <= m + 1
    && (w <= m ==> 0 <= cur <= if w == 0 then 0 else w - 1)
    && (w == m + 1 ==> -1 <= cur < m)
  }

  lemma ReadKeepsUp(vals: seq<int>, seen: seq<nat>, m: nat, n: nat)
    requires |vals| == |seen| && n < |seen| && Fits(vals[n], m, seen[n])
    requires Complete(After(vals, n), m, seen[n]) && AheadOf(vals, seen, n, seen[n], After(vals, n).prev)
    ensures KeepsUp(vals, seen, m, n + 1)
  {
  }

  lemma FirstIsOne(c: Config, seen: seq<nat>)
    requires ValidConfig(c) && Patient(c, seen)
    ensures |seen| >= 1 && seen[0] <= 1
  {
    assert HasRound(c, seen, 1);
    var s: nat :| FullRound(c, seen, 1, s);
    assert seen[s] == 1;
  }

  lemma ReadFits(c: Config, seen: seq<nat>, n: nat)
    requires ValidConfig(c) && Interleaving(c, seen) && n < |seen|
    ensures Fits(Reads(c, seen)[n], c.messages, seen[n])
  {
    ReadIs(c, seen, |seen|, n);
    if seen[n] <= c.messages { SlotBounds(c, seen[n], Slot(n, c.slots)); } else { FinalSlots(c, Slot(n, c.slots)); }
  }

  lemma {:induction false} PatientKeepsUp(c: Config, seen: seq<nat>, n: nat)
    requires ValidConfig(c) && Patient(c, seen) && 1 <= n <= |seen|
    ensures KeepsUp(Reads(c, seen), seen, c.messages, n)
    decreases n
  {
    var vals := Reads(c, seen);
    if n == 1 {
      FirstIsOne(c, seen);
      assert Complete(After(vals, 0), c.messages, seen[0]);
    } else {
      PatientKeepsUp(c, seen, n - 1);
      PatientOnTime(c, seen, n - 1, After(vals, n - 1).prev);
      MoveOn(vals, seen, c.messages, n - 1);
    }
    ReadFits(c, seen, n - 1);
    ReadKeepsUp(vals, seen, c.messages, n - 1);
  }

  lemma PatientStops(c: Config, seen: seq<nat>)
    requires ValidConfig(c) && Patient(c, seen)
    ensures |seen| >= 1 && seen[|seen| - 1] == c.messages + 1
    ensures After(Reads(c, seen), |seen|).stopped
  {
    assert HasRound(c, seen, c.messages + 1);
    var s: nat :| FullRound(c, seen, c.messages + 1, s);
    assert seen[s] == c.messages + 1;
    assert s == |seen| - 1 || seen[s] <= seen[|seen| - 1];
    StopsWithinRound(c, seen, s, |seen|);
  }

  lemma CompleteIsAll(t: Tally, m: nat)
    requires m >= 1 && t.stopped && Complete(t, m, m + 1)
    ensures t == Tally(UpTo(m), m - 1, true)
  {
  }

  /** A consumer that makes a full round after every write loses nothing: it counts 0, 1, ..., M-1 and reports 0. */
  lemma PatientLosesNothing(c: Config, seen: seq<nat>)
    requires ValidConfig(c) && Patient(c, seen)
    ensures After(Reads(c, seen), |seen|) == Tally(UpTo(c.messages), c.messages - 1, true)
  {
    PatientStops(c, seen);
    PatientKeepsUp(c, seen, |seen|);
    CompleteIsAll(After(Reads(c, seen), |seen|), c.messages);
  }

  // ---------- exactly when nothing is lost ----------

  /** Some read before the n-th returned `m`, and none before that one returned more. */
  ghost predicate SeenInTime(vals: seq<int>, n: nat, m: int)
    requires n <= |vals|
  {
    exists k :: 0 <= k < n && vals[k] == m && forall j :: 0 <= j < k ==> vals[j] <= m
  }

  lemma {:induction false} FirstOfAll(vals: seq<int>, k: nat) returns (f: nat)
    requires k < |vals| && vals[k] > -1 && forall j :: 0 <= j < k ==> vals[j] <= vals[k]
    ensures f <= k && vals[f] == vals[k] && RunningMaximum(vals, f)
    decreases k
  {
    if j :| 0 <= j < k && vals[j] == vals[k] {
      f := FirstOfAll(vals, j);
    } else {
      f := k;
    }
  }

  lemma {:induction false} MaximaMembers(vals: seq<int>, n: nat, m: int)
    requires n <= |vals|
    ensures m in Maxima(vals, n) <==> exists k :: 0 <= k < n && RunningMaximum(vals, k) && vals[k] == m
    decreases n
  {
    if n > 0 {
      MaximaMembers(vals, n - 1, m);
    }
  }

  /** A message is counted exactly when it is seen before anything larger. */
  lemma CountedIff(vals: seq<int>, n: nat, m: int)
    requires n <= |vals| && m >= 0
    ensures m in Maxima(vals, n) <==> SeenInTime(vals, n, m)
  {
    MaximaMembers(vals, n, m);
    if SeenInTime(vals, n, m) {
      var k :| 0 <= k < n && vals[k] == m && forall j :: 0 <= j < k ==> vals[j] <= m;
      var f := FirstOfAll(vals, k);
    }
  }

  ghost predicate Increasing(s: seq<int>) {
    forall j, k :: 0 <= j < k < |s| ==> s[j] < s[k]
  }

  /** Strictly increasing numbers below `m` are at most m many. */
  lemma {:induction false} AtMost(s: seq<int>, m: nat)
    requires Increasing(s) && forall k :: 0 <= k < |s| ==> 0 <= s[k] < m
    ensures |s| <= m
    decreases m
  {
    if |s| > 0 {
      var l := |s| - 1;
      assert 0 <= s[l] < m;
      forall k | 0 <= k < l ensures 0 <= s[..l][k] < m - 1 { assert s[k] < s[l]; }
      AtMost(s[..l], m - 1);
    }
  }

  /** They are m many exactly when they are all of 0, 1, ..., m-1. */
  lemma {:induction false} AllOfThem(s: seq<int>, m: nat)
    requires Increasing(s) && forall k :: 0 <= k < |s| ==> 0 <= s[k] < m
    ensures |s| == m <==> forall x :: 0 <= x < m ==> x in s
    decreases m
  {
    AtMost(s, m);
    if m > 0 {
      var l := |s| - 1;
      if |s| > 0 && s[l] == m - 1 {
        assert m - 1 in s;
        var front := s[..l];
        assert s == front + [m - 1];
        forall k | 0 <= k < l ensures 0 <= front[k] < m - 1 { assert s[k] < s[l]; }
        AllOfThem(front, m - 1);
        assert forall x :: 0 <= x < m - 1 ==> (x in s <==> x in front);
      } else {
        forall k | 0 <= k < |s| ensures 0 <= s[k] < m - 1 { assert k < l ==> s[k] < s[l]; }
        AtMost(s, m - 1);
        assert 0 <= m - 1 < m && m - 1 !in s;
      }
    }
  }

  /**
   * Nothing is lost exactly when, for every message, some read before the sentinel returned it and no earlier read
   * returned a larger one. `n` is the first read that returned -1.
   */
  lemma LossZeroIff(c: Config, seen: seq<nat>, n: nat)
    requires ValidConfig(c) && Interleaving(c, seen) && n < |seen|
    requires Reads(c, seen)[n] == -1 && forall k :: 0 <= k < n ==> Reads(c, seen)[k] > -1
    ensures var t := After(Reads(c, seen), |seen|);
            && t.stopped
            && (c.messages - |t.counted| == 0 <==>
                forall m :: 0 <= m < c.messages ==> SeenInTime(Reads(c, seen), n, m))
  {
    var vals := Reads(c, seen);
    forall k | 0 <= k < |seen| ensures -1 <= vals[k] < c.messages { ReadBounds(c, seen, k); }
    CountsUpToSentinel(vals, n);
    CountBounds(vals, c.messages, |vals|);
    AllOfThem(Maxima(vals, n), c.messages);
    forall m | 0 <= m < c.messages ensures m in Maxima(vals, n) <==> SeenInTime(vals, n, m) {
      CountedIff(vals, n, m);
    }
  }
}
