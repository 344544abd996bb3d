/** Descriptor tables and the system calls that change them. */
module Descriptors {

  /** What a descriptor refers to: one end of a pipe, or anything else that was already open. */
  datatype End = ReadEnd(pipe: nat) | WriteEnd(pipe: nat) | Other(id: nat)

  type Table = map<nat, End>

  /** close; a number that is not open is left alone (EBADF). */
  function Close(t: Table, fd: nat): Table {
    t - {fd}
  }

  /** dup2; nothing happens when `from` is not open (EBADF). */
  function Dup2(t: Table, from: nat, to: nat): Table {
    if from in t then t[to := t[from]] else t
  }

  /** pipe may hand out any two distinct numbers that are not in use. */
  predicate CanPipe(t: Table, rd: nat, wr: nat) {
    rd != wr && rd !in t && wr !in t
  }

  function Pipe(t: Table, rd: nat, wr: nat, id: nat): Table {
    t[rd := ReadEnd(id)][wr := WriteEnd(id)]
  }

  ghost predicate NoPipes(t: Table) {
    forall fd :: fd in t ==> t[fd].Other?
  }

  /** The descriptors of `t` that refer to `e` are exactly those in `fds`. */
  ghost predicate HeldAt(t: Table, e: End, fds: set<nat>) {
    forall fd: nat :: fd in t && t[fd] == e <==> fd in fds
  }

  lemma {:induction false} UnusedBeyond(t: Table, keys: set<nat>) returns (bound: nat)
    requires keys == t.Keys
    ensures forall fd: nat :: fd in t ==> fd < bound
    decreases |keys|
  {
    if keys == {} {
      bound := 0;
    } else {
      var k :| k in keys;
      var rest := t - {k};
      bound := UnusedBeyond(rest, keys - {k});
      if bound <= k { bound := k + 1; }
      forall fd: nat | fd in t ensures fd < bound { assert fd == k || fd in rest; }
    }
  }

  lemma TwoUnused(t: Table) returns (rd: nat, wr: nat)
    ensures CanPipe(t, rd, wr)
  {
    var b := UnusedBeyond(t, t.Keys);
    rd, wr := b, b + 1;
  }
}
