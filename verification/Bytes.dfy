/** Octets, octet strings and the few sequence facts the other modules share. */
module Bytes {

  type byte = bv8

  datatype Option<+T> = None | Some(value: T)

  /** `n` copies of `b`. */
  function Repeat(b: byte, n: nat): (s: seq<byte>)
    ensures |s| == n
    ensures forall i :: 0 <= i < n ==> s[i] == b
  {
    seq(n, i => b)
  }

  /** Concatenation of a sequence of sequences, last piece outermost. */
  function Flatten<T>(pieces: seq<seq<T>>): seq<T> {
    if pieces == [] then [] else Flatten(pieces[..|pieces| - 1]) + pieces[|pieces| - 1]
  }

  lemma FlattenSnoc<T>(pieces: seq<seq<T>>, last: seq<T>)
    ensures Flatten(pieces + [last]) == Flatten(pieces) + last
  {
    assert (pieces + [last])[..|pieces|] == pieces;
  }

  lemma {:induction false} FlattenAppend<T>(a: seq<seq<T>>, b: seq<seq<T>>)
    ensures Flatten(a + b) == Flatten(a) + Flatten(b)
  {
    if b == [] {
      assert a + b == a;
    } else {
      FlattenAppend(a, b[..|b| - 1]);
      LastOfSum(a, b);
      Associative(Flatten(a), Flatten(b[..|b| - 1]), b[|b| - 1]);
    }
  }

  lemma LastOfSum<T>(a: seq<T>, b: seq<T>)
    requires b != []
    ensures a + b != []
    ensures (a + b)[..|a + b| - 1] == a + b[..|b| - 1]
    ensures (a + b)[|a + b| - 1] == b[|b| - 1]
  {
  }

  lemma Associative<T>(a: seq<T>, b: seq<T>, c: seq<T>)
    ensures (a + b) + c == a + (b + c)
  {
  }

  /** The string a buffer holds: everything before its first NUL. */
  function CString(s: seq<byte>): (t: seq<byte>)
    ensures |t| <= |s| && t == s[..|t|]
    ensures forall i :: 0 <= i < |t| ==> s[i] != 0
    ensures |t| < |s| ==> s[|t|] == 0
  {
    if s == [] || s[0] == 0 then [] else [s[0]] + CString(s[1..])
  }

  lemma CStringIs(s: seq<byte>, n: nat)
    requires n <= |s| && forall i :: 0 <= i < n ==> s[i] != 0
    requires n == |s| || s[n] == 0
    ensures CString(s) == s[..n]
  {
  }

  lemma SameOctet(a: byte, b: byte)
    requires a as int == b as int
    ensures a == b
  {
  }

  lemma NextOctet(b: byte)
    ensures (b + 1) as int == (b as int + 1) % 256
  {
  }

  lemma OctetAtLeast(n: int)
    requires 0 <= n < 256
    ensures (n as bv8) as int >= n
  {
  }

  lemma OctetAtMost(n: int)
    requires 0 <= n < 256
    ensures (n as bv8) as int <= n
  {
  }

  lemma OctetOf(n: int)
    requires 0 <= n < 256
    ensures (n as byte) as int == n
  {
    OctetAtLeast(n);
    OctetAtMost(n);
  }
}
