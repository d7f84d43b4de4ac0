/** Byte strings, the option and result types, and splitting at a separator byte. */
module Bytes {

  newtype byte = b: int | 0 <= b < 0x100

  type Bytes = seq<byte>

  /** The largest `usize`/`u64` of a 64-bit target, and the largest `i64` (also the longest `Vec`). */
  const USIZE_MAX: nat := 0xFFFF_FFFF_FFFF_FFFF
  const I64_MAX: nat := 0x7FFF_FFFF_FFFF_FFFF

  const NUL: byte := 0
  const NEWLINE: byte := 10
  const SPACE: byte := 32

  datatype Option<+T> = None | Some(value: T)

  datatype Result<+T, +E> = Ok(value: T) | Err(error: E) {
    predicate IsFailure() { Err? }

    function PropagateFailure<U>(): Result<U, E>
      requires Err?
    {
      Err(error)
    }

    function Extract(): T
      requires Ok?
    {
      value
    }
  }

  function Min(a: nat, b: nat): nat { if a <= b then a else b }

  function Max(a: nat, b: nat): nat { if a <= b then b else a }

  /** `usize::saturating_sub`. */
  function Minus(a: nat, b: nat): nat { if a <= b then 0 else a - b }

  /** `usize::saturating_add`. */
  function Plus(a: nat, b: nat): nat { Min(a + b, USIZE_MAX) }

  /** The bytes of an ASCII literal. */
  function Ascii(s: string): (r: Bytes)
    requires forall i :: 0 <= i < |s| ==> s[i] as int < 128
    ensures |r| == |s|
  {
    seq(|s|, i requires 0 <= i < |s| && s[i] as int < 128 => s[i] as int as byte)
  }

  function Repeat(b: byte, n: nat): (r: Bytes)
    ensures |r| == n
  {
    seq(n, _ => b)
  }

  lemma SliceConcat<T>(a: seq<T>, b: seq<T>, n: nat)
    requires n <= |a|
    ensures (a + b)[..n] == a[..n] && (a + b)[n..] == a[n..] + b
  {
  }

  lemma SliceOfPrefix<T>(a: seq<T>, b: seq<T>, i: nat, n: nat)
    requires i + n <= |a|
    ensures (a + b)[i..i + n] == a[i..i + n]
  {
  }

  lemma SliceOfSlice<T>(s: seq<T>, a: nat, n: nat, i: nat, m: nat)
    requires a + n <= |s| && i + m <= n
    ensures s[a..a + n][i..i + m] == s[a + i..a + i + m]
  {
    var t := s[a..a + n];
    var u := t[i..i + m];
    forall k | 0 <= k < m
      ensures u[k] == s[a + i + k]
    {
      assert u[k] == t[i + k];
      assert t[i + k] == s[a + (i + k)];
    }
  }

  /** A slice inside one part of a concatenation is that part's slice. */
  lemma SliceWithin<T>(a: seq<T>, b: seq<T>, c: seq<T>, i: nat, n: nat)
    requires i + n <= |b|
    ensures |a| + i + n <= |a + b + c|
    ensures (a + b + c)[|a| + i..|a| + i + n] == b[i..i + n]
  {
  }

  predicate Free(s: Bytes, sep: byte) {
    sep !in s
  }

  predicate AllFree(parts: seq<Bytes>, sep: byte) {
    forall i :: 0 <= i < |parts| ==> Free(parts[i], sep)
  }

  /** `parts.join(&sep)`. */
  function Join(parts: seq<Bytes>, sep: byte): Bytes {
    if parts == [] then []
    else if |parts| == 1 then parts[0]
    else parts[0] + [sep] + Join(parts[1..], sep)
  }

  /** Every part followed by the separator. */
  function Terminated(parts: seq<Bytes>, sep: byte): Bytes {
    if parts == [] then [] else parts[0] + [sep] + Terminated(parts[1..], sep)
  }

  /** The offset of the first `sep`, or the length when there is none. */
  function Find(s: Bytes, sep: byte): (i: nat)
    ensures i <= |s|
    ensures sep !in s[..i]
    ensures i < |s| ==> s[i] == sep
  {
    if s == [] || s[0] == sep then 0
    else
      var i := 1 + Find(s[1..], sep);
      assert s[..i] == [s[0]] + s[1..][..i - 1];
      i
  }

  /** `s.split(|b| b == sep)`: always at least one piece. */
  function Split(s: Bytes, sep: byte): (parts: seq<Bytes>)
    ensures |parts| >= 1
    decreases |s|
  {
    var i := Find(s, sep);
    if i == |s| then [s] else [s[..i]] + Split(s[i + 1..], sep)
  }

  /** One unfolding of a split. */
  lemma SplitStep(s: Bytes, sep: byte)
    ensures var n := Find(s, sep);
            Split(s, sep) == if n == |s| then [s] else [s[..n]] + Split(s[n + 1..], sep)
  {
  }

  lemma FindAt(s: Bytes, sep: byte, i: nat)
    requires i <= |s| && sep !in s[..i] && (i < |s| ==> s[i] == sep)
    ensures Find(s, sep) == i
  {
    var j := Find(s, sep);
  }

  /** Splitting a joined list gives the list back when no part holds the separator. */
  lemma {:induction false} SplitJoin(parts: seq<Bytes>, sep: byte)
    requires parts != [] && AllFree(parts, sep)
    ensures Split(Join(parts, sep), sep) == parts
  {
    var s := Join(parts, sep);
    assert Free(parts[0], sep);
    if |parts| == 1 {
      FindAt(s, sep, |s|);
      assert parts == [s];
    } else {
      var i := |parts[0]|;
      assert s[..i] == parts[0] && s[i + 1..] == Join(parts[1..], sep);
      FindAt(s, sep, i);
      SplitJoin(parts[1..], sep);
    }
  }

  /** Joining the pieces of a split gives the string back, and no piece holds the separator. */
  lemma {:induction false} JoinSplit(s: Bytes, sep: byte)
    ensures Join(Split(s, sep), sep) == s
    ensures AllFree(Split(s, sep), sep)
    decreases |s|
  {
    var i := Find(s, sep);
    if i < |s| {
      var rest := Split(s[i + 1..], sep);
      JoinSplit(s[i + 1..], sep);
      var parts := [s[..i]] + rest;
      assert parts[1..] == rest;
      assert s == s[..i] + [sep] + s[i + 1..];
      forall k | 0 <= k < |parts|
        ensures Free(parts[k], sep)
      {
        if k > 0 {
          assert parts[k] == rest[k - 1];
        }
      }
    } else {
      assert s[..i] == s;
    }
  }

  lemma {:induction false} JoinKeepsFree(parts: seq<Bytes>, sep: byte, other: byte)
    requires AllFree(parts, other) && sep != other
    ensures Free(Join(parts, sep), other)
  {
    if parts != [] {
      assert Free(parts[0], other);
      JoinKeepsFree(parts[1..], sep, other);
    }
  }

  lemma {:induction false} TerminatedIsJoin(parts: seq<Bytes>, sep: byte)
    requires parts != []
    ensures Terminated(parts, sep) == Join(parts, sep) + [sep]
  {
    if |parts| == 1 {
      assert Terminated(parts[1..], sep) == [];
    } else {
      TerminatedIsJoin(parts[1..], sep);
    }
  }

  lemma {:induction false} TerminatedConcat(a: seq<Bytes>, b: seq<Bytes>, sep: byte)
    ensures Terminated(a + b, sep) == Terminated(a, sep) + Terminated(b, sep)
  {
    if a == [] {
      assert a + b == b;
    } else {
      assert (a + b)[1..] == a[1..] + b;
      TerminatedConcat(a[1..], b, sep);
    }
  }
}
