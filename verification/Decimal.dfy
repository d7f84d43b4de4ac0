/** ASCII decimals (the `Decimal` accumulator of src/wire.rs and the numbers `write!` prints). */
module Decimals {
  import opened Bytes

  predicate IsDigit(b: byte) { 48 <= b <= 57 }

  function DigitOf(b: byte): nat
    requires IsDigit(b)
  {
    (b - 48) as nat
  }

  predicate AllDigits(s: Bytes) {
    forall i :: 0 <= i < |s| ==> IsDigit(s[i])
  }

  /** The number a digit string denotes. */
  function Value(s: Bytes): nat
    requires AllDigits(s)
  {
    if s == [] then 0 else 10 * Value(s[..|s| - 1]) + DigitOf(s[|s| - 1])
  }

  /** What `format!("{}", n)` prints. */
  function Digits(n: nat): (s: Bytes)
    ensures |s| > 0
  {
    if n < 10 then [(48 + n) as byte] else Digits(n / 10) + [(48 + n % 10) as byte]
  }

  predicate Canonical(s: Bytes) {
    s != [] && AllDigits(s) && (|s| > 1 ==> s[0] != 48)
  }

  lemma {:induction false} DigitsDenote(n: nat)
    ensures Canonical(Digits(n)) && Value(Digits(n)) == n
    ensures n > 0 ==> Digits(n)[0] != 48
  {
    var s := Digits(n);
    if n >= 10 {
      DigitsDenote(n / 10);
      assert s[..|s| - 1] == Digits(n / 10);
    } else {
      assert s[..|s| - 1] == [];
    }
  }

  lemma {:induction false} ValuePositive(s: Bytes)
    requires s != [] && AllDigits(s) && s[0] != 48
    ensures Value(s) > 0
  {
    if |s| > 1 {
      ValuePositive(s[..|s| - 1]);
    }
  }

  /** Canonical digit strings are exactly the printed numbers. */
  lemma {:induction false} CanonicalIsDigits(s: Bytes)
    requires Canonical(s)
    ensures Digits(Value(s)) == s
  {
    var front := s[..|s| - 1];
    if |s| == 1 {
      assert front == [];
      assert s == [s[0]];
    } else {
      CanonicalIsDigits(front);
      ValuePositive(front);
      assert s == front + [s[|s| - 1]];
    }
  }

  lemma {:induction false} ValueMonotone(s: Bytes, i: nat)
    requires AllDigits(s) && i <= |s|
    ensures Value(s[..i]) <= Value(s)
  {
    if i < |s| {
      ValueMonotone(s[..|s| - 1], i);
      assert s[..|s| - 1][..i] == s[..i];
    } else {
      assert s[..i] == s;
    }
  }

  datatype DecimalError = InvalidDigit | LeadingZero | Overflow

  /** The `Decimal` struct: a copied value, so a push returns the updated copy. */
  datatype Decimal = Decimal(value: nat, digits: nat, leadingZero: bool) {

    function Push(b: byte): Result<Decimal, DecimalError> {
      if !IsDigit(b) then Err(InvalidDigit)
      else if value * 10 + DigitOf(b) > USIZE_MAX then Err(Overflow)
      else Ok(Decimal(value * 10 + DigitOf(b), digits + 1, digits == 0 && DigitOf(b) == 0))
    }

    function PushCanonical(b: byte): Result<Decimal, DecimalError> {
      if !IsDigit(b) then Err(InvalidDigit)
      else if leadingZero then Err(LeadingZero)
      else Push(b)
    }

    /** This accumulator has read exactly `s`. */
    ghost predicate HasRead(s: Bytes) {
      && AllDigits(s)
      && value == Value(s) <= USIZE_MAX
      && digits == |s|
      && leadingZero == (s == [48])
    }
  }

  const EMPTY: Decimal := Decimal(0, 0, false)

  lemma PushReads(d: Decimal, s: Bytes, b: byte)
    requires d.HasRead(s)
    ensures d.Push(b).Ok? <==> AllDigits(s + [b]) && Value(s + [b]) <= USIZE_MAX
    ensures d.Push(b).Ok? ==> d.Push(b).value.HasRead(s + [b])
  {
    var t := s + [b];
    assert t[..|t| - 1] == s;
    assert t[|t| - 1] == b;
    if IsDigit(b) {
      assert AllDigits(t);
    }
  }

  /** An accumulator that has read a canonical number, or nothing yet, only accepts canonical continuations. */
  lemma PushCanonicalReads(d: Decimal, s: Bytes, b: byte)
    requires d.HasRead(s) && (s == [] || Canonical(s))
    ensures d.PushCanonical(b).Ok? ==>
              Canonical(s + [b]) && d.PushCanonical(b).value.HasRead(s + [b])
  {
    PushReads(d, s, b);
    hide Value;
    assert |s| == 1 && s[0] == 48 ==> s == [48];
    assert s != [] ==> (s + [b])[0] == s[0];
  }

  /** Holding a printed number is holding its value. */
  lemma HasReadPrinted(d: Decimal, s: Bytes)
    requires d.HasRead(s) && Canonical(s)
    ensures s == Digits(d.value) && d != EMPTY && d.value <= USIZE_MAX
  {
    CanonicalIsDigits(s);
  }

  /** The complete-field reading: any digit string that fits in a `u64`, leading zeros included. */
  function AsciiSpec(s: Bytes): Option<nat> {
    if s != [] && AllDigits(s) && Value(s) <= USIZE_MAX then Some(Value(s)) else None
  }

  function CanonicalSpec(s: Bytes): Option<nat> {
    if Canonical(s) && Value(s) <= USIZE_MAX then Some(Value(s)) else None
  }

  method ParseAsciiU64(s: Bytes) returns (r: Option<nat>)
    ensures r == AsciiSpec(s)
  {
    var decimal := EMPTY;
    for i := 0 to |s|
      invariant decimal.HasRead(s[..i])
    {
      PushReads(decimal, s[..i], s[i]);
      assert s[..i] + [s[i]] == s[..i + 1];
      var pushed := decimal.Push(s[i]);
      if pushed.Err? {
        if AllDigits(s) {
          ValueMonotone(s, i + 1);
        }
        return None;
      }
      decimal := pushed.value;
    }
    assert s[..|s|] == s;
    return if decimal.digits == 0 then None else Some(decimal.value);
  }

  method ParseCanonicalU64(s: Bytes) returns (r: Option<nat>)
    ensures r == CanonicalSpec(s)
  {
    var decimal := EMPTY;
    for i := 0 to |s|
      invariant decimal.HasRead(s[..i])
      invariant i > 1 ==> s[0] != 48
    {
      PushReads(decimal, s[..i], s[i]);
      assert s[..i] + [s[i]] == s[..i + 1];
      var pushed := decimal.PushCanonical(s[i]);
      if pushed.Err? {
        if AllDigits(s) {
          ValueMonotone(s, i + 1);
        }
        if decimal.leadingZero {
          assert s[..i][0] == 48;
        }
        return None;
      }
      if i == 1 {
        assert s[..1] == [s[0]];
      }
      decimal := pushed.value;
    }
    assert s[..|s|] == s;
    return if decimal.digits == 0 then None else Some(decimal.value);
  }

  /** A field parses canonically to `n` exactly when it is the printed form of `n`. */
  lemma CanonicalParsesPrinted(s: Bytes, n: nat)
    ensures CanonicalSpec(s) == Some(n) <==> n <= USIZE_MAX && s == Digits(n)
  {
    if Canonical(s) {
      CanonicalIsDigits(s);
    }
    DigitsDenote(n);
  }
}
