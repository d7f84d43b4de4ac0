/**
 The lossy reading of bytes as UTF-8 characters, and cutting text to a display width
 (src/layout.rs `LossyChars`, `display_width`, `truncate_to_width`; src/matching.rs `char_count`).

 Byte classes are those of section 3 of RFC 3629; an ill-formed sequence becomes one
 U+FFFD per maximal subpart, as section 3.9 of the Unicode Standard recommends.
 */
module Lossy {
  import opened Bytes

  /** A character: a well-formed scalar value, named by its encoding, or U+FFFD for ill-formed bytes. */
  datatype Char = Scalar(encoded: Bytes) | Replacement

  /** Display width of a character; the Unicode tables behind it are a parameter. */
  type Widths = Char -> nat

  /** Printable ASCII is one column wide. */
  ghost predicate AsciiWidths(wd: Widths) {
    forall b: byte :: 32 <= b <= 126 ==> wd(Scalar([b])) == 1
  }

  predicate IsContinuation(b: byte) { 0x80 <= b <= 0xBF }

  /** The length a lead byte announces; 0 for a byte that cannot lead. */
  function Announced(b: byte): (n: nat)
    ensures n <= 4
  {
    if b <= 0x7F then 1
    else if 0xC2 <= b <= 0xDF then 2
    else if 0xE0 <= b <= 0xEF then 3
    else if 0xF0 <= b <= 0xF4 then 4
    else 0
  }

  predicate SecondFits(lead: byte, b: byte)
    ensures SecondFits(lead, b) ==> IsContinuation(b)
  {
    && IsContinuation(b)
    && (lead == 0xE0 ==> 0xA0 <= b)
    && (lead == 0xED ==> b <= 0x9F)
    && (lead == 0xF0 ==> 0x90 <= b)
    && (lead == 0xF4 ==> b <= 0x8F)
  }

  /** Length of the first character's bytes: a whole encoding, or a maximal ill-formed subpart. */
  function UnitLen(s: Bytes): (n: nat)
    requires s != []
    ensures 1 <= n <= |s| && n <= 4
  {
    var want := Announced(s[0]);
    if want <= 1 || |s| < 2 || !SecondFits(s[0], s[1]) then 1
    else if want == 2 || |s| < 3 || !IsContinuation(s[2]) then 2
    else if want == 3 || |s| < 4 || !IsContinuation(s[3]) then 3
    else 4
  }

  predicate UnitIsValid(s: Bytes)
    requires s != []
  {
    UnitLen(s) == Announced(s[0])
  }

  function First(s: Bytes): Char
    requires s != []
  {
    if UnitIsValid(s) then Scalar(s[..UnitLen(s)]) else Replacement
  }

  /** `String::from_utf8_lossy(s).chars()`. */
  function Chars(s: Bytes): (r: seq<Char>)
    ensures |r| <= |s|
    ensures s != [] ==> r != []
  {
    if s == [] then [] else [First(s)] + Chars(s[UnitLen(s)..])
  }

  function Count(s: Bytes): nat { |Chars(s)| }

  /** Characters that begin strictly before byte offset `k`. */
  ghost function StartsBefore(s: Bytes, k: nat): nat
    decreases |s|
  {
    if s == [] || k == 0 then 0
    else 1 + StartsBefore(s[UnitLen(s)..], Minus(k, UnitLen(s)))
  }

  /** Byte offset `k` is a character boundary of `s`. */
  ghost predicate Boundary(s: Bytes, k: nat)
    decreases |s|
  {
    k == 0 || (s != [] && UnitLen(s) <= k && Boundary(s[UnitLen(s)..], k - UnitLen(s)))
  }

  /** Text that may follow another text without changing how that text reads. */
  predicate Detached(t: Bytes) {
    t != [] ==> !IsContinuation(t[0])
  }

  lemma UnitOfConcat(s: Bytes, t: Bytes)
    requires s != [] && Detached(t)
    ensures UnitLen(s + t) == UnitLen(s) && First(s + t) == First(s)
  {
    var u := s + t;
    forall i | 0 <= i < |u|
      ensures u[i] == if i < |s| then s[i] else t[i - |s|]
    {
    }
    assert u[..UnitLen(s)] == s[..UnitLen(s)];
  }

  /** An ASCII byte is a character of its own, whatever follows. */
  lemma AsciiFirst(b: byte, t: Bytes)
    requires b < 0x80
    ensures Chars([b] + t) == [Scalar([b])] + Chars(t)
  {
    var s := [b] + t;
    assert UnitLen(s) == 1 && s[..1] == [b] && s[1..] == t;
  }

  /** Cutting inside the first character leaves one character up to the cut. */
  lemma UnitOfPrefix(s: Bytes, k: nat)
    requires 0 < k <= |s|
    ensures UnitLen(s[..k]) == Min(UnitLen(s), k)
    ensures UnitLen(s) <= k ==> First(s[..k]) == First(s)
  {
    var p := s[..k];
    if UnitLen(s) <= k {
      assert p[..UnitLen(s)] == s[..UnitLen(s)];
    }
  }

  lemma CharsStep(s: Bytes)
    ensures s == [] ==> Chars(s) == []
    ensures s != [] ==> Chars(s) == [First(s)] + Chars(s[UnitLen(s)..])
  {
    hide UnitLen, First;
  }

  /** The lossy reading splits at every place where the right part does not start with a continuation byte. */
  lemma {:induction false} CharsConcat(s: Bytes, t: Bytes)
    requires Detached(t)
    ensures Chars(s + t) == Chars(s) + Chars(t)
    decreases |s|
  {
    hide *;
    CharsStep(s);
    if s == [] {
      assert s + t == t;
    } else {
      UnitOfConcat(s, t);
      CharsStep(s + t);
      var n := UnitLen(s);
      SliceConcat(s, t, n);
      CharsConcat(s[n..], t);
      assert [First(s)] + (Chars(s[n..]) + Chars(t)) == [First(s)] + Chars(s[n..]) + Chars(t);
    }
  }

  /** The character count of a prefix cut anywhere is the number of characters that begin before the cut. */
  lemma {:induction false} CountOfPrefix(s: Bytes, k: nat)
    requires k <= |s|
    ensures Count(s[..k]) == StartsBefore(s, k)
    decreases |s|
  {
    if k > 0 {
      UnitOfPrefix(s, k);
      var n := UnitLen(s);
      if n <= k {
        assert s[..k][n..] == s[n..][..k - n];
        CountOfPrefix(s[n..], k - n);
      } else {
        assert s[..k][k..] == [];
      }
    }
  }

  lemma {:induction false} StartsMonotone(s: Bytes, i: nat, j: nat)
    requires i <= j
    ensures StartsBefore(s, i) <= StartsBefore(s, j)
    decreases |s|
  {
    if s != [] && i > 0 {
      StartsMonotone(s[UnitLen(s)..], Minus(i, UnitLen(s)), Minus(j, UnitLen(s)));
    }
  }

  /** Prefix counts never decrease, so a longer prefix never reads as fewer characters. */
  lemma CountMonotone(s: Bytes, i: nat, j: nat)
    requires i <= j <= |s|
    ensures Count(s[..i]) <= Count(s[..j]) <= Count(s)
  {
    CountOfPrefix(s, i);
    CountOfPrefix(s, j);
    CountOfPrefix(s, |s|);
    assert s[..|s|] == s;
    StartsMonotone(s, i, j);
    StartsMonotone(s, j, |s|);
  }

  /** A cut at a character boundary keeps a prefix of the characters. */
  lemma {:induction false} CharsOfPrefix(s: Bytes, k: nat)
    requires k <= |s| && Boundary(s, k)
    ensures Count(s[..k]) <= Count(s)
    ensures Chars(s[..k]) == Chars(s)[..Count(s[..k])]
    decreases |s|
  {
    hide UnitLen, First;
    if k > 0 {
      UnitOfPrefix(s, k);
      var n := UnitLen(s);
      CharsOfPrefix(s[n..], k - n);
      assert s[..k][n..] == s[n..][..k - n];
      assert Chars(s[..k]) == [First(s)] + Chars(s[n..][..k - n]);
    }
  }

  lemma {:induction false} BoundaryTail(s: Bytes, k: nat)
    requires k <= |s| && Boundary(s, k)
    ensures StartsBefore(s, k) <= Count(s)
    ensures Chars(s) == Chars(s)[..StartsBefore(s, k)] + Chars(s[k..])
    decreases |s|
  {
    hide UnitLen, First;
    if k == 0 {
      assert s[0..] == s;
    } else {
      var n := UnitLen(s);
      BoundaryTail(s[n..], k - n);
      assert s[n..][k - n..] == s[k..];
      ConsSplits(First(s), Chars(s[n..]), StartsBefore(s[n..], k - n), Chars(s[k..]));
    }
  }

  lemma ConsSplits<T>(x: T, rest: seq<T>, c: nat, tail: seq<T>)
    requires c <= |rest| && rest == rest[..c] + tail
    ensures [x] + rest == ([x] + rest)[..c + 1] + tail
  {
    assert ([x] + rest)[..c + 1] == [x] + rest[..c];
  }

  lemma {:induction false} BoundaryOfPrefix(s: Bytes, i: nat, k: nat)
    requires i <= k <= |s| && Boundary(s, i) && Boundary(s, k)
    ensures Boundary(s[..k], i) && StartsBefore(s[..k], i) == StartsBefore(s, i)
    decreases |s|
  {
    hide UnitLen, First;
    if i > 0 {
      UnitOfPrefix(s, k);
      var n := UnitLen(s);
      assert s[..k][n..] == s[n..][..k - n];
      BoundaryOfPrefix(s[n..], i - n, k - n);
    }
  }

  /** Between two boundaries lie exactly the characters of the bytes in between. */
  lemma CharsBetween(s: Bytes, start: nat, end: nat)
    requires start <= end <= |s| && Boundary(s, start) && Boundary(s, end)
    ensures var (from, to) := (Count(s[..start]), Count(s[..end]));
            from <= to <= Count(s) && Chars(s)[from..to] == Chars(s[start..end])
  {
    hide StartsBefore, Boundary, Chars;
    CountOfPrefix(s, start);
    CountMonotone(s, start, end);
    CharsOfPrefix(s, end);
    BoundaryOfPrefix(s, start, end);
    BoundaryTail(s[..end], start);
    assert s[..end][start..] == s[start..end];
    var front := Chars(s[..end]);
    assert front == front[..Count(s[..start])] + Chars(s[start..end]);
    assert front[Count(s[..start])..] == Chars(s)[Count(s[..start])..Count(s[..end])];
  }

  /** ASCII substitution (case folding, control-byte blanking) maps bytes one to one. */
  ghost predicate SameShape(s: Bytes, t: Bytes) {
    |s| == |t| && forall i :: 0 <= i < |s| ==> s[i] == t[i] || (s[i] < 0x80 && t[i] < 0x80)
  }

  lemma SameUnit(s: Bytes, t: Bytes)
    requires SameShape(s, t) && s != []
    ensures t != [] && UnitLen(s) == UnitLen(t) && SameShape(s[UnitLen(s)..], t[UnitLen(t)..])
  {
  }

  lemma ReadsStep(s: Bytes, k: nat)
    requires s != []
    ensures var rest, less := s[UnitLen(s)..], Minus(k, UnitLen(s));
            && Count(s) == 1 + Count(rest)
            && (Boundary(s, k) <==> k == 0 || (UnitLen(s) <= k && Boundary(rest, less)))
            && StartsBefore(s, k) == if k == 0 then 0 else 1 + StartsBefore(rest, less)
  {
    hide UnitLen, First;
  }

  lemma NothingReads(k: nat)
    ensures Count([]) == 0 && StartsBefore([], k) == 0 && (Boundary([], k) <==> k == 0)
  {
  }

  /** Texts of one shape break into characters at the same bytes, so offsets found in one hold in the other. */
  lemma {:induction false} SameShapeReads(s: Bytes, t: Bytes, k: nat)
    requires SameShape(s, t) && |s| == |t|
    ensures Count(s) == Count(t)
    ensures Boundary(s, k) == Boundary(t, k)
    ensures StartsBefore(s, k) == StartsBefore(t, k)
    decreases |s|
  {
    hide *;
    if s == [] {
      NothingReads(k);
    } else {
      SameUnit(s, t);
      ReadsStep(s, k);
      ReadsStep(t, k);
      SameShapeReads(s[UnitLen(s)..], t[UnitLen(t)..], Minus(k, UnitLen(s)));
    }
  }

  // ---- the iterator over validated runs ----

  /** What `str::from_utf8` reports: how much is valid and, at the first error, how long it is. */
  datatype Validity = AllValid | Invalid(validUpTo: nat, errorLen: Option<nat>)

  /** Length of the longest valid prefix. */
  function ValidRun(s: Bytes): (n: nat)
    ensures n <= |s|
    ensures Boundary(s, n)
    decreases |s|
  {
    if s == [] || !UnitIsValid(s) then 0
    else UnitLen(s) + ValidRun(s[UnitLen(s)..])
  }

  /** `str::from_utf8`: the error length is absent when the input merely ends too early. */
  function FromUtf8(s: Bytes): Validity {
    var n := ValidRun(s);
    if n == |s| then AllValid
    else
      var bad := s[n..];
      var complete := UnitLen(bad) < |bad| || Announced(bad[0]) == 0;
      Invalid(n, if complete then Some(UnitLen(bad)) else None)
  }

  lemma ValidRunStep(s: Bytes)
    ensures s != [] && UnitIsValid(s) ==> ValidRun(s) == UnitLen(s) + ValidRun(s[UnitLen(s)..])
    ensures s == [] || !UnitIsValid(s) ==> ValidRun(s) == 0
  {
    hide UnitLen, UnitIsValid;
  }

  lemma {:induction false} ValidRunStops(s: Bytes)
    ensures ValidRun(s) < |s| ==> !UnitIsValid(s[ValidRun(s)..])
    ensures s != [] && UnitIsValid(s) ==> 0 < ValidRun(s)
    decreases |s|
  {
    hide *;
    var n := ValidRun(s);
    ValidRunStep(s);
    if s != [] && UnitIsValid(s) {
      var u := UnitLen(s);
      ValidRunStops(s[u..]);
      assert s[n..] == s[u..][n - u..];
    } else {
      assert s[0..] == s;
    }
  }

  lemma UnitOfPrefixIsValid(s: Bytes, k: nat)
    requires s != [] && UnitLen(s) <= k <= |s|
    ensures UnitLen(s[..k]) == UnitLen(s) && UnitIsValid(s[..k]) == UnitIsValid(s)
  {
    UnitOfPrefix(s, k);
    hide UnitLen;
  }

  lemma {:induction false} ValidPrefixIsValid(s: Bytes)
    ensures ValidRun(s[..ValidRun(s)]) == ValidRun(s)
    decreases |s|
  {
    hide *;
    var n := ValidRun(s);
    ValidRunStep(s);
    ValidRunStep(s[..n]);
    if n > 0 {
      var u := UnitLen(s);
      UnitOfPrefixIsValid(s, n);
      assert s[..n][u..] == s[u..][..n - u];
      ValidPrefixIsValid(s[u..]);
    }
  }

  lemma UnitWithinAnnounced(s: Bytes)
    requires s != [] && Announced(s[0]) > 0
    ensures UnitLen(s) <= Announced(s[0])
  {
  }

  lemma ValidRunHead(v: Bytes)
    requires v != [] && ValidRun(v) == |v|
    ensures UnitLen(v) == Announced(v[0])
    ensures ValidRun(v[UnitLen(v)..]) == |v| - UnitLen(v)
  {
  }

  /** Inside a valid run the first character does not depend on what follows the run. */
  lemma ValidUnit(v: Bytes, rest: Bytes)
    requires v != [] && ValidRun(v) == |v|
    ensures UnitLen(v + rest) == UnitLen(v) && First(v + rest) == First(v)
    ensures ValidRun(v[UnitLen(v)..]) == |v| - UnitLen(v)
    ensures (v + rest)[UnitLen(v)..] == v[UnitLen(v)..] + rest
  {
    ValidRunHead(v);
    hide *;
    var whole := v + rest;
    SliceConcat(v, rest, |v|);
    SliceConcat(v, rest, UnitLen(v));
    assert v[..|v|] == v && whole[0] == v[0];
    UnitOfPrefix(whole, |v|);
    UnitWithinAnnounced(whole);
  }

  lemma InvalidUnit(s: Bytes)
    requires s != [] && !UnitIsValid(s)
    ensures First(s) == Replacement && ValidRun(s) == 0
    ensures FromUtf8(s) ==
            Invalid(0, if UnitLen(s) < |s| || Announced(s[0]) == 0 then Some(UnitLen(s)) else None)
  {
    assert s[0..] == s;
  }

  /** What a report of `from_utf8` says about the text it was made for. */
  lemma Validated(s: Bytes)
    requires s != []
    ensures FromUtf8(s).AllValid? ==> ValidRun(s) == |s|
    ensures FromUtf8(s).Invalid? ==> FromUtf8(s).validUpTo <= |s|
    ensures FromUtf8(s).Invalid? && FromUtf8(s).validUpTo > 0 ==>
              var n := FromUtf8(s).validUpTo; ValidRun(s[..n]) == n && s == s[..n] + s[n..] && n == |s[..n]|
    ensures FromUtf8(s).Invalid? && FromUtf8(s).validUpTo == 0 ==>
              && First(s) == Replacement
              && UnitLen(s) == if FromUtf8(s).errorLen.Some? then FromUtf8(s).errorLen.value else |s|
  {
    hide UnitLen, First, Announced, ValidRun, UnitIsValid, Boundary;
    ValidRunStops(s);
    ValidPrefixIsValid(s);
    assert s[..|s|] == s && s[0..] == s;
    if !UnitIsValid(s) {
      InvalidUnit(s);
    }
  }

  /** The iterator of `lossy_chars`: a validated run is popped character by character. */
  class LossyChars {
    var rest: Bytes
    var restOffset: nat
    var valid: Bytes
    var validOffset: nat

    constructor (bytes: Bytes)
      ensures Valid() && Todo() == bytes && At() == 0
    {
      rest, restOffset, valid, validOffset := bytes, 0, [], 0;
    }

    /** The bytes not yet produced. */
    ghost function Todo(): Bytes
      reads this
    {
      valid + rest
    }

    /** Offset in the input of the next byte to be produced. */
    ghost function At(): int
      reads this
    {
      restOffset - |valid|
    }

    ghost predicate Valid()
      reads this
    {
      ValidRun(valid) == |valid| && (valid != [] ==> validOffset == restOffset - |valid|)
    }

    /** The front of the text and what is left behind it. */
    ghost predicate Yields(r: (Char, nat, nat), todo: Bytes, at: int)
      requires todo != []
      reads this
    {
      var n := UnitLen(todo);
      r == (First(todo), at, at + n) && Todo() == todo[n..] && At() == at + n
    }

    /** Produces the first remaining character and its byte range. */
    method Next() returns (r: Option<(Char, nat, nat)>)
      requires Valid()
      modifies this
      ensures Valid()
      ensures r.None? <==> old(Todo()) == []
      ensures r.None? ==> Todo() == []
      ensures r.Some? ==> Yields(r.value, old(Todo()), old(At()))
    {
      hide *;
      while true
        invariant Valid()
        invariant Todo() == old(Todo()) && At() == old(At())
        decreases |rest|
      {
        TodoIs();
        if valid != [] {
          var c := PopValid();
          return Some(c);
        }
        if rest == [] {
          return None;
        }
        r := Load();
        if r.Some? {
          return;
        }
      }
    }

    lemma TodoIs()
      ensures Todo() == valid + rest
      ensures valid == [] && rest == [] ==> Todo() == []
      ensures valid != [] || rest != [] ==> Todo() != []
    {
    }

    /** Takes the first character of the validated run. */
    method PopValid() returns (r: (Char, nat, nat))
      requires Valid() && valid != []
      modifies this
      ensures Valid() && Yields(r, old(Todo()), old(At()))
    {
      hide UnitLen, First, Announced, ValidRun, UnitIsValid, Boundary, Chars;
      ValidUnit(valid, rest);
      var len := UnitLen(valid);
      var start := validOffset;
      var c := First(valid);
      valid := valid[len..];
      validOffset := validOffset + len;
      r := (c, start, start + len);
    }

    /** Validates what follows: the next run, or at an ill-formed sequence the character it reads as. */
    method Load() returns (r: Option<(Char, nat, nat)>)
      requires Valid() && valid == [] && rest != []
      modifies this
      ensures Valid()
      ensures r.None? ==> |rest| < |old(rest)| && Todo() == old(Todo()) && At() == old(At())
      ensures r.Some? ==> Yields(r.value, old(Todo()), old(At()))
    {
      hide UnitLen, First, Announced, ValidRun, UnitIsValid, Boundary, FromUtf8, Chars;
      Validated(rest);
      assert valid + rest == rest;
      match FromUtf8(rest) {
        case AllValid =>
          valid, validOffset := rest, restOffset;
          restOffset := restOffset + |rest|;
          rest := [];
          return None;
        case Invalid(upTo, errorLen) =>
          if upTo > 0 {
            valid, validOffset := rest[..upTo], restOffset;
            restOffset := restOffset + upTo;
            rest := rest[upTo..];
            return None;
          }
          var badLen := if errorLen.Some? then errorLen.value else |rest|;
          var start := restOffset;
          rest := rest[badLen..];
          restOffset := restOffset + badLen;
          return Some((Replacement, start, start + badLen));
      }
    }
  }

  // ---- display width ----

  /** Total width of a list of characters, taken from its end. */
  function WidthOf(wd: Widths, cs: seq<Char>): nat {
    if cs == [] then 0 else WidthOf(wd, cs[..|cs| - 1]) + wd(cs[|cs| - 1])
  }

  function DisplayWidth(wd: Widths, s: Bytes): nat { WidthOf(wd, Chars(s)) }

  lemma {:induction false} WidthConcat(wd: Widths, a: seq<Char>, b: seq<Char>)
    ensures WidthOf(wd, a + b) == WidthOf(wd, a) + WidthOf(wd, b)
  {
    if b == [] {
      assert a + b == a;
    } else {
      assert (a + b)[..|a + b| - 1] == a + b[..|b| - 1];
      WidthConcat(wd, a, b[..|b| - 1]);
    }
  }

  /** A text cut to a width: its bytes, its width and its character count. */
  datatype Cut = Cut(content: Bytes, width: nat, chars: nat)

  /** The bytes of the longest run of whole characters whose width stays within the budget. */
  function Truncate(wd: Widths, s: Bytes, budget: nat): (r: Cut)
    ensures |r.content| <= |s| && r.content == s[..|r.content|]
    decreases |s|
  {
    if s == [] || wd(First(s)) > budget then Cut([], 0, 0)
    else
      var n := UnitLen(s);
      var r := Truncate(wd, s[n..], budget - wd(First(s)));
      assert s[..n + |r.content|] == s[..n] + s[n..][..|r.content|];
      Cut(s[..n] + r.content, wd(First(s)) + r.width, 1 + r.chars)
  }

  lemma TruncateUnfold(wd: Widths, s: Bytes, budget: nat)
    ensures Truncate(wd, s, budget)
         == if s == [] || wd(First(s)) > budget then Cut([], 0, 0)
            else
              var r := Truncate(wd, s[UnitLen(s)..], budget - wd(First(s)));
              Cut(s[..UnitLen(s)] + r.content, wd(First(s)) + r.width, 1 + r.chars)
  {
    hide UnitLen, First;
  }

  lemma {:induction false} TruncateCuts(wd: Widths, s: Bytes, budget: nat)
    ensures var r := Truncate(wd, s, budget);
            Boundary(s, |r.content|) && r.chars == Count(r.content)
    decreases |s|
  {
    hide UnitLen, First, Truncate, Boundary, Chars, StartsBefore;
    TruncateUnfold(wd, s, budget);
    NothingReads(0);
    if s != [] && wd(First(s)) <= budget {
      var n := UnitLen(s);
      var content := Truncate(wd, s, budget).content;
      TruncateCuts(wd, s[n..], budget - wd(First(s)));
      UnitOfPrefix(s, |content|);
      ReadsStep(s, |content|);
      ReadsStep(content, 0);
      assert content[n..] == Truncate(wd, s[n..], budget - wd(First(s))).content;
    } else {
      AnyStart(s);
    }
  }

  lemma AnyStart(s: Bytes)
    ensures Boundary(s, 0)
  {
  }

  lemma {:induction false} TruncateWidth(wd: Widths, s: Bytes, budget: nat)
    ensures var r := Truncate(wd, s, budget);
            && r.chars <= Count(s)
            && r.width == WidthOf(wd, Chars(s)[..r.chars]) <= budget
            && (r.chars < Count(s) ==> r.width + wd(Chars(s)[r.chars]) > budget)
    decreases |s|
  {
    hide UnitLen, First, Announced;
    if s != [] && wd(First(s)) <= budget {
      var rest := s[UnitLen(s)..];
      var r := Truncate(wd, rest, budget - wd(First(s)));
      TruncateWidth(wd, rest, budget - wd(First(s)));
      assert Chars(s) == [First(s)] + Chars(rest);
      ConsWidth(wd, First(s), Chars(rest), r.chars);
    }
  }

  lemma ConsWidth(wd: Widths, c: Char, cs: seq<Char>, n: nat)
    requires n <= |cs|
    ensures WidthOf(wd, ([c] + cs)[..1 + n]) == wd(c) + WidthOf(wd, cs[..n])
  {
    assert ([c] + cs)[..1 + n] == [c] + cs[..n];
    WidthConcat(wd, [c], cs[..n]);
    assert [c][..0] == [];
  }

  /** The cut is a prefix of whole characters, its counts are right, and no further character fits. */
  lemma TruncateFits(wd: Widths, s: Bytes, budget: nat)
    ensures var r := Truncate(wd, s, budget);
            && r.chars == Count(r.content) <= Count(s)
            && Chars(r.content) == Chars(s)[..r.chars]
            && r.width == DisplayWidth(wd, r.content) <= budget
            && (r.chars < Count(s) ==> r.width + wd(Chars(s)[r.chars]) > budget)
  {
    TruncateCuts(wd, s, budget);
    TruncateWidth(wd, s, budget);
    CharsOfPrefix(s, |Truncate(wd, s, budget).content|);
  }

  /** Text that fits is kept whole. */
  lemma WholeTextFits(wd: Widths, s: Bytes, budget: nat)
    requires DisplayWidth(wd, s) <= budget
    ensures Chars(Truncate(wd, s, budget).content) == Chars(s)
  {
    hide Chars, Truncate;
    TruncateFits(wd, s, budget);
    var r, cs := Truncate(wd, s, budget), Chars(s);
    if r.chars < |cs| {
      TruncateWidth(wd, s, budget);
      WidthConcat(wd, cs[..r.chars], cs[r.chars..]);
      assert cs == cs[..r.chars] + cs[r.chars..];
      WidthHead(wd, cs[r.chars..]);
    }
    assert cs[..|cs|] == cs;
  }

  lemma WidthHead(wd: Widths, cs: seq<Char>)
    requires cs != []
    ensures wd(cs[0]) <= WidthOf(wd, cs)
  {
    WidthConcat(wd, cs[..1], cs[1..]);
    assert cs == cs[..1] + cs[1..] && cs[..1][..0] == [];
  }

  ghost function Extend(a: Cut, b: Cut): Cut {
    Cut(a.content + b.content, a.width + b.width, a.chars + b.chars)
  }

  lemma TruncateStep(wd: Widths, s: Bytes, cut: nat, done: Cut, budget: nat)
    requires cut < |s| && done.content == s[..cut] && done.width + wd(First(s[cut..])) <= budget
    ensures var n := UnitLen(s[cut..]);
            var w := wd(First(s[cut..]));
            && s[cut..][n..] == s[cut + n..]
            && Extend(done, Truncate(wd, s[cut..], budget - done.width))
               == Extend(Cut(s[..cut + n], done.width + w, done.chars + 1),
                         Truncate(wd, s[cut + n..], budget - done.width - w))
  {
    hide UnitLen, First, Truncate;
    TruncateUnfold(wd, s[cut..], budget - done.width);
    var n := UnitLen(s[cut..]);
    assert s[cut..][n..] == s[cut + n..];
    assert s[..cut + n] == s[..cut] + s[cut..][..n];
  }

  /** The cut so far, and what cutting the rest will add. */
  ghost predicate Midway(wd: Widths, s: Bytes, budget: nat, cut: nat, done: Cut) {
    && cut <= |s| && done.content == s[..cut] && done.width <= budget
    && Truncate(wd, s, budget) == Extend(done, Truncate(wd, s[cut..], budget - done.width))
  }

  lemma MidwayStarts(wd: Widths, s: Bytes, budget: nat)
    ensures Midway(wd, s, budget, 0, Cut(s[..0], 0, 0))
  {
    hide Truncate;
    assert s[0..] == s;
  }

  lemma MidwayStep(wd: Widths, s: Bytes, budget: nat, cut: nat, done: Cut)
    requires Midway(wd, s, budget, cut, done) && cut < |s| && done.width + wd(First(s[cut..])) <= budget
    ensures var to := cut + UnitLen(s[cut..]);
            Midway(wd, s, budget, to, Cut(s[..to], done.width + wd(First(s[cut..])), done.chars + 1))
  {
    hide UnitLen, First, Truncate, Extend;
    TruncateStep(wd, s, cut, done, budget);
  }

  lemma MidwayStops(wd: Widths, s: Bytes, budget: nat, cut: nat, done: Cut)
    requires Midway(wd, s, budget, cut, done)
    requires cut == |s| || done.width + wd(First(s[cut..])) > budget
    ensures Truncate(wd, s, budget) == done
  {
    hide UnitLen, First;
  }

  method TruncateToWidth(wd: Widths, bytes: Bytes, budget: nat) returns (r: Cut)
    ensures r == Truncate(wd, bytes, budget)
  {
    hide UnitLen, First, UnitIsValid, Truncate, Midway, LossyChars.Valid, LossyChars.Todo, LossyChars.At;
    var width, chars, cut := 0, 0, 0;
    var it := new LossyChars(bytes);
    MidwayStarts(wd, bytes, budget);
    while true
      invariant it.Valid() && 0 <= cut <= |bytes| && 0 <= width <= budget && 0 <= chars
      invariant it.Todo() == bytes[cut..] && it.At() == cut
      invariant Midway(wd, bytes, budget, cut, Cut(bytes[..cut], width, chars))
      decreases |it.Todo()|
    {
      var next := it.Next();
      if next.None? || width + wd(next.value.0) > budget {
        MidwayStops(wd, bytes, budget, cut, Cut(bytes[..cut], width, chars));
        break;
      }
      MidwayStep(wd, bytes, budget, cut, Cut(bytes[..cut], width, chars));
      width := width + wd(next.value.0);
      chars := chars + 1;
      cut := next.value.2;
    }
    r := Cut(bytes[..cut], width, chars);
  }
}
