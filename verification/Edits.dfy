/** The one-edit prefix matcher against the textbook edit-distance recurrence (src/matching.rs `prefix_edit_within_one`). */
module Edits {
  import opened Bytes

  /** Declaration order is the preference among readings that leave the same suffix. */
  datatype EditKind = Exact | Transposition | Substitution | Insertion | Deletion {
    function Rank(): nat {
      match this
      case Exact => 0
      case Transposition => 1
      case Substitution => 2
      case Insertion => 3
      case Deletion => 4
    }
  }

  datatype EditMatch = EditMatch(suffixLen: nat, kind: EditKind)

  /** The derived order: shorter suffix first, then kind. */
  predicate Less(a: EditMatch, b: EditMatch) {
    a.suffixLen < b.suffixLen || (a.suffixLen == b.suffixLen && a.kind.Rank() < b.kind.Rank())
  }

  function Better(best: Option<EditMatch>, em: EditMatch): Option<EditMatch> {
    if best.None? || Less(em, best.value) then Some(em) else best
  }

  /** Length of the longest common prefix. */
  function Lcp(a: Bytes, b: Bytes): (k: nat)
    ensures k <= |a| && k <= |b|
    ensures forall x :: 0 <= x < k ==> a[x] == b[x]
    ensures k < |a| && k < |b| ==> a[k] != b[k]
  {
    if a == [] || b == [] || a[0] != b[0] then 0 else 1 + Lcp(a[1..], b[1..])
  }

  /** One edit of this kind at the first mismatch `k`, the rest of `q` then matching the rest of `b`. */
  predicate ReadsAt(q: Bytes, b: Bytes, kind: EditKind, k: nat)
    requires k < |q| && k <= |b|
  {
    match kind
    case Exact => false
    case Insertion => k < |b| && q[k..] <= b[k + 1..]
    case Transposition =>
      k + 1 < |q| && k + 1 < |b| && q[k] == b[k + 1] && q[k + 1] == b[k] && q[k + 2..] <= b[k + 2..]
    case Substitution => k < |b| && q[k + 1..] <= b[k + 1..]
    case Deletion => q[k + 1..] <= b[k..]
  }

  function MatchOf(kind: EditKind, m: nat, total: nat): EditMatch {
    EditMatch(if Consumed(kind, m) <= total then total - Consumed(kind, m) else 0, kind)
  }

  function Consider(best: Option<EditMatch>, valid: bool, em: EditMatch): Option<EditMatch> {
    if valid then Better(best, em) else best
  }

  /** The best of the readings at mismatch `k`, tried in the order insertion, transposition, substitution, deletion. */
  function BestAt(q: Bytes, b: Bytes, k: nat, total: nat): Option<EditMatch>
    requires k < |q| && k <= |b|
  {
    var r1 := Consider(None, ReadsAt(q, b, Insertion, k), MatchOf(Insertion, |q|, total));
    var r2 := Consider(r1, ReadsAt(q, b, Transposition, k), MatchOf(Transposition, |q|, total));
    var r3 := Consider(r2, ReadsAt(q, b, Substitution, k), MatchOf(Substitution, |q|, total));
    Consider(r3, ReadsAt(q, b, Deletion, k), MatchOf(Deletion, |q|, total))
  }

  /** The case analysis at the first mismatch. */
  function PrefixEdit(q: Bytes, cand: Bytes): Option<EditMatch> {
    var b := cand[..Min(|cand|, |q| + 1)];
    var k := Lcp(q, b);
    if |b| + 1 < |q| then None
    else if k == |q| then Some(EditMatch(|cand| - |q|, Exact))
    else BestAt(q, b, k, |cand|)
  }

  /** How much of the candidate a reading of `i` query bytes uses. */
  function Consumed(kind: EditKind, i: nat): int {
    match kind
    case Insertion => i + 1
    case Deletion => i - 1
    case _ => i
  }

  method PrefixEditWithinOne(q: Bytes, cand: Bytes) returns (r: Option<EditMatch>)
    ensures r == PrefixEdit(q, cand)
  {
    hide Lcp, BestAt;
    var m, total := |q|, |cand|;
    var b := cand[..Min(total, m + 1)];
    var n := |b|;
    if n + 1 < m {
      return None;
    }
    var k := 0;
    assert q[0..] == q && b[0..] == b;
    while k < m && k < n && q[k] == b[k]
      invariant 0 <= k <= m && k <= n
      invariant Lcp(q, b) == k + Lcp(q[k..], b[k..])
    {
      LcpStep(q, b, k);
      k := k + 1;
    }
    LcpStep(q, b, k);
    if k == m {
      return Some(EditMatch(total - m, Exact));
    }
    r := BestReading(q, b, k, total);
  }

  lemma LcpStep(a: Bytes, b: Bytes, k: nat)
    requires k <= |a| && k <= |b|
    ensures Lcp(a[k..], b[k..])
         == if k < |a| && k < |b| && a[k] == b[k] then 1 + Lcp(a[k + 1..], b[k + 1..]) else 0
  {
    if k < |a| && k < |b| {
      assert a[k..][1..] == a[k + 1..] && b[k..][1..] == b[k + 1..];
    }
  }

  method BestReading(q: Bytes, b: Bytes, k: nat, total: nat) returns (best: Option<EditMatch>)
    requires k < |q| && k <= |b| && |b| <= total
    ensures best == BestAt(q, b, k, total)
  {
    var m, n := |q|, |b|;
    best := None;
    if k < n {
      if q[k..] <= b[k + 1..] {
        best := Better(best, EditMatch(total - (m + 1), Insertion));
      }
      if k + 1 < m && k + 1 < n && q[k] == b[k + 1] && q[k + 1] == b[k] && q[k + 2..] <= b[k + 2..] {
        best := Better(best, EditMatch(total - m, Transposition));
      }
      if q[k + 1..] <= b[k + 1..] {
        best := Better(best, EditMatch(total - m, Substitution));
      }
    }
    if q[k + 1..] <= b[k..] {
      best := Better(best, EditMatch(total - (m - 1), Deletion));
    }
  }

  // ---- readings: one edit anywhere ----

  /** `q` and `c`, shifted by `d`, agree on positions `from..to` of `q`. */
  ghost predicate Agree(q: Bytes, c: Bytes, from: nat, to: nat, d: int)
    requires to <= |q| && (from < to ==> 0 <= from + d && to + d <= |c|)
  {
    forall x :: from <= x < to ==> q[x] == c[x + d]
  }

  /** Reading the first `i` bytes of `q` with one edit of this kind at position `k` gives a prefix of `c`. */
  ghost predicate Reading(q: Bytes, c: Bytes, kind: EditKind, k: nat, i: nat)
    requires i <= |q|
  {
    match kind
    case Exact => k == 0 && i <= |c| && Agree(q, c, 0, i, 0)
    case Substitution => k < i <= |c| && Agree(q, c, 0, k, 0) && Agree(q, c, k + 1, i, 0)
    case Insertion => k <= i < |c| && Agree(q, c, 0, k, 0) && Agree(q, c, k, i, 1)
    case Deletion => k < i <= |c| + 1 && Agree(q, c, 0, k, 0) && Agree(q, c, k + 1, i, -1)
    case Transposition =>
      k + 1 < i <= |c| && Agree(q, c, 0, k, 0) && q[k] == c[k + 1] && q[k + 1] == c[k] && Agree(q, c, k + 2, i, 0)
  }

  // ---- the recurrence ----

  /** Optimal string alignment distance of `q[..i]` and `c[..j]`, by the textbook recurrence. */
  ghost function Osa(q: Bytes, c: Bytes, i: nat, j: nat): nat
    requires i <= |q| && j <= |c|
    decreases i + j
  {
    if i == 0 then j
    else if j == 0 then i
    else
      var cost := if q[i - 1] == c[j - 1] then 0 else 1;
      var edits := Min(Min(Osa(q, c, i - 1, j) + 1, Osa(q, c, i, j - 1) + 1), Osa(q, c, i - 1, j - 1) + cost);
      if i >= 2 && j >= 2 && q[i - 1] == c[j - 2] && q[i - 2] == c[j - 1]
      then Min(edits, Osa(q, c, i - 2, j - 2) + 1) else edits
  }

  ghost predicate Swapped(q: Bytes, c: Bytes, i: nat, j: nat)
    requires i <= |q| && j <= |c|
  {
    i >= 2 && j >= 2 && q[i - 1] == c[j - 2] && q[i - 2] == c[j - 1]
  }

  /** One unfolding of the recurrence. */
  lemma OsaStep(q: Bytes, c: Bytes, i: nat, j: nat)
    requires 1 <= i <= |q| && 1 <= j <= |c|
    ensures var d := Osa(q, c, i, j);
            var cost := if q[i - 1] == c[j - 1] then 0 else 1;
            && d <= Osa(q, c, i - 1, j) + 1 && d <= Osa(q, c, i, j - 1) + 1 && d <= Osa(q, c, i - 1, j - 1) + cost
            && (Swapped(q, c, i, j) ==> d <= Osa(q, c, i - 2, j - 2) + 1)
            && (|| d == Osa(q, c, i - 1, j) + 1 || d == Osa(q, c, i, j - 1) + 1
                || d == Osa(q, c, i - 1, j - 1) + cost
                || (Swapped(q, c, i, j) && d == Osa(q, c, i - 2, j - 2) + 1))
  {
  }

  lemma OsaEdge(q: Bytes, c: Bytes, i: nat, j: nat)
    requires i <= |q| && j <= |c| && (i == 0 || j == 0)
    ensures Osa(q, c, i, j) == i + j
  {
  }

  lemma {:induction false} OsaZero(q: Bytes, c: Bytes, i: nat, j: nat)
    requires i <= |q| && j <= |c|
    ensures Osa(q, c, i, j) == 0 <==> i == j && Agree(q, c, 0, i, 0)
    decreases i + j
  {
    hide Osa;
    if i == 0 || j == 0 {
      OsaEdge(q, c, i, j);
    } else {
      OsaStep(q, c, i, j);
      OsaZero(q, c, i - 1, j - 1);
    }
  }

  ghost predicate HasReading(q: Bytes, c: Bytes, i: nat, j: nat)
    requires i <= |q|
  {
    exists kind: EditKind, k: nat :: Reading(q, c, kind, k, i) && Consumed(kind, i) == j
  }

  lemma ReadingFound(q: Bytes, c: Bytes, kind: EditKind, k: nat, i: nat, j: nat)
    requires i <= |q| && Reading(q, c, kind, k, i) && Consumed(kind, i) == j
    ensures HasReading(q, c, i, j)
  {
  }

  /** Distance at most one means some reading with at most one edit. */
  lemma {:induction false} CloseReads(q: Bytes, c: Bytes, i: nat, j: nat)
    requires i <= |q| && j <= |c| && Osa(q, c, i, j) <= 1
    ensures HasReading(q, c, i, j)
    decreases i + j
  {
    hide Osa, HasReading;
    if i == 0 || j == 0 {
      OsaEdge(q, c, i, j);
      ReadingFound(q, c, if i == j then Exact else if i == 0 then Insertion else Deletion, 0, i, j);
    } else {
      OsaStep(q, c, i, j);
      OsaZero(q, c, i - 1, j);
      OsaZero(q, c, i, j - 1);
      OsaZero(q, c, i - 1, j - 1);
      if Osa(q, c, i - 1, j) == 0 {
        ReadingFound(q, c, Deletion, i - 1, i, j);
      } else if Osa(q, c, i, j - 1) == 0 {
        ReadingFound(q, c, Insertion, i, i, j);
      } else if q[i - 1] == c[j - 1] && Osa(q, c, i - 1, j - 1) <= 1 {
        CloseReads(q, c, i - 1, j - 1);
        ReadingGrows(q, c, i, j);
      } else if Osa(q, c, i - 1, j - 1) == 0 {
        ReadingFound(q, c, Substitution, i - 1, i, j);
      } else {
        OsaZero(q, c, i - 2, j - 2);
        ReadingFound(q, c, Transposition, i - 2, i, j);
      }
    }
  }

  lemma ReadingGrows(q: Bytes, c: Bytes, i: nat, j: nat)
    requires 1 <= i <= |q| && 1 <= j <= |c| && q[i - 1] == c[j - 1] && HasReading(q, c, i - 1, j - 1)
    ensures HasReading(q, c, i, j)
  {
    var kind: EditKind, k: nat :| Reading(q, c, kind, k, i - 1) && Consumed(kind, i - 1) == j - 1;
    ReadingFound(q, c, kind, k, i, j);
  }

  /** Where the edit of a reading is done and only matching bytes follow. */
  predicate Settled(kind: EditKind, k: nat, i: nat) {
    match kind
    case Exact => i == 0
    case Insertion => k == i
    case Transposition => k + 2 == i
    case _ => k + 1 == i
  }

  lemma ReadingShrinks(q: Bytes, c: Bytes, kind: EditKind, k: nat, i: nat)
    requires i <= |q| && Reading(q, c, kind, k, i)
    ensures 0 <= Consumed(kind, i) <= |c|
    ensures !Settled(kind, k, i) ==>
              i >= 1 && Reading(q, c, kind, k, i - 1) && Consumed(kind, i) >= 1 && q[i - 1] == c[Consumed(kind, i) - 1]
  {
  }

  /** Any reading with at most one edit bounds the distance. */
  lemma {:induction false} ReadingIsClose(q: Bytes, c: Bytes, kind: EditKind, k: nat, i: nat)
    requires i <= |q| && Reading(q, c, kind, k, i)
    ensures 0 <= Consumed(kind, i) <= |c|
    ensures Osa(q, c, i, Consumed(kind, i)) <= 1
    decreases i
  {
    hide Osa;
    ReadingShrinks(q, c, kind, k, i);
    var j := Consumed(kind, i);
    if i >= 1 && j >= 1 {
      OsaStep(q, c, i, j);
    } else {
      OsaEdge(q, c, i, j);
    }
    if !Settled(kind, k, i) {
      ReadingIsClose(q, c, kind, k, i - 1);
    } else {
      match kind
      case Exact =>
      case Insertion => OsaZero(q, c, i, i);
      case Deletion => OsaZero(q, c, i - 1, i - 1);
      case Substitution => OsaZero(q, c, i - 1, i - 1);
      case Transposition => OsaZero(q, c, i - 2, i - 2);
    }
  }

  // ---- anchoring at the first mismatch is exhaustive ----

  /** When `q` is not a prefix, any reading can be moved to the first mismatch. */
  lemma ReadingAnchors(q: Bytes, c: Bytes, kind: EditKind, k: nat, at: nat)
    requires Reading(q, c, kind, k, |q|) && !(q <= c)
    requires at < |q| && at <= |c| && Agree(q, c, 0, at, 0) && (at < |c| ==> q[at] != c[at])
    ensures kind != Exact && Reading(q, c, kind, at, |q|)
  {
    assert |q| <= |c| && Agree(q, c, 0, |q|, 0) ==> q <= c;
    match kind
    case Exact =>
    case Substitution =>
    case Insertion =>
      if k < at {
        assert forall x :: k <= x < at ==> q[x] == c[x + 1];
        InsertionSlides(q, c, k, at);
      }
    case Deletion =>
      if k < at {
        DeletionSlides(q, c, k, at);
      }
    case Transposition =>
  }

  lemma InsertionSlides(q: Bytes, c: Bytes, k: nat, at: nat)
    requires Reading(q, c, Insertion, k, |q|) && k <= at < |q| && Agree(q, c, 0, at, 0)
    ensures Reading(q, c, Insertion, at, |q|)
  {
  }

  lemma DeletionSlides(q: Bytes, c: Bytes, k: nat, at: nat)
    requires Reading(q, c, Deletion, k, |q|) && k <= at < |q| && at <= |c| && Agree(q, c, 0, at, 0)
    ensures Reading(q, c, Deletion, at, |q|)
  {
  }

  // ---- the matcher's two guarantees ----

  /** The case analysis at the first mismatch tests exactly the readings there. */
  lemma ReadsAtIsReading(q: Bytes, c: Bytes, kind: EditKind, k: nat)
    requires kind != Exact && k < |q| && k <= |c| && Agree(q, c, 0, k, 0) && |q| <= |c| + 1
    ensures var b := c[..Min(|c|, |q| + 1)];
            k <= |b| && (ReadsAt(q, b, kind, k) <==> Reading(q, c, kind, k, |q|))
  {
    var b := c[..Min(|c|, |q| + 1)];
    match kind
    case Insertion => TailsAgree(q, b, k, k + 1);
    case Transposition => if k + 2 <= |q| && k + 2 <= |b| { TailsAgree(q, b, k + 2, k + 2); }
    case Substitution => if k < |b| { TailsAgree(q, b, k + 1, k + 1); }
    case Deletion => TailsAgree(q, b, k + 1, k);
  }

  /** A tail of `q` is a prefix of a tail of `b` exactly when they agree byte by byte. */
  lemma TailsAgree(q: Bytes, b: Bytes, i: nat, j: nat)
    requires i <= |q|
    ensures j <= |b| ==>
              (q[i..] <= b[j..] <==> |q| - i <= |b| - j && forall x :: i <= x < |q| ==> q[x] == b[x + (j - i)])
  {
    if j <= |b| && q[i..] <= b[j..] {
      forall x | i <= x < |q|
        ensures q[x] == b[x + (j - i)]
      {
        assert q[i..][x - i] == b[j..][x - i];
      }
    }
  }

  /** The first mismatch seen through the cut candidate is the candidate's own. */
  lemma MismatchIs(q: Bytes, c: Bytes)
    ensures var k := Lcp(q, c[..Min(|c|, |q| + 1)]);
            && k <= |q| && k <= |c| && Agree(q, c, 0, k, 0)
            && (k < |q| && k < |c| ==> q[k] != c[k])
            && (k == |q| <==> q <= c)
  {
    assert q <= c ==> forall x :: 0 <= x < |q| ==> q[x] == c[x];
  }

  ghost predicate Possible(q: Bytes, c: Bytes, kind: EditKind)  {
    kind != Exact && exists k: nat :: Reading(q, c, kind, k, |q|)
  }

  /**
   When the query is not itself a prefix, the answer is the best of all one-edit readings, wherever
   their edit lies: some reading attains it, and no reading leaves a shorter suffix or, with the same
   suffix, a preferred kind.
   */
  lemma EditIsBest(q: Bytes, c: Bytes)
    requires !(q <= c)
    ensures var r := PrefixEdit(q, c);
            && (r.Some? <==> exists kind: EditKind :: Possible(q, c, kind))
            && (r.Some? ==>
                  && Possible(q, c, r.value.kind)
                  && r.value.suffixLen + Consumed(r.value.kind, |q|) == |c|
                  && forall kind: EditKind :: Possible(q, c, kind) ==>
                       kind == r.value.kind || Less(r.value, EditMatch(|c| - Consumed(kind, |q|), kind)))
  {
    var b := c[..Min(|c|, |q| + 1)];
    var k := Lcp(q, b);
    MismatchIs(q, c);
    if |b| + 1 < |q| {
      forall kind: EditKind
        ensures !Possible(q, c, kind)
      {
      }
    } else {
      forall kind: EditKind
        ensures kind != Exact ==> (Possible(q, c, kind) <==> ReadsAt(q, b, kind, k))
        ensures Possible(q, c, kind) ==> Consumed(kind, |q|) <= |c|
      {
        if kind != Exact {
          ReadsAtIsReading(q, c, kind, k);
          if Possible(q, c, kind) {
            var k' :| Reading(q, c, kind, k', |q|);
            ReadingAnchors(q, c, kind, k', k);
            ReadingIsClose(q, c, kind, k', |q|);
          }
        }
      }
      hide Possible, ReadsAt, Lcp;
      BestIsLeast(q, b, k, |c|);
    }
  }

  lemma BestIsLeast(q: Bytes, b: Bytes, k: nat, total: nat)
    requires k < |q| && k <= |b|
    ensures var r := BestAt(q, b, k, total);
            && (r.Some? <==> exists kind: EditKind :: ReadsAt(q, b, kind, k))
            && (r.Some? ==>
                  && ReadsAt(q, b, r.value.kind, k) && r.value == MatchOf(r.value.kind, |q|, total)
                  && forall kind: EditKind :: ReadsAt(q, b, kind, k) ==>
                       kind == r.value.kind || Less(r.value, MatchOf(kind, |q|, total)))
  {
    assert !ReadsAt(q, b, Exact, k);
    hide ReadsAt, MatchOf;
  }

  /** A prefix query needs no edit: the answer is `Exact`, whatever other readings exist. */
  lemma PrefixIsExact(q: Bytes, c: Bytes)
    ensures q <= c <==> PrefixEdit(q, c).Some? && PrefixEdit(q, c).value.kind == Exact
    ensures q <= c ==> PrefixEdit(q, c) == Some(EditMatch(|c| - |q|, Exact))
  {
    MismatchIs(q, c);
    var b := c[..Min(|c|, |q| + 1)];
    if Lcp(q, b) < |q| {
      BestIsLeast(q, b, Lcp(q, b), |c|);
    }
  }

  /** Some prefix of the candidate is within edit distance one of the query. */
  ghost predicate Close(q: Bytes, c: Bytes) { exists n: nat :: n <= |c| && Osa(q, c, |q|, n) <= 1 }

  /** The matcher accepts exactly when that is so. */
  lemma EditIffClose(q: Bytes, c: Bytes)
    ensures PrefixEdit(q, c).Some? <==> Close(q, c)
  {
    PrefixIsExact(q, c);
    if q <= c {
      assert Reading(q, c, Exact, 0, |q|);
      ReadingIsClose(q, c, Exact, 0, |q|);
    } else {
      EditIsBest(q, c);
      hide PrefixEdit, Osa;
      if PrefixEdit(q, c).Some? {
        var kind := PrefixEdit(q, c).value.kind;
        var k: nat :| Reading(q, c, kind, k, |q|);
        ReadingIsClose(q, c, kind, k, |q|);
      }
      if n: nat :| n <= |c| && Osa(q, c, |q|, n) <= 1 {
        CloseReads(q, c, |q|, n);
        var kind: EditKind, k: nat :| Reading(q, c, kind, k, |q|) && Consumed(kind, |q|) == n;
        assert kind != Exact;
        assert Possible(q, c, kind);
      }
    }
  }

  /** `aa` against `aaa` is answered `Exact` with one byte left over, though an insertion would use the whole candidate. */
  lemma ExactLeavesMore()
    ensures var q, c: Bytes := [97, 97], [97, 97, 97];
            && PrefixEdit(q, c) == Some(EditMatch(1, Exact))
            && Possible(q, c, Insertion) && Consumed(Insertion, |q|) == |c|
  {
    var q, c: Bytes := [97, 97], [97, 97, 97];
    PrefixIsExact(q, c);
    hide PrefixEdit;
    assert Reading(q, c, Insertion, 2, |q|);
  }
}
