/** End-exclusive character spans (src/span.rs). */
module Spans {
  import opened Bytes

  datatype RawSpan = RawSpan(start: nat, end: nat) {

    predicate Holds(x: nat) { start <= x < end }

    /** The wire format's `len`. */
    function Len(): nat
      requires start <= end
    {
      end - start
    }

    predicate IsEmpty() { start == end }

    /** Keeps the characters before `limit`. */
    function Clip(limit: nat): (r: CharSpan)
      requires start <= end
    {
      RawSpan(Min(start, limit), Min(end, limit))
    }

    function Shift(offset: nat): (r: CharSpan)
      requires start <= end
    {
      RawSpan(start + offset, end + offset)
    }
  }

  /** A span is never inverted. */
  type CharSpan = s: RawSpan | s.start <= s.end witness RawSpan(0, 0)

  /** `CharSpan::new`: an inverted range collapses to an empty span at `start`. */
  function Span(start: nat, end: nat): CharSpan { RawSpan(start, Max(end, start)) }

  lemma SpanHolds(start: nat, end: nat, x: nat)
    ensures Span(start, end).Holds(x) <==> start <= x < end
  {
  }

  /** Clipping keeps exactly the offsets before the limit. */
  lemma ClipKeeps(s: CharSpan, limit: nat, x: nat)
    ensures s.Clip(limit).Holds(x) <==> s.Holds(x) && x < limit
    ensures s.Clip(limit).end <= limit
  {
  }

  /** Shifting moves every offset, adds none, and keeps the length. */
  lemma ShiftMoves(s: CharSpan, offset: nat, x: nat)
    ensures s.Shift(offset).Holds(x) <==> offset <= x && s.Holds(x - offset)
    ensures s.Shift(offset).Len() == s.Len()
  {
  }
}
