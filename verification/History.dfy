/** The worker's capped history index and the query window read from it (src/history.rs). */
module Histories {
  import opened Bytes
  import opened Records

  const RETENTION_CAP: nat := 20000

  datatype Entry = Entry(line: Bytes, event: Option<Bytes>)

  /** The index as a value: entries newest first, and the generation that last changed them. */
  datatype Index = Index(entries: seq<Entry>, stamp: Option<int>)

  const UNINITIALIZED: Index := Index([], None)

  datatype Write = Snapshot(generation: int, records: Source) | Append(generation: int, records: Source)

  function EntriesOf(s: Source): seq<Entry> {
    seq(|s.candidates|, i requires 0 <= i < |s.candidates| => Entry(s.candidates[i].w, s.candidates[i].n))
  }

  /** A write needs a newer stamp, and an append needs something to append to. */
  predicate Accepts(stamp: Option<int>, w: Write) {
    match stamp
    case None => w.Snapshot?
    case Some(s) => s < w.generation
  }

  function Newest(entries: seq<Entry>, n: nat): seq<Entry> { entries[..Min(n, |entries|)] }

  /** The history with no cap: what an unbounded index would hold after a write. */
  function Unbounded(i: Index, w: Write): Index {
    if !Accepts(i.stamp, w) then i
    else Index(EntriesOf(w.records) + (if w.Append? then i.entries else []), Some(w.generation))
  }

  /** The index after a write, which never keeps more than the cap. */
  function Capped(i: Index, w: Write): Index {
    Unbounded(i, w).(entries := if Accepts(i.stamp, w) then Newest(Unbounded(i, w).entries, RETENTION_CAP) else i.entries)
  }

  function UnboundedRun(ws: seq<Write>): Index {
    if ws == [] then UNINITIALIZED else Unbounded(UnboundedRun(ws[..|ws| - 1]), ws[|ws| - 1])
  }

  function CappedRun(ws: seq<Write>): Index {
    if ws == [] then UNINITIALIZED else Capped(CappedRun(ws[..|ws| - 1]), ws[|ws| - 1])
  }

  // ----- The query window -----

  ghost predicate Repeated(entries: seq<Entry>, i: nat)
    requires i < |entries|
  {
    exists j :: 0 <= j < i && entries[j].line == entries[i].line
  }

  function LinesOf(entries: seq<Entry>): set<Bytes> {
    set i | 0 <= i < |entries| :: entries[i].line
  }

  /** Positions of the newest occurrence of each line among the newest `n` entries. */
  function Firsts(entries: seq<Entry>, n: nat): (r: seq<nat>)
    requires n <= |entries|
    ensures forall i :: 0 <= i < |r| ==> r[i] < n
  {
    if n == 0 then []
    else Firsts(entries, n - 1) + if entries[n - 1].line in LinesOf(entries[..n - 1]) then [] else [n - 1]
  }

  function CandidateAt(e: Entry): Candidate { Candidate(e.line, None, None, e.event, 0) }

  /** The view a plan gets: one batch with no shared fields, and the selected entries. */
  function WindowOf(entries: seq<Entry>, limit: nat): Source {
    var picked := Firsts(entries, Min(limit, |entries|));
    Source([NO_FIELDS], seq(|picked|, i requires 0 <= i < |picked| => CandidateAt(entries[picked[i]])))
  }

  /** The window shows each line of the newest entries once, at its newest position, and nothing else. */
  lemma {:induction false} FirstsAreFirst(entries: seq<Entry>, n: nat)
    requires n <= |entries|
    ensures forall a, b :: 0 <= a < b < |Firsts(entries, n)| ==> Firsts(entries, n)[a] < Firsts(entries, n)[b]
    ensures forall i: nat :: i < n ==> (i in Firsts(entries, n) <==> !Repeated(entries, i))
  {
    if n > 0 {
      FirstsAreFirst(entries, n - 1);
      var earlier := Firsts(entries, n - 1);
      forall i: nat | i < n
        ensures i in Firsts(entries, n) <==> !Repeated(entries, i)
      {
        if i == n - 1 {
          LinesBefore(entries, i);
          assert i !in earlier;
        } else {
          assert i in Firsts(entries, n) <==> i in earlier;
        }
      }
    }
  }

  lemma LinesBefore(entries: seq<Entry>, i: nat)
    requires i < |entries|
    ensures entries[i].line in LinesOf(entries[..i]) <==> Repeated(entries, i)
  {
    if Repeated(entries, i) {
      var j :| 0 <= j < i && entries[j].line == entries[i].line;
      assert entries[..i][j].line == entries[i].line;
    }
  }

  lemma LinesGrow(entries: seq<Entry>, i: nat)
    requires i < |entries|
    ensures LinesOf(entries[..i + 1]) == LinesOf(entries[..i]) + {entries[i].line}
  {
    var before, after := entries[..i], entries[..i + 1];
    forall line | line in LinesOf(before)
      ensures line in LinesOf(after)
    {
      var j :| 0 <= j < i && before[j].line == line;
      assert after[j].line == line;
    }
    assert after[i].line == entries[i].line;
    forall j | 0 <= j < i
      ensures after[j].line in LinesOf(before)
    {
      assert before[j] == after[j];
    }
  }

  lemma {:induction false} FirstsOfPrefix(a: seq<Entry>, b: seq<Entry>, n: nat)
    requires n <= |a| && a <= b
    ensures Firsts(a, n) == Firsts(b, n)
  {
    if n > 0 {
      assert a[..n - 1] == b[..n - 1];
      FirstsOfPrefix(a, b, n - 1);
    }
  }

  lemma WindowOfPrefix(entries: seq<Entry>, limit: nat)
    requires limit <= RETENTION_CAP
    ensures WindowOf(Newest(entries, RETENTION_CAP), limit) == WindowOf(entries, limit)
  {
    var kept := Newest(entries, RETENTION_CAP);
    var n := Min(limit, |entries|);
    assert Min(limit, |kept|) == n;
    FirstsOfPrefix(kept, entries, n);
    var picked := Firsts(entries, n);
    assert forall i :: 0 <= i < |picked| ==> kept[picked[i]] == entries[picked[i]];
    assert WindowOf(kept, limit).candidates == WindowOf(entries, limit).candidates;
  }

  // ----- Runs -----

  lemma CappedFollows(i: Index, whole: Index, w: Write)
    requires i == whole.(entries := Newest(whole.entries, RETENTION_CAP))
    ensures Capped(i, w) == Unbounded(whole, w).(entries := Newest(Unbounded(whole, w).entries, RETENTION_CAP))
  {
    if Accepts(i.stamp, w) && w.Append? {
      var added := EntriesOf(w.records);
      assert Newest(added + i.entries, RETENTION_CAP) == Newest(added + whole.entries, RETENTION_CAP);
    }
  }

  /** The capped index is always the newest part of the unbounded one, with the same stamp. */
  lemma {:induction false} RunIsNewest(ws: seq<Write>)
    ensures CappedRun(ws)
            == UnboundedRun(ws).(entries := Newest(UnboundedRun(ws).entries, RETENTION_CAP))
  {
    if ws != [] {
      RunIsNewest(ws[..|ws| - 1]);
      CappedFollows(CappedRun(ws[..|ws| - 1]), UnboundedRun(ws[..|ws| - 1]), ws[|ws| - 1]);
    }
  }

  /** No query can tell that entries were evicted: every window is that of the unbounded history. */
  lemma EvictionIsInvisible(ws: seq<Write>, limit: nat)
    ensures WindowOf(CappedRun(ws).entries, limit) == WindowOf(UnboundedRun(ws).entries, Min(limit, RETENTION_CAP))
  {
    RunIsNewest(ws);
    var kept := CappedRun(ws).entries;
    WindowOfPrefix(UnboundedRun(ws).entries, Min(limit, RETENTION_CAP));
    assert Min(limit, |kept|) == Min(Min(limit, RETENTION_CAP), |kept|);
  }

  /** The stamps of the writes a run accepted, in order. */
  function AcceptedStamps(ws: seq<Write>): seq<int> {
    if ws == [] then []
    else
      AcceptedStamps(ws[..|ws| - 1])
      + if Accepts(CappedRun(ws[..|ws| - 1]).stamp, ws[|ws| - 1]) then [ws[|ws| - 1].generation] else []
  }

  /** Accepted stamps strictly increase, the last one is the index's stamp, and rejected writes change nothing. */
  lemma {:induction false} StampsIncrease(ws: seq<Write>)
    ensures forall a, b :: 0 <= a < b < |AcceptedStamps(ws)| ==> AcceptedStamps(ws)[a] < AcceptedStamps(ws)[b]
    ensures CappedRun(ws).stamp
            == if AcceptedStamps(ws) == [] then None else Some(AcceptedStamps(ws)[|AcceptedStamps(ws)| - 1])
    ensures ws != [] && AcceptedStamps(ws) == AcceptedStamps(ws[..|ws| - 1]) ==>
              CappedRun(ws) == CappedRun(ws[..|ws| - 1])
  {
    if ws != [] {
      StampsIncrease(ws[..|ws| - 1]);
    }
  }

  // ----- What is kept of a record -----

  /** Record `k` of a write: its word is the line, its number the event. */
  ghost predicate HoldsRecord(s: Source, k: nat, e: Entry) {
    k < |s.candidates| && e.line == s.candidates[k].w && e.event == s.candidates[k].n
  }

  /**
   An accepted write puts its records in front in payload order, newest first, and an append keeps the old entries behind
   them; the cap cuts what is oldest. A rejected write changes nothing.
   */
  lemma WriteInOrder(i: Index, w: Write)
    requires |i.entries| <= RETENTION_CAP
    ensures var after, n := Capped(i, w).entries, |w.records.candidates|;
            if !Accepts(i.stamp, w) then Capped(i, w) == i
            else
              && Capped(i, w).stamp == Some(w.generation)
              && |after| == Min(20000, if w.Append? then n + |i.entries| else n)
              && (forall k :: 0 <= k < |after| && k < n ==> HoldsRecord(w.records, k, after[k]))
              && (forall k :: n <= k < |after| ==> after[k] == i.entries[k - n])
  {
  }

  /** Each candidate of a window is the line of the entry it stands for, with that entry's event number. */
  lemma WindowLists(entries: seq<Entry>, limit: nat, k: nat)
    requires k < |WindowOf(entries, limit).candidates|
    ensures k < |Firsts(entries, Min(limit, |entries|))|
    ensures var c, e := WindowOf(entries, limit).candidates[k], entries[Firsts(entries, Min(limit, |entries|))[k]];
            && c.w == c.MatchText() == e.line && c.n == e.event && c.d.None?
            && c.batch < |WindowOf(entries, limit).batches|
  {
    hide Firsts;
  }

  // ----- Windows are sane sources -----

  ghost predicate SaneEntry(e: Entry) { Clean(e.line) && e.line != [] && CleanOption(e.event) }

  ghost predicate SaneEntries(entries: seq<Entry>) {
    forall i :: 0 <= i < |entries| ==> SaneEntry(entries[i])
  }

  lemma CappedKeepsSane(i: Index, w: Write)
    requires SaneEntries(i.entries) && Sane(w.records)
    ensures SaneEntries(Capped(i, w).entries)
  {
    hide Clean, CleanBatch;
    var added := EntriesOf(w.records);
    forall k | 0 <= k < |added|
      ensures SaneEntry(added[k])
    {
      assert SaneCandidate(w.records.candidates[k], |w.records.batches|);
    }
  }

  /** Whatever is indexed, a window is a source the pipeline can plan: separator-free lines, no shared fields. */
  lemma WindowIsSane(entries: seq<Entry>, limit: nat)
    requires SaneEntries(entries)
    ensures Sane(WindowOf(entries, limit))
    ensures |WindowOf(entries, limit).candidates| <= |entries|
  {
    var picked := Firsts(entries, Min(limit, |entries|));
    FirstsAtMost(entries, Min(limit, |entries|));
    EmptyIsClean();
    hide Clean, Firsts;
    forall i | 0 <= i < |picked|
      ensures SaneCandidate(CandidateAt(entries[picked[i]]), 1)
    {
      assert SaneEntry(entries[picked[i]]);
    }
  }

  lemma {:induction false} FirstsAtMost(entries: seq<Entry>, n: nat)
    requires n <= |entries|
    ensures |Firsts(entries, n)| <= n
  {
    if n > 0 {
      FirstsAtMost(entries, n - 1);
    }
  }

  // ----- The index itself -----

  datatype Rejected = Rejected

  class HistoryIndex {
    var entries: seq<Entry>
    var generation: Option<int>

    constructor ()
      ensures Value() == UNINITIALIZED
    {
      entries, generation := [], None;
    }

    function Value(): Index
      reads this
    {
      Index(entries, generation)
    }

    method Accept(stamp: int) returns (r: Result<(), Rejected>)
      ensures r.Ok? <==> generation.None? || generation.value < stamp
    {
      match generation
      case Some(current) => return if stamp <= current then Err(Rejected) else Ok(());
      case None => return Ok(());
    }

    predicate Holds(stamp: int)
      reads this
    {
      generation == Some(stamp)
    }

    method Install(stamp: int, stored: Source) returns (r: Result<(), Rejected>)
      modifies this
      ensures Value() == Capped(old(Value()), Snapshot(stamp, stored))
      ensures r.Ok? <==> Accepts(old(generation), Snapshot(stamp, stored))
    {
      var accepted := Accept(stamp);
      if accepted.Err? {
        return Err(Rejected);
      }
      entries := Newest(EntriesOf(stored), RETENTION_CAP);
      generation := Some(stamp);
      assert EntriesOf(stored) + [] == EntriesOf(stored);
      return Ok(());
    }

    /** Records are pushed to the front from the last one on, so payload order is kept. */
    method Prepend(stamp: int, stored: Source) returns (r: Result<(), Rejected>)
      modifies this
      ensures Value() == Capped(old(Value()), Append(stamp, stored))
      ensures r.Ok? <==> Accepts(old(generation), Append(stamp, stored))
    {
      if generation.None? {
        return Err(Rejected);
      }
      var accepted := Accept(stamp);
      if accepted.Err? {
        return Err(Rejected);
      }
      var added := EntriesOf(stored);
      assert added[|added|..] + entries == entries;
      for i := |added| downto 0
        invariant generation == old(generation)
        invariant entries == added[i..] + old(entries)
      {
        entries := [added[i]] + entries;
      }
      entries := Newest(entries, RETENTION_CAP);
      generation := Some(stamp);
      return Ok(());
    }

    /** The newest `limit` entries, keeping the newest occurrence of each line. */
    method Window(limit: nat) returns (window: Source)
      requires |entries| <= RETENTION_CAP
      ensures window == WindowOf(entries, limit)
    {
      var kept := entries;
      var scan := Min(Min(limit, RETENTION_CAP), |kept|);
      var seen: set<Bytes> := {};
      var selected: seq<nat> := [];
      for i := 0 to scan
        invariant seen == LinesOf(kept[..i])
        invariant selected == Firsts(kept, i)
      {
        if kept[i].line !in seen {
          selected := selected + [i];
        }
        LinesGrow(kept, i);
        seen := seen + {kept[i].line};
      }
      var shown := seq(|selected|, i requires 0 <= i < |selected| && selected[i] < |kept| => CandidateAt(kept[selected[i]]));
      assert shown == WindowOf(kept, limit).candidates;
      window := Source([NO_FIELDS], shown);
    }
  }
}
