/** Sequence-number classification (include/mdfh/sequence_tracker.hpp) and its laws over whole runs,
    32-bit wraparound included. */
module SequenceTracking {
  import opened Protocol

  const MAX_SEQ: nat := 0xFFFF_FFFF

  datatype SeqStatus = InOrder | Duplicate | Gap | OutOfOrder

  datatype SeqStats = SeqStats(total: nat, inOrder: nat, duplicates: nat, outOfOrder: nat, gapEvents: nat, missing: nat)

  datatype SeqState = SeqState(initialized: bool, nextExpected: nat, lastSeq: nat, stats: SeqStats)

  const FRESH: SeqState := SeqState(false, 0, 0, SeqStats(0, 0, 0, 0, 0, 0))

  /** `seq + 1` in 32 bits. */
  function Successor(s: nat): (r: nat)
    ensures r < TWO32
  {
    (s + 1) % TWO32
  }

  /** The classification of one number and the tracker after it. */
  function Observed(t: SeqState, s: nat): (SeqState, SeqStatus) {
    var st := t.stats.(total := t.stats.total + 1);
    if !t.initialized then
      (SeqState(true, Successor(s), s, st.(inOrder := st.inOrder + 1)), InOrder)
    else if s == t.nextExpected then
      (SeqState(true, Successor(s), s, st.(inOrder := st.inOrder + 1)), InOrder)
    else if s > t.nextExpected then
      (SeqState(true, Successor(s), s, st.(missing := st.missing + (s - t.nextExpected), gapEvents := st.gapEvents + 1)), Gap)
    else if s == t.lastSeq then
      (t.(lastSeq := s, stats := st.(duplicates := st.duplicates + 1)), Duplicate)
    else
      (t.(lastSeq := s, stats := st.(outOfOrder := st.outOfOrder + 1)), OutOfOrder)
  }

  /** The numbers the feed handler forwards. */
  predicate Forwards(status: SeqStatus) {
    status == InOrder || status == Gap
  }

  predicate Accepts(t: SeqState, s: nat) {
    !t.initialized || s >= t.nextExpected
  }

  lemma ForwardsIffAccepts(t: SeqState, s: nat)
    ensures Forwards(Observed(t, s).1) <==> Accepts(t, s)
  {
  }

  class SequenceTracker {
    var initialized: bool
    var nextExpected: nat
    var lastSeq: nat
    var stats: SeqStats

    ghost function State(): SeqState
      reads this
    {
      SeqState(initialized, nextExpected, lastSeq, stats)
    }

    constructor ()
      ensures State() == FRESH
    {
      initialized, nextExpected, lastSeq := false, 0, 0;
      stats := SeqStats(0, 0, 0, 0, 0, 0);
    }

    method Observe(s: nat) returns (status: SeqStatus)
      modifies this
      ensures (State(), status) == Observed(old(State()), s)
    {
      stats := stats.(total := stats.total + 1);
      if !initialized {
        initialized := true;
        nextExpected := (s + 1) % TWO32;
        lastSeq := s;
        stats := stats.(inOrder := stats.inOrder + 1);
        return InOrder;
      }
      if s == nextExpected {
        nextExpected := (s + 1) % TWO32;
        stats := stats.(inOrder := stats.inOrder + 1);
        status := InOrder;
      } else if s > nextExpected {
        stats := stats.(missing := stats.missing + (s - nextExpected));
        stats := stats.(gapEvents := stats.gapEvents + 1);
        nextExpected := (s + 1) % TWO32;
        status := Gap;
      } else if s == lastSeq {
        stats := stats.(duplicates := stats.duplicates + 1);
        status := Duplicate;
      } else {
        stats := stats.(outOfOrder := stats.outOfOrder + 1);
        status := OutOfOrder;
      }
      lastSeq := s;
    }
  }

  // ---- Runs ----

  function After(seqs: seq<nat>): SeqState {
    if seqs == [] then FRESH else Observed(After(seqs[..|seqs| - 1]), seqs[|seqs| - 1]).0
  }

  function Accepted(seqs: seq<nat>): seq<nat> {
    if seqs == [] then []
    else
      var (front, last) := (seqs[..|seqs| - 1], seqs[|seqs| - 1]);
      Accepted(front) + if Accepts(After(front), last) then [last] else []
  }

  predicate Exceeds(s: nat, front: seq<nat>) {
    forall k :: 0 <= k < |front| ==> front[k] < s
  }

  /** The strict left-to-right maxima. */
  function Maxima(seqs: seq<nat>): seq<nat> {
    if seqs == [] then []
    else
      var (front, last) := (seqs[..|seqs| - 1], seqs[|seqs| - 1]);
      Maxima(front) + if Exceeds(last, front) then [last] else []
  }

  ghost predicate In32Bits(seqs: seq<nat>) {
    forall k :: 0 <= k < |seqs| ==> seqs[k] < TWO32
  }

  /** One more observation at the end of a run. */
  lemma RunStep(seqs: seq<nat>)
    requires seqs != []
    ensures var (front, last) := (seqs[..|seqs| - 1], seqs[|seqs| - 1]);
      && After(seqs) == Observed(After(front), last).0
      && Accepted(seqs) == (if Accepts(After(front), last) then Accepted(front) + [last] else Accepted(front))
  {
    assert Accepted(seqs[..|seqs| - 1]) + [] == Accepted(seqs[..|seqs| - 1]);
  }

  lemma ObservedChanges(t: SeqState, s: nat)
    requires s < TWO32
    ensures var (u, st) := (Observed(t, s).0, t.stats);
      && u.initialized && u.lastSeq == s
      && u.stats.total == st.total + 1
      && u.nextExpected == (if Accepts(t, s) then Successor(s) else t.nextExpected)
      && u.stats.missing == st.missing + (if t.initialized && s > t.nextExpected then s - t.nextExpected else 0)
      && u.stats.inOrder + u.stats.gapEvents == st.inOrder + st.gapEvents + (if Accepts(t, s) then 1 else 0)
      && u.stats.duplicates + u.stats.outOfOrder == st.duplicates + st.outOfOrder + (if Accepts(t, s) then 0 else 1)
    ensures Successor(s) == if s == MAX_SEQ then 0 else s + 1
  {
  }

  /** Every state reached by a run. */
  lemma {:induction false} AfterInvariant(seqs: seq<nat>)
    requires In32Bits(seqs)
    ensures var t := After(seqs);
      && (t.initialized <==> seqs != [])
      && t.nextExpected < TWO32
      && t.stats.total == |seqs|
      && t.stats.total == t.stats.inOrder + t.stats.gapEvents + t.stats.duplicates + t.stats.outOfOrder
      && |Accepted(seqs)| == t.stats.inOrder + t.stats.gapEvents
  {
    if seqs == [] {
    } else {
      hide After, Accepted, Observed, Accepts;
      var front, last := seqs[..|seqs| - 1], seqs[|seqs| - 1];
      AfterInvariant(front);
      RunStep(seqs);
      ObservedChanges(After(front), last);
    }
  }

  /** `next` is one more than the greatest number in `seqs`. */
  predicate IsNext(next: nat, seqs: seq<nat>) {
    next >= 1 && next - 1 in seqs && Exceeds(next, seqs)
  }

  lemma IsNextAppend(front: seq<nat>, last: nat, next: nat)
    requires IsNext(next, front)
    ensures Exceeds(last, front) <==> last >= next
    ensures IsNext(if last >= next then last + 1 else next, front + [last])
  {
    assert last in front + [last] && next - 1 in front + [last];
  }

  lemma IsNextOne(s: nat)
    ensures IsNext(s + 1, [s])
  {
  }

  lemma MaximaStep(seqs: seq<nat>)
    requires seqs != []
    ensures var (front, last) := (seqs[..|seqs| - 1], seqs[|seqs| - 1]);
      Maxima(seqs) == if Exceeds(last, front) then Maxima(front) + [last] else Maxima(front)
  {
    assert Maxima(seqs[..|seqs| - 1]) + [] == Maxima(seqs[..|seqs| - 1]);
  }

  /** While 2^32 - 1 has not been seen, the tracker expects one more than the greatest number so far. */
  lemma {:induction false} BelowTheTop(seqs: seq<nat>)
    requires In32Bits(seqs) && MAX_SEQ !in seqs && seqs != []
    ensures IsNext(After(seqs).nextExpected, seqs)
    ensures Accepted(seqs) == Maxima(seqs)
  {
    hide Observed, Successor, After, Accepted, Maxima, IsNext, Exceeds;
    var front, last := seqs[..|seqs| - 1], seqs[|seqs| - 1];
    assert seqs == front + [last] && last in seqs && last < MAX_SEQ;
    AfterInvariant(front);
    RunStep(seqs);
    MaximaStep(seqs);
    ObservedChanges(After(front), last);
    if front == [] {
      NoneYet();
      IsNextOne(last);
    } else {
      BelowTheTop(front);
      IsNextAppend(front, last, After(front).nextExpected);
    }
  }

  /** A run forwards exactly the strict left-to-right maxima of what it observes if and only if
      2^32 - 1 is nowhere but in last place: once accepted it wraps the expected number to 0, and
      everything after it is forwarded. */
  lemma ForwardedAreMaxima(seqs: seq<nat>)
    requires In32Bits(seqs)
    ensures Accepted(seqs) == Maxima(seqs) <==> seqs == [] || MAX_SEQ !in seqs[..|seqs| - 1]
  {
    if seqs != [] {
      var front, last := seqs[..|seqs| - 1], seqs[|seqs| - 1];
      if MAX_SEQ in front {
        MoreThanMaxima(seqs);
      } else {
        LastIsFree(seqs);
      }
    }
  }

  /** Where it does not: after 2^32 - 1 even the stale 0 is forwarded. */
  lemma WrapForwardsStale()
    ensures Accepted([MAX_SEQ, 0]) == [MAX_SEQ, 0] && Maxima([MAX_SEQ, 0]) == [MAX_SEQ]
  {
    var one, both := [MAX_SEQ], [MAX_SEQ, 0];
    assert one[..0] == [] && both[..1] == one && one[0] == MAX_SEQ;
    RunStep(one);
    RunStep(both);
    MaximaStep(one);
    MaximaStep(both);
    NoneYet();
    assert !Exceeds(0, one) && Exceeds(MAX_SEQ, []);
    assert Maxima([]) == [];
    hide Maxima;
    assert After(one).nextExpected == 0 && Accepted(one) == [] + [MAX_SEQ] && Maxima(one) == [] + [MAX_SEQ];
  }

  /** Acceptance in terms of the numbers alone. */
  lemma AcceptsIffExceeds(front: seq<nat>, last: nat)
    requires In32Bits(front) && MAX_SEQ !in front
    ensures Accepts(After(front), last) <==> Exceeds(last, front)
  {
    AfterInvariant(front);
    if front != [] {
      BelowTheTop(front);
      IsNextAppend(front, last, After(front).nextExpected);
    }
  }

  lemma LastIsFree(seqs: seq<nat>)
    requires In32Bits(seqs) && seqs != [] && MAX_SEQ !in seqs[..|seqs| - 1]
    ensures Accepted(seqs) == Maxima(seqs)
  {
    hide After, Accepts, Exceeds;
    var front, last := seqs[..|seqs| - 1], seqs[|seqs| - 1];
    AcceptsIffExceeds(front, last);
    if front != [] {
      BelowTheTop(front);
    }
  }

  lemma {:induction false} MoreThanMaxima(seqs: seq<nat>)
    requires In32Bits(seqs) && seqs != [] && MAX_SEQ in seqs[..|seqs| - 1]
    ensures |Accepted(seqs)| > |Maxima(seqs)|
  {
    hide Observed;
    var front, last := seqs[..|seqs| - 1], seqs[|seqs| - 1];
    assert !Exceeds(last, front) by {
      var k :| 0 <= k < |front| && front[k] == MAX_SEQ;
      assert last < TWO32;
    }
    var n := |front| - 1;
    if MAX_SEQ in front[..n] {
      MoreThanMaxima(front);
    } else {
      assert front == front[..n] + [front[n]] && front[n] == MAX_SEQ;
      LastIsFree(front);
      AfterInvariant(front[..n]);
      ObservedChanges(After(front[..n]), MAX_SEQ);
      AfterInvariant(front);
    }
  }

  function CountTop(s: seq<nat>): nat {
    if s == [] then 0 else CountTop(s[..|s| - 1]) + if s[|s| - 1] == MAX_SEQ then 1 else 0
  }

  lemma CountTopAppend(s: seq<nat>, x: nat)
    ensures CountTop(s + [x]) == CountTop(s) + if x == MAX_SEQ then 1 else 0
  {
    assert (s + [x])[..|s|] == s;
  }

  /** Gap accounting in every run: each acceptance of 2^32 - 1 wraps the expected number once. */
  lemma {:induction false} GapAccounting(seqs: seq<nat>)
    requires In32Bits(seqs) && seqs != []
    ensures var t := After(seqs);
      seqs[0] + |Accepted(seqs)| + t.stats.missing == t.nextExpected + TWO32 * CountTop(Accepted(seqs))
  {
    hide Observed, CountTop, Successor;
    var front, last := seqs[..|seqs| - 1], seqs[|seqs| - 1];
    AfterInvariant(front);
    RunStep(seqs);
    ObservedChanges(After(front), last);
    CountTopAppend(Accepted(front), last);
    if front == [] {
      NoneYet();
    } else {
      hide After, Accepted;
      GapAccounting(front);
    }
  }

  lemma NoneYet()
    ensures forall s :: Exceeds(s, [])
    ensures After([]) == FRESH && Accepted([]) == [] && Maxima([]) == [] && CountTop([]) == 0
  {
  }

  function Range(lo: nat, hi: nat): (r: set<nat>)
    ensures forall v :: v in r <==> lo <= v < hi
    ensures |r| == if lo <= hi then hi - lo else 0
  {
    if lo >= hi then {} else Range(lo, hi - 1) + {hi - 1}
  }

  function Missed(lo: nat, hi: nat, accepted: seq<nat>): set<nat> {
    set v | v in Range(lo, hi) && v !in accepted
  }

  /** The numbers a run should have seen between its first and the one it expects next, and did not accept. */
  function NeverAccepted(seqs: seq<nat>): set<nat>
    requires seqs != []
  {
    Missed(seqs[0], After(seqs).nextExpected, Accepted(seqs))
  }

  predicate Within(accepted: seq<nat>, lo: nat, hi: nat) {
    lo < hi && forall v :: v in accepted ==> lo <= v < hi
  }

  lemma MissedGrows(lo: nat, next: nat, last: nat, accepted: seq<nat>)
    requires Within(accepted, lo, next) && next <= last
    ensures |Missed(lo, last + 1, accepted + [last])| == |Missed(lo, next, accepted)| + last - next
    ensures Within(accepted + [last], lo, last + 1)
  {
    hide Range;
    assert forall v :: v in accepted + [last] <==> v in accepted || v == last;
    assert Missed(lo, last + 1, accepted + [last]) == Missed(lo, next, accepted) + Range(next, last);
  }

  /** Without wraparound `missing` counts exactly those. */
  lemma {:induction false} MissingCountsGaps(seqs: seq<nat>)
    requires In32Bits(seqs) && seqs != [] && MAX_SEQ !in seqs
    ensures After(seqs).stats.missing == |NeverAccepted(seqs)|
    ensures Within(Accepted(seqs), seqs[0], After(seqs).nextExpected)
  {
    hide Observed, Successor, Range, After, Accepted, Within, Missed;
    var front, last := seqs[..|seqs| - 1], seqs[|seqs| - 1];
    assert seqs == front + [last] && last in seqs;
    AfterInvariant(front);
    RunStep(seqs);
    NoneYet();
    ObservedChanges(After(front), last);
    if front == [] {
      MissedFirst(last);
    } else {
      MissingCountsGaps(front);
      if Accepts(After(front), last) {
        MissedGrows(seqs[0], After(front).nextExpected, last, Accepted(front));
      }
    }
  }

  lemma MissedFirst(first: nat)
    ensures Missed(first, first + 1, [first]) == {} && Within([first], first, first + 1)
  {
  }

  // ---- Statuses by the numbers ----

  /** One more, in 32 bits, than the last number accepted. */
  function Awaited(seqs: seq<nat>): nat
    requires Accepted(seqs) != []
  {
    Successor(Accepted(seqs)[|Accepted(seqs)| - 1])
  }

  /** The tracker remembers the last number seen and the one awaited. */
  lemma {:induction false} AfterRemembers(seqs: seq<nat>)
    requires In32Bits(seqs) && seqs != []
    ensures Accepted(seqs) != [] && After(seqs).initialized
    ensures After(seqs).lastSeq == seqs[|seqs| - 1] && After(seqs).nextExpected == Awaited(seqs)
  {
    hide Observed, Successor;
    var front, last := seqs[..|seqs| - 1], seqs[|seqs| - 1];
    RunStep(seqs);
    ObservedChanges(After(front), last);
    if front == [] {
      NoneYet();
    } else {
      hide After, Accepted;
      AfterRemembers(front);
    }
  }

  /** The status of `s` after the numbers `front`: in order when it is the first or the one awaited, a gap
      when it is greater, and otherwise a duplicate exactly when it repeats the number just before it. */
  lemma StatusByNumbers(front: seq<nat>, s: nat)
    requires In32Bits(front + [s])
    ensures var status := Observed(After(front), s).1;
      if front == [] then status == InOrder
      else
        && Accepted(front) != []
        && (status == InOrder <==> s == Awaited(front))
        && (status == Gap <==> s > Awaited(front))
        && (status == Duplicate <==> s < Awaited(front) && s == front[|front| - 1])
        && (status == OutOfOrder <==> s < Awaited(front) && s != front[|front| - 1])
  {
    hide Successor, Awaited, Accepted;
    if front == [] {
      NoneYet();
    } else {
      assert forall k :: 0 <= k < |front| ==> (front + [s])[k] == front[k];
      AfterRemembers(front);
    }
  }

  /** How many of the numbers of a run have this status. */
  function OfStatus(seqs: seq<nat>, status: SeqStatus): nat {
    if seqs == [] then 0
    else
      var (front, last) := (seqs[..|seqs| - 1], seqs[|seqs| - 1]);
      OfStatus(front, status) + if Observed(After(front), last).1 == status then 1 else 0
  }

  /** How far the gaps of a run jump ahead. */
  function Skipped(seqs: seq<nat>): nat {
    if |seqs| <= 1 then 0
    else
      var (front, last) := (seqs[..|seqs| - 1], seqs[|seqs| - 1]);
      Skipped(front) + if Accepted(front) != [] && last > Awaited(front) then last - Awaited(front) else 0
  }

  /** Each statistic counts its status, and `missing` adds up the jumps. */
  lemma {:induction false} StatsByStatus(seqs: seq<nat>)
    requires In32Bits(seqs)
    ensures After(seqs).stats == SeqStats(|seqs|, OfStatus(seqs, InOrder), OfStatus(seqs, Duplicate),
                                          OfStatus(seqs, OutOfOrder), OfStatus(seqs, Gap), Skipped(seqs))
  {
    hide Successor, Awaited, Accepted;
    if seqs == [] {
    } else {
      var front, last := seqs[..|seqs| - 1], seqs[|seqs| - 1];
      StatsByStatus(front);
      if front == [] {
        NoneYet();
      } else {
        AfterRemembers(front);
      }
    }
  }
}
