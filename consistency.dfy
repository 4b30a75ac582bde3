/** The advisory history checks of src/schemas.ts (validateHistoryConsistency):
    the last history entry must carry the blip's current ring (H1), and no
    entry may be dated before the one stored just before it (H2). Each failed
    check is one warning; the blip stays usable either way. */
module Consistency {
  import opened Common
  import opened Dates
  import opened Schemas
  import Sorting

  /** A failed check: the rings of H1, or the two dates of an H2 pair (the
      later entry's date first, then its predecessor's). */
  datatype Warning = RingMismatch(latest: Ring, current: Ring) | OutOfOrder(date: Date, previous: Date)

  /** The stored history is in non-decreasing date order. */
  predicate Chronological(h: seq<HistoryEntry>)
  {
    Sorting.SortedBy(h, HistoryDate)
  }

  /** H1: the warning about the last entry's ring, if it differs. */
  function RingWarnings(fm: BlipFrontMatter): seq<Warning>
  {
    var h := fm.history;
    if |h| > 0 && h[|h| - 1].ring != fm.ring then [RingMismatch(h[|h| - 1].ring, fm.ring)] else []
  }

  /** H2 for the pairs (i - 1, i) with i < n, in stored order. */
  function PairWarnings(h: seq<HistoryEntry>, n: nat): seq<Warning>
    requires n <= |h|
  {
    if n <= 1 then []
    else PairWarnings(h, n - 1) + (if h[n - 1].date < h[n - 2].date then [OutOfOrder(h[n - 1].date, h[n - 2].date)] else [])
  }

  function OrderWarnings(h: seq<HistoryEntry>): seq<Warning>
  {
    PairWarnings(h, |h|)
  }

  /** Everything the checker reports for one blip. */
  function HistoryWarnings(fm: BlipFrontMatter): seq<Warning>
  {
    if fm.history == [] then [] else RingWarnings(fm) + OrderWarnings(fm.history)
  }

  /** The checks, as the source runs them: the H1 comparison, then one pass
      over the adjacent pairs collecting a warning per pair out of order.
      The blip is valid exactly when nothing was collected, which is exactly
      when its history is empty or agrees with its ring and is in date
      order. */
  method ValidateHistoryConsistency(fm: BlipFrontMatter) returns (valid: bool, errors: seq<Warning>)
    ensures errors == HistoryWarnings(fm)
    ensures valid <==> errors == []
    ensures valid <==> fm.history == [] || (fm.history[|fm.history| - 1].ring == fm.ring && Chronological(fm.history))
  {
    var h := fm.history;
    errors := [];
    if |h| > 0 {
      var latest := h[|h| - 1];
      if latest.ring != fm.ring {
        errors := errors + [RingMismatch(latest.ring, fm.ring)];
      }
      var i := 1;
      while i < |h|
        invariant 1 <= i <= |h|
        invariant errors == RingWarnings(fm) + PairWarnings(h, i)
      {
        if h[i].date < h[i - 1].date {
          errors := errors + [OutOfOrder(h[i].date, h[i - 1].date)];
        }
        i := i + 1;
      }
    }
    valid := |errors| == 0;
    NoOrderWarningsIffChronological(h);
  }

  lemma {:induction false} PairWarningsEmpty(h: seq<HistoryEntry>, n: nat)
    requires n <= |h|
    ensures PairWarnings(h, n) == [] <==> forall i :: 0 <= i < n - 1 ==> h[i].date <= h[i + 1].date
  {
    if n > 1 {
      PairWarningsEmpty(h, n - 1);
    }
  }

  /** H2 reports nothing exactly when the history is in date order; equal
      dates are never reported. */
  lemma NoOrderWarningsIffChronological(h: seq<HistoryEntry>)
    ensures OrderWarnings(h) == [] <==> Chronological(h)
  {
    PairWarningsEmpty(h, |h|);
    Sorting.AdjacentSortedIsSorted(h, HistoryDate);
  }

  /** Position i is dated strictly before position i - 1. */
  predicate IsDescent(h: seq<HistoryEntry>, i: int)
  {
    1 <= i < |h| && h[i].date < h[i - 1].date
  }

  /** The warning H2 gives for the pair ending at position i. */
  function PairWarning(h: seq<HistoryEntry>, i: int): Warning
    requires 1 <= i < |h|
  {
    OutOfOrder(h[i].date, h[i - 1].date)
  }

  /** The out-of-order positions below n. */
  function Descents(h: seq<HistoryEntry>, n: nat): set<nat>
  {
    set i: nat | i < n && IsDescent(h, i)
  }

  /** H2 reports one warning per out-of-order pair. */
  lemma {:induction false} OrderWarningsCount(h: seq<HistoryEntry>, n: nat)
    requires n <= |h|
    ensures |PairWarnings(h, n)| == |Descents(h, n)|
  {
    if n > 1 {
      OrderWarningsCount(h, n - 1);
      if IsDescent(h, n - 1) {
        assert Descents(h, n) == Descents(h, n - 1) + {n - 1};
      } else {
        assert Descents(h, n) == Descents(h, n - 1);
      }
    } else {
      assert Descents(h, n) == {} by {
        forall i: nat | i < n ensures !IsDescent(h, i) { }
      }
    }
  }

  /** Each H2 warning names the two dates of an out-of-order pair, and each
      such pair is reported. */
  lemma {:induction false} OrderWarningsMembers(h: seq<HistoryEntry>, n: nat, w: Warning)
    requires n <= |h|
    ensures w in PairWarnings(h, n) <==> exists i :: 1 <= i < n && IsDescent(h, i) && w == PairWarning(h, i)
  {
    if n > 1 {
      OrderWarningsMembers(h, n - 1, w);
      if w == PairWarning(h, n - 1) && IsDescent(h, n - 1) {
        assert w in PairWarnings(h, n);
      }
    }
  }

  predicate IsRingMismatch(w: Warning) { w.RingMismatch? }

  /** H1 contributes exactly one warning, naming the last entry's ring and
      the current ring, when they differ; none otherwise. */
  lemma RingMismatchExact(fm: BlipFrontMatter)
    ensures var h := fm.history;
      Filter(HistoryWarnings(fm), IsRingMismatch) ==
        if h != [] && h[|h| - 1].ring != fm.ring then [RingMismatch(h[|h| - 1].ring, fm.ring)] else []
  {
    var h := fm.history;
    if h != [] {
      forall i | 0 <= i < |OrderWarnings(h)| ensures !IsRingMismatch(OrderWarnings(h)[i]) {
        OrderWarningsMembers(h, |h|, OrderWarnings(h)[i]);
      }
      FilterNone(OrderWarnings(h), IsRingMismatch);
      FilterAppend(RingWarnings(fm), OrderWarnings(h), IsRingMismatch);
    }
  }
}
