/** The review step of tools/update-status.ts: finding a blip by a
    normalised form of its name, deriving the new status from the ring
    change, and the one atomic edit that appends a history entry and sets
    ring, status and last-reviewed date together. */
module UpdateStatus {
  import opened Common
  import opened Dates
  import opened Schemas
  import opened Consistency
  import Generate

  /** The status a ring change earns: unchanged, moved towards Adopt (in)
      or towards Hold (out). A review never makes a blip new. */
  function DetectStatus(currentRing: Ring, newRing: Ring): (s: Status)
    ensures s == NoChange <==> currentRing == newRing
    ensures s == MovedIn <==> RingToIndex(newRing) < RingToIndex(currentRing)
    ensures s == MovedOut <==> RingToIndex(newRing) > RingToIndex(currentRing)
    ensures s != New
  {
    RingToIndexBijective(currentRing, newRing);
    if currentRing == newRing then NoChange
    else if RingToIndex(newRing) < RingToIndex(currentRing) then MovedIn
    else MovedOut
  }

  /** The changelog page classifies a recorded transition the way a review
      would have set the status for it. */
  lemma ChangelogAgreesWithDetectStatus(c: ChangeLogEntry)
    requires c.fromRing.Some?
    ensures Generate.IsMovedIn(c) <==> DetectStatus(c.fromRing.value, c.toRing) == MovedIn
    ensures Generate.IsMovedOut(c) <==> DetectStatus(c.fromRing.value, c.toRing) == MovedOut
    ensures Generate.IsSameRing(c) <==> DetectStatus(c.fromRing.value, c.toRing) == NoChange
  {
  }

  // ---------------------------------------------------------------------
  // Name normalisation used to find a blip
  // ---------------------------------------------------------------------

  /** Replaces every maximal run of characters outside `[a-z0-9]` by one
      `-`; `inRun` says the previous character already opened such a run. */
  function CollapseRuns(s: string, inRun: bool): (r: string)
    ensures forall i :: 0 <= i < |r| ==> IsLowerAlnum(r[i]) || r[i] == '-'
    ensures forall i :: 0 <= i < |r| - 1 ==> r[i] != '-' || r[i + 1] != '-'
    ensures inRun && r != [] ==> r[0] != '-'
  {
    if s == [] then []
    else if IsLowerAlnum(s[0]) then [s[0]] + CollapseRuns(s[1..], false)
    else if inRun then CollapseRuns(s[1..], true)
    else ['-'] + CollapseRuns(s[1..], true)
  }

  /** `name.toLowerCase().replace(/[^a-z0-9]+/g, "-")`: only lower-case
      letters, digits and single dashes remain. */
  function NormalizeName(name: string): (r: string)
    ensures forall i :: 0 <= i < |r| ==> IsLowerAlnum(r[i]) || r[i] == '-'
    ensures forall i :: 0 <= i < |r| - 1 ==> r[i] != '-' || r[i + 1] != '-'
  {
    CollapseRuns(Lower(name), false)
  }

  lemma {:induction false} CollapseRunsFixed(t: string, inRun: bool)
    requires forall i :: 0 <= i < |t| ==> IsLowerAlnum(t[i]) || t[i] == '-'
    requires forall i :: 0 <= i < |t| - 1 ==> t[i] != '-' || t[i + 1] != '-'
    requires inRun && t != [] ==> t[0] != '-'
    ensures CollapseRuns(t, inRun) == t
  {
    if t != [] {
      if t[0] != '-' {
        CollapseRunsFixed(t[1..], false);
      } else {
        assert |t| > 1 ==> t[1] != '-';
        CollapseRunsFixed(t[1..], true);
      }
    }
  }

  /** Normalising twice is normalising once, so searching with an already
      normalised name (a slug-like form) finds the blip it came from. */
  lemma NormalizeNameIdempotent(name: string)
    ensures NormalizeName(NormalizeName(name)) == NormalizeName(name)
  {
    var t := NormalizeName(name);
    assert Lower(t) == t;
    CollapseRunsFixed(t, false);
  }

  /** Whether the text before a position ends inside a run of characters
      outside `[a-z0-9]` (`inRun` stands for the text before `a`). */
  predicate EndsInRun(a: string, inRun: bool)
  {
    if a == [] then inRun else !IsLowerAlnum(a[|a| - 1])
  }

  /** Collapsing works piece by piece: the second piece is collapsed
      knowing whether the first ended inside a run. */
  lemma {:induction false} CollapseRunsAppend(a: string, b: string, inRun: bool)
    ensures CollapseRuns(a + b, inRun) == CollapseRuns(a, inRun) + CollapseRuns(b, EndsInRun(a, inRun))
  {
    if a == [] {
      assert a + b == b;
    } else {
      assert (a + b)[0] == a[0] && (a + b)[1..] == a[1..] + b;
      var next := !IsLowerAlnum(a[0]);
      CollapseRunsAppend(a[1..], b, next);
      assert EndsInRun(a[1..], next) == EndsInRun(a, inRun);
    }
  }

  /** A maximal run of characters outside `[a-z0-9]` becomes exactly one
      dash, or nothing when the run continues one already replaced. */
  lemma {:induction false} CollapseSeparatorRun(w: string, inRun: bool)
    requires w != [] && forall i :: 0 <= i < |w| ==> !IsLowerAlnum(w[i])
    ensures CollapseRuns(w, inRun) == if inRun then [] else "-"
  {
    if |w| > 1 {
      CollapseSeparatorRun(w[1..], true);
    }
  }

  /** The characters of `[a-z0-9]` are kept, all of them and in order. */
  lemma {:induction false} CollapseRunsKeepsAlnum(s: string, inRun: bool)
    ensures Filter(CollapseRuns(s, inRun), IsLowerAlnum) == Filter(s, IsLowerAlnum)
  {
    if s != [] {
      var rest := CollapseRuns(s[1..], !IsLowerAlnum(s[0]));
      CollapseRunsKeepsAlnum(s[1..], !IsLowerAlnum(s[0]));
      if IsLowerAlnum(s[0]) {
        assert ([s[0]] + rest)[0] == s[0] && ([s[0]] + rest)[1..] == rest;
      } else if !inRun {
        assert (['-'] + rest)[0] == '-' && (['-'] + rest)[1..] == rest;
      }
    }
  }

  /** Normalising keeps exactly the lower-cased letters and digits of the
      name, in order; everything else it writes is a dash. */
  lemma NormalizeNameKeepsAlnum(name: string)
    ensures Filter(NormalizeName(name), IsLowerAlnum) == Filter(Lower(name), IsLowerAlnum)
  {
    CollapseRunsKeepsAlnum(Lower(name), false);
  }

  /** A name made only of lower-case letters and digits is its own
      normalised form. */
  lemma NormalizeNameFixed(t: string)
    requires forall i :: 0 <= i < |t| ==> IsLowerAlnum(t[i])
    ensures NormalizeName(t) == t
  {
    assert Lower(t) == t;
    CollapseRunsFixed(t, false);
  }

  /** Each maximal run of other characters between two pieces of a name
      becomes one dash: normalising `a + w + b`, where `w` is such a run
      and `a` ends in a letter or digit, is normalising `a`, a dash, and
      collapsing `b` as the continuation of the run. */
  lemma NormalizeNameSplitsAtRun(a: string, w: string, b: string)
    requires a != [] && IsLowerAlnum(LowerChar(a[|a| - 1]))
    requires w != [] && forall i :: 0 <= i < |w| ==> !IsLowerAlnum(LowerChar(w[i]))
    ensures NormalizeName(a + w + b) == NormalizeName(a) + "-" + CollapseRuns(Lower(b), true)
  {
    var la, lw, lb := Lower(a), Lower(w), Lower(b);
    LowerAppend(a + w, b);
    LowerAppend(a, w);
    CollapseRunsAppend(la + lw, lb, false);
    CollapseRunsAppend(la, lw, false);
    assert EndsInRun(la, false) == false;
    CollapseSeparatorRun(lw, false);
    assert EndsInRun(la + lw, false) by {
      assert (la + lw)[|la + lw| - 1] == lw[|lw| - 1];
    }
  }

  lemma LowerAppend(a: string, b: string)
    ensures Lower(a + b) == Lower(a) + Lower(b)
  {
    assert forall i :: 0 <= i < |a + b| ==> Lower(a + b)[i] == (Lower(a) + Lower(b))[i];
  }

  /** Example: "A b!" is searched for as "a-b-". */
  lemma NormalizeNameExample()
    ensures NormalizeName("A b!") == "a-b-"
  {
    assert Lower("A b!") == "a b!";
  }

  /** The first parseable blip file whose normalised name equals the
      normalised search term; files that fail validation are `None` and are
      skipped. */
  function FindBlipFile(files: seq<Option<BlipFrontMatter>>, search: string): (r: Option<nat>)
    ensures r.Some? ==> r.value < |files| && files[r.value].Some?
    ensures r.Some? ==> NormalizeName(files[r.value].value.name) == NormalizeName(search)
    ensures r.Some? ==> forall k :: 0 <= k < r.value && files[k].Some? ==>
      NormalizeName(files[k].value.name) != NormalizeName(search)
    ensures r.None? <==> forall k :: 0 <= k < |files| && files[k].Some? ==>
      NormalizeName(files[k].value.name) != NormalizeName(search)
  {
    if files == [] then None
    else if files[0].Some? && NormalizeName(files[0].value.name) == NormalizeName(search) then Some(0)
    else
      var rest := FindBlipFile(files[1..], search);
      assert forall k :: 1 <= k < |files| ==> files[k] == files[1..][k - 1];
      if rest.Some? then Some(rest.value + 1) else None
  }

  // ---------------------------------------------------------------------
  // The review edit
  // ---------------------------------------------------------------------

  /** The note of the new history entry: the reason, followed by
      " (reviewed by X)" when a reviewer was given. */
  function ReviewNote(note: string, reviewedBy: string): (r: string)
    ensures |note| <= |r| && r[..|note|] == note
    ensures r == note <==> reviewedBy == []
    ensures reviewedBy != [] ==> r[|note|..] == " (reviewed by " + reviewedBy + ")"
  {
    if reviewedBy == [] then note else note + " (reviewed by " + reviewedBy + ")"
  }

  /** The front matter after a review on `today`: the new ring, the status
      derived from the ring change and the review date are set together, and
      exactly one entry for the review is appended to the history; nothing
      else changes. */
  function UpdatedFrontMatter(fm: BlipFrontMatter, newRing: Ring, note: string, pr: string, reviewedBy: string, today: Date): (r: BlipFrontMatter)
    ensures |r.history| == |fm.history| + 1 && r.history[..|fm.history|] == fm.history
    ensures r.history[|fm.history|] == HistoryEntry(today, newRing, ReviewNote(note, reviewedBy), PrField(pr))
    ensures r.ring == newRing && r.status == DetectStatus(fm.ring, newRing) && r.lastReviewed == Some(today)
    ensures r == fm.(ring := newRing, status := r.status, lastReviewed := Some(today), history := r.history)
  {
    var entry := HistoryEntry(today, newRing, ReviewNote(note, reviewedBy), PrField(pr));
    fm.(ring := newRing, status := DetectStatus(fm.ring, newRing), lastReviewed := Some(today), history := fm.history + [entry])
  }

  /** After a review the last history entry carries the current ring, so
      the ring check (H1) has nothing to report. */
  lemma UpdateSatisfiesRingCheck(fm: BlipFrontMatter, newRing: Ring, note: string, pr: string, reviewedBy: string, today: Date)
    ensures var r := UpdatedFrontMatter(fm, newRing, note, pr, reviewedBy, today);
      r.history[|r.history| - 1].ring == r.ring && RingWarnings(r) == []
  {
  }

  /** A review dated no earlier than every recorded entry keeps a
      chronological history chronological, so the updated blip passes both
      checks. */
  lemma UpdateKeepsHistoryConsistent(fm: BlipFrontMatter, newRing: Ring, note: string, pr: string, reviewedBy: string, today: Date)
    requires Chronological(fm.history)
    requires forall i :: 0 <= i < |fm.history| ==> fm.history[i].date <= today
    ensures HistoryWarnings(UpdatedFrontMatter(fm, newRing, note, pr, reviewedBy, today)) == []
  {
    var r := UpdatedFrontMatter(fm, newRing, note, pr, reviewedBy, today);
    assert Chronological(r.history);
    NoOrderWarningsIffChronological(r.history);
  }

  /** With the inputs the prompts accept (a non-empty reason, a PR that is
      empty or matches `^#?\d+$`), the updated front matter is well formed, so
      writing it back and validating it again yields exactly it. */
  lemma UpdateRoundTrips(fm: BlipFrontMatter, newRing: Ring, note: string, pr: string, reviewedBy: string, today: Date, isUrl: string -> bool)
    requires WellFormedFrontMatter(fm, isUrl)
    requires note != []
    requires pr == [] || IsPrInput(pr)
    ensures ParseBlipFrontMatter(FrontMatterToRaw(UpdatedFrontMatter(fm, newRing, note, pr, reviewedBy, today)), isUrl) ==
            Ok(UpdatedFrontMatter(fm, newRing, note, pr, reviewedBy, today))
  {
    var r := UpdatedFrontMatter(fm, newRing, note, pr, reviewedBy, today);
    if pr != [] {
      PrFieldIsPrRef(pr);
    }
    assert WellFormedEntry(r.history[|fm.history|]);
    assert forall j :: 0 <= j < |fm.history| ==> r.history[j] == fm.history[j];
    assert WellFormedFrontMatter(r, isUrl);
    FrontMatterRoundTrip(r, isUrl);
  }
}
