/** The data side of the site generator (tools/generate.ts): projecting
    blips onto the visualisation's integer coordinates, extracting the
    history entries of a reporting window as change-log entries, newest
    first, and splitting those into new, moved-in and moved-out lists for the
    changelog page. */
module Generate {
  import opened Common
  import opened Dates
  import opened Schemas
  import Sorting

  // ---------------------------------------------------------------------
  // Visualisation projection
  // ---------------------------------------------------------------------

  function QuadrantIndexOf(b: Blip, config: RadarConfig): Result<nat, string>
  {
    QuadrantToIndex(QuadrantName(b.frontMatter.quadrant), config.quadrants)
  }

  /** One blip as a visualisation point, or the error of its quadrant. */
  function ToZalandoEntry(b: Blip, config: RadarConfig): Result<ZalandoEntry, string>
  {
    match QuadrantIndexOf(b, config)
    case Err(e) => Err(e)
    case Ok(q) => Ok(ZalandoEntry(b.frontMatter.name, q, RingToIndex(b.frontMatter.ring), StatusToMovedFlag(b.frontMatter.status)))
  }

  /** Every blip as a visualisation point, in order; the first blip whose
      quadrant the configuration does not list aborts the whole projection
      with that quadrant's error. */
  function BlipsToZalandoEntries(blips: seq<Blip>, config: RadarConfig): (r: Result<seq<ZalandoEntry>, string>)
    ensures r.Ok? ==> |r.value| == |blips|
  {
    MapAll(blips, b => ToZalandoEntry(b, config))
  }

  /** Point k of the projection is blip k's. */
  predicate ProjectsBlip(e: ZalandoEntry, b: Blip, config: RadarConfig)
  {
    e.labelText == b.frontMatter.name &&
    QuadrantIndexOf(b, config) == Ok(e.quadrant) &&
    e.ring == RingToIndex(b.frontMatter.ring) &&
    e.moved == StatusToMovedFlag(b.frontMatter.status)
  }

  /** The projection succeeds exactly when every blip's quadrant is listed;
      then point k carries blip k's name, quadrant index, ring index and moved
      flag, and otherwise the error is that of the first unlisted quadrant. */
  lemma ZalandoProjection(blips: seq<Blip>, config: RadarConfig)
    ensures var r := BlipsToZalandoEntries(blips, config);
      r.Ok? <==> forall k :: 0 <= k < |blips| ==> QuadrantIndexOf(blips[k], config).Ok?
    ensures var r := BlipsToZalandoEntries(blips, config);
      r.Ok? ==> forall k :: 0 <= k < |blips| ==> ProjectsBlip(r.value[k], blips[k], config)
    ensures var r := BlipsToZalandoEntries(blips, config);
      r.Err? ==> exists k :: 0 <= k < |blips| && QuadrantIndexOf(blips[k], config) == Err(r.error) &&
                            forall j :: 0 <= j < k ==> QuadrantIndexOf(blips[j], config).Ok?
  {
    var f := b => ToZalandoEntry(b, config);
    MapAllSpec(blips, f);
    forall k | 0 <= k < |blips| ensures ToZalandoEntryAgrees(f(blips[k]), blips[k], config) {
      ToZalandoEntrySpec(blips[k], config);
    }
  }

  predicate ToZalandoEntryAgrees(r: Result<ZalandoEntry, string>, b: Blip, config: RadarConfig)
  {
    (r.Ok? <==> QuadrantIndexOf(b, config).Ok?) &&
    (r.Ok? ==> ProjectsBlip(r.value, b, config)) &&
    (r.Err? ==> QuadrantIndexOf(b, config) == Err(r.error))
  }

  lemma ToZalandoEntrySpec(b: Blip, config: RadarConfig)
    ensures ToZalandoEntryAgrees(ToZalandoEntry(b, config), b, config)
  {
  }

  /** With a valid configuration every point satisfies the visualisation's
      schema: quadrant and ring in 0..3, moved in -1..2. */
  lemma ZalandoEntriesInRange(blips: seq<Blip>, config: RadarConfig)
    requires ValidConfig(config)
    requires BlipsToZalandoEntries(blips, config).Ok?
    ensures forall k :: 0 <= k < |blips| ==> ValidZalandoEntry(BlipsToZalandoEntries(blips, config).value[k])
  {
    ZalandoProjection(blips, config);
  }

  // ---------------------------------------------------------------------
  // Change extraction
  // ---------------------------------------------------------------------

  /** Position i of the blip's history is dated strictly after the cutoff. */
  predicate IsRecent(b: Blip, i: int, cutoff: Date)
  {
    0 <= i < |b.frontMatter.history| && b.frontMatter.history[i].date > cutoff
  }

  /** The change-log entry for position i of a blip's history. */
  function EntryChange(b: Blip, i: nat): ChangeLogEntry
    requires i < |b.frontMatter.history|
  {
    var h := b.frontMatter.history;
    ChangeLogEntry(b.frontMatter.name, b.frontMatter.quadrant, h[i].date,
      if i > 0 then Some(h[i - 1].ring) else None,
      h[i].ring, h[i].note, h[i].pr, b.slug)
  }

  /** What a change-log entry says about position i of a blip's history:
      the blip's name, quadrant and slug; the entry's date, ring, note and
      PR; and the ring of the previous position, absent for the first. */
  predicate Records(c: ChangeLogEntry, b: Blip, i: int)
  {
    var h := b.frontMatter.history;
    0 <= i < |h| &&
    c.blipName == b.frontMatter.name && c.quadrant == b.frontMatter.quadrant && c.slug == b.slug &&
    c.date == h[i].date && c.toRing == h[i].ring && c.note == h[i].note && c.pr == h[i].pr &&
    (c.fromRing.None? <==> i == 0) &&
    (i > 0 ==> c.fromRing == Some(h[i - 1].ring))
  }

  lemma EntryChangeRecords(c: ChangeLogEntry, b: Blip, i: nat)
    requires i < |b.frontMatter.history|
    ensures Records(c, b, i) <==> c == EntryChange(b, i)
  {
  }

  /** The changes of one blip's positions below n, in history order. */
  function BlipChanges(b: Blip, cutoff: Date, n: nat): seq<ChangeLogEntry>
    requires n <= |b.frontMatter.history|
  {
    if n == 0 then []
    else BlipChanges(b, cutoff, n - 1) + (if IsRecent(b, n - 1, cutoff) then [EntryChange(b, n - 1)] else [])
  }

  /** The changes of the first k blips, blip by blip, in collection order. */
  function CollectChanges(blips: seq<Blip>, cutoff: Date, k: nat): seq<ChangeLogEntry>
    requires k <= |blips|
  {
    if k == 0 then []
    else CollectChanges(blips, cutoff, k - 1) + BlipChanges(blips[k - 1], cutoff, |blips[k - 1].frontMatter.history|)
  }

  /** Sort key that puts later dates first. */
  function NewestFirst(c: ChangeLogEntry): int { -(c.date as int) }

  /** The positions of a blip's history dated after the cutoff. */
  function RecentPositions(b: Blip, cutoff: Date, n: nat): set<nat>
  {
    set i: nat | i < n && IsRecent(b, i, cutoff)
  }

  /** How many history entries of the first k blips are dated after the
      cutoff. */
  function CountRecent(blips: seq<Blip>, cutoff: Date, k: nat): nat
    requires k <= |blips|
  {
    if k == 0 then 0
    else CountRecent(blips, cutoff, k - 1) + |RecentPositions(blips[k - 1], cutoff, |blips[k - 1].frontMatter.history|)|
  }

  /** The collection pass over every blip's history, then the sort by date,
      newest first. Every change is dated strictly after the cutoff, there is
      one per history entry after the cutoff, and dates never increase along
      the result. */
  method ExtractRecentChanges(blips: seq<Blip>, cutoff: Date) returns (changes: seq<ChangeLogEntry>)
    ensures changes == Sorting.SortBy(CollectChanges(blips, cutoff, |blips|), NewestFirst)
    ensures forall i :: 0 <= i < |changes| ==> changes[i].date > cutoff
    ensures forall i, j :: 0 <= i < j < |changes| ==> changes[i].date >= changes[j].date
    ensures |changes| == CountRecent(blips, cutoff, |blips|)
  {
    changes := [];
    var k := 0;
    while k < |blips|
      invariant 0 <= k <= |blips|
      invariant changes == CollectChanges(blips, cutoff, k)
    {
      var added := CollectBlipChanges(blips[k], cutoff);
      changes := changes + added;
      k := k + 1;
    }
    var collected := changes;
    changes := Sorting.SortBy(collected, NewestFirst);
    SortedChanges(blips, cutoff);
  }

  /** The inner loop over one blip's history. */
  method CollectBlipChanges(b: Blip, cutoff: Date) returns (added: seq<ChangeLogEntry>)
    ensures added == BlipChanges(b, cutoff, |b.frontMatter.history|)
  {
    added := [];
    var i := 0;
    while i < |b.frontMatter.history|
      invariant 0 <= i <= |b.frontMatter.history|
      invariant added == BlipChanges(b, cutoff, i)
    {
      if b.frontMatter.history[i].date > cutoff {
        added := added + [EntryChange(b, i)];
      }
      i := i + 1;
    }
  }

  /** The sorted changes: all after the cutoff, newest first, one per
      history entry after the cutoff. */
  lemma SortedChanges(blips: seq<Blip>, cutoff: Date)
    ensures var changes := Sorting.SortBy(CollectChanges(blips, cutoff, |blips|), NewestFirst);
      (forall i :: 0 <= i < |changes| ==> changes[i].date > cutoff) &&
      (forall i, j :: 0 <= i < j < |changes| ==> changes[i].date >= changes[j].date) &&
      |changes| == CountRecent(blips, cutoff, |blips|)
  {
    var collected := CollectChanges(blips, cutoff, |blips|);
    var changes := Sorting.SortBy(collected, NewestFirst);
    CollectedDates(blips, cutoff, |blips|);
    forall i | 0 <= i < |changes| ensures changes[i].date > cutoff {
      assert changes[i] in multiset(collected);
    }
    forall i, j | 0 <= i < j < |changes| ensures changes[i].date >= changes[j].date {
      assert NewestFirst(changes[i]) <= NewestFirst(changes[j]);
    }
    CollectedCount(blips, cutoff, |blips|);
  }

  lemma {:induction false} BlipChangesDates(b: Blip, cutoff: Date, n: nat)
    requires n <= |b.frontMatter.history|
    ensures forall c :: c in BlipChanges(b, cutoff, n) ==> c.date > cutoff
  {
    if n > 0 {
      BlipChangesDates(b, cutoff, n - 1);
    }
  }

  lemma {:induction false} CollectedDates(blips: seq<Blip>, cutoff: Date, k: nat)
    requires k <= |blips|
    ensures forall c :: c in CollectChanges(blips, cutoff, k) ==> c.date > cutoff
  {
    if k > 0 {
      CollectedDates(blips, cutoff, k - 1);
      BlipChangesDates(blips[k - 1], cutoff, |blips[k - 1].frontMatter.history|);
    }
  }

  lemma {:induction false} BlipChangesCount(b: Blip, cutoff: Date, n: nat)
    requires n <= |b.frontMatter.history|
    ensures |BlipChanges(b, cutoff, n)| == |RecentPositions(b, cutoff, n)|
  {
    if n == 0 {
      assert RecentPositions(b, cutoff, n) == {};
    } else {
      BlipChangesCount(b, cutoff, n - 1);
      if IsRecent(b, n - 1, cutoff) {
        assert RecentPositions(b, cutoff, n) == RecentPositions(b, cutoff, n - 1) + {n - 1};
      } else {
        assert RecentPositions(b, cutoff, n) == RecentPositions(b, cutoff, n - 1);
      }
    }
  }

  /** One change per history entry dated after the cutoff, over all blips. */
  lemma {:induction false} CollectedCount(blips: seq<Blip>, cutoff: Date, k: nat)
    requires k <= |blips|
    ensures |CollectChanges(blips, cutoff, k)| == CountRecent(blips, cutoff, k)
  {
    if k > 0 {
      CollectedCount(blips, cutoff, k - 1);
      BlipChangesCount(blips[k - 1], cutoff, |blips[k - 1].frontMatter.history|);
    }
  }

  lemma {:induction false} BlipChangesMembers(b: Blip, cutoff: Date, n: nat, c: ChangeLogEntry)
    requires n <= |b.frontMatter.history|
    ensures c in BlipChanges(b, cutoff, n) <==> exists i :: 0 <= i < n && IsRecent(b, i, cutoff) && Records(c, b, i)
  {
    if n > 0 {
      BlipChangesMembers(b, cutoff, n - 1, c);
      EntryChangeRecords(c, b, n - 1);
      if IsRecent(b, n - 1, cutoff) && Records(c, b, n - 1) {
        assert c in BlipChanges(b, cutoff, n);
      }
      forall i | 0 <= i < n && IsRecent(b, i, cutoff) && Records(c, b, i)
        ensures c in BlipChanges(b, cutoff, n)
      {
        if i == n - 1 {
          EntryChangeRecords(c, b, i);
        }
      }
    }
  }

  /** A change is collected exactly when it records a history entry, of one
      of the blips, dated after the cutoff. */
  lemma {:induction false} CollectedMembers(blips: seq<Blip>, cutoff: Date, k: nat, c: ChangeLogEntry)
    requires k <= |blips|
    ensures c in CollectChanges(blips, cutoff, k) <==>
      exists j, i :: 0 <= j < k && IsRecent(blips[j], i, cutoff) && Records(c, blips[j], i)
  {
    if k > 0 {
      var b := blips[k - 1];
      CollectedMembers(blips, cutoff, k - 1, c);
      BlipChangesMembers(b, cutoff, |b.frontMatter.history|, c);
      if c in BlipChanges(b, cutoff, |b.frontMatter.history|) {
        var i :| 0 <= i < |b.frontMatter.history| && IsRecent(b, i, cutoff) && Records(c, b, i);
        assert 0 <= k - 1 < k && IsRecent(blips[k - 1], i, cutoff) && Records(c, blips[k - 1], i);
      }
      forall j, i | 0 <= j < k && IsRecent(blips[j], i, cutoff) && Records(c, blips[j], i)
        ensures c in CollectChanges(blips, cutoff, k)
      {
        if j == k - 1 {
          assert c in BlipChanges(b, cutoff, |b.frontMatter.history|);
        }
      }
    }
  }

  /** The extracted list holds exactly the changes that record a history
      entry dated after the cutoff, and each as often as it was collected. */
  lemma RecentChangesMembers(blips: seq<Blip>, cutoff: Date, c: ChangeLogEntry)
    ensures var changes := Sorting.SortBy(CollectChanges(blips, cutoff, |blips|), NewestFirst);
      multiset(changes) == multiset(CollectChanges(blips, cutoff, |blips|)) &&
      (c in changes <==> exists j, i :: 0 <= j < |blips| && IsRecent(blips[j], i, cutoff) && Records(c, blips[j], i))
  {
    var collected := CollectChanges(blips, cutoff, |blips|);
    var changes := Sorting.SortBy(collected, NewestFirst);
    CollectedMembers(blips, cutoff, |blips|, c);
    assert c in changes <==> c in multiset(changes);
    assert c in collected <==> c in multiset(collected);
  }

  /** Changes with the same date keep the order in which they were
      collected (the sort is stable): for each date key, the changes with
      that key form the same subsequence before and after sorting. */
  lemma RecentChangesStable(blips: seq<Blip>, cutoff: Date, key: int)
    ensures Sorting.WithKey(Sorting.SortBy(CollectChanges(blips, cutoff, |blips|), NewestFirst), NewestFirst, key) ==
            Sorting.WithKey(CollectChanges(blips, cutoff, |blips|), NewestFirst, key)
  {
    Sorting.SortByStable(CollectChanges(blips, cutoff, |blips|), NewestFirst, key);
  }

  // ---------------------------------------------------------------------
  // Changelog page lists
  // ---------------------------------------------------------------------

  /** A blip's first-ever history entry. */
  predicate IsNewEntry(c: ChangeLogEntry) { c.fromRing.None? }

  /** A move to a ring nearer Adopt. */
  predicate IsMovedIn(c: ChangeLogEntry)
  {
    c.fromRing.Some? && RingToIndex(c.toRing) < RingToIndex(c.fromRing.value)
  }

  /** A move to a ring nearer Hold. */
  predicate IsMovedOut(c: ChangeLogEntry)
  {
    c.fromRing.Some? && RingToIndex(c.toRing) > RingToIndex(c.fromRing.value)
  }

  /** A re-review that recorded the ring it already had. */
  predicate IsSameRing(c: ChangeLogEntry) { c.fromRing == Some(c.toRing) }

  function NewEntries(changes: seq<ChangeLogEntry>): seq<ChangeLogEntry> { Filter(changes, IsNewEntry) }
  function MovedInEntries(changes: seq<ChangeLogEntry>): seq<ChangeLogEntry> { Filter(changes, IsMovedIn) }
  function MovedOutEntries(changes: seq<ChangeLogEntry>): seq<ChangeLogEntry> { Filter(changes, IsMovedOut) }

  /** Each change lands in exactly one of the three lists, except a
      same-ring re-review, which lands in none. */
  lemma ChangelogListsPartition(changes: seq<ChangeLogEntry>, c: ChangeLogEntry)
    requires c in changes
    ensures IsSameRing(c) ==> c !in NewEntries(changes) && c !in MovedInEntries(changes) && c !in MovedOutEntries(changes)
    ensures !IsSameRing(c) ==>
      (c in NewEntries(changes) && c !in MovedInEntries(changes) && c !in MovedOutEntries(changes)) ||
      (c !in NewEntries(changes) && c in MovedInEntries(changes) && c !in MovedOutEntries(changes)) ||
      (c !in NewEntries(changes) && c !in MovedInEntries(changes) && c in MovedOutEntries(changes))
  {
    FilterMember(changes, IsNewEntry, c);
    FilterMember(changes, IsMovedIn, c);
    FilterMember(changes, IsMovedOut, c);
    if c.fromRing.Some? {
      RingToIndexBijective(c.toRing, c.fromRing.value);
    }
  }

  /** The three lists and the same-ring re-reviews together account for
      every change exactly once. */
  lemma {:induction false} ChangelogListsCount(changes: seq<ChangeLogEntry>)
    ensures |NewEntries(changes)| + |MovedInEntries(changes)| + |MovedOutEntries(changes)| + |Filter(changes, IsSameRing)| == |changes|
  {
    if changes != [] {
      ChangelogListsCount(changes[1..]);
      var c := changes[0];
      if c.fromRing.Some? {
        RingToIndexBijective(c.toRing, c.fromRing.value);
      }
    }
  }

  /** Example: Kubernetes moved from Assess (2023-06-01) to
      Trial (2024-01-15); with a window that starts on 2023-12-01 only the
      second entry is reported, as a move towards adoption. */
  lemma KubernetesExample(content: string, path: string)
    ensures
      var h := [HistoryEntry(20230601, Assess, "Initial evaluation", None), HistoryEntry(20240115, Trial, "Pilot successful", None)];
      var fm := BlipFrontMatter("Kubernetes", Platforms, Trial, MovedIn, None, [], [], None, None, [], h);
      var changes := Sorting.SortBy(CollectChanges([Blip(fm, content, path, "kubernetes")], 20231201, 1), NewestFirst);
      changes == [ChangeLogEntry("Kubernetes", Platforms, 20240115, Some(Assess), Trial, "Pilot successful", None, "kubernetes")] &&
      MovedInEntries(changes) == changes
  {
    var h := [HistoryEntry(20230601, Assess, "Initial evaluation", None), HistoryEntry(20240115, Trial, "Pilot successful", None)];
    var fm := BlipFrontMatter("Kubernetes", Platforms, Trial, MovedIn, None, [], [], None, None, [], h);
    var b := Blip(fm, content, path, "kubernetes");
    var c := ChangeLogEntry("Kubernetes", Platforms, 20240115, Some(Assess), Trial, "Pilot successful", None, "kubernetes");
    KubernetesCollected(b, c);
    Sorting.SortBySorted([c], NewestFirst);
  }

  /** The collection step of the example: of the two entries only the one
      after the cutoff becomes a change. */
  lemma KubernetesCollected(b: Blip, c: ChangeLogEntry)
    requires b.frontMatter.history == [HistoryEntry(20230601, Assess, "Initial evaluation", None), HistoryEntry(20240115, Trial, "Pilot successful", None)]
    requires c == ChangeLogEntry(b.frontMatter.name, b.frontMatter.quadrant, 20240115, Some(Assess), Trial, "Pilot successful", None, b.slug)
    ensures CollectChanges([b], 20231201, 1) == [c]
  {
    assert BlipChanges(b, 20231201, 1) == [];
    assert EntryChange(b, 1) == c;
    assert BlipChanges(b, 20231201, 2) == [c];
  }
}
