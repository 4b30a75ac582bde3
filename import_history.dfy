/** tools/import-history.ts: CSV rows are grouped by blip name in order of
    first appearance; each group's rows are validated as history entries,
    rows whose date the blip already records are dropped, and the rest are
    merged into the history, which is then stably sorted by ascending date.
    Only the history of a blip changes. */
module ImportHistory {
  import opened Common
  import opened Dates
  import opened Schemas
  import opened Consistency
  import opened Sorting
  import UpdateStatus

  /** One CSV record; an absent `pr` column reads as the empty string. */
  datatype CsvRow = CsvRow(name: string, date: string, ring: string, note: string, pr: string)

  // ---------------------------------------------------------------------
  // Grouping by name
  // ---------------------------------------------------------------------

  /** The distinct names of `rows` in order of first appearance: the key
      order of the grouping map. */
  function NamesInOrder(rows: seq<CsvRow>): (r: seq<string>)
    ensures |r| <= |rows|
  {
    if rows == [] then []
    else
      var init := NamesInOrder(rows[..|rows| - 1]);
      var n := rows[|rows| - 1].name;
      if n in init then init else init + [n]
  }

  /** The names are distinct, every row's name is among them, and each of
      them is some row's name. */
  lemma {:induction false} NamesInOrderSpec(rows: seq<CsvRow>)
    ensures var r := NamesInOrder(rows);
      (forall i, j :: 0 <= i < j < |r| ==> r[i] != r[j]) &&
      (forall i :: 0 <= i < |rows| ==> rows[i].name in r) &&
      (forall n :: n in r ==> exists i :: 0 <= i < |rows| && rows[i].name == n)
  {
    if rows != [] {
      var init := rows[..|rows| - 1];
      NamesInOrderSpec(init);
      assert forall i :: 0 <= i < |rows| - 1 ==> init[i] == rows[i];
    }
  }

  /** The rows named `n`, in input order: the group the map holds for `n`. */
  function RowsNamed(rows: seq<CsvRow>, n: string): (r: seq<CsvRow>)
    ensures |r| <= |rows|
    ensures forall i :: 0 <= i < |r| ==> r[i].name == n
  {
    if rows == [] then []
    else RowsNamed(rows[..|rows| - 1], n) + (if rows[|rows| - 1].name == n then [rows[|rows| - 1]] else [])
  }

  lemma {:induction false} RowsNamedAbsent(rows: seq<CsvRow>, n: string)
    requires n !in NamesInOrder(rows)
    ensures RowsNamed(rows, n) == []
  {
    if rows != [] {
      var init := rows[..|rows| - 1];
      assert n !in NamesInOrder(init);
      RowsNamedAbsent(init, n);
    }
  }

  /** The loop of tools/import-history.ts:84-90: a map from each name to its rows, filled in
      one pass, with its keys in insertion order. */
  method GroupByName(rows: seq<CsvRow>) returns (names: seq<string>, groups: map<string, seq<CsvRow>>)
    ensures names == NamesInOrder(rows)
    ensures forall n :: n in groups <==> n in names
    ensures forall n :: n in groups ==> groups[n] == RowsNamed(rows, n)
  {
    names := [];
    groups := map[];
    var i := 0;
    while i < |rows|
      invariant 0 <= i <= |rows|
      invariant names == NamesInOrder(rows[..i])
      invariant forall n :: n in groups <==> n in names
      invariant forall n :: n in groups ==> groups[n] == RowsNamed(rows[..i], n)
    {
      names, groups := AddRow(rows, i, names, groups);
      i := i + 1;
    }
    assert rows[..i] == rows;
  }

  /** One step of the grouping loop: the row joins the group of its name,
      which is opened, and its name recorded, the first time the name is
      seen. */
  method AddRow(rows: seq<CsvRow>, i: nat, names: seq<string>, groups: map<string, seq<CsvRow>>)
    returns (names': seq<string>, groups': map<string, seq<CsvRow>>)
    requires i < |rows|
    requires names == NamesInOrder(rows[..i])
    requires forall n :: n in groups <==> n in names
    requires forall n :: n in groups ==> groups[n] == RowsNamed(rows[..i], n)
    ensures names' == NamesInOrder(rows[..i + 1])
    ensures forall n :: n in groups' <==> n in names'
    ensures forall n :: n in groups' ==> groups'[n] == RowsNamed(rows[..i + 1], n)
  {
    var row := rows[i];
    NamesInOrderSnoc(rows, i);
    names', groups' := names, groups;
    if row.name !in groups {
      RowsNamedAbsent(rows[..i], row.name);
      groups' := groups'[row.name := []];
      names' := names' + [row.name];
    }
    groups' := groups'[row.name := groups'[row.name] + [row]];
    forall n | n in groups' ensures groups'[n] == RowsNamed(rows[..i + 1], n) {
      RowsNamedSnoc(rows, i, n);
    }
  }

  lemma NamesInOrderSnoc(rows: seq<CsvRow>, i: nat)
    requires i < |rows|
    ensures NamesInOrder(rows[..i + 1]) ==
      if rows[i].name in NamesInOrder(rows[..i]) then NamesInOrder(rows[..i]) else NamesInOrder(rows[..i]) + [rows[i].name]
  {
    assert rows[..i + 1][..i] == rows[..i];
  }

  lemma RowsNamedSnoc(rows: seq<CsvRow>, i: nat, n: string)
    requires i < |rows|
    ensures RowsNamed(rows[..i + 1], n) == RowsNamed(rows[..i], n) + (if rows[i].name == n then [rows[i]] else [])
  {
    assert rows[..i + 1][..i] == rows[..i];
  }

  /** Every row is in the group of its own name. */
  lemma {:induction false} RowInOwnGroup(rows: seq<CsvRow>, i: nat)
    requires i < |rows|
    ensures rows[i] in RowsNamed(rows, rows[i].name)
  {
    var init := rows[..|rows| - 1];
    if i < |rows| - 1 {
      assert init[i] == rows[i];
      RowInOwnGroup(init, i);
    }
  }

  /** The total size of the groups of `names`. */
  function TotalSize(rows: seq<CsvRow>, names: seq<string>): nat
  {
    if names == [] then 0 else |RowsNamed(rows, names[0])| + TotalSize(rows, names[1..])
  }

  lemma {:induction false} TotalSizeAppend(rows: seq<CsvRow>, names: seq<string>, n: string)
    ensures TotalSize(rows, names + [n]) == TotalSize(rows, names) + |RowsNamed(rows, n)|
  {
    if names != [] {
      assert (names + [n])[1..] == names[1..] + [n];
      TotalSizeAppend(rows, names[1..], n);
    }
  }

  lemma {:induction false} TotalSizeStep(rows: seq<CsvRow>, row: CsvRow, names: seq<string>)
    requires forall i, j :: 0 <= i < j < |names| ==> names[i] != names[j]
    ensures TotalSize(rows + [row], names) == TotalSize(rows, names) + (if row.name in names then 1 else 0)
  {
    if names != [] {
      assert (rows + [row])[..|rows + [row]| - 1] == rows;
      TotalSizeStep(rows, row, names[1..]);
      assert row.name in names <==> row.name == names[0] || row.name in names[1..];
      assert row.name == names[0] ==> row.name !in names[1..];
    }
  }

  /** The groups partition the rows: their sizes add up to the number of
      rows, and (RowInOwnGroup) each row is in the group of its name. */
  lemma {:induction false} GroupsPartitionRows(rows: seq<CsvRow>)
    ensures TotalSize(rows, NamesInOrder(rows)) == |rows|
  {
    if rows != [] {
      var init, row := rows[..|rows| - 1], rows[|rows| - 1];
      assert rows == init + [row];
      var names := NamesInOrder(init);
      GroupsPartitionRows(init);
      NamesInOrderSpec(init);
      TotalSizeStep(init, row, names);
      if row.name !in names {
        TotalSizeAppend(rows, names, row.name);
        RowsNamedAbsent(init, row.name);
        assert RowsNamed(rows, row.name) == [row];
      }
    }
  }

  // ---------------------------------------------------------------------
  // Validating rows and dropping known dates
  // ---------------------------------------------------------------------

  /** The object handed to HistoryEntrySchema.parse for a row: the PR gets
      its `#` as the update tool gives it, and is left out when empty. */
  function RowToRaw(row: CsvRow): RawHistoryEntry
  {
    RawHistoryEntry(Some(row.date), Some(row.ring), Some(row.note), PrField(row.pr))
  }

  function ParseRow(row: CsvRow): Result<HistoryEntry, seq<Issue>>
  {
    ParseHistoryEntry(RowToRaw(row))
  }

  /** A normalised PR passes the schema exactly when the input had the
      shape `^#?\d+$`. */
  lemma PrFieldValidIff(input: string)
    requires input != []
    ensures IsPrRef(PrField(input).value) <==> IsPrInput(input)
  {
    if input[0] != '#' {
      assert ("#" + input)[1..] == input;
    }
  }

  /** Which rows are accepted: an ISO date, a ring name, a non-empty note
      and a PR that is empty or `#`-optional digits. */
  lemma ParseRowOkIff(row: CsvRow)
    ensures ParseRow(row).Ok? <==>
      IsIsoDate(row.date) && ParseRing(row.ring).Some? && row.note != [] && (row.pr == [] || IsPrInput(row.pr))
    ensures ParseRow(row).Ok? ==> ParseRow(row).value.pr == PrField(row.pr)
  {
    if row.pr != [] {
      PrFieldValidIff(row.pr);
    }
  }

  /** The entries of the rows that validate, in row order. */
  function Parsed(rows: seq<CsvRow>): seq<HistoryEntry>
  {
    OkValues(rows, ParseRow)
  }

  /** How many rows fail validation. */
  function InvalidCount(rows: seq<CsvRow>): nat
  {
    ErrCount(rows, ParseRow)
  }

  /** Each row either validates or is counted as an error, and an entry is
      among the parsed ones exactly when some row validates to it; every
      parsed entry is well formed. */
  lemma ParsedRows(rows: seq<CsvRow>, e: HistoryEntry)
    ensures |Parsed(rows)| + InvalidCount(rows) == |rows|
    ensures e in Parsed(rows) <==> exists i :: 0 <= i < |rows| && ParseRow(rows[i]) == Ok(e)
    ensures e in Parsed(rows) ==> WellFormedEntry(e)
  {
    OkValuesCount(rows, ParseRow);
    OkValuesMember(rows, ParseRow, e);
  }

  /** The history already has an entry on day `d`. Dates are compared as
      the `YYYY-MM-DD` strings, which name the same day exactly when they are
      equal (Dates.ParseDateInjective). */
  predicate HasDate(history: seq<HistoryEntry>, d: Date)
  {
    exists j :: 0 <= j < |history| && history[j].date == d
  }

  function NotRecorded(history: seq<HistoryEntry>): HistoryEntry -> bool
  {
    (e: HistoryEntry) => !HasDate(history, e.date)
  }

  /** The entries a group adds: the validated ones whose date is not in the
      existing history. Entries of the same batch are not compared with one
      another. */
  function NewEntries(history: seq<HistoryEntry>, rows: seq<CsvRow>): seq<HistoryEntry>
  {
    Filter(Parsed(rows), NotRecorded(history))
  }

  lemma CollectStep(history: seq<HistoryEntry>, rows: seq<CsvRow>, i: nat)
    requires i < |rows|
    ensures var p := ParseRow(rows[i]);
      Filter(Parsed(rows[..i + 1]), NotRecorded(history)) ==
        Filter(Parsed(rows[..i]), NotRecorded(history)) + (if p.Ok? && !HasDate(history, p.value.date) then [p.value] else []) &&
      InvalidCount(rows[..i + 1]) == InvalidCount(rows[..i]) + (if p.Err? then 1 else 0)
  {
    var p := ParseRow(rows[i]);
    OkValuesSnoc(rows, ParseRow, i);
    if p.Ok? {
      FilterAppend(Parsed(rows[..i]), [p.value], NotRecorded(history));
      assert [p.value][1..] == [];
    } else {
      assert Parsed(rows[..i + 1]) == Parsed(rows[..i]);
    }
  }

  /** One row of that loop: a validated entry is added unless its date is
      already recorded, a row that fails validation is counted. */
  method CollectRow(history: seq<HistoryEntry>, row: CsvRow, entries: seq<HistoryEntry>, errorsBefore: nat)
    returns (newEntries: seq<HistoryEntry>, errors: nat)
    ensures var p := ParseRow(row);
      newEntries == entries + (if p.Ok? && !HasDate(history, p.value.date) then [p.value] else []) &&
      errors == errorsBefore + (if p.Err? then 1 else 0)
  {
    newEntries, errors := entries, errorsBefore;
    var parsed := ParseRow(row);
    match parsed {
      case Ok(entry) =>
        var known := HasDate(history, entry.date);
        if !known {
          newEntries := newEntries + [entry];
        }
      case Err(_) =>
        errors := errors + 1;
    }
  }

  /** The loop of tools/import-history.ts:112-131 for one group. */
  method CollectNewEntries(history: seq<HistoryEntry>, rows: seq<CsvRow>) returns (newEntries: seq<HistoryEntry>, errors: nat)
    ensures newEntries == NewEntries(history, rows)
    ensures errors == InvalidCount(rows)
  {
    newEntries := [];
    errors := 0;
    var i := 0;
    while i < |rows|
      invariant 0 <= i <= |rows|
      invariant newEntries == Filter(Parsed(rows[..i]), NotRecorded(history))
      invariant errors == InvalidCount(rows[..i])
    {
      CollectStep(history, rows, i);
      newEntries, errors := CollectRow(history, rows[i], newEntries, errors);
      i := i + 1;
    }
    assert rows[..i] == rows;
  }

  /** Dedup against the file: an entry is added exactly when some row
      validates to it and the blip has no entry on its date; everything
      added is well formed. */
  lemma NewEntriesMember(history: seq<HistoryEntry>, rows: seq<CsvRow>, e: HistoryEntry)
    ensures e in NewEntries(history, rows) <==>
      (exists i :: 0 <= i < |rows| && ParseRow(rows[i]) == Ok(e)) && !HasDate(history, e.date)
    ensures e in NewEntries(history, rows) ==> WellFormedEntry(e)
  {
    FilterMember(Parsed(rows), NotRecorded(history), e);
    ParsedRows(rows, e);
  }

  /** Two valid rows for the same new day are both added. */
  lemma BatchDuplicatesKept(history: seq<HistoryEntry>, a: CsvRow, b: CsvRow)
    requires ParseRow(a).Ok? && ParseRow(b).Ok?
    requires ParseRow(a).value.date == ParseRow(b).value.date
    requires !HasDate(history, ParseRow(a).value.date)
    ensures NewEntries(history, [a, b]) == [ParseRow(a).value, ParseRow(b).value]
  {
    var pa := ParseRow(a).value;
    var pb := ParseRow(b).value;
    assert [a, b][..1] == [a] && [a][..0] == [];
    assert Parsed([a]) == [pa];
    assert Parsed([a, b]) == [pa, pb];
    FilterAll([pa, pb], NotRecorded(history));
  }

  // ---------------------------------------------------------------------
  // Merge
  // ---------------------------------------------------------------------

  /** The existing entries followed by the new ones, stably sorted by
      ascending date. */
  function MergeHistory(existing: seq<HistoryEntry>, added: seq<HistoryEntry>): (r: seq<HistoryEntry>)
    ensures Chronological(r)
    ensures multiset(r) == multiset(existing) + multiset(added)
    ensures |r| == |existing| + |added|
  {
    SortBy(existing + added, HistoryDate)
  }

  /** Entries of the same day keep their relative order, existing ones
      first; hence the order check reports nothing after a merge. */
  lemma MergeHistoryStable(existing: seq<HistoryEntry>, added: seq<HistoryEntry>, day: int)
    ensures WithKey(MergeHistory(existing, added), HistoryDate, day) ==
            WithKey(existing, HistoryDate, day) + WithKey(added, HistoryDate, day)
    ensures OrderWarnings(MergeHistory(existing, added)) == []
  {
    SortByStable(existing + added, HistoryDate, day);
    WithKeyAppend(existing, added, HistoryDate, day);
    NoOrderWarningsIffChronological(MergeHistory(existing, added));
  }

  /** Merging nothing into a chronological history leaves it as it is. */
  lemma MergeNothing(existing: seq<HistoryEntry>)
    requires Chronological(existing)
    ensures MergeHistory(existing, []) == existing
  {
    assert existing + [] == existing;
    SortBySorted(existing, HistoryDate);
  }

  // ---------------------------------------------------------------------
  // The whole import
  // ---------------------------------------------------------------------

  /** The radar (one slot per blip file, None for a file that fails
      validation) and the two counters. */
  datatype Outcome = Outcome(radar: seq<Option<BlipFrontMatter>>, updatedCount: nat, errorCount: nat)

  /** One iteration of the loop over groups (tools/import-history.ts:95-156). */
  function ImportGroup(o: Outcome, name: string, rows: seq<CsvRow>): (r: Outcome)
    ensures |r.radar| == |o.radar|
  {
    match UpdateStatus.FindBlipFile(o.radar, name)
    case None => o.(errorCount := o.errorCount + 1)
    case Some(k) =>
      var fm := o.radar[k].value;
      var added := NewEntries(fm.history, rows);
      var errors := o.errorCount + InvalidCount(rows);
      if added == [] then o.(errorCount := errors)
      else Outcome(o.radar[k := Some(fm.(history := MergeHistory(fm.history, added)))], o.updatedCount + 1, errors)
  }

  /** The groups of `names`, processed in order. */
  function ImportGroups(radar: seq<Option<BlipFrontMatter>>, rows: seq<CsvRow>, names: seq<string>): (r: Outcome)
    ensures |r.radar| == |radar|
  {
    if names == [] then Outcome(radar, 0, 0)
    else ImportGroup(ImportGroups(radar, rows, names[..|names| - 1]), names[|names| - 1], RowsNamed(rows, names[|names| - 1]))
  }

  /** The body of the loop over groups for one group: look the blip up,
      collect its new entries, and merge them in when there are any. */
  method ImportOneGroup(radar: seq<Option<BlipFrontMatter>>, updatedCount: nat, errorCount: nat, name: string, entries: seq<CsvRow>)
    returns (radar': seq<Option<BlipFrontMatter>>, updatedCount': nat, errorCount': nat)
    ensures Outcome(radar', updatedCount', errorCount') == ImportGroup(Outcome(radar, updatedCount, errorCount), name, entries)
  {
    radar', updatedCount', errorCount' := radar, updatedCount, errorCount;
    var found := UpdateStatus.FindBlipFile(radar, name);
    if found.None? {
      errorCount' := errorCount + 1;
    } else {
      var fm := radar[found.value].value;
      var newEntries, errors := CollectNewEntries(fm.history, entries);
      errorCount' := errorCount + errors;
      if newEntries != [] {
        var allHistory := MergeHistory(fm.history, newEntries);
        radar' := radar[found.value := Some(fm.(history := allHistory))];
        updatedCount' := updatedCount + 1;
      }
    }
  }

  /** The import of a CSV file into the radar. */
  method ImportHistory(rows: seq<CsvRow>, radar: seq<Option<BlipFrontMatter>>) returns (result: seq<Option<BlipFrontMatter>>, updatedCount: nat, errorCount: nat)
    ensures Outcome(result, updatedCount, errorCount) == ImportGroups(radar, rows, NamesInOrder(rows))
  {
    var names, groups := GroupByName(rows);
    result, updatedCount, errorCount := radar, 0, 0;
    var i := 0;
    while i < |names|
      invariant 0 <= i <= |names|
      invariant Outcome(result, updatedCount, errorCount) == ImportGroups(radar, rows, names[..i])
    {
      var name := names[i];
      assert name in groups;
      var group := groups[name];
      assert group == RowsNamed(rows, name);
      ImportGroupsSnoc(radar, rows, names, i);
      result, updatedCount, errorCount := ImportOneGroup(result, updatedCount, errorCount, name, group);
      i := i + 1;
    }
    assert names[..i] == names;
  }

  lemma ImportGroupsSnoc(radar: seq<Option<BlipFrontMatter>>, rows: seq<CsvRow>, names: seq<string>, i: nat)
    requires i < |names|
    ensures ImportGroups(radar, rows, names[..i + 1]) ==
      ImportGroup(ImportGroups(radar, rows, names[..i]), names[i], RowsNamed(rows, names[i]))
  {
    assert names[..i + 1][..i] == names[..i];
  }

  /** What the import may do to one slot of the radar: slots keep their
      parse status, a blip keeps every field but its history, its history
      only grows, and a history that changed is chronological. */
  predicate SlotEvolved(before: Option<BlipFrontMatter>, after: Option<BlipFrontMatter>)
  {
    (before.Some? <==> after.Some?) &&
    (after.Some? ==>
      after.value == before.value.(history := after.value.history) &&
      multiset(before.value.history) <= multiset(after.value.history) &&
      (after.value.history == before.value.history || Chronological(after.value.history)))
  }

  predicate RadarEvolved(before: seq<Option<BlipFrontMatter>>, after: seq<Option<BlipFrontMatter>>)
  {
    |after| == |before| && forall k :: 0 <= k < |before| ==> SlotEvolved(before[k], after[k])
  }

  lemma RadarEvolvedRefl(radar: seq<Option<BlipFrontMatter>>)
    ensures RadarEvolved(radar, radar)
  {
  }

  /** Replacing one blip's history by a chronological history holding all
      of its entries is an allowed evolution. */
  lemma ReplaceHistoryEvolves(radar: seq<Option<BlipFrontMatter>>, k: nat, merged: seq<HistoryEntry>)
    requires k < |radar| && radar[k].Some?
    requires multiset(radar[k].value.history) <= multiset(merged) && Chronological(merged)
    ensures RadarEvolved(radar, radar[k := Some(radar[k].value.(history := merged))])
  {
    var after := radar[k := Some(radar[k].value.(history := merged))];
    forall j | 0 <= j < |radar| ensures SlotEvolved(radar[j], after[j]) {
      if j != k {
        assert after[j] == radar[j];
      }
    }
  }

  /** One group changes at most one slot, the one of the blip it found,
      and that slot only as SlotEvolved allows. */
  lemma ImportGroupEvolves(o: Outcome, name: string, rows: seq<CsvRow>)
    ensures RadarEvolved(o.radar, ImportGroup(o, name, rows).radar)
    ensures forall j :: 0 <= j < |o.radar| && ImportGroup(o, name, rows).radar[j] != o.radar[j] ==>
      UpdateStatus.FindBlipFile(o.radar, name) == Some(j)
    ensures ImportGroup(o, name, rows).updatedCount <= o.updatedCount + 1
  {
    var found := UpdateStatus.FindBlipFile(o.radar, name);
    if found.None? {
      RadarEvolvedRefl(o.radar);
    } else {
      var k := found.value;
      var fm := o.radar[k].value;
      var added := NewEntries(fm.history, rows);
      if added == [] {
        RadarEvolvedRefl(o.radar);
      } else {
        ImportGroupUpdates(o, name, rows, k, fm, added);
        ReplaceHistoryEvolves(o.radar, k, MergeHistory(fm.history, added));
      }
    }
  }

  lemma SlotEvolvedTransitive(a: Option<BlipFrontMatter>, b: Option<BlipFrontMatter>, c: Option<BlipFrontMatter>)
    requires SlotEvolved(a, b) && SlotEvolved(b, c)
    ensures SlotEvolved(a, c)
  {
  }

  /** Over the whole import only histories change, each grows by merging,
      and every changed history is chronological; at most one blip is
      updated per group. */
  lemma {:induction false} ImportOnlyExtendsHistories(radar: seq<Option<BlipFrontMatter>>, rows: seq<CsvRow>, names: seq<string>)
    ensures RadarEvolved(radar, ImportGroups(radar, rows, names).radar)
    ensures ImportGroups(radar, rows, names).updatedCount <= |names|
  {
    if names != [] {
      var init := names[..|names| - 1];
      var o := ImportGroups(radar, rows, init);
      ImportOnlyExtendsHistories(radar, rows, init);
      ImportGroupEvolves(o, names[|names| - 1], RowsNamed(rows, names[|names| - 1]));
      var r := ImportGroups(radar, rows, names);
      forall k | 0 <= k < |radar| ensures SlotEvolved(radar[k], r.radar[k]) {
        SlotEvolvedTransitive(radar[k], o.radar[k], r.radar[k]);
      }
    }
  }

  /** A name no valid blip carries costs one error and changes nothing. */
  lemma UnknownNameCountsOnce(o: Outcome, name: string, rows: seq<CsvRow>)
    requires UpdateStatus.FindBlipFile(o.radar, name).None?
    ensures ImportGroup(o, name, rows) == o.(errorCount := o.errorCount + 1)
  {
  }

  /** A group whose rows bring nothing new leaves the radar as it is and
      counts only its invalid rows. */
  lemma NothingNewChangesNothing(o: Outcome, name: string, rows: seq<CsvRow>)
    requires UpdateStatus.FindBlipFile(o.radar, name).Some?
    requires NewEntries(o.radar[UpdateStatus.FindBlipFile(o.radar, name).value].value.history, rows) == []
    ensures ImportGroup(o, name, rows) == o.(errorCount := o.errorCount + InvalidCount(rows))
  {
  }

  /** A group that brings new entries replaces the found blip's history by
      the merge of the existing entries and the new ones, which passes the
      order check; every other slot stays as it was, one more blip counts
      as updated and each invalid row of the group as an error. */
  lemma ImportedBlip(o: Outcome, name: string, rows: seq<CsvRow>)
    requires UpdateStatus.FindBlipFile(o.radar, name).Some?
    ensures var k := UpdateStatus.FindBlipFile(o.radar, name).value;
      var fm := o.radar[k].value;
      var added := NewEntries(fm.history, rows);
      added != [] ==>
        ImportGroup(o, name, rows) ==
          Outcome(o.radar[k := Some(fm.(history := MergeHistory(fm.history, added)))],
                  o.updatedCount + 1, o.errorCount + InvalidCount(rows))
    ensures var fm := o.radar[UpdateStatus.FindBlipFile(o.radar, name).value].value;
      OrderWarnings(MergeHistory(fm.history, NewEntries(fm.history, rows))) == []
  {
    var k := UpdateStatus.FindBlipFile(o.radar, name).value;
    var fm := o.radar[k].value;
    var added := NewEntries(fm.history, rows);
    var merged := MergeHistory(fm.history, added);
    if added != [] {
      ImportGroupUpdates(o, name, rows, k, fm, added);
    }
    NoOrderWarningsIffChronological(merged);
  }

  lemma ImportGroupUpdates(o: Outcome, name: string, rows: seq<CsvRow>, k: nat, fm: BlipFrontMatter, added: seq<HistoryEntry>)
    requires UpdateStatus.FindBlipFile(o.radar, name) == Some(k) && o.radar[k] == Some(fm)
    requires added == NewEntries(fm.history, rows) && added != []
    ensures ImportGroup(o, name, rows) ==
      Outcome(o.radar[k := Some(fm.(history := MergeHistory(fm.history, added)))], o.updatedCount + 1, o.errorCount + InvalidCount(rows))
  {
  }
}
