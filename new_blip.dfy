/** tools/new-blip.ts: the front matter of a freshly created blip and the
    comma-separated list input its prompts accept. A new blip starts with
    status New and a history of exactly one entry, at the chosen ring, dated
    the creation day, which is also its `since` and `last_reviewed` day. */
module NewBlip {
  import opened Common
  import opened Dates
  import opened Schemas
  import opened Consistency

  // ---------------------------------------------------------------------
  // Tag and owner input
  // ---------------------------------------------------------------------

  predicate IsNonEmpty(t: string) { t != [] }

  /** A list entry as the parsing leaves it: non-empty, no surrounding
      white space and no comma. */
  predicate IsListItem(t: string)
  {
    t != [] && !IsSpace(t[0]) && !IsSpace(t[|t| - 1]) && ',' !in t
  }

  /** `input ? input.split(",").map(trim).filter(t => t.length > 0) : []`. */
  function ParseCommaList(input: string): (r: seq<string>)
    ensures input == [] ==> r == []
    ensures input != [] ==> r == Filter(TrimAll(Split(input, ',')), IsNonEmpty)
    ensures forall k :: 0 <= k < |r| ==> IsListItem(r[k])
  {
    if input == [] then []
    else
      var pieces := Split(input, ',');
      var trimmed := TrimAll(pieces);
      TrimmedPiecesAreItems(pieces);
      NonEmptyAreListItems(trimmed);
      Filter(trimmed, IsNonEmpty)
  }

  /** `pieces.map(trim)`. */
  function TrimAll(pieces: seq<string>): (r: seq<string>)
    ensures |r| == |pieces|
    ensures forall k :: 0 <= k < |r| ==> r[k] == Trim(pieces[k])
  {
    seq(|pieces|, k requires 0 <= k < |pieces| => Trim(pieces[k]))
  }

  /** An entry that trimming leaves non-empty is a list item. */
  predicate ItemOrEmpty(t: string)
  {
    ',' !in t && (t == [] || (!IsSpace(t[0]) && !IsSpace(t[|t| - 1])))
  }

  lemma TrimmedPiecesAreItems(pieces: seq<string>)
    requires forall k :: 0 <= k < |pieces| ==> ',' !in pieces[k]
    ensures forall k :: 0 <= k < |pieces| ==> ItemOrEmpty(TrimAll(pieces)[k])
  {
    var trimmed := TrimAll(pieces);
    forall k | 0 <= k < |pieces| ensures ItemOrEmpty(trimmed[k]) {
      if ',' in trimmed[k] {
        TrimKeepsCharacters(pieces[k], ',');
      }
    }
  }

  lemma NonEmptyAreListItems(trimmed: seq<string>)
    requires forall k :: 0 <= k < |trimmed| ==> ItemOrEmpty(trimmed[k])
    ensures forall k :: 0 <= k < |Filter(trimmed, IsNonEmpty)| ==> IsListItem(Filter(trimmed, IsNonEmpty)[k])
  {
    var r := Filter(trimmed, IsNonEmpty);
    forall k | 0 <= k < |r| ensures IsListItem(r[k]) {
      var j :| 0 <= j < |trimmed| && trimmed[j] == r[k];
      assert ItemOrEmpty(trimmed[j]);
    }
  }

  /** A string is among the parsed items exactly when it is a non-empty
      trimmed piece between commas of a non-empty input. */
  lemma ParseCommaListMembers(input: string, t: string)
    ensures t in ParseCommaList(input) <==> input != [] && t != [] && IsTrimmedPiece(Split(input, ','), t)
  {
    var r := ParseCommaList(input);
    if input != [] {
      var pieces := Split(input, ',');
      assert r == Filter(TrimAll(pieces), IsNonEmpty);
      TrimmedNonEmptyMembers(pieces, t);
    } else {
      assert r == [];
    }
  }

  /** `t` is one of the pieces with its surrounding white space removed. */
  predicate IsTrimmedPiece(pieces: seq<string>, t: string)
  {
    exists k :: 0 <= k < |pieces| && Trim(pieces[k]) == t
  }

  lemma TrimmedNonEmptyMembers(pieces: seq<string>, t: string)
    ensures t in Filter(TrimAll(pieces), IsNonEmpty) <==> t != [] && IsTrimmedPiece(pieces, t)
  {
    var trimmed := TrimAll(pieces);
    FilterMember(trimmed, IsNonEmpty, t);
    if t in trimmed {
      var k :| 0 <= k < |trimmed| && trimmed[k] == t;
      assert Trim(pieces[k]) == t;
    }
    if exists k :: 0 <= k < |pieces| && Trim(pieces[k]) == t {
      var k :| 0 <= k < |pieces| && Trim(pieces[k]) == t;
      assert trimmed[k] == t;
    }
  }

  /** Joining list items with commas and parsing the result gives the items
      back, so the prompt can express every list of items. */
  lemma CommaListRoundTrip(xs: seq<string>)
    requires forall k :: 0 <= k < |xs| ==> IsListItem(xs[k])
    ensures xs != [] ==> ParseCommaList(Join(xs, ',')) == xs
  {
    if xs != [] {
      var input := Join(xs, ',');
      JoinStartsWithFirst(xs, ',');
      SplitJoin(xs, ',');
      TrimAllItems(xs);
      FilterAll(xs, IsNonEmpty);
      assert ParseCommaList(input) == Filter(TrimAll(Split(input, ',')), IsNonEmpty);
    }
  }

  lemma JoinStartsWithFirst(xs: seq<string>, sep: char)
    requires |xs| >= 1 && xs[0] != []
    ensures Join(xs, sep) != []
  {
    if |xs| > 1 {
      assert Join(xs, sep) == xs[0] + [sep] + Join(xs[1..], sep);
    }
  }

  lemma TrimAllItems(xs: seq<string>)
    requires forall k :: 0 <= k < |xs| ==> IsListItem(xs[k])
    ensures TrimAll(xs) == xs
  {
    var trimmed := TrimAll(xs);
    forall k | 0 <= k < |xs| ensures trimmed[k] == xs[k] {
      TrimTrimmed(xs[k]);
    }
  }

  // ---------------------------------------------------------------------
  // Front matter of a new blip
  // ---------------------------------------------------------------------

  /** What the prompts collected. */
  datatype BlipInput = BlipInput(
    name: string,
    quadrant: Quadrant,
    ring: Ring,
    status: Status,
    summary: string,
    tags: seq<string>,
    owners: seq<string>,
    links: seq<Link>,
    since: Date)

  /** The answers of the prompts put together as `main` does: status New,
      tags and owners parsed from their comma-separated input. */
  function CollectInput(name: string, quadrant: Quadrant, ring: Ring, summary: string, tagsInput: string, ownersInput: string, links: seq<Link>, today: Date): (d: BlipInput)
    ensures d.name == name && d.quadrant == quadrant && d.ring == ring && d.status == New
    ensures d.summary == summary && d.links == links
    ensures d.tags == ParseCommaList(tagsInput) && d.owners == ParseCommaList(ownersInput)
    ensures forall k :: 0 <= k < |d.tags| ==> IsListItem(d.tags[k])
    ensures forall k :: 0 <= k < |d.owners| ==> IsListItem(d.owners[k])
    ensures d.since == today
  {
    BlipInput(name, quadrant, ring, New, summary, ParseCommaList(tagsInput), ParseCommaList(ownersInput), links, today)
  }

  function InitialNote(ring: Ring): string
  {
    "Initial entry at " + RingName(ring)
  }

  function InitialHistory(data: BlipInput): seq<RawHistoryEntry>
  {
    [RawHistoryEntry(Some(FormatDate(data.since)), Some(RingName(data.ring)), Some(InitialNote(data.ring)), None)]
  }

  /** The record `generateFrontMatter` hands to `yaml.dump`. */
  function InitialFrontMatter(data: BlipInput): RawBlip
  {
    var since := FormatDate(data.since);
    RawBlip(
      Some(data.name), Some(QuadrantName(data.quadrant)), Some(RingName(data.ring)), Some(StatusName(data.status)),
      if data.summary != [] then Some(data.summary) else None,
      if data.tags != [] then Some(data.tags) else None,
      if data.owners != [] then Some(data.owners) else None,
      if since != [] then Some(since) else None,
      Some(since),
      if data.links != [] then Some(LinksToRaw(data.links)) else None,
      Some(InitialHistory(data)))
  }

  /** generateFrontMatter: the four required keys, then each optional key
      only when its value is non-empty, `last_reviewed` set to the creation
      day, and the one initial history entry. */
  method GenerateFrontMatter(data: BlipInput) returns (frontMatter: RawBlip)
    ensures frontMatter == InitialFrontMatter(data)
  {
    var since := FormatDate(data.since);
    frontMatter := RawBlip(
      Some(data.name), Some(QuadrantName(data.quadrant)), Some(RingName(data.ring)), Some(StatusName(data.status)),
      None, None, None, None, None, None, None);
    if data.summary != [] {
      frontMatter := frontMatter.(summary := Some(data.summary));
    }
    if |data.tags| > 0 {
      frontMatter := frontMatter.(tags := Some(data.tags));
    }
    if |data.owners| > 0 {
      frontMatter := frontMatter.(owners := Some(data.owners));
    }
    if since != [] {
      frontMatter := frontMatter.(since := Some(since));
    }
    frontMatter := frontMatter.(lastReviewed := Some(since));
    if |data.links| > 0 {
      frontMatter := frontMatter.(links := Some(LinksToRaw(data.links)));
    }
    frontMatter := frontMatter.(history := Some(InitialHistory(data)));
  }

  /** Optional keys appear exactly when their values are non-empty; the
      `since` key is always written, because a formatted day is never empty. */
  lemma OptionalKeysOnlyWhenNonEmpty(data: BlipInput)
    ensures var fm := InitialFrontMatter(data);
      (fm.summary.Some? <==> data.summary != []) && (fm.tags.Some? <==> data.tags != []) &&
      (fm.owners.Some? <==> data.owners != []) && (fm.links.Some? <==> data.links != []) &&
      fm.since.Some? && fm.lastReviewed == fm.since
  {
  }

  /** The blip a set of answers describes: every answer kept, `since` and
      `last_reviewed` on the creation day, and one history entry at the
      chosen ring dated that day. */
  function DescribedBlip(data: BlipInput): BlipFrontMatter
  {
    BlipFrontMatter(data.name, data.quadrant, data.ring, data.status,
      if data.summary != [] then Some(data.summary) else None,
      data.tags, data.owners, Some(data.since), Some(data.since), data.links,
      [HistoryEntry(data.since, data.ring, InitialNote(data.ring), None)])
  }

  /** The generated front matter passes BlipFrontMatterSchema exactly when
      the name is non-empty and every link has a title and a valid URL; it
      then describes the blip the answers describe, and the consistency
      check finds nothing to report about it. */
  lemma GeneratedFrontMatterValid(data: BlipInput, isUrl: string -> bool)
    ensures ParseBlipFrontMatter(InitialFrontMatter(data), isUrl).Ok? <==>
      data.name != [] && forall j :: 0 <= j < |data.links| ==> data.links[j].title != [] && isUrl(data.links[j].url)
    ensures var r := ParseBlipFrontMatter(InitialFrontMatter(data), isUrl);
      r.Ok? ==> r.value == DescribedBlip(data) && HistoryWarnings(r.value) == []
  {
    var raw := InitialFrontMatter(data);
    InitialWellFormedIff(data, isUrl);
    if WellFormedRawBlip(raw, isUrl) {
      InitialDecodes(data, isUrl);
      DescribedBlipConsistent(data);
    }
  }

  lemma DescribedBlipConsistent(data: BlipInput)
    ensures HistoryWarnings(DescribedBlip(data)) == []
  {
    var b := DescribedBlip(data);
    assert Chronological(b.history);
    NoOrderWarningsIffChronological(b.history);
  }

  /** The validation half: every key the generated record holds passes its
      check except possibly the name and the links. */
  lemma InitialWellFormedIff(data: BlipInput, isUrl: string -> bool)
    ensures WellFormedRawBlip(InitialFrontMatter(data), isUrl) <==>
      data.name != [] && forall j :: 0 <= j < |data.links| ==> data.links[j].title != [] && isUrl(data.links[j].url)
  {
    var raw := InitialFrontMatter(data);
    EnumNamesRoundTrip(data.ring, data.status, data.quadrant);
    ParseFormatDate(data.since);
    assert raw.since == Some(FormatDate(data.since)) && raw.lastReviewed == raw.since;
    LinksRoundTrip(data.links, isUrl);
    assert OrEmpty(raw.links) == LinksToRaw(data.links);
    assert WellFormedRawEntry(InitialHistory(data)[0]);
  }

  /** The decoding half: a generated record that validates decodes to the
      answers it was built from. */
  lemma InitialDecodes(data: BlipInput, isUrl: string -> bool)
    requires WellFormedRawBlip(InitialFrontMatter(data), isUrl)
    ensures DecodeBlip(InitialFrontMatter(data), isUrl) == DescribedBlip(data)
  {
    var raw := InitialFrontMatter(data);
    EnumNamesRoundTrip(data.ring, data.status, data.quadrant);
    ParseFormatDate(data.since);
    LinksRoundTrip(data.links, isUrl);
    assert OrEmpty(raw.links) == LinksToRaw(data.links);
    var b := DecodeBlip(raw, isUrl);
    assert b.links == data.links;
    assert b.history == [HistoryEntry(data.since, data.ring, InitialNote(data.ring), None)];
  }
}
