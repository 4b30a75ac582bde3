/** The content model of the radar (src/schemas.ts): the closed enumerations
    Ring, Status and Quadrant, the records a blip's front matter and the radar
    configuration are validated into, the ordinal mappers that project a blip
    onto the visualisation's integer coordinates, and the structural
    validation that turns raw (parsed but untyped) front matter into typed
    records or into the complete list of what is wrong with it. */
module Schemas {
  import opened Common
  import opened Dates

  // ---------------------------------------------------------------------
  // Enumerations
  // ---------------------------------------------------------------------

  /** Adoption stage, from most adopted (innermost ring) to least. */
  datatype Ring = Adopt | Trial | Assess | Hold

  /** How the ring changed at the most recent review. */
  datatype Status = New | MovedIn | MovedOut | NoChange

  /** The four category labels a blip's front matter may name. */
  datatype Quadrant = Techniques | Platforms | Tools | LanguagesAndFrameworks

  function RingName(r: Ring): string
  {
    match r
    case Adopt => "Adopt"
    case Trial => "Trial"
    case Assess => "Assess"
    case Hold => "Hold"
  }

  function StatusName(s: Status): string
  {
    match s
    case New => "New"
    case MovedIn => "Moved In"
    case MovedOut => "Moved Out"
    case NoChange => "No Change"
  }

  function QuadrantName(q: Quadrant): string
  {
    match q
    case Techniques => "Techniques"
    case Platforms => "Platforms"
    case Tools => "Tools"
    case LanguagesAndFrameworks => "Languages & Frameworks"
  }

  /** Enum membership as zod checks it: exact, case-sensitive match. */
  function ParseRing(s: string): (r: Option<Ring>)
    ensures r.Some? ==> RingName(r.value) == s
    ensures r.None? ==> forall x: Ring :: RingName(x) != s
  {
    if s == "Adopt" then Some(Adopt)
    else if s == "Trial" then Some(Trial)
    else if s == "Assess" then Some(Assess)
    else if s == "Hold" then Some(Hold)
    else None
  }

  function ParseStatus(s: string): (r: Option<Status>)
    ensures r.Some? ==> StatusName(r.value) == s
    ensures r.None? ==> forall x: Status :: StatusName(x) != s
  {
    if s == "New" then Some(New)
    else if s == "Moved In" then Some(MovedIn)
    else if s == "Moved Out" then Some(MovedOut)
    else if s == "No Change" then Some(NoChange)
    else None
  }

  function ParseQuadrant(s: string): (r: Option<Quadrant>)
    ensures r.Some? ==> QuadrantName(r.value) == s
    ensures r.None? ==> forall x: Quadrant :: QuadrantName(x) != s
  {
    if s == "Techniques" then Some(Techniques)
    else if s == "Platforms" then Some(Platforms)
    else if s == "Tools" then Some(Tools)
    else if s == "Languages & Frameworks" then Some(LanguagesAndFrameworks)
    else None
  }

  /** The names identify the values, so parsing a name gives its value back. */
  lemma EnumNamesRoundTrip(r: Ring, s: Status, q: Quadrant)
    ensures ParseRing(RingName(r)) == Some(r)
    ensures ParseStatus(StatusName(s)) == Some(s)
    ensures ParseQuadrant(QuadrantName(q)) == Some(q)
  {
  }

  // ---------------------------------------------------------------------
  // Ordinal mapper
  // ---------------------------------------------------------------------

  /** Position of a ring on the radar, 0 = Adopt (inner) .. 3 = Hold (outer). */
  function RingToIndex(r: Ring): (i: int)
    ensures 0 <= i <= 3
  {
    match r
    case Adopt => 0
    case Trial => 1
    case Assess => 2
    case Hold => 3
  }

  /** The inverse of RingToIndex: the ring at a position. */
  function RingAt(i: int): (r: Ring)
    requires 0 <= i <= 3
    ensures RingToIndex(r) == i
  {
    if i == 0 then Adopt else if i == 1 then Trial else if i == 2 then Assess else Hold
  }

  /** RingToIndex is a bijection onto 0..3 that lists the rings in their
      declared order, Adopt first. */
  lemma RingToIndexBijective(a: Ring, b: Ring)
    ensures RingToIndex(a) == RingToIndex(b) <==> a == b
    ensures RingAt(RingToIndex(a)) == a
    ensures RingToIndex(Adopt) < RingToIndex(Trial) < RingToIndex(Assess) < RingToIndex(Hold)
  {
  }

  /** The visualisation's `moved` flag: 2 new, 1 moved in, -1 moved out,
      0 unchanged. */
  function StatusToMovedFlag(s: Status): (f: int)
    ensures -1 <= f <= 2
  {
    match s
    case New => 2
    case MovedIn => 1
    case MovedOut => -1
    case NoChange => 0
  }

  /** The flag's meaning in the visualisation: 2 marks a new blip, 1 a move
      in, -1 a move out and 0 no change; so it is positive exactly for new
      and moved-in blips and negative exactly for moved-out ones. */
  lemma StatusToMovedFlagMeaning(s: Status)
    ensures StatusToMovedFlag(s) == 2 <==> s == New
    ensures StatusToMovedFlag(s) == 1 <==> s == MovedIn
    ensures StatusToMovedFlag(s) == -1 <==> s == MovedOut
    ensures StatusToMovedFlag(s) == 0 <==> s == NoChange
    ensures StatusToMovedFlag(s) > 0 <==> s == New || s == MovedIn
  {
  }

  lemma StatusToMovedFlagInjective(a: Status, b: Status)
    ensures StatusToMovedFlag(a) == StatusToMovedFlag(b) <==> a == b
  {
  }

  /** The first position at or after `from` whose name equals `name`
      ignoring case, as `findIndex` scans. */
  function FindIgnoringCase(name: string, names: seq<string>, from: nat): (r: Option<nat>)
    requires from <= |names|
    decreases |names| - from
    ensures r.Some? ==> from <= r.value < |names| && EqualsIgnoreCase(names[r.value], name)
    ensures r.Some? ==> forall j :: from <= j < r.value ==> !EqualsIgnoreCase(names[j], name)
    ensures r.None? ==> forall j :: from <= j < |names| ==> !EqualsIgnoreCase(names[j], name)
  {
    if from == |names| then None
    else if EqualsIgnoreCase(names[from], name) then Some(from)
    else FindIgnoringCase(name, names, from + 1)
  }

  /** The position of a quadrant in the configured list: the first entry
      equal to it ignoring case; fails with "Unknown quadrant" when there is
      none. */
  function QuadrantToIndex(quadrant: string, quadrants: seq<string>): (r: Result<nat, string>)
    ensures r.Ok? ==> r.value < |quadrants| && EqualsIgnoreCase(quadrants[r.value], quadrant)
    ensures r.Ok? ==> forall j :: 0 <= j < r.value ==> !EqualsIgnoreCase(quadrants[j], quadrant)
    ensures r.Err? <==> forall j :: 0 <= j < |quadrants| ==> !EqualsIgnoreCase(quadrants[j], quadrant)
    ensures r.Err? ==> r.error == "Unknown quadrant: " + quadrant
  {
    match FindIgnoringCase(quadrant, quadrants, 0)
    case Some(i) => Ok(i)
    case None => Err("Unknown quadrant: " + quadrant)
  }

  // ---------------------------------------------------------------------
  // Typed records
  // ---------------------------------------------------------------------

  datatype Link = Link(title: string, url: string)

  /** One dated ring assignment in a blip's history. */
  datatype HistoryEntry = HistoryEntry(date: Date, ring: Ring, note: string, pr: Option<string>)

  /** A blip's validated front matter; the list fields hold their defaults
      (empty) when the source omitted them. */
  datatype BlipFrontMatter = BlipFrontMatter(
    name: string,
    quadrant: Quadrant,
    ring: Ring,
    status: Status,
    summary: Option<string>,
    tags: seq<string>,
    owners: seq<string>,
    since: Option<Date>,
    lastReviewed: Option<Date>,
    links: seq<Link>,
    history: seq<HistoryEntry>)

  /** Front matter with the markdown body and where it was read from; the
      slug is derived from the name when the file is loaded. */
  datatype Blip = Blip(frontMatter: BlipFrontMatter, content: string, filePath: string, slug: string)

  datatype RadarConfig = RadarConfig(
    title: string,
    repoUrl: string,
    basePath: string,
    quadrants: seq<string>,
    rings: seq<string>,
    colors: seq<(string, string)>,
    description: Option<string>,
    orgName: Option<string>,
    showRecentChangesDays: int,
    changelogDays: int)

  /** One point of the visualisation. */
  datatype ZalandoEntry = ZalandoEntry(labelText: string, quadrant: int, ring: int, moved: int)

  /** One history entry that falls inside a reporting window. */
  datatype ChangeLogEntry = ChangeLogEntry(
    blipName: string,
    quadrant: Quadrant,
    date: Date,
    fromRing: Option<Ring>,
    toRing: Ring,
    note: string,
    pr: Option<string>,
    slug: string)

  /** The date of a history entry, as a sort key. */
  function HistoryDate(e: HistoryEntry): int { e.date }

  // ---------------------------------------------------------------------
  // Field formats
  // ---------------------------------------------------------------------

  /** The pattern `^#\d+$` a stored PR reference must match. */
  predicate IsPrRef(s: string) { |s| >= 2 && s[0] == '#' && AllDigits(s[1..]) }

  /** The pattern `^#?\d+$` the authoring tools accept as PR input. */
  predicate IsPrInput(s: string) { IsPrRef(s) || (|s| >= 1 && AllDigits(s)) }

  /** The `pr` field an authoring tool stores for a PR typed by the user: no
      field for empty input, otherwise the input with exactly one `#` put in
      front unless it already starts with one. */
  function PrField(input: string): (r: Option<string>)
    ensures input == [] <==> r.None?
    ensures r.Some? && input[0] == '#' ==> r.value == input
    ensures r.Some? && input[0] != '#' ==> r.value == "#" + input
  {
    if input == [] then None
    else if input[0] == '#' then Some(input)
    else Some("#" + input)
  }

  /** Any input the tools accept becomes a reference the schema accepts. */
  lemma PrFieldIsPrRef(input: string)
    requires IsPrInput(input)
    ensures PrField(input).Some? && IsPrRef(PrField(input).value)
  {
    if input[0] != '#' {
      assert ("#" + input)[1..] == input;
    }
  }

  /** The pattern `^#[0-9a-fA-F]{6}$` of a ring colour. */
  predicate IsHexColor(s: string)
  {
    |s| == 7 && s[0] == '#' && forall i :: 1 <= i < 7 ==> IsHexDigit(s[i])
  }

  const DefaultWindowDays := 90
  const DefaultBasePath := "/"

  /** ZalandoEntrySchema: quadrant and ring in 0..3, moved in -1..2. */
  predicate ValidZalandoEntry(e: ZalandoEntry)
  {
    0 <= e.quadrant <= 3 && 0 <= e.ring <= 3 && -1 <= e.moved <= 2
  }

  /** What a validated configuration satisfies. */
  predicate ValidConfig(c: RadarConfig)
  {
    |c.title| >= 1 && |c.quadrants| == 4 && |c.rings| == 4 &&
    (forall i :: 0 <= i < |c.colors| ==> IsHexColor(c.colors[i].1)) &&
    c.showRecentChangesDays > 0 && c.changelogDays > 0
  }

  // ---------------------------------------------------------------------
  // Structural validation
  // ---------------------------------------------------------------------

  datatype PathSegment = Key(name: string) | Index(index: nat)

  /** One violation: where it is and why. */
  datatype Issue = Issue(path: seq<PathSegment>, message: string)

  const Required := "Required"
  const InvalidEnum := "Invalid enum value"
  const NotPositive := "Number must be greater than 0"

  /** Issues of a nested value, re-rooted under `prefix`. */
  function Under(prefix: seq<PathSegment>, issues: seq<Issue>): (r: seq<Issue>)
    ensures |r| == |issues|
    ensures forall i :: 0 <= i < |r| ==> r[i] == Issue(prefix + issues[i].path, issues[i].message)
  {
    seq(|issues|, i requires 0 <= i < |issues| => Issue(prefix + issues[i].path, issues[i].message))
  }

  /** A required string of length at least one. */
  function NonEmptyIssues(key: string, v: Option<string>, message: string): seq<Issue>
  {
    match v
    case None => [Issue([Key(key)], Required)]
    case Some(s) => if s == [] then [Issue([Key(key)], message)] else []
  }

  /** A string that must satisfy a condition; `required` says whether it
      may be absent. */
  function CheckedIssues(key: string, v: Option<string>, required: bool, ok: bool, message: string): seq<Issue>
  {
    match v
    case None => if required then [Issue([Key(key)], Required)] else []
    case Some(_) => if ok then [] else [Issue([Key(key)], message)]
  }

  predicate IsRingName(v: Option<string>) { v.Some? && ParseRing(v.value).Some? }
  predicate IsStatusName(v: Option<string>) { v.Some? && ParseStatus(v.value).Some? }
  predicate IsQuadrantName(v: Option<string>) { v.Some? && ParseQuadrant(v.value).Some? }
  predicate IsOptionalDate(v: Option<string>) { v.Some? ==> IsIsoDate(v.value) }

  /** A history entry as read from the file, before validation. */
  datatype RawHistoryEntry = RawHistoryEntry(date: Option<string>, ring: Option<string>, note: Option<string>, pr: Option<string>)

  datatype RawLink = RawLink(title: Option<string>, url: Option<string>)

  /** Front matter as read from the file, before validation. */
  datatype RawBlip = RawBlip(
    name: Option<string>,
    quadrant: Option<string>,
    ring: Option<string>,
    status: Option<string>,
    summary: Option<string>,
    tags: Option<seq<string>>,
    owners: Option<seq<string>>,
    since: Option<string>,
    lastReviewed: Option<string>,
    links: Option<seq<RawLink>>,
    history: Option<seq<RawHistoryEntry>>)

  /** The radar configuration as read from its file, before validation. */
  datatype RawConfig = RawConfig(
    title: Option<string>,
    repoUrl: Option<string>,
    basePath: Option<string>,
    quadrants: Option<seq<string>>,
    rings: Option<seq<string>>,
    colors: Option<seq<(string, string)>>,
    description: Option<string>,
    orgName: Option<string>,
    showRecentChangesDays: Option<int>,
    changelogDays: Option<int>)

  // HistoryEntrySchema

  predicate WellFormedRawEntry(raw: RawHistoryEntry)
  {
    raw.date.Some? && IsIsoDate(raw.date.value) &&
    IsRingName(raw.ring) &&
    raw.note.Some? && raw.note.value != [] &&
    (raw.pr.Some? ==> IsPrRef(raw.pr.value))
  }

  function HistoryEntryIssues(raw: RawHistoryEntry): seq<Issue>
  {
    CheckedIssues("date", raw.date, true, raw.date.Some? && IsIsoDate(raw.date.value), "Date must be in YYYY-MM-DD format") +
    CheckedIssues("ring", raw.ring, true, IsRingName(raw.ring), InvalidEnum) +
    NonEmptyIssues("note", raw.note, "History note is required") +
    CheckedIssues("pr", raw.pr, false, raw.pr.Some? && IsPrRef(raw.pr.value), "PR must be in format #123")
  }

  lemma HistoryEntryIssuesEmpty(raw: RawHistoryEntry)
    ensures HistoryEntryIssues(raw) == [] <==> WellFormedRawEntry(raw)
  {
  }

  function DecodeHistoryEntry(raw: RawHistoryEntry): (e: HistoryEntry)
    requires WellFormedRawEntry(raw)
  {
    HistoryEntry(ParseDate(raw.date.value).value, ParseRing(raw.ring.value).value, raw.note.value, raw.pr)
  }

  /** HistoryEntrySchema.parse: a typed entry carrying the values read, or
      every violation, each at the path of its field (ParseHistoryEntryReportsAt). */
  function ParseHistoryEntry(raw: RawHistoryEntry): (r: Result<HistoryEntry, seq<Issue>>)
    ensures r.Ok? <==> WellFormedRawEntry(raw)
    ensures r.Ok? ==> Some(r.value.date) == ParseDate(raw.date.value) && RingName(r.value.ring) == raw.ring.value
    ensures r.Ok? ==> Some(r.value.note) == raw.note && r.value.pr == raw.pr
    ensures r.Err? ==> r.error != [] && forall i :: 0 <= i < |r.error| ==> r.error[i].path in [[Key("date")], [Key("ring")], [Key("note")], [Key("pr")]]
  {
    HistoryEntryIssuesEmpty(raw);
    var issues := HistoryEntryIssues(raw);
    if issues == [] then Ok(DecodeHistoryEntry(raw)) else Err(issues)
  }

  // LinkSchema and lists of nested records

  predicate WellFormedRawLink(raw: RawLink, isUrl: string -> bool)
  {
    raw.title.Some? && raw.title.value != [] && raw.url.Some? && isUrl(raw.url.value)
  }

  function LinkIssues(raw: RawLink, isUrl: string -> bool): seq<Issue>
  {
    NonEmptyIssues("title", raw.title, "Link title is required") +
    CheckedIssues("url", raw.url, true, raw.url.Some? && isUrl(raw.url.value), "Must be a valid URL")
  }

  function LinksIssuesFrom(links: seq<RawLink>, isUrl: string -> bool, i: nat): (r: seq<Issue>)
    requires i <= |links|
    decreases |links| - i
    ensures r == [] <==> forall j :: i <= j < |links| ==> WellFormedRawLink(links[j], isUrl)
  {
    if i == |links| then []
    else Under([Key("links"), Index(i)], LinkIssues(links[i], isUrl)) + LinksIssuesFrom(links, isUrl, i + 1)
  }

  function HistoryIssuesFrom(history: seq<RawHistoryEntry>, i: nat): (r: seq<Issue>)
    requires i <= |history|
    decreases |history| - i
    ensures r == [] <==> forall j :: i <= j < |history| ==> WellFormedRawEntry(history[j])
  {
    if i == |history| then []
    else
      HistoryEntryIssuesEmpty(history[i]);
      Under([Key("history"), Index(i)], HistoryEntryIssues(history[i])) + HistoryIssuesFrom(history, i + 1)
  }

  // BlipFrontMatterSchema

  predicate WellFormedRawBlip(raw: RawBlip, isUrl: string -> bool)
  {
    raw.name.Some? && raw.name.value != [] &&
    IsQuadrantName(raw.quadrant) && IsRingName(raw.ring) && IsStatusName(raw.status) &&
    IsOptionalDate(raw.since) && IsOptionalDate(raw.lastReviewed) &&
    (raw.links.Some? ==> forall j :: 0 <= j < |raw.links.value| ==> WellFormedRawLink(raw.links.value[j], isUrl)) &&
    (raw.history.Some? ==> forall j :: 0 <= j < |raw.history.value| ==> WellFormedRawEntry(raw.history.value[j]))
  }

  function BlipIssues(raw: RawBlip, isUrl: string -> bool): (r: seq<Issue>)
    ensures r == [] <==> WellFormedRawBlip(raw, isUrl)
  {
    var f := FieldIssues(raw);
    var g := if raw.links.Some? then LinksIssuesFrom(raw.links.value, isUrl, 0) else [];
    var h := if raw.history.Some? then HistoryIssuesFrom(raw.history.value, 0) else [];
    assert |f + g + h| == |f| + |g| + |h|;
    f + g + h
  }

  /** The issues of the six scalar keys, in schema order. */
  function FieldIssues(raw: RawBlip): (r: seq<Issue>)
    ensures r == [] <==>
      raw.name.Some? && raw.name.value != [] && IsQuadrantName(raw.quadrant) && IsRingName(raw.ring) &&
      IsStatusName(raw.status) && IsOptionalDate(raw.since) && IsOptionalDate(raw.lastReviewed)
  {
    NonEmptyIssues("name", raw.name, "Blip name is required") +
    CheckedIssues("quadrant", raw.quadrant, true, IsQuadrantName(raw.quadrant), InvalidEnum) +
    CheckedIssues("ring", raw.ring, true, IsRingName(raw.ring), InvalidEnum) +
    CheckedIssues("status", raw.status, true, IsStatusName(raw.status), InvalidEnum) +
    CheckedIssues("since", raw.since, false, IsOptionalDate(raw.since), "Since date must be in YYYY-MM-DD format") +
    CheckedIssues("last_reviewed", raw.lastReviewed, false, IsOptionalDate(raw.lastReviewed), "Last reviewed date must be in YYYY-MM-DD format")
  }

  function OrEmpty<T>(v: Option<seq<T>>): seq<T>
  {
    if v.Some? then v.value else []
  }

  function DecodeDate(v: Option<string>): (r: Option<Date>)
    requires IsOptionalDate(v)
  {
    if v.Some? then ParseDate(v.value) else None
  }

  function DecodeBlip(raw: RawBlip, isUrl: string -> bool): (b: BlipFrontMatter)
    requires WellFormedRawBlip(raw, isUrl)
    ensures raw.history.Some? ==> |b.history| == |raw.history.value| && forall j :: 0 <= j < |raw.history.value| ==>
      ParseHistoryEntry(raw.history.value[j]) == Ok(b.history[j])
    ensures raw.links.Some? ==> |b.links| == |raw.links.value| && forall j :: 0 <= j < |raw.links.value| ==>
      Some(b.links[j].title) == raw.links.value[j].title && Some(b.links[j].url) == raw.links.value[j].url
  {
    var links := OrEmpty(raw.links);
    var history := OrEmpty(raw.history);
    BlipFrontMatter(
      raw.name.value,
      ParseQuadrant(raw.quadrant.value).value,
      ParseRing(raw.ring.value).value,
      ParseStatus(raw.status.value).value,
      raw.summary,
      OrEmpty(raw.tags),
      OrEmpty(raw.owners),
      DecodeDate(raw.since),
      DecodeDate(raw.lastReviewed),
      DecodeLinks(links),
      DecodeHistory(history))
  }

  function DecodeLinks(links: seq<RawLink>): (r: seq<Link>)
    requires forall j :: 0 <= j < |links| ==> links[j].title.Some? && links[j].url.Some?
    ensures |r| == |links|
    ensures forall j :: 0 <= j < |r| ==> r[j] == Link(links[j].title.value, links[j].url.value)
  {
    seq(|links|, j requires 0 <= j < |links| => Link(links[j].title.value, links[j].url.value))
  }

  function DecodeHistory(history: seq<RawHistoryEntry>): (r: seq<HistoryEntry>)
    requires forall j :: 0 <= j < |history| ==> WellFormedRawEntry(history[j])
    ensures |r| == |history|
    ensures forall j :: 0 <= j < |r| ==> r[j] == DecodeHistoryEntry(history[j])
  {
    seq(|history|, j requires 0 <= j < |history| => DecodeHistoryEntry(history[j]))
  }

  /** BlipFrontMatterSchema.parse: typed front matter, with tags, owners,
      links and history defaulting to empty lists, or every violation (ParseBlipFrontMatterReportsAt). */
  function ParseBlipFrontMatter(raw: RawBlip, isUrl: string -> bool): (r: Result<BlipFrontMatter, seq<Issue>>)
    ensures r.Ok? <==> WellFormedRawBlip(raw, isUrl)
    ensures r.Err? ==> r.error != []
    ensures r.Ok? ==> Some(r.value.name) == raw.name && Some(RingName(r.value.ring)) == raw.ring
    ensures r.Ok? ==> Some(StatusName(r.value.status)) == raw.status && Some(QuadrantName(r.value.quadrant)) == raw.quadrant
    ensures r.Ok? ==> r.value.summary == raw.summary
    ensures r.Ok? && raw.tags.None? ==> r.value.tags == []
    ensures r.Ok? && raw.owners.None? ==> r.value.owners == []
    ensures r.Ok? && raw.links.None? ==> r.value.links == []
    ensures r.Ok? && raw.history.None? ==> r.value.history == []
    ensures r.Ok? && raw.history.Some? ==> |r.value.history| == |raw.history.value|
  {
    var issues := BlipIssues(raw, isUrl);
    if issues == [] then Ok(DecodeBlip(raw, isUrl)) else Err(issues)
  }

  /** What a successful parse holds beyond the enumerations: tags and owners
      as given, each date parsed from its string, each link with the title
      and URL read, and each history entry as HistoryEntrySchema parses it. */
  lemma ParseBlipFrontMatterDecodes(raw: RawBlip, isUrl: string -> bool)
    ensures var r := ParseBlipFrontMatter(raw, isUrl);
      r.Ok? ==>
        (raw.tags.Some? ==> r.value.tags == raw.tags.value) &&
        (raw.owners.Some? ==> r.value.owners == raw.owners.value) &&
        r.value.since == (if raw.since.Some? then ParseDate(raw.since.value) else None) &&
        r.value.lastReviewed == (if raw.lastReviewed.Some? then ParseDate(raw.lastReviewed.value) else None)
    ensures var r := ParseBlipFrontMatter(raw, isUrl);
      r.Ok? && raw.links.Some? ==>
        |r.value.links| == |raw.links.value| &&
        forall j :: 0 <= j < |raw.links.value| ==>
          Some(r.value.links[j].title) == raw.links.value[j].title && Some(r.value.links[j].url) == raw.links.value[j].url
    ensures var r := ParseBlipFrontMatter(raw, isUrl);
      r.Ok? && raw.history.Some? ==>
        |r.value.history| == |raw.history.value| &&
        forall j :: 0 <= j < |raw.history.value| ==> ParseHistoryEntry(raw.history.value[j]) == Ok(r.value.history[j])
  {
    if WellFormedRawBlip(raw, isUrl) {
      assert ParseBlipFrontMatter(raw, isUrl) == Ok(DecodeBlip(raw, isUrl));
    }
  }

  // Writing typed front matter back out (yaml.dump) and reading it again

  function HistoryEntryToRaw(e: HistoryEntry): RawHistoryEntry
  {
    RawHistoryEntry(Some(FormatDate(e.date)), Some(RingName(e.ring)), Some(e.note), e.pr)
  }

  function LinkToRaw(l: Link): RawLink
  {
    RawLink(Some(l.title), Some(l.url))
  }

  function OptionalDateToRaw(d: Option<Date>): Option<string>
  {
    if d.Some? then Some(FormatDate(d.value)) else None
  }

  /** The document `yaml.dump` writes for typed front matter: every present
      field, absent optional fields left out. */
  function FrontMatterToRaw(b: BlipFrontMatter): RawBlip
  {
    RawBlip(
      Some(b.name), Some(QuadrantName(b.quadrant)), Some(RingName(b.ring)), Some(StatusName(b.status)),
      b.summary, Some(b.tags), Some(b.owners),
      OptionalDateToRaw(b.since), OptionalDateToRaw(b.lastReviewed),
      Some(LinksToRaw(b.links)),
      Some(HistoryToRaw(b.history)))
  }

  function LinksToRaw(links: seq<Link>): (r: seq<RawLink>)
    ensures |r| == |links|
    ensures forall j :: 0 <= j < |r| ==> r[j] == LinkToRaw(links[j])
  {
    seq(|links|, j requires 0 <= j < |links| => LinkToRaw(links[j]))
  }

  function HistoryToRaw(history: seq<HistoryEntry>): (r: seq<RawHistoryEntry>)
    ensures |r| == |history|
    ensures forall j :: 0 <= j < |r| ==> r[j] == HistoryEntryToRaw(history[j])
  {
    seq(|history|, j requires 0 <= j < |history| => HistoryEntryToRaw(history[j]))
  }

  /** What typed front matter must satisfy to survive being written out and
      validated again: the string minimums and formats zod checks. */
  predicate WellFormedFrontMatter(b: BlipFrontMatter, isUrl: string -> bool)
  {
    b.name != [] &&
    (forall j :: 0 <= j < |b.links| ==> b.links[j].title != [] && isUrl(b.links[j].url)) &&
    (forall j :: 0 <= j < |b.history| ==> WellFormedEntry(b.history[j]))
  }

  predicate WellFormedEntry(e: HistoryEntry)
  {
    e.note != [] && (e.pr.Some? ==> IsPrRef(e.pr.value))
  }

  /** Writing front matter out and validating it again gives the same record
      back exactly when it is well formed (the read-modify-write cycle of the
      authoring tools loses nothing). */
  lemma FrontMatterRoundTrip(b: BlipFrontMatter, isUrl: string -> bool)
    ensures ParseBlipFrontMatter(FrontMatterToRaw(b), isUrl).Ok? <==> WellFormedFrontMatter(b, isUrl)
    ensures WellFormedFrontMatter(b, isUrl) ==> ParseBlipFrontMatter(FrontMatterToRaw(b), isUrl) == Ok(b)
  {
    FrontMatterWellFormedIff(b, isUrl);
    if WellFormedFrontMatter(b, isUrl) {
      FrontMatterDecodes(b, isUrl);
    }
  }

  lemma FrontMatterWellFormedIff(b: BlipFrontMatter, isUrl: string -> bool)
    ensures WellFormedRawBlip(FrontMatterToRaw(b), isUrl) <==> WellFormedFrontMatter(b, isUrl)
  {
    var raw := FrontMatterToRaw(b);
    EnumNamesRoundTrip(b.ring, b.status, b.quadrant);
    OptionalDateRoundTrip(b.since);
    OptionalDateRoundTrip(b.lastReviewed);
    assert raw.name == Some(b.name);
    assert IsQuadrantName(raw.quadrant) && IsRingName(raw.ring) && IsStatusName(raw.status);
    assert IsOptionalDate(raw.since) && IsOptionalDate(raw.lastReviewed);
    var links, history := LinksToRaw(b.links), HistoryToRaw(b.history);
    assert raw.links == Some(links) && raw.history == Some(history);
    LinksRoundTrip(b.links, isUrl);
    HistoryRoundTrip(b.history);
  }

  lemma FrontMatterDecodes(b: BlipFrontMatter, isUrl: string -> bool)
    requires WellFormedRawBlip(FrontMatterToRaw(b), isUrl)
    ensures DecodeBlip(FrontMatterToRaw(b), isUrl) == b
  {
    EnumNamesRoundTrip(b.ring, b.status, b.quadrant);
    OptionalDateRoundTrip(b.since);
    OptionalDateRoundTrip(b.lastReviewed);
    LinksRoundTrip(b.links, isUrl);
    HistoryRoundTrip(b.history);
  }

  lemma OptionalDateRoundTrip(d: Option<Date>)
    ensures IsOptionalDate(OptionalDateToRaw(d)) && DecodeDate(OptionalDateToRaw(d)) == d
  {
    if d.Some? {
      ParseFormatDate(d.value);
    }
  }

  lemma EntryRoundTrip(e: HistoryEntry)
    ensures WellFormedRawEntry(HistoryEntryToRaw(e)) <==> WellFormedEntry(e)
    ensures WellFormedEntry(e) ==> DecodeHistoryEntry(HistoryEntryToRaw(e)) == e
  {
    ParseFormatDate(e.date);
    EnumNamesRoundTrip(e.ring, New, Tools);
  }

  lemma HistoryRoundTrip(history: seq<HistoryEntry>)
    ensures (forall j :: 0 <= j < |history| ==> WellFormedRawEntry(HistoryToRaw(history)[j])) <==>
            (forall j :: 0 <= j < |history| ==> WellFormedEntry(history[j]))
    ensures (forall j :: 0 <= j < |history| ==> WellFormedEntry(history[j])) ==>
            DecodeHistory(HistoryToRaw(history)) == history
  {
    var raw := HistoryToRaw(history);
    forall j | 0 <= j < |history|
      ensures WellFormedRawEntry(raw[j]) <==> WellFormedEntry(history[j])
      ensures WellFormedEntry(history[j]) ==> DecodeHistoryEntry(raw[j]) == history[j]
    {
      EntryRoundTrip(history[j]);
    }
  }

  lemma LinksRoundTrip(links: seq<Link>, isUrl: string -> bool)
    ensures (forall j :: 0 <= j < |links| ==> WellFormedRawLink(LinksToRaw(links)[j], isUrl)) <==>
            (forall j :: 0 <= j < |links| ==> links[j].title != [] && isUrl(links[j].url))
    ensures DecodeLinks(LinksToRaw(links)) == links
  {
    var raw := LinksToRaw(links);
    forall j | 0 <= j < |links|
      ensures WellFormedRawLink(raw[j], isUrl) <==> links[j].title != [] && isUrl(links[j].url)
    {
      assert raw[j] == LinkToRaw(links[j]);
    }
  }

  // RadarConfigSchema

  predicate IsPositive(v: Option<int>) { v.Some? ==> v.value > 0 }

  predicate WellFormedRawConfig(raw: RawConfig, isUrl: string -> bool)
  {
    raw.title.Some? && raw.title.value != [] &&
    raw.repoUrl.Some? && isUrl(raw.repoUrl.value) &&
    raw.quadrants.Some? && |raw.quadrants.value| == 4 &&
    raw.rings.Some? && |raw.rings.value| == 4 &&
    raw.colors.Some? && (forall i :: 0 <= i < |raw.colors.value| ==> IsHexColor(raw.colors.value[i].1)) &&
    IsPositive(raw.showRecentChangesDays) && IsPositive(raw.changelogDays)
  }

  function ColorIssuesFrom(colors: seq<(string, string)>, i: nat): (r: seq<Issue>)
    requires i <= |colors|
    decreases |colors| - i
    ensures r == [] <==> forall j :: i <= j < |colors| ==> IsHexColor(colors[j].1)
  {
    if i == |colors| then []
    else
      var here := if IsHexColor(colors[i].1) then [] else [Issue([Key("colors"), Key(colors[i].0)], "Must be hex color")];
      here + ColorIssuesFrom(colors, i + 1)
  }

  function LengthIssues(key: string, v: Option<seq<string>>, message: string): seq<Issue>
  {
    match v
    case None => [Issue([Key(key)], Required)]
    case Some(xs) => if |xs| == 4 then [] else [Issue([Key(key)], message)]
  }

  function PositiveIssues(key: string, v: Option<int>): seq<Issue>
  {
    if IsPositive(v) then [] else [Issue([Key(key)], NotPositive)]
  }

  function ConfigIssues(raw: RawConfig, isUrl: string -> bool): (r: seq<Issue>)
    ensures r == [] <==> WellFormedRawConfig(raw, isUrl)
  {
    NonEmptyIssues("title", raw.title, "Radar title is required") +
    CheckedIssues("repo_url", raw.repoUrl, true, raw.repoUrl.Some? && isUrl(raw.repoUrl.value), "Repository URL must be valid") +
    LengthIssues("quadrants", raw.quadrants, "Must have exactly 4 quadrants") +
    LengthIssues("rings", raw.rings, "Must have exactly 4 rings") +
    (if raw.colors.Some? then ColorIssuesFrom(raw.colors.value, 0) else [Issue([Key("colors")], Required)]) +
    PositiveIssues("show_recent_changes_days", raw.showRecentChangesDays) +
    PositiveIssues("changelog_days", raw.changelogDays)
  }

  function OrDefault(v: Option<int>, default: int): int
  {
    if v.Some? then v.value else default
  }

  /** RadarConfigSchema.parse: a configuration with exactly four quadrants
      and four rings, hex colours and positive windows, `base_path`
      defaulting to "/" and both windows to 90 days; or every violation (ParseRadarConfigReportsAt). */
  function ParseRadarConfig(raw: RawConfig, isUrl: string -> bool): (r: Result<RadarConfig, seq<Issue>>)
    ensures r.Ok? <==> WellFormedRawConfig(raw, isUrl)
    ensures r.Err? ==> r.error != []
    ensures r.Ok? ==> ValidConfig(r.value) && isUrl(r.value.repoUrl)
    ensures r.Ok? ==> Some(r.value.quadrants) == raw.quadrants && Some(r.value.rings) == raw.rings
    ensures r.Ok? ==> r.value.basePath == if raw.basePath.Some? then raw.basePath.value else DefaultBasePath
    ensures r.Ok? && raw.showRecentChangesDays.None? ==> r.value.showRecentChangesDays == DefaultWindowDays
    ensures r.Ok? && raw.changelogDays.None? ==> r.value.changelogDays == DefaultWindowDays
    ensures r.Ok? && raw.showRecentChangesDays.Some? ==> Some(r.value.showRecentChangesDays) == raw.showRecentChangesDays
    ensures r.Ok? && raw.changelogDays.Some? ==> Some(r.value.changelogDays) == raw.changelogDays
    ensures r.Ok? ==> Some(r.value.title) == raw.title && Some(r.value.repoUrl) == raw.repoUrl && Some(r.value.colors) == raw.colors
    ensures r.Ok? ==> r.value.description == raw.description && r.value.orgName == raw.orgName
  {
    var issues := ConfigIssues(raw, isUrl);
    if issues != [] then Err(issues)
    else Ok(RadarConfig(
      raw.title.value, raw.repoUrl.value,
      if raw.basePath.Some? then raw.basePath.value else DefaultBasePath,
      raw.quadrants.value, raw.rings.value, raw.colors.value,
      raw.description, raw.orgName,
      OrDefault(raw.showRecentChangesDays, DefaultWindowDays),
      OrDefault(raw.changelogDays, DefaultWindowDays)))
  }

  // ---------------------------------------------------------------------
  // Where each violation is reported
  // ---------------------------------------------------------------------

  /** Some issue of the list is at `path`. */
  predicate ReportedAt(issues: seq<Issue>, path: seq<PathSegment>)
    decreases |issues|
  {
    issues != [] && (issues[0].path == path || ReportedAt(issues[1..], path))
  }

  /** ReportedAt names exactly the paths of the list's issues. */
  lemma {:induction false} ReportedAtIff(issues: seq<Issue>, path: seq<PathSegment>)
    decreases |issues|
    ensures ReportedAt(issues, path) <==> exists i :: 0 <= i < |issues| && issues[i].path == path
  {
    if issues != [] {
      ReportedAtIff(issues[1..], path);
      if exists i :: 0 <= i < |issues| && issues[i].path == path {
        var i :| 0 <= i < |issues| && issues[i].path == path;
        if i > 0 {
          assert issues[1..][i - 1].path == path;
        }
      }
      if ReportedAt(issues[1..], path) {
        var i :| 0 <= i < |issues[1..]| && issues[1..][i].path == path;
        assert issues[i + 1].path == path;
      }
    }
  }

  lemma ReportedAtSingle(x: Issue, path: seq<PathSegment>)
    ensures ReportedAt([x], path) <==> x.path == path
  {
    assert [x][1..] == [];
  }

  lemma {:induction false} ReportedAtAppend(a: seq<Issue>, b: seq<Issue>, path: seq<PathSegment>)
    decreases |a|
    ensures ReportedAt(a + b, path) <==> ReportedAt(a, path) || ReportedAt(b, path)
  {
    if a != [] {
      assert (a + b)[1..] == a[1..] + b;
      ReportedAtAppend(a[1..], b, path);
    } else {
      assert a + b == b;
    }
  }

  lemma CheckedIssuesAt(key: string, v: Option<string>, required: bool, ok: bool, message: string, path: seq<PathSegment>)
    ensures ReportedAt(CheckedIssues(key, v, required, ok, message), path) <==>
      path == [Key(key)] && (if v.None? then required else !ok)
  {
    var r := CheckedIssues(key, v, required, ok, message);
    if r != [] {
      ReportedAtSingle(r[0], path);
      assert r == [r[0]];
    }
  }

  lemma NonEmptyIssuesAt(key: string, v: Option<string>, message: string, path: seq<PathSegment>)
    ensures ReportedAt(NonEmptyIssues(key, v, message), path) <==> path == [Key(key)] && (v.None? || v.value == [])
  {
    var r := NonEmptyIssues(key, v, message);
    if r != [] {
      ReportedAtSingle(r[0], path);
      assert r == [r[0]];
    }
  }

  /** An issue re-rooted under `prefix` is reported at `prefix` followed by
      its own path, and nowhere else. */
  lemma {:induction false} UnderAt(prefix: seq<PathSegment>, issues: seq<Issue>, path: seq<PathSegment>)
    decreases |issues|
    ensures ReportedAt(Under(prefix, issues), path) <==>
      |prefix| <= |path| && path[..|prefix|] == prefix && ReportedAt(issues, path[|prefix|..])
  {
    if issues != [] {
      var r := Under(prefix, issues);
      assert r[1..] == Under(prefix, issues[1..]);
      UnderAt(prefix, issues[1..], path);
      var p := r[0].path;
      assert p == prefix + issues[0].path;
      assert p[..|prefix|] == prefix && p[|prefix|..] == issues[0].path;
    }
  }

  /** HistoryEntrySchema reports each violated field at that field, and
      nothing else. */
  lemma HistoryEntryIssuesAt(raw: RawHistoryEntry, path: seq<PathSegment>)
    ensures ReportedAt(HistoryEntryIssues(raw), path) <==>
      (path == [Key("date")] && !(raw.date.Some? && IsIsoDate(raw.date.value))) ||
      (path == [Key("ring")] && !IsRingName(raw.ring)) ||
      (path == [Key("note")] && !(raw.note.Some? && raw.note.value != [])) ||
      (path == [Key("pr")] && raw.pr.Some? && !IsPrRef(raw.pr.value))
  {
    var a := CheckedIssues("date", raw.date, true, raw.date.Some? && IsIsoDate(raw.date.value), "Date must be in YYYY-MM-DD format");
    var b := CheckedIssues("ring", raw.ring, true, IsRingName(raw.ring), InvalidEnum);
    var c := NonEmptyIssues("note", raw.note, "History note is required");
    var d := CheckedIssues("pr", raw.pr, false, raw.pr.Some? && IsPrRef(raw.pr.value), "PR must be in format #123");
    assert HistoryEntryIssues(raw) == a + b + c + d;
    ReportedAtAppend(a + b + c, d, path);
    ReportedAtAppend(a + b, c, path);
    ReportedAtAppend(a, b, path);
    CheckedIssuesAt("date", raw.date, true, raw.date.Some? && IsIsoDate(raw.date.value), "Date must be in YYYY-MM-DD format", path);
    CheckedIssuesAt("ring", raw.ring, true, IsRingName(raw.ring), InvalidEnum, path);
    NonEmptyIssuesAt("note", raw.note, "History note is required", path);
    CheckedIssuesAt("pr", raw.pr, false, raw.pr.Some? && IsPrRef(raw.pr.value), "PR must be in format #123", path);
  }

  /** LinkSchema reports a missing or empty title at `title` and a missing
      or invalid URL at `url`, and nothing else. */
  lemma LinkIssuesAt(raw: RawLink, isUrl: string -> bool, path: seq<PathSegment>)
    ensures ReportedAt(LinkIssues(raw, isUrl), path) <==>
      (path == [Key("title")] && !(raw.title.Some? && raw.title.value != [])) ||
      (path == [Key("url")] && !(raw.url.Some? && isUrl(raw.url.value)))
  {
    var a := NonEmptyIssues("title", raw.title, "Link title is required");
    var b := CheckedIssues("url", raw.url, true, raw.url.Some? && isUrl(raw.url.value), "Must be a valid URL");
    ReportedAtAppend(a, b, path);
    NonEmptyIssuesAt("title", raw.title, "Link title is required", path);
    CheckedIssuesAt("url", raw.url, true, raw.url.Some? && isUrl(raw.url.value), "Must be a valid URL", path);
  }

  /** The issues of entries i.. of a list of n entries, entry j's issues
      given by f(j) and re-rooted under `key`, `j`: the shape shared by
      the links and the history of the front matter. */
  function IndexedIssues(key: string, f: nat -> seq<Issue>, n: nat, i: nat): seq<Issue>
    decreases n - i
  {
    if i < n then Under([Key(key), Index(i)], f(i)) + IndexedIssues(key, f, n, i + 1) else []
  }

  /** Entry j's issues are reported under `key`, `j`, and every issue of
      the list is one of those. */
  lemma {:induction false} IndexedIssuesAt(key: string, f: nat -> seq<Issue>, n: nat, i: nat, path: seq<PathSegment>)
    decreases n - i
    ensures ReportedAt(IndexedIssues(key, f, n, i), path) <==>
      2 <= |path| && path[0] == Key(key) && path[1].Index? && i <= path[1].index < n &&
      ReportedAt(f(path[1].index), path[2..])
  {
    if i < n {
      var prefix := [Key(key), Index(i)];
      ReportedAtAppend(Under(prefix, f(i)), IndexedIssues(key, f, n, i + 1), path);
      UnderAt(prefix, f(i), path);
      IndexedIssuesAt(key, f, n, i + 1, path);
      if 2 <= |path| && path[0] == Key(key) && path[1] == Index(i) {
        assert path[..2] == prefix;
      } else if 2 <= |path| {
        assert path[..2][0] == path[0] && path[..2][1] == path[1];
      }
    }
  }

  function LinkAt(links: seq<RawLink>, isUrl: string -> bool): nat -> seq<Issue>
  {
    (j: nat) => if j < |links| then LinkIssues(links[j], isUrl) else []
  }

  function EntryAt(history: seq<RawHistoryEntry>): nat -> seq<Issue>
  {
    (j: nat) => if j < |history| then HistoryEntryIssues(history[j]) else []
  }

  /** The issues of links i.. are the indexed issues of the links. */
  lemma {:induction false} LinksIssuesIndexed(links: seq<RawLink>, isUrl: string -> bool, i: nat)
    requires i <= |links|
    decreases |links| - i
    ensures LinksIssuesFrom(links, isUrl, i) == IndexedIssues("links", LinkAt(links, isUrl), |links|, i)
  {
    if i < |links| {
      LinksIssuesIndexed(links, isUrl, i + 1);
      var f := LinkAt(links, isUrl);
      var e := LinkIssues(links[i], isUrl);
      assert f(i) == e;
      assert LinksIssuesFrom(links, isUrl, i) == Under([Key("links"), Index(i)], e) + LinksIssuesFrom(links, isUrl, i + 1);
      assert IndexedIssues("links", f, |links|, i) == Under([Key("links"), Index(i)], f(i)) + IndexedIssues("links", f, |links|, i + 1);
    }
  }

  /** The issues of history entries i.. are the indexed issues of the entries. */
  lemma {:induction false} HistoryIssuesIndexed(history: seq<RawHistoryEntry>, i: nat)
    requires i <= |history|
    decreases |history| - i
    ensures HistoryIssuesFrom(history, i) == IndexedIssues("history", EntryAt(history), |history|, i)
  {
    if i < |history| {
      HistoryIssuesIndexed(history, i + 1);
      var f := EntryAt(history);
      var e := HistoryEntryIssues(history[i]);
      assert f(i) == e;
      assert HistoryIssuesFrom(history, i) == Under([Key("history"), Index(i)], e) + HistoryIssuesFrom(history, i + 1);
      assert IndexedIssues("history", f, |history|, i) == Under([Key("history"), Index(i)], f(i)) + IndexedIssues("history", f, |history|, i + 1);
    }
  }

  /** The issues of link j are reported under `links`, `j`, and every issue
      of the list is one of those. */
  lemma LinksIssuesAt(links: seq<RawLink>, isUrl: string -> bool, i: nat, path: seq<PathSegment>)
    requires i <= |links|
    ensures ReportedAt(LinksIssuesFrom(links, isUrl, i), path) <==>
      2 <= |path| && path[0] == Key("links") && path[1].Index? && i <= path[1].index < |links| &&
      ReportedAt(LinkIssues(links[path[1].index], isUrl), path[2..])
  {
    LinksIssuesIndexed(links, isUrl, i);
    IndexedIssuesAt("links", LinkAt(links, isUrl), |links|, i, path);
  }

  /** The issues of history entry j are reported under `history`, `j`, and
      every issue of the list is one of those. */
  lemma HistoryIssuesAt(history: seq<RawHistoryEntry>, i: nat, path: seq<PathSegment>)
    requires i <= |history|
    ensures ReportedAt(HistoryIssuesFrom(history, i), path) <==>
      2 <= |path| && path[0] == Key("history") && path[1].Index? && i <= path[1].index < |history| &&
      ReportedAt(HistoryEntryIssues(history[path[1].index]), path[2..])
  {
    HistoryIssuesIndexed(history, i);
    IndexedIssuesAt("history", EntryAt(history), |history|, i, path);
  }

  /** BlipFrontMatterSchema reports each violated top-level field at that
      field, and each violation inside a link or a history entry under
      that list and index (as LinksIssuesAt and HistoryIssuesAt spell out);
      nothing else is reported. */
  lemma BlipIssuesAt(raw: RawBlip, isUrl: string -> bool, path: seq<PathSegment>)
    ensures ReportedAt(BlipIssues(raw, isUrl), path) <==>
      (path == [Key("name")] && !(raw.name.Some? && raw.name.value != [])) ||
      (path == [Key("quadrant")] && !IsQuadrantName(raw.quadrant)) ||
      (path == [Key("ring")] && !IsRingName(raw.ring)) ||
      (path == [Key("status")] && !IsStatusName(raw.status)) ||
      (path == [Key("since")] && !IsOptionalDate(raw.since)) ||
      (path == [Key("last_reviewed")] && !IsOptionalDate(raw.lastReviewed)) ||
      (raw.links.Some? && ReportedAt(LinksIssuesFrom(raw.links.value, isUrl, 0), path)) ||
      (raw.history.Some? && ReportedAt(HistoryIssuesFrom(raw.history.value, 0), path))
  {
    var g := if raw.links.Some? then LinksIssuesFrom(raw.links.value, isUrl, 0) else [];
    var h := if raw.history.Some? then HistoryIssuesFrom(raw.history.value, 0) else [];
    assert BlipIssues(raw, isUrl) == FieldIssues(raw) + g + h;
    ReportedAtAppend(FieldIssues(raw) + g, h, path);
    ReportedAtAppend(FieldIssues(raw), g, path);
    FieldIssuesAt(raw, path);
  }

  /** The six scalar keys: each violated one is reported at its own key. */
  lemma FieldIssuesAt(raw: RawBlip, path: seq<PathSegment>)
    ensures ReportedAt(FieldIssues(raw), path) <==>
      (path == [Key("name")] && !(raw.name.Some? && raw.name.value != [])) ||
      (path == [Key("quadrant")] && !IsQuadrantName(raw.quadrant)) ||
      (path == [Key("ring")] && !IsRingName(raw.ring)) ||
      (path == [Key("status")] && !IsStatusName(raw.status)) ||
      (path == [Key("since")] && !IsOptionalDate(raw.since)) ||
      (path == [Key("last_reviewed")] && !IsOptionalDate(raw.lastReviewed))
  {
    var a := NonEmptyIssues("name", raw.name, "Blip name is required");
    var b := CheckedIssues("quadrant", raw.quadrant, true, IsQuadrantName(raw.quadrant), InvalidEnum);
    var c := CheckedIssues("ring", raw.ring, true, IsRingName(raw.ring), InvalidEnum);
    var d := CheckedIssues("status", raw.status, true, IsStatusName(raw.status), InvalidEnum);
    var e := CheckedIssues("since", raw.since, false, IsOptionalDate(raw.since), "Since date must be in YYYY-MM-DD format");
    var f := CheckedIssues("last_reviewed", raw.lastReviewed, false, IsOptionalDate(raw.lastReviewed), "Last reviewed date must be in YYYY-MM-DD format");
    assert FieldIssues(raw) == a + b + c + d + e + f;
    ReportedAtAppend(a + b + c + d + e, f, path);
    ReportedAtAppend(a + b + c + d, e, path);
    ReportedAtAppend(a + b + c, d, path);
    ReportedAtAppend(a + b, c, path);
    ReportedAtAppend(a, b, path);
    NonEmptyIssuesAt("name", raw.name, "Blip name is required", path);
    CheckedIssuesAt("quadrant", raw.quadrant, true, IsQuadrantName(raw.quadrant), InvalidEnum, path);
    CheckedIssuesAt("ring", raw.ring, true, IsRingName(raw.ring), InvalidEnum, path);
    CheckedIssuesAt("status", raw.status, true, IsStatusName(raw.status), InvalidEnum, path);
    CheckedIssuesAt("since", raw.since, false, IsOptionalDate(raw.since), "Since date must be in YYYY-MM-DD format", path);
    CheckedIssuesAt("last_reviewed", raw.lastReviewed, false, IsOptionalDate(raw.lastReviewed), "Last reviewed date must be in YYYY-MM-DD format", path);
  }

  /** A bad colour value is reported under `colors` and its own name. */
  lemma {:induction false} ColorIssuesAt(colors: seq<(string, string)>, i: nat, path: seq<PathSegment>)
    requires i <= |colors|
    decreases |colors| - i
    ensures ReportedAt(ColorIssuesFrom(colors, i), path) <==>
      exists j :: i <= j < |colors| && path == [Key("colors"), Key(colors[j].0)] && !IsHexColor(colors[j].1)
  {
    if i < |colors| {
      var here := if IsHexColor(colors[i].1) then [] else [Issue([Key("colors"), Key(colors[i].0)], "Must be hex color")];
      ColorIssuesAt(colors, i + 1, path);
      ReportedAtAppend(here, ColorIssuesFrom(colors, i + 1), path);
      if here != [] {
        assert here[0].path == [Key("colors"), Key(colors[i].0)];
      }
    }
  }

  lemma LengthIssuesAt(key: string, v: Option<seq<string>>, message: string, path: seq<PathSegment>)
    ensures ReportedAt(LengthIssues(key, v, message), path) <==> path == [Key(key)] && (v.None? || |v.value| != 4)
  {
    var r := LengthIssues(key, v, message);
    if r != [] {
      ReportedAtSingle(r[0], path);
      assert r == [r[0]];
    }
  }

  lemma PositiveIssuesAt(key: string, v: Option<int>, path: seq<PathSegment>)
    ensures ReportedAt(PositiveIssues(key, v), path) <==> path == [Key(key)] && !IsPositive(v)
  {
    var r := PositiveIssues(key, v);
    if r != [] {
      ReportedAtSingle(r[0], path);
      assert r == [r[0]];
    }
  }

  /** RadarConfigSchema reports each violated key at that key, a bad colour
      under `colors` and its name, and nothing else. */
  lemma ConfigIssuesAt(raw: RawConfig, isUrl: string -> bool, path: seq<PathSegment>)
    ensures ReportedAt(ConfigIssues(raw, isUrl), path) <==>
      (path == [Key("title")] && !(raw.title.Some? && raw.title.value != [])) ||
      (path == [Key("repo_url")] && !(raw.repoUrl.Some? && isUrl(raw.repoUrl.value))) ||
      (path == [Key("quadrants")] && !(raw.quadrants.Some? && |raw.quadrants.value| == 4)) ||
      (path == [Key("rings")] && !(raw.rings.Some? && |raw.rings.value| == 4)) ||
      (path == [Key("colors")] && raw.colors.None?) ||
      (raw.colors.Some? && ReportedAt(ColorIssuesFrom(raw.colors.value, 0), path)) ||
      (path == [Key("show_recent_changes_days")] && !IsPositive(raw.showRecentChangesDays)) ||
      (path == [Key("changelog_days")] && !IsPositive(raw.changelogDays))
  {
    var a := NonEmptyIssues("title", raw.title, "Radar title is required");
    var b := CheckedIssues("repo_url", raw.repoUrl, true, raw.repoUrl.Some? && isUrl(raw.repoUrl.value), "Repository URL must be valid");
    var c := LengthIssues("quadrants", raw.quadrants, "Must have exactly 4 quadrants");
    var d := LengthIssues("rings", raw.rings, "Must have exactly 4 rings");
    var e := if raw.colors.Some? then ColorIssuesFrom(raw.colors.value, 0) else [Issue([Key("colors")], Required)];
    var f := PositiveIssues("show_recent_changes_days", raw.showRecentChangesDays);
    var g := PositiveIssues("changelog_days", raw.changelogDays);
    assert ConfigIssues(raw, isUrl) == a + b + c + d + e + f + g;
    ReportedAtAppend(a + b + c + d + e + f, g, path);
    ReportedAtAppend(a + b + c + d + e, f, path);
    ReportedAtAppend(a + b + c + d, e, path);
    ReportedAtAppend(a + b + c, d, path);
    ReportedAtAppend(a + b, c, path);
    ReportedAtAppend(a, b, path);
    NonEmptyIssuesAt("title", raw.title, "Radar title is required", path);
    CheckedIssuesAt("repo_url", raw.repoUrl, true, raw.repoUrl.Some? && isUrl(raw.repoUrl.value), "Repository URL must be valid", path);
    LengthIssuesAt("quadrants", raw.quadrants, "Must have exactly 4 quadrants", path);
    LengthIssuesAt("rings", raw.rings, "Must have exactly 4 rings", path);
    PositiveIssuesAt("show_recent_changes_days", raw.showRecentChangesDays, path);
    PositiveIssuesAt("changelog_days", raw.changelogDays, path);
    if raw.colors.None? {
      assert e[0].path == [Key("colors")];
    }
  }

  /** The paths at which HistoryEntrySchema objects to an entry. */
  predicate EntryViolatedAt(raw: RawHistoryEntry, path: seq<PathSegment>)
  {
    (path == [Key("date")] && !(raw.date.Some? && IsIsoDate(raw.date.value))) ||
    (path == [Key("ring")] && !IsRingName(raw.ring)) ||
    (path == [Key("note")] && !(raw.note.Some? && raw.note.value != [])) ||
    (path == [Key("pr")] && raw.pr.Some? && !IsPrRef(raw.pr.value))
  }

  /** The paths at which BlipFrontMatterSchema objects to front matter:
      each violated top-level key, `links`, j followed by a path at which
      link j is bad, and `history`, j followed by a path at which history
      entry j is bad. */
  predicate BlipViolatedAt(raw: RawBlip, isUrl: string -> bool, path: seq<PathSegment>)
  {
    (path == [Key("name")] && !(raw.name.Some? && raw.name.value != [])) ||
    (path == [Key("quadrant")] && !IsQuadrantName(raw.quadrant)) ||
    (path == [Key("ring")] && !IsRingName(raw.ring)) ||
    (path == [Key("status")] && !IsStatusName(raw.status)) ||
    (path == [Key("since")] && !IsOptionalDate(raw.since)) ||
    (path == [Key("last_reviewed")] && !IsOptionalDate(raw.lastReviewed)) ||
    (raw.links.Some? && 2 <= |path| && path[0] == Key("links") && path[1].Index? &&
      path[1].index < |raw.links.value| && ReportedAt(LinkIssues(raw.links.value[path[1].index], isUrl), path[2..])) ||
    (raw.history.Some? && 2 <= |path| && path[0] == Key("history") && path[1].Index? &&
      path[1].index < |raw.history.value| && EntryViolatedAt(raw.history.value[path[1].index], path[2..]))
  }

  /** The paths at which RadarConfigSchema objects to a configuration. */
  predicate ConfigViolatedAt(raw: RawConfig, isUrl: string -> bool, path: seq<PathSegment>)
  {
    (path == [Key("title")] && !(raw.title.Some? && raw.title.value != [])) ||
    (path == [Key("repo_url")] && !(raw.repoUrl.Some? && isUrl(raw.repoUrl.value))) ||
    (path == [Key("quadrants")] && !(raw.quadrants.Some? && |raw.quadrants.value| == 4)) ||
    (path == [Key("rings")] && !(raw.rings.Some? && |raw.rings.value| == 4)) ||
    (path == [Key("colors")] && raw.colors.None?) ||
    (raw.colors.Some? &&
      exists j :: 0 <= j < |raw.colors.value| && path == [Key("colors"), Key(raw.colors.value[j].0)] &&
                  !IsHexColor(raw.colors.value[j].1)) ||
    (path == [Key("show_recent_changes_days")] && !IsPositive(raw.showRecentChangesDays)) ||
    (path == [Key("changelog_days")] && !IsPositive(raw.changelogDays))
  }

  /** Front matter has an issue at exactly the paths where it is violated. */
  lemma BlipIssuesReportedAt(raw: RawBlip, isUrl: string -> bool, path: seq<PathSegment>)
    ensures ReportedAt(BlipIssues(raw, isUrl), path) <==> BlipViolatedAt(raw, isUrl, path)
  {
    BlipIssuesAt(raw, isUrl, path);
    if raw.links.Some? {
      LinksIssuesAt(raw.links.value, isUrl, 0, path);
    }
    if raw.history.Some? {
      HistoryViolatedAt(raw.history.value, path);
    }
  }

  /** A history list has an issue under `history`, j exactly where entry j
      is violated. */
  lemma HistoryViolatedAt(history: seq<RawHistoryEntry>, path: seq<PathSegment>)
    ensures ReportedAt(HistoryIssuesFrom(history, 0), path) <==>
      2 <= |path| && path[0] == Key("history") && path[1].Index? && path[1].index < |history| &&
      EntryViolatedAt(history[path[1].index], path[2..])
  {
    HistoryIssuesAt(history, 0, path);
    if 2 <= |path| && path[1].Index? && path[1].index < |history| {
      HistoryEntryIssuesAt(history[path[1].index], path[2..]);
    }
  }

  /** A configuration has an issue at exactly the paths where it is violated. */
  lemma ConfigIssuesReportedAt(raw: RawConfig, isUrl: string -> bool, path: seq<PathSegment>)
    ensures ReportedAt(ConfigIssues(raw, isUrl), path) <==> ConfigViolatedAt(raw, isUrl, path)
  {
    ConfigIssuesAt(raw, isUrl, path);
    if raw.colors.Some? {
      ColorIssuesAt(raw.colors.value, 0, path);
    }
  }

  /** A failed HistoryEntrySchema parse reports an issue at each violated
      field, and only there. */
  lemma ParseHistoryEntryReportsAt(raw: RawHistoryEntry, path: seq<PathSegment>)
    ensures var r := ParseHistoryEntry(raw);
      r.Err? ==> (ReportedAt(r.error, path) <==> EntryViolatedAt(raw, path))
  {
    HistoryEntryIssuesAt(raw, path);
  }

  /** A failed BlipFrontMatterSchema parse reports an issue at each path
      where the front matter is violated, and only there. */
  lemma ParseBlipFrontMatterReportsAt(raw: RawBlip, isUrl: string -> bool, path: seq<PathSegment>)
    ensures var r := ParseBlipFrontMatter(raw, isUrl);
      r.Err? ==> (ReportedAt(r.error, path) <==> BlipViolatedAt(raw, isUrl, path))
  {
    BlipIssuesReportedAt(raw, isUrl, path);
  }

  /** A failed RadarConfigSchema parse reports an issue at each path where
      the configuration is violated, and only there. */
  lemma ParseRadarConfigReportsAt(raw: RawConfig, isUrl: string -> bool, path: seq<PathSegment>)
    ensures var r := ParseRadarConfig(raw, isUrl);
      r.Err? ==> (ReportedAt(r.error, path) <==> ConfigViolatedAt(raw, isUrl, path))
  {
    ConfigIssuesReportedAt(raw, isUrl, path);
  }
}
