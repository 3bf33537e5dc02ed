/** The block template catalogue: templates that page sections instantiate, their patch-style
    update, the filtered, sorted and paged listing, and the export/import of one template as a
    JSON document. */
module Templates {
  import opened Wrappers
  import opened Strings
  import opened Queries

  /** A block template. `blockType` is the template's Type column. */
  datatype BlockTemplate = BlockTemplate(
    name: string,
    blockType: string,
    defaultHtml: Option<string>,
    description: Option<string>,
    isActive: Option<bool>,
    createdAt: int)

  datatype CreateRequest = CreateRequest(
    name: string, blockType: string, defaultHtml: Option<string>, description: Option<string>)

  /** Every field is optional; a missing one leaves the template's value alone. */
  datatype UpdateRequest = UpdateRequest(
    name: Option<string>, blockType: Option<string>, defaultHtml: Option<string>,
    description: Option<string>, isActive: Option<bool>)

  /** The template a create request stores: always active, stamped with the clock. */
  function Created(req: CreateRequest, now: int): (t: BlockTemplate)
    ensures t.isActive == Some(true) && t.createdAt == now
    ensures t.name == req.name && t.blockType == req.blockType
    ensures t.defaultHtml == req.defaultHtml && t.description == req.description
  {
    BlockTemplate(req.name, req.blockType, req.defaultHtml, req.description, Some(true), now)
  }


  /** The patch rules: name and type change only to a non-empty value, the HTML and the
      description change whenever a value (even "") is supplied, the flag only when supplied. */
  function Patched(t: BlockTemplate, req: UpdateRequest): (r: BlockTemplate)
    ensures r.createdAt == t.createdAt
  {
    t.(name := if NullOrEmpty(req.name) then t.name else req.name.value,
       blockType := if NullOrEmpty(req.blockType) then t.blockType else req.blockType.value,
       defaultHtml := if req.defaultHtml.Some? then req.defaultHtml else t.defaultHtml,
       description := if req.description.Some? then req.description else t.description,
       isActive := if req.isActive.Some? then req.isActive else t.isActive)
  }

  /** An update naming no field leaves the template as it was. */
  lemma EmptyPatchKeeps(t: BlockTemplate, req: UpdateRequest)
    requires NullOrEmpty(req.name) && NullOrEmpty(req.blockType)
    requires req.defaultHtml.None? && req.description.None? && req.isActive.None?
    ensures Patched(t, req) == t
  {
  }

  /** Applying the same update twice is the same as applying it once. */
  lemma PatchIdempotent(t: BlockTemplate, req: UpdateRequest)
    ensures Patched(Patched(t, req), req) == Patched(t, req)
  {
  }

  /** Each field of the result comes either from the request or from the old template, and
      every field the request supplies (a non-empty name or type) wins. */
  lemma PatchFields(t: BlockTemplate, req: UpdateRequest)
    ensures var r := Patched(t, req);
            && (r.name == t.name || Some(r.name) == req.name)
            && (!NullOrEmpty(req.name) ==> r.name == req.name.value)
            && (!NullOrEmpty(req.blockType) ==> r.blockType == req.blockType.value)
            && (NullOrEmpty(req.blockType) ==> r.blockType == t.blockType)
            && (req.defaultHtml.Some? ==> r.defaultHtml == req.defaultHtml)
            && (req.description.Some? ==> r.description == req.description)
            && (req.isActive.None? ==> r.isActive == t.isActive)
  {
  }

  // ----- the listing -----

  datatype Filter = Filter(
    blockType: Option<string>, keyword: Option<string>, sortBy: Option<string>,
    descending: bool, page: int, pageSize: int)

  datatype SortField = ByName | ByType | ByCreatedAt

  /** `SortBy?.ToLower()`: "name" and "type" pick those columns, anything else (or null) the
      creation time. */
  function SortFieldOf(sortBy: Option<string>): (f: SortField)
    ensures f == ByName <==> sortBy.Some? && Lower(sortBy.value) == "name"
    ensures f == ByType <==> sortBy.Some? && Lower(sortBy.value) == "type"
  {
    if sortBy.Some? && Lower(sortBy.value) == "name" then ByName
    else if sortBy.Some? && Lower(sortBy.value) == "type" then ByType
    else ByCreatedAt
  }

  /** The ascending order on one column; text columns compare case-insensitively. */
  predicate KeyLe(f: SortField, a: BlockTemplate, b: BlockTemplate) {
    match f
    case ByName => LexLe(Lower(a.name), Lower(b.name))
    case ByType => LexLe(Lower(a.blockType), Lower(b.blockType))
    case ByCreatedAt => a.createdAt <= b.createdAt
  }

  predicate RowLe(f: SortField, descending: bool, a: (int, BlockTemplate), b: (int, BlockTemplate)) {
    if descending then KeyLe(f, b.1, a.1) else KeyLe(f, a.1, b.1)
  }

  function Order(filter: Filter): ((int, BlockTemplate), (int, BlockTemplate)) -> bool {
    (a, b) => RowLe(SortFieldOf(filter.sortBy), filter.descending, a, b)
  }

  lemma OrderTotal(filter: Filter)
    ensures TotalPreorder(Order(filter))
  {
    var le := Order(filter);
    forall a, b ensures le(a, b) || le(b, a) {
      LexLeTotal(Lower(a.1.name), Lower(b.1.name));
      LexLeTotal(Lower(a.1.blockType), Lower(b.1.blockType));
    }
    forall a, b, c | le(a, b) && le(b, c) ensures le(a, c) {
      if filter.descending {
        LexLeTransIf(Lower(c.1.name), Lower(b.1.name), Lower(a.1.name));
        LexLeTransIf(Lower(c.1.blockType), Lower(b.1.blockType), Lower(a.1.blockType));
      } else {
        LexLeTransIf(Lower(a.1.name), Lower(b.1.name), Lower(c.1.name));
        LexLeTransIf(Lower(a.1.blockType), Lower(b.1.blockType), Lower(c.1.blockType));
      }
    }
  }

  lemma LexLeTransIf(a: string, b: string, c: string)
    ensures LexLe(a, b) && LexLe(b, c) ==> LexLe(a, c)
  {
    if LexLe(a, b) && LexLe(b, c) {
      LexLeTrans(a, b, c);
    }
  }

  /** The Where clauses: an exact type when one is given, and a keyword contained in the
      name or in a non-null description when one is given. */
  predicate Matches(filter: Filter, t: BlockTemplate) {
    && (NullOrEmpty(filter.blockType) || t.blockType == filter.blockType.value)
    && (NullOrEmpty(filter.keyword)
        || Contains(t.name, filter.keyword.value)
        || (t.description.Some? && Contains(t.description.value, filter.keyword.value)))
  }

  function MatchesRow(filter: Filter): ((int, BlockTemplate)) -> bool {
    (row: (int, BlockTemplate)) => Matches(filter, row.1)
  }

  datatype Listing = Listing(items: seq<(int, BlockTemplate)>, totalCount: int)

  /** The matching templates in list order, before paging. */
  function Matching(templates: map<int, BlockTemplate>, filter: Filter): seq<(int, BlockTemplate)> {
    SortBy(Queries.Filter(MatchesRow(filter), Rows(templates)), Order(filter))
  }

  /** GetBlockTemplatesAsync: count the matches, then sort and cut out the page. */
  function List(templates: map<int, BlockTemplate>, filter: Filter): Listing {
    var matched := Queries.Filter(MatchesRow(filter), Rows(templates));
    Listing(Window(SortBy(matched, Order(filter)), filter.page, filter.pageSize), |matched|)
  }

  /** The set of stored templates the filter selects. */
  ghost function MatchingIds(templates: map<int, BlockTemplate>, filter: Filter): set<int> {
    set id | id in templates && Matches(filter, templates[id])
  }

  /** The list before paging is in the requested order. */
  lemma MatchingSorted(templates: map<int, BlockTemplate>, filter: Filter)
    ensures SortedBy(Matching(templates, filter), Order(filter))
  {
    OrderTotal(filter);
    SortBySorted(Queries.Filter(MatchesRow(filter), Rows(templates)), Order(filter));
  }

  /** No template is listed twice. */
  lemma MatchingDistinct(templates: map<int, BlockTemplate>, filter: Filter)
    ensures Distinct(Matching(templates, filter))
  {
    var rows := Rows(templates);
    RowsDistinct(templates);
    FilterDistinct(MatchesRow(filter), rows);
  }

  /** The list before paging holds only stored templates the filter selects. */
  lemma MatchingSound(templates: map<int, BlockTemplate>, filter: Filter)
    ensures var m := Matching(templates, filter);
            forall i :: 0 <= i < |m| ==>
              m[i].0 in MatchingIds(templates, filter) && m[i].1 == templates[m[i].0]
  {
    var p := MatchesRow(filter);
    var matched := Queries.Filter(p, Rows(templates));
    var m := SortBy(matched, Order(filter));
    forall i | 0 <= i < |m|
      ensures m[i].0 in MatchingIds(templates, filter) && m[i].1 == templates[m[i].0]
    {
      assert m[i] in multiset(m);
      assert m[i] in multiset(matched);
      MatchedRow(templates, filter, matched, m[i]);
    }
  }

  lemma MatchedRow(templates: map<int, BlockTemplate>, filter: Filter,
                   matched: seq<(int, BlockTemplate)>, row: (int, BlockTemplate))
    requires matched == Queries.Filter(MatchesRow(filter), Rows(templates))
    requires row in matched
    ensures row.0 in MatchingIds(templates, filter) && row.1 == templates[row.0]
  {
    var k :| 0 <= k < |matched| && matched[k] == row;
    assert MatchesRow(filter)(matched[k]);
    var id: int := row.0;
    assert id in templates && row.1 == templates[id];
  }

  /** Every stored template the filter selects is in the list before paging. */
  lemma MatchingComplete(templates: map<int, BlockTemplate>, filter: Filter)
    ensures forall id :: id in MatchingIds(templates, filter) ==>
              (id, templates[id]) in Matching(templates, filter)
  {
    var rows := Rows(templates);
    var p := MatchesRow(filter);
    var matched := Queries.Filter(p, rows);
    SortByMembers(matched, Order(filter));
    FilterMembers(p, rows);
    forall id | id in MatchingIds(templates, filter)
      ensures (id, templates[id]) in Matching(templates, filter)
    {
      assert (id, templates[id]) in rows;
    }
  }

  /** The total count is the number of stored templates the filter selects, whatever page is
      asked for. */
  lemma TotalCountSpec(templates: map<int, BlockTemplate>, filter: Filter)
    ensures List(templates, filter).totalCount == |MatchingIds(templates, filter)|
  {
    var m := Matching(templates, filter);
    var ids := MatchingIds(templates, filter);
    assert Distinct(m) by {
      MatchingDistinct(templates, filter);
    }
    assert forall i :: 0 <= i < |m| ==> m[i].0 in ids && m[i].0 in templates && m[i].1 == templates[m[i].0] by {
      MatchingSound(templates, filter);
    }
    assert forall id :: id in ids ==> id in templates && (id, templates[id]) in m by {
      MatchingComplete(templates, filter);
    }
    assert List(templates, filter).totalCount == |m|;
    RowIdsCard(templates, m, ids);
  }

  // ----- export / import -----

  /** The exported fields of a template. */
  datatype ExportData = ExportData(
    name: string, blockType: string, defaultHtml: Option<string>, description: Option<string>)

  function ExportOf(t: BlockTemplate): ExportData {
    ExportData(t.name, t.blockType, t.defaultHtml, t.description)
  }

  /** One character of a JSON string body: '"' and '\' are escaped with a backslash. */
  function EscapeChar(c: char): string {
    if c == '"' || c == '\\' then ['\\', c] else [c]
  }

  function Escape(s: string): (r: string)
    ensures |r| >= |s|
  {
    if s == [] then [] else EscapeChar(s[0]) + Escape(s[1..])
  }

  /** A JSON string literal. */
  function Quote(s: string): string { "\"" + Escape(s) + "\"" }

  function NullableJson(s: Option<string>): string {
    match s
    case None => "null"
    case Some(v) => Quote(v)
  }

  const NameKey: string := "{\n  \"Name\": "
  const TypeKey: string := ",\n  \"Type\": "
  const HtmlKey: string := ",\n  \"DefaultHtml\": "
  const DescriptionKey: string := ",\n  \"Description\": "
  const Closing: string := ",\n  \"PreviewImage\": null\n}"

  /** The indented JSON document of the export data. */
  function Serialize(d: ExportData): string {
    NameKey + (Quote(d.name) + (TypeKey + (Quote(d.blockType) + (HtmlKey + (NullableJson(d.defaultHtml)
    + (DescriptionKey + (NullableJson(d.description) + Closing)))))))
  }

  /** The body of a string literal up to its closing quote, and what follows that quote. */
  function ParseChars(t: string): (r: Option<(string, string)>)
    ensures r.Some? ==> |r.value.1| < |t|
    decreases |t|
  {
    if t == [] then None
    else if t[0] == '"' then Some(([], t[1..]))
    else if t[0] == '\\' then
      if |t| < 2 then None
      else match ParseChars(t[2..])
           case None => None
           case Some(p) => Some(([t[1]] + p.0, p.1))
    else match ParseChars(t[1..])
         case None => None
         case Some(p) => Some(([t[0]] + p.0, p.1))
  }

  function ParseString(t: string): Option<(string, string)> {
    if t != [] && t[0] == '"' then ParseChars(t[1..]) else None
  }

  function ParseNullable(t: string): Option<(Option<string>, string)> {
    if StartsWith(t, "null") then Some((None, t[4..]))
    else match ParseString(t)
         case None => None
         case Some(p) => Some((Some(p.0), p.1))
  }

  /** What follows the literal `lit` at the start of `t`. */
  function Expect(lit: string, t: string): Option<string> {
    if StartsWith(t, lit) then Some(t[|lit|..]) else None
  }

  /** The literal `lit`, then a string literal. */
  function ReadString(lit: string, t: string): Option<(string, string)> {
    match Expect(lit, t)
    case None => None
    case Some(u) => ParseString(u)
  }

  /** The literal `lit`, then a string literal or `null`. */
  function ReadNullable(lit: string, t: string): Option<(Option<string>, string)> {
    match Expect(lit, t)
    case None => None
    case Some(u) => ParseNullable(u)
  }

  /** Reads back a document laid out as `Serialize` writes it; anything else is malformed. */
  function Deserialize(json: string): Option<ExportData> {
    match ReadString(NameKey, json)
    case None => None
    case Some(name) =>
      match ReadString(TypeKey, name.1)
      case None => None
      case Some(blockType) =>
        match ReadNullable(HtmlKey, blockType.1)
        case None => None
        case Some(html) =>
          match ReadNullable(DescriptionKey, html.1)
          case None => None
          case Some(description) =>
            if description.1 == Closing
            then Some(ExportData(name.0, blockType.0, html.0, description.0))
            else None
  }

  lemma {:induction false} ParseCharsEscaped(s: string, rest: string)
    ensures ParseChars(Escape(s) + "\"" + rest) == Some((s, rest))
  {
    if s == [] {
      assert Escape(s) + "\"" + rest == "\"" + rest;
    } else {
      var c := s[0];
      ParseCharsEscaped(s[1..], rest);
      var tail := Escape(s[1..]) + "\"" + rest;
      assert ParseChars(tail) == Some((s[1..], rest));
      var t := Escape(s) + "\"" + rest;
      assert t == EscapeChar(c) + tail;
      assert s == [c] + s[1..];
      if c == '"' || c == '\\' {
        assert t[0] == '\\' && t[1] == c && t[2..] == tail;
        assert ParseChars(t) == Some(([c] + s[1..], rest));
      } else {
        assert t[0] == c && t[1..] == tail;
        assert ParseChars(t) == Some(([c] + s[1..], rest));
      }
    }
  }

  lemma ParseStringQuote(s: string, rest: string)
    ensures ParseString(Quote(s) + rest) == Some((s, rest))
  {
    var t := Quote(s) + rest;
    assert t[1..] == Escape(s) + "\"" + rest;
    ParseCharsEscaped(s, rest);
  }

  lemma ParseNullableJson(s: Option<string>, rest: string)
    ensures ParseNullable(NullableJson(s) + rest) == Some((s, rest))
  {
    var t := NullableJson(s) + rest;
    if s.None? {
      assert t[..4] == "null" && t[4..] == rest;
    } else {
      assert t[0] == '"';
      assert !StartsWith(t, "null");
      ParseStringQuote(s.value, rest);
    }
  }

  lemma ExpectLiteral(lit: string, rest: string)
    ensures Expect(lit, lit + rest) == Some(rest)
  {
    assert (lit + rest)[..|lit|] == lit;
    assert (lit + rest)[|lit|..] == rest;
  }

  lemma ReadStringQuote(lit: string, s: string, rest: string)
    ensures ReadString(lit, lit + (Quote(s) + rest)) == Some((s, rest))
  {
    ExpectLiteral(lit, Quote(s) + rest);
    ParseStringQuote(s, rest);
  }

  lemma ReadNullableJson(lit: string, s: Option<string>, rest: string)
    ensures ReadNullable(lit, lit + (NullableJson(s) + rest)) == Some((s, rest))
  {
    ExpectLiteral(lit, NullableJson(s) + rest);
    ParseNullableJson(s, rest);
  }

  /** Import reads back exactly what export wrote. */
  lemma SerializeRoundTrip(d: ExportData)
    ensures Deserialize(Serialize(d)) == Some(d)
  {
    var r4 := NullableJson(d.description) + Closing;
    var r3 := NullableJson(d.defaultHtml) + (DescriptionKey + r4);
    var r2 := Quote(d.blockType) + (HtmlKey + r3);
    var r1 := Quote(d.name) + (TypeKey + r2);
    assert Serialize(d) == NameKey + r1;
    ReadStringQuote(NameKey, d.name, TypeKey + r2);
    ReadStringQuote(TypeKey, d.blockType, HtmlKey + r3);
    ReadNullableJson(HtmlKey, d.defaultHtml, DescriptionKey + r4);
    ReadNullableJson(DescriptionKey, d.description, Closing);
  }

  /** The request an import hands to create. */
  function ImportRequest(d: ExportData): CreateRequest {
    CreateRequest(d.name, d.blockType, d.defaultHtml, d.description)
  }

  /** Importing an exported template creates an active template with the same name, type,
      default HTML and description. */
  lemma ExportImportRoundTrip(t: BlockTemplate, now: int)
    ensures var json := Serialize(ExportOf(t));
            && Deserialize(json).Some?
            && var c := Created(ImportRequest(Deserialize(json).value), now);
               c == t.(isActive := Some(true), createdAt := now)
  {
    SerializeRoundTrip(ExportOf(t));
  }

  // ----- the service -----

  class TemplateService {
    var templates: map<int, BlockTemplate>
    var nextId: int

    ghost predicate Valid()
      reads this
    {
      0 < nextId && forall id | id in templates :: 0 < id < nextId
    }

    constructor ()
      ensures Valid() && templates == map[]
    {
      templates := map[];
      nextId := 1;
    }

    /** CreateBlockTemplateAsync: stores a new active template under a fresh id. */
    method Create(req: CreateRequest, now: int) returns (id: int, t: BlockTemplate)
      requires Valid()
      modifies this
      ensures Valid()
      ensures id !in old(templates)
      ensures t == Created(req, now)
      ensures templates == old(templates)[id := t]
    {
      id := nextId;
      t := Created(req, now);
      templates := templates[id := t];
      nextId := nextId + 1;
    }

    /** UpdateBlockTemplateAsync: the patch rules applied to the stored template. */
    method Update(id: int, req: UpdateRequest) returns (r: Result<BlockTemplate>)
      requires Valid()
      modifies this
      ensures Valid() && nextId == old(nextId)
      ensures r.Err? <==> id !in old(templates)
      ensures r.Err? ==> r.error == NotFound && templates == old(templates)
      ensures r.Ok? ==> r.value == Patched(old(templates)[id], req)
                        && templates == old(templates)[id := r.value]
    {
      if id !in templates {
        return Err(NotFound);
      }
      var t := Patched(templates[id], req);
      templates := templates[id := t];
      r := Ok(t);
    }

    method Delete(id: int) returns (o: Outcome)
      requires Valid()
      modifies this
      ensures Valid() && nextId == old(nextId)
      ensures o.Fail? <==> id !in old(templates)
      ensures o.Fail? ==> o.error == NotFound && templates == old(templates)
      ensures o.Pass? ==> templates == old(templates) - {id}
    {
      if id !in templates {
        return Fail(NotFound);
      }
      templates := templates - {id};
      o := Pass;
    }

    function Get(id: int): (r: Result<BlockTemplate>)
      reads this
      ensures r.Err? <==> id !in templates
      ensures r.Err? ==> r.error == NotFound
      ensures r.Ok? ==> r.value == templates[id]
    {
      if id in templates then Ok(templates[id]) else Err(NotFound)
    }

    function Export(id: int): (r: Result<string>)
      reads this
      ensures r.Err? <==> id !in templates
      ensures r.Err? ==> r.error == NotFound
      ensures r.Ok? ==> Deserialize(r.value) == Some(ExportOf(templates[id]))
    {
      if id in templates then
        SerializeRoundTrip(ExportOf(templates[id]));
        Ok(Serialize(ExportOf(templates[id])))
      else Err(NotFound)
    }

    /** ImportBlockTemplateAsync: a malformed (or `null`) document fails with InvalidOperation
        and stores nothing; otherwise the document's fields are created as a new template. */
    method Import(json: string, now: int) returns (r: Result<(int, BlockTemplate)>)
      requires Valid()
      modifies this
      ensures Valid()
      ensures r.Err? <==> Deserialize(json).None?
      ensures r.Err? ==> r.error == InvalidOperation && templates == old(templates)
      ensures r.Ok? ==> && r.value.0 !in old(templates)
                        && r.value.1 == Created(ImportRequest(Deserialize(json).value), now)
                        && templates == old(templates)[r.value.0 := r.value.1]
    {
      var d := Deserialize(json);
      if d.None? {
        return Err(InvalidOperation);
      }
      var id, t := Create(ImportRequest(d.value), now);
      r := Ok((id, t));
    }
  }
}
