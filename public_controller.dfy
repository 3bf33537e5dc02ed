/** The public renderer: a published page is turned into one HTML document (a fixed shell, the
    escaped title, and the merged content of its active sections by order number), and a
    slug-keyed cache with a five-minute absolute lifetime sits in front of it. */
module Public {
  import opened Wrappers
  import opened Queries
  import Strings
  import Pages
  import Templates

  /** `StringBuilder.AppendLine` ends each line with the platform's newline, "\r\n" on the
      Windows host the model assumes. */
  const NewLine: string := "\r\n"

  function Line(s: string): string { s + NewLine }

  // ----- HTML encoding (WebUtility.HtmlEncode) -----

  /** The characters that could end an element's text or an attribute's value. */
  predicate IsMarkup(c: char) { c == '<' || c == '>' || c == '"' || c == '\'' }

  /** Characters the encoder passes through unchanged. */
  predicate IsPlain(c: char) {
    !IsMarkup(c) && c != '&' && (c as int) < 160
  }

  /** A numeric character reference `&#n;`. */
  function NumericEntity(n: nat): string { "&#" + Strings.NatToString(n) + ";" }

  function EncodeChar(c: char): string {
    if c == '<' then "&lt;"
    else if c == '>' then "&gt;"
    else if c == '"' then "&quot;"
    else if c == '\'' then "&#39;"
    else if c == '&' then "&amp;"
    else if 160 <= c as int < 256 || c as int >= 0x10000 then NumericEntity(c as int)
    else [c]
  }

  /** The encoder: the five markup-significant characters become named or numeric references,
      Latin-1 characters from U+00A0 and characters outside the basic plane become numeric
      references, everything else is copied. */
  function HtmlEncode(s: string): string {
    if s == [] then "" else EncodeChar(s[0]) + HtmlEncode(s[1..])
  }

  ghost predicate NoMarkup(t: string) {
    forall i :: 0 <= i < |t| ==> !IsMarkup(t[i])
  }

  lemma EncodeCharNoMarkup(c: char)
    ensures NoMarkup(EncodeChar(c))
  {
    if 160 <= c as int < 256 || c as int >= 0x10000 {
      var digits := Strings.NatToString(c as int);
      assert forall i :: 0 <= i < |digits| ==> Strings.IsDigit(digits[i]);
    }
  }

  /** Encoded text holds no '<', '>', '"' or '\'', so it cannot close the `<title>` element or
      the `content` attribute it is written into. */
  lemma {:induction false} HtmlEncodeNoMarkup(s: string)
    ensures NoMarkup(HtmlEncode(s))
  {
    if s != [] {
      EncodeCharNoMarkup(s[0]);
      HtmlEncodeNoMarkup(s[1..]);
      var a, b := EncodeChar(s[0]), HtmlEncode(s[1..]);
      assert forall i :: 0 <= i < |a + b| ==> (a + b)[i] == if i < |a| then a[i] else b[i - |a|];
    }
  }

  /** Text made only of plain characters is left as it is. */
  lemma {:induction false} HtmlEncodePlain(s: string)
    requires forall i :: 0 <= i < |s| ==> IsPlain(s[i])
    ensures HtmlEncode(s) == s
  {
    if s != [] {
      HtmlEncodePlain(s[1..]);
      assert [s[0]] + s[1..] == s;
    }
  }

  // ----- the document -----

  function Head(title: string): string {
    HeadStart
    + Line("    <title>" + HtmlEncode(title) + "</title>")
    + Line("    <meta name=\"description\" content=\"" + HtmlEncode(title) + "\">")
    + HeadEnd
  }

  /** The shell lines before the title. */
  const HeadStart: string :=
    Line("<!DOCTYPE html>")
    + Line("<html lang=\"en\">")
    + Line("<head>")
    + Line("    <meta charset=\"UTF-8\">")
    + Line("    <meta name=\"viewport\" content=\"width=device-width, initial-scale=1.0\">")

  /** The shell lines after the description. */
  const HeadEnd: string :=
    Line("    <link rel=\"stylesheet\" href=\"https://cdn.jsdelivr.net/npm/bootstrap@5.3.0/dist/css/bootstrap.min.css\">")
    + Line("</head>")
    + Line("<body>")

  const Tail: string :=
    Line("    <script src=\"https://cdn.jsdelivr.net/npm/bootstrap@5.3.0/dist/js/bootstrap.bundle.min.js\"></script>")
    + Line("</body>")
    + Line("</html>")

  /** The body of a section: its custom content when that is neither null nor empty, otherwise
      the template's default HTML, otherwise nothing. */
  function MergeContent(defaultHtml: Option<string>, customContent: Option<string>): (r: string)
    ensures customContent.Some? && customContent.value != "" ==> r == customContent.value
    ensures r == "" <==> (customContent.None? || customContent.value == "") && (defaultHtml.None? || defaultHtml.value == "")
    ensures r != "" && r != defaultHtml.GetOr("") ==> customContent == Some(r)
  {
    if customContent.None? || customContent.value == "" then defaultHtml.GetOr("")
    else customContent.value
  }

  /** `IsActive == true`: a null flag counts as inactive. */
  predicate IsActiveView(v: Pages.SectionView) { v.isActive == Some(true) }

  /** `OrderBy(s => s.OrderNum)` over a nullable key: null sorts before every number. */
  predicate ViewOrder(x: Pages.SectionView, y: Pages.SectionView) {
    match x.orderNum
    case None => true
    case Some(a) => y.orderNum.Some? && a <= y.orderNum.value
  }

  lemma ViewOrderTotal()
    ensures TotalPreorder(ViewOrder)
  {
  }

  function Fragment(v: Pages.SectionView): string {
    Line(MergeContent(v.defaultHtml, v.customContent))
  }

  /** The lines the loop emits for a list of sections, skipping the inactive ones. */
  function Body(views: seq<Pages.SectionView>): string {
    if views == [] then ""
    else (if IsActiveView(views[0]) then Fragment(views[0]) else "") + Body(views[1..])
  }

  /** One line per section of the list, for every section. */
  function Lines(views: seq<Pages.SectionView>): string {
    if views == [] then "" else Fragment(views[0]) + Lines(views[1..])
  }

  lemma {:induction false} BodySnoc(views: seq<Pages.SectionView>, v: Pages.SectionView)
    ensures Body(views + [v]) == Body(views) + (if IsActiveView(v) then Fragment(v) else "")
  {
    if views != [] {
      BodySnoc(views[1..], v);
      assert (views + [v])[1..] == views[1..] + [v];
    }
  }

  /** Skipping inactive sections while emitting is emitting the active sections. */
  lemma {:induction false} BodyIsActiveLines(views: seq<Pages.SectionView>)
    ensures Body(views) == Lines(Filter(IsActiveView, views))
  {
    if views != [] {
      BodyIsActiveLines(views[1..]);
    }
  }

  /** The document for a page as RenderPage writes it. */
  function Rendered(page: Pages.PageView): string {
    Head(page.title)
    + (match page.sections
       case None => ""
       case Some(views) => Body(SortBy(views, ViewOrder)))
    + Tail
  }

  /** RenderPage: the shell, then one line per active section in ascending order number, then the
      closing script and tags. */
  method RenderPage(page: Pages.PageView) returns (html: string)
    ensures html == Rendered(page)
  {
    html := Head(page.title);
    if page.sections.Some? {
      var ordered := SortBy(page.sections.value, ViewOrder);
      var body := EmitBody(ordered);
      html := html + body;
    }
    html := html + Tail;
  }

  /** The `foreach` over the ordered sections: one line for each active one. */
  method EmitBody(ordered: seq<Pages.SectionView>) returns (body: string)
    ensures body == Body(ordered)
  {
    body := "";
    for i := 0 to |ordered|
      invariant body == Body(ordered[..i])
    {
      BodySnoc(ordered[..i], ordered[i]);
      assert ordered[..i + 1] == ordered[..i] + [ordered[i]];
      if ordered[i].isActive == Some(true) {
        body := body + Fragment(ordered[i]);
      }
    }
    assert ordered[..|ordered|] == ordered;
  }

  /** The body of a rendered page is one line per active section and nothing else: the emitted
      sections are the active ones of the page, each as often as it occurs, in ascending order
      number. */
  lemma RenderedBodySpec(views: seq<Pages.SectionView>)
    ensures var emitted := Filter(IsActiveView, SortBy(views, ViewOrder));
            && Body(SortBy(views, ViewOrder)) == Lines(emitted)
            && multiset(emitted) == multiset(Filter(IsActiveView, views))
            && SortedBy(emitted, ViewOrder)
  {
    var sorted := SortBy(views, ViewOrder);
    BodyIsActiveLines(sorted);
    FilterPermutation(IsActiveView, sorted, views);
    ViewOrderTotal();
    SortBySorted(views, ViewOrder);
    FilterSorted(IsActiveView, sorted, ViewOrder);
  }

  /** The views of a page's active sections, in ascending order number, are all active and
      already in the renderer's order. */
  lemma PublicViewsOrdered(sections: map<int, Pages.Section>, pageId: int,
                           templates: map<int, Templates.BlockTemplate>)
    requires forall id | id in sections :: sections[id].templateId in templates
    ensures var views := Pages.PublicSectionViews(sections, pageId, templates);
            && (forall i :: 0 <= i < |views| ==> IsActiveView(views[i]))
            && SortedBy(views, ViewOrder)
  {
    var rows := Pages.ActiveOrdered(sections, pageId);
    var views := Pages.PublicSectionViews(sections, pageId, templates);
    Pages.ActiveOrderedSorted(sections, pageId);
    Pages.ActiveOrderedSound(sections, pageId);
    Pages.ActiveOrderedResolve(sections, pageId, templates);
    assert |views| == |rows|;
    forall i | 0 <= i < |views|
      ensures IsActiveView(views[i])
    {
      assert rows[i] in rows;
      assert views[i] == Pages.SectionViewOf(rows[i].0, rows[i].1, templates);
    }
    forall i, j | 0 <= i < j < |views|
      ensures ViewOrder(views[i], views[j])
    {
      assert Pages.ByOrder(rows[i], rows[j]);
      assert views[i].orderNum == Some(rows[i].1.orderNum);
      assert views[j].orderNum == Some(rows[j].1.orderNum);
    }
  }

  /** For a page fetched by slug, the renderer emits one line for each of the page's active
      sections, in the order of `Pages.ActiveOrdered`: its own sort and filter change nothing. */
  lemma PublicPageBody(sections: map<int, Pages.Section>, pageId: int,
                       templates: map<int, Templates.BlockTemplate>)
    requires forall id | id in sections :: sections[id].templateId in templates
    ensures var views := Pages.PublicSectionViews(sections, pageId, templates);
            Body(SortBy(views, ViewOrder)) == Lines(views)
  {
    var views := Pages.PublicSectionViews(sections, pageId, templates);
    PublicViewsOrdered(sections, pageId, templates);
    SortBySortedIdentity(views, ViewOrder);
    BodyIsActiveLines(views);
    FilterAll(IsActiveView, views);
  }

  // ----- the response cache -----

  /** Lifetime of a cache entry, in seconds. */
  const Ttl: int := 300

  const NotFoundBody: string := "<html><body><h1>404 - Page Not Found</h1></body></html>"

  datatype CacheEntry = CacheEntry(html: string, expiresAt: int)

  datatype Response = Response(status: int, body: string)

  function CacheKey(slug: string): string { "page_" + slug }

  /** What the cache yields for a key at time `now`: an absolute expiry has passed once the
      clock reaches it. */
  function Lookup(cache: map<string, CacheEntry>, key: string, now: int): (r: Option<string>)
    ensures r.Some? <==> key in cache && now < cache[key].expiresAt
    ensures r.Some? ==> r.value == cache[key].html
  {
    if key in cache && now < cache[key].expiresAt then Some(cache[key].html) else None
  }

  class PublicController {
    var cache: map<string, CacheEntry>

    constructor ()
      ensures cache == map[]
    {
      cache := map[];
    }

    /** ViewPage: a fresh entry under "page_" + slug is served without consulting the pages; on
        a miss the published page is fetched and rendered, and the document is cached for five
        minutes; a slug with no published page gives the 404 body and caches nothing. */
    method ViewPage(slug: string, now: int, site: Pages.PageService,
                    templates: map<int, Templates.BlockTemplate>) returns (r: Response)
      requires site.TemplatesResolve(templates)
      modifies this
      ensures var key := CacheKey(slug);
              match Lookup(old(cache), key, now)
              case Some(html) =>
                r == Response(200, html) && cache == old(cache)
              case None =>
                match old(site.GetPageBySlug(slug, templates))
                case Err(_) =>
                  r == Response(404, NotFoundBody) && cache == old(cache)
                case Ok(page) =>
                  && r == Response(200, Rendered(page))
                  && cache == old(cache)[key := CacheEntry(r.body, now + Ttl)]
      ensures r.status == 200 ==> Lookup(cache, CacheKey(slug), now) == Some(r.body)
    {
      var key := CacheKey(slug);
      match Lookup(cache, key, now)
      case Some(html) =>
        r := Response(200, html);
      case None =>
        match site.GetPageBySlug(slug, templates)
        case Err(_) =>
          r := Response(404, NotFoundBody);
        case Ok(page) =>
          var html := RenderPage(page);
          r := Response(200, html);
          cache := cache[key := CacheEntry(r.body, now + Ttl)];
    }
  }
}
