/** Leads captured on published pages, the owner's filtered lead list, and a page's analytics:
    its view and lead totals with per-day counts. */
module Leads {
  import opened Wrappers
  import opened Queries
  import Pages

  /** A submitted form as its key/value pairs (the request's dictionary). */
  type FormData = seq<(string, string)>

  /** The JSON reader: `Ok(None)` is a document that reads as null, `Err` one it rejects. */
  type Parser = string -> Result<Option<FormData>>

  /** A lead stores its form data as serialized JSON text. */
  datatype Lead = Lead(pageId: int, formData: string, submittedAt: int, ipAddress: string)

  /** A recorded view of a page. */
  datatype View = View(pageId: int, viewedAt: int, ipAddress: string, userAgent: string)

  datatype LeadResponse = LeadResponse(
    id: int,
    pageId: int,
    pageTitle: string,
    pageSlug: string,
    formData: FormData,
    submittedAt: int,
    ipAddress: string)

  /** Stored form data as the response shows it: text the reader rejects, or that reads as null,
      becomes an empty dictionary; a lead's response is never an error. */
  function FormDataOf(raw: string, parse: Parser): (d: FormData)
    ensures parse(raw).Err? || parse(raw).value.None? ==> d == []
    ensures parse(raw).Ok? && parse(raw).value.Some? ==> d == parse(raw).value.value
  {
    match parse(raw)
    case Err(_) => []
    case Ok(data) => data.GetOr([])
  }

  /** `MapToResponse(lead, page)`. */
  function ToResponse(id: int, lead: Lead, page: Pages.Page, parse: Parser): (r: LeadResponse)
    ensures r.id == id && r.pageId == lead.pageId && r.submittedAt == lead.submittedAt
    ensures r.pageTitle == page.title && r.pageSlug == page.slug
    ensures r.formData == FormDataOf(lead.formData, parse)
  {
    LeadResponse(id, lead.pageId, page.title, page.slug, FormDataOf(lead.formData, parse),
                 lead.submittedAt, lead.ipAddress)
  }

  /** When the reader reads back what the writer wrote, a lead's response shows the submitted form
      data unchanged. */
  lemma FormDataRoundTrip(data: FormData, serialize: FormData -> string, parse: Parser)
    requires parse(serialize(data)) == Ok(Some(data))
    ensures FormDataOf(serialize(data), parse) == data
  {
  }

  // ----- the lead list -----

  /** Each lead together with its page, for the leads whose page exists: the join that
      `Include(l => l.Page)` and the filters on `l.Page` perform. */
  function Joined(leads: map<int, Lead>, pages: map<int, Pages.Page>): (j: map<int, (Lead, Pages.Page)>)
    ensures forall id :: id in j <==> id in leads && leads[id].pageId in pages
    ensures forall id | id in j :: j[id] == (leads[id], pages[leads[id].pageId])
  {
    map id | id in leads && leads[id].pageId in pages :: (leads[id], pages[leads[id].pageId])
  }

  /** Page 1 and 20 rows by default; the dates are inclusive bounds. */
  datatype LeadFilter = LeadFilter(pageId: Option<int>, fromDate: Option<int>, toDate: Option<int>,
                                   page: int, pageSize: int)

  /** The Where clauses of `GetLeadsAsync`: the caller's pages, then the optional page id and
      date bounds. */
  predicate Selected(userId: int, filter: LeadFilter, lead: Lead, page: Pages.Page) {
    && page.userId == userId
    && (filter.pageId.None? || lead.pageId == filter.pageId.value)
    && (filter.fromDate.None? || lead.submittedAt >= filter.fromDate.value)
    && (filter.toDate.None? || lead.submittedAt <= filter.toDate.value)
  }

  function SelectedRow(userId: int, filter: LeadFilter): ((int, (Lead, Pages.Page))) -> bool {
    (row: (int, (Lead, Pages.Page))) => Selected(userId, filter, row.1.0, row.1.1)
  }

  /** Newest first. */
  predicate NewerOrSame(a: (int, (Lead, Pages.Page)), b: (int, (Lead, Pages.Page))) {
    a.1.0.submittedAt >= b.1.0.submittedAt
  }

  lemma NewerOrSameTotal()
    ensures TotalPreorder(NewerOrSame)
  {
  }

  /** The selected leads with their pages in list order, before paging. */
  function Matching(leads: map<int, Lead>, pages: map<int, Pages.Page>, userId: int, filter: LeadFilter)
    : seq<(int, (Lead, Pages.Page))>
  {
    Query(Joined(leads, pages), SelectedRow(userId, filter), NewerOrSame)
  }

  function ResponseOf(parse: Parser): ((int, (Lead, Pages.Page))) -> LeadResponse {
    (row: (int, (Lead, Pages.Page))) => ToResponse(row.0, row.1.0, row.1.1, parse)
  }

  /** `GetLeadsAsync`: one page of the list and the count of all selected leads. */
  function List(leads: map<int, Lead>, pages: map<int, Pages.Page>, userId: int, filter: LeadFilter, parse: Parser)
    : (r: (seq<LeadResponse>, int))
    ensures r.1 == |Matching(leads, pages, userId, filter)|
  {
    var all := Matching(leads, pages, userId, filter);
    (Select(ResponseOf(parse), Window(all, filter.page, filter.pageSize)), |all|)
  }

  /** The list before paging holds exactly the leads on the caller's pages that pass the filters,
      each once, newest first. */
  lemma MatchingSpec(leads: map<int, Lead>, pages: map<int, Pages.Page>, userId: int, filter: LeadFilter)
    ensures var r := Matching(leads, pages, userId, filter);
            && (forall i :: 0 <= i < |r| ==>
                  && r[i].0 in leads && r[i].1.0 == leads[r[i].0]
                  && r[i].1.0.pageId in pages && r[i].1.1 == pages[r[i].1.0.pageId]
                  && Selected(userId, filter, r[i].1.0, r[i].1.1))
            && (forall k :: k in leads && leads[k].pageId in pages && Selected(userId, filter, leads[k], pages[leads[k].pageId])
                  ==> (k, (leads[k], pages[leads[k].pageId])) in r)
            && Distinct(r)
            && (forall i, j :: 0 <= i < j < |r| ==> r[i].1.0.submittedAt >= r[j].1.0.submittedAt)
  {
    var j := Joined(leads, pages);
    var p := SelectedRow(userId, filter);
    var r := Matching(leads, pages, userId, filter);
    assert forall i :: 0 <= i < |r| ==> r[i].0 in j && r[i].1 == j[r[i].0] && p(r[i]) by {
      QuerySound(j, p, NewerOrSame);
    }
    forall i | 0 <= i < |r|
      ensures && r[i].0 in leads && r[i].1.0 == leads[r[i].0]
              && r[i].1.0.pageId in pages && r[i].1.1 == pages[r[i].1.0.pageId]
              && Selected(userId, filter, r[i].1.0, r[i].1.1)
    {
      assert p(r[i]);
    }
    forall k | k in leads && leads[k].pageId in pages && Selected(userId, filter, leads[k], pages[leads[k].pageId])
      ensures (k, (leads[k], pages[leads[k].pageId])) in r
    {
      assert k in j && j[k] == (leads[k], pages[leads[k].pageId]);
      assert p((k, j[k]));
      QueryComplete(j, p, NewerOrSame);
    }
    assert Distinct(r) by {
      QueryDistinct(j, p, NewerOrSame);
    }
    forall a, b | 0 <= a < b < |r| ensures r[a].1.0.submittedAt >= r[b].1.0.submittedAt {
      NewerOrSameTotal();
      QuerySorted(j, p, NewerOrSame);
      assert NewerOrSame(r[a], r[b]);
    }
  }

  /** The total counts every selected lead, whatever page is asked for. */
  lemma TotalCountSpec(leads: map<int, Lead>, pages: map<int, Pages.Page>, userId: int, filter: LeadFilter)
    ensures |Matching(leads, pages, userId, filter)|
            == |set k | k in leads && leads[k].pageId in pages && Selected(userId, filter, leads[k], pages[leads[k].pageId])|
  {
    var ids := set k | k in leads && leads[k].pageId in pages && Selected(userId, filter, leads[k], pages[leads[k].pageId]);
    QueryCount(Joined(leads, pages), SelectedRow(userId, filter), NewerOrSame, ids);
  }

  /** A page of the list is no longer than the page size and shows only leads on the caller's
      pages. */
  lemma ListOwned(leads: map<int, Lead>, pages: map<int, Pages.Page>, userId: int, filter: LeadFilter, parse: Parser)
    requires filter.page >= 1 && filter.pageSize >= 0
    ensures var page := List(leads, pages, userId, filter, parse).0;
            && |page| <= filter.pageSize
            && forall i :: 0 <= i < |page| ==> OwnsLead(leads, pages, page[i].id, userId)
  {
    var all := Matching(leads, pages, userId, filter);
    MatchingOwned(leads, pages, userId, filter);
    var w := Window(all, filter.page, filter.pageSize);
    WindowOwned(all, leads, pages, userId, filter);
    var page := Select(ResponseOf(parse), w);
    forall i | 0 <= i < |page| ensures page[i].id == w[i].0 {
      assert page[i] == ToResponse(w[i].0, w[i].1.0, w[i].1.1, parse);
    }
  }

  lemma MatchingOwned(leads: map<int, Lead>, pages: map<int, Pages.Page>, userId: int, filter: LeadFilter)
    ensures var all := Matching(leads, pages, userId, filter);
            forall i :: 0 <= i < |all| ==> OwnsLead(leads, pages, all[i].0, userId)
  {
    MatchingSpec(leads, pages, userId, filter);
  }

  lemma WindowOwned(all: seq<(int, (Lead, Pages.Page))>, leads: map<int, Lead>, pages: map<int, Pages.Page>,
                    userId: int, filter: LeadFilter)
    requires filter.page >= 1 && filter.pageSize >= 0
    requires forall i :: 0 <= i < |all| ==> OwnsLead(leads, pages, all[i].0, userId)
    ensures var w := Window(all, filter.page, filter.pageSize);
            |w| <= filter.pageSize && forall i :: 0 <= i < |w| ==> OwnsLead(leads, pages, w[i].0, userId)
  {
    WindowIsSlice(all, filter.page, filter.pageSize);
    var w := Window(all, filter.page, filter.pageSize);
    var off := (filter.page - 1) * filter.pageSize;
    assert off >= 0 by {
      assert filter.page - 1 >= 0;
    }
    forall i | 0 <= i < |w| ensures OwnsLead(leads, pages, w[i].0, userId) {
      assert w[i] == all[off + i];
    }
  }

  /** `FirstOrDefault(l => l.Id == leadId && l.Page.UserId == userId)`. */
  predicate OwnsLead(leads: map<int, Lead>, pages: map<int, Pages.Page>, id: int, userId: int) {
    id in leads && leads[id].pageId in pages && pages[leads[id].pageId].userId == userId
  }

  // ----- per-day counts -----

  const SecondsPerDay: int := 86400

  /** `DateTime.Date`: the day a time (in seconds) falls on. */
  function Day(t: int): int {
    t / SecondsPerDay
  }

  datatype DateCount = DateCount(date: int, count: int)

  /** Strictly ascending dates, so no date occurs twice. */
  predicate Ascending(g: seq<DateCount>) {
    forall i, j :: 0 <= i < j < |g| ==> g[i].date < g[j].date
  }

  predicate Positive(g: seq<DateCount>) {
    forall i :: 0 <= i < |g| ==> g[i].count > 0
  }

  /** The sum of the counts. */
  function Total(g: seq<DateCount>): int {
    if g == [] then 0 else g[0].count + Total(g[1..])
  }

  /** The count listed for `d`, summed over every entry with that date. */
  function CountOn(g: seq<DateCount>, d: int): int {
    if g == [] then 0 else (if g[0].date == d then g[0].count else 0) + CountOn(g[1..], d)
  }

  function DatesOf(g: seq<DateCount>): set<int> {
    if g == [] then {} else {g[0].date} + DatesOf(g[1..])
  }

  /** One more occurrence of `d` in an ascending list of groups: its entry grows or a new entry
      goes in at its place. */
  function AddTo(g: seq<DateCount>, d: int): seq<DateCount> {
    if g == [] then [DateCount(d, 1)]
    else if g[0].date == d then [g[0].(count := g[0].count + 1)] + g[1..]
    else if d < g[0].date then [DateCount(d, 1)] + g
    else [g[0]] + AddTo(g[1..], d)
  }

  /** `GroupBy(day).Select(g => (g.Key, g.Count())).OrderBy(date)`. */
  function Grouped(days: seq<int>): seq<DateCount> {
    if days == [] then [] else AddTo(Grouped(days[..|days| - 1]), days[|days| - 1])
  }

  lemma {:induction false} AddToSpec(g: seq<DateCount>, d: int)
    requires Ascending(g) && Positive(g)
    ensures var r := AddTo(g, d);
            && Ascending(r) && Positive(r)
            && Total(r) == Total(g) + 1
            && DatesOf(r) == DatesOf(g) + {d}
            && (forall k :: CountOn(r, k) == CountOn(g, k) + (if k == d then 1 else 0))
            && r != [] && r[0].date == (if g != [] && g[0].date < d then g[0].date else d)
    decreases |g|
  {
    var r := AddTo(g, d);
    if g == [] {
    } else if g[0].date == d {
      assert r[1..] == g[1..];
    } else if d < g[0].date {
      assert r[1..] == g;
    } else {
      var rest := AddTo(g[1..], d);
      AddToSpec(g[1..], d);
      assert r[1..] == rest;
      forall i, j | 0 <= i < j < |r| ensures r[i].date < r[j].date {
        if i == 0 {
          assert r[j] == rest[j - 1];
          assert rest[0].date > g[0].date;
        }
      }
    }
  }

  /** In an ascending list each date's count is the count on its single entry. */
  lemma {:induction false} CountOnEntry(g: seq<DateCount>, i: int)
    requires Ascending(g) && 0 <= i < |g|
    ensures CountOn(g, g[i].date) == g[i].count
    decreases |g|
  {
    if i == 0 {
      CountOnAbsent(g[1..], g[0].date);
    } else {
      CountOnEntry(g[1..], i - 1);
    }
  }

  lemma {:induction false} CountOnAbsent(g: seq<DateCount>, d: int)
    requires forall i :: 0 <= i < |g| ==> g[i].date != d
    ensures CountOn(g, d) == 0
    decreases |g|
  {
    if g != [] {
      CountOnAbsent(g[1..], d);
    }
  }

  /** The grouping lists every day once, in ascending order, each with the number of times it
      occurs, so the counts add up to the number of items grouped. */
  lemma {:induction false} GroupedSpec(days: seq<int>)
    ensures var r := Grouped(days);
            && Ascending(r) && Positive(r)
            && Total(r) == |days|
            && DatesOf(r) == set x | x in days
            && forall k :: CountOn(r, k) == multiset(days)[k]
  {
    GroupedShape(days);
    GroupedCounts(days);
  }

  lemma {:induction false} GroupedShape(days: seq<int>)
    ensures var r := Grouped(days);
            && Ascending(r) && Positive(r)
            && Total(r) == |days|
            && DatesOf(r) == set x | x in days
    decreases |days|
  {
    if days != [] {
      var init := days[..|days| - 1];
      var last := days[|days| - 1];
      GroupedShape(init);
      AddToSpec(Grouped(init), last);
      assert days == init + [last];
      ElementsSnoc(init, last);
    }
  }

  lemma {:induction false} GroupedCounts(days: seq<int>)
    ensures forall k :: CountOn(Grouped(days), k) == multiset(days)[k]
    decreases |days|
  {
    if days != [] {
      var init := days[..|days| - 1];
      var last := days[|days| - 1];
      var g := Grouped(init);
      var r := Grouped(days);
      assert r == AddTo(g, last);
      GroupedShape(init);
      GroupedCounts(init);
      AddToSpec(g, last);
      assert days == init + [last];
      assert multiset(days) == multiset(init) + multiset{last};
      forall k ensures CountOn(r, k) == multiset(days)[k] {
        assert CountOn(r, k) == CountOn(g, k) + (if k == last then 1 else 0);
        assert CountOn(g, k) == multiset(init)[k];
      }
    }
  }

  lemma ElementsSnoc(s: seq<int>, x: int)
    ensures (set y | y in s + [x]) == (set y | y in s) + {x}
  {
  }

  /** Each listed entry carries exactly the number of grouped items on its date. */
  lemma GroupCounts(days: seq<int>)
    ensures var r := Grouped(days);
            forall i :: 0 <= i < |r| ==> r[i].count == multiset(days)[r[i].date] > 0
  {
    var r := Grouped(days);
    GroupedSpec(days);
    forall i | 0 <= i < |r| ensures r[i].count == multiset(days)[r[i].date] {
      CountOnEntry(r, i);
    }
  }

  // ----- page analytics -----

  /** PageAnalyticsResponse without the conversion rate. */
  datatype Analytics = Analytics(
    pageId: int,
    pageTitle: string,
    pageSlug: string,
    totalViews: int,
    totalLeads: int,
    viewsByDate: seq<DateCount>,
    leadsByDate: seq<DateCount>)

  function ViewOn(pageId: int): ((int, View)) -> bool {
    (row: (int, View)) => row.1.pageId == pageId
  }

  function LeadOn(pageId: int): ((int, Lead)) -> bool {
    (row: (int, Lead)) => row.1.pageId == pageId
  }

  /** The days of the page's views and of its leads. */
  function ViewDays(views: map<int, View>, pageId: int): (r: seq<int>)
    ensures |r| == |Filter(ViewOn(pageId), Rows(views))|
  {
    Select((row: (int, View)) => Day(row.1.viewedAt), Filter(ViewOn(pageId), Rows(views)))
  }

  function LeadDays(leads: map<int, Lead>, pageId: int): (r: seq<int>)
    ensures |r| == |Filter(LeadOn(pageId), Rows(leads))|
  {
    Select((row: (int, Lead)) => Day(row.1.submittedAt), Filter(LeadOn(pageId), Rows(leads)))
  }

  /** `GetPageAnalyticsAsync`: a page of someone else's, or none, is `NotFound`. */
  function PageAnalytics(pages: map<int, Pages.Page>, views: map<int, View>, leads: map<int, Lead>,
                         pageId: int, userId: int): (r: Result<Analytics>)
    ensures r.Err? <==> !(pageId in pages && pages[pageId].userId == userId)
    ensures r.Err? ==> r.error == NotFound
    ensures r.Ok? ==> r.value.pageId == pageId && r.value.pageTitle == pages[pageId].title
                      && r.value.pageSlug == pages[pageId].slug
  {
    if !(pageId in pages && pages[pageId].userId == userId) then Err(NotFound)
    else
      var viewDays := ViewDays(views, pageId);
      var leadDays := LeadDays(leads, pageId);
      Ok(Analytics(pageId, pages[pageId].title, pages[pageId].slug, |viewDays|, |leadDays|,
                   Grouped(viewDays), Grouped(leadDays)))
  }

  /** The totals count the page's views and leads, and the per-day counts add up to them, with
      each day listed once in ascending order. */
  lemma AnalyticsSpec(pages: map<int, Pages.Page>, views: map<int, View>, leads: map<int, Lead>,
                      pageId: int, userId: int)
    requires PageAnalytics(pages, views, leads, pageId, userId).Ok?
    ensures var a := PageAnalytics(pages, views, leads, pageId, userId).value;
            && a.totalViews == |set id | id in views && views[id].pageId == pageId|
            && a.totalLeads == |set id | id in leads && leads[id].pageId == pageId|
            && Total(a.viewsByDate) == a.totalViews && Total(a.leadsByDate) == a.totalLeads
            && Ascending(a.viewsByDate) && Ascending(a.leadsByDate)
  {
    var a := PageAnalytics(pages, views, leads, pageId, userId).value;
    GroupedSpec(ViewDays(views, pageId));
    GroupedSpec(LeadDays(leads, pageId));
    var viewIds := set id | id in views && views[id].pageId == pageId;
    var leadIds := set id | id in leads && leads[id].pageId == pageId;
    QueryCount(views, ViewOn(pageId), (a: (int, View), b: (int, View)) => true, viewIds);
    QueryCount(leads, LeadOn(pageId), (a: (int, Lead), b: (int, Lead)) => true, leadIds);
  }

  class LeadService {
    var leads: map<int, Lead>
    var nextId: int

    ghost predicate Valid()
      reads this
    {
      0 < nextId && forall id | id in leads :: 0 < id < nextId
    }

    constructor ()
      ensures Valid() && leads == map[]
    {
      leads := map[];
      nextId := 1;
    }

    /** `SubmitLeadAsync`: only a published page's slug takes a lead; the lead points at that
        page and stores the form data as written by `serialize`. The owner's notification is
        left out. */
    method SubmitLead(pages: map<int, Pages.Page>, slug: string, formData: FormData, ipAddress: string,
                      now: int, serialize: FormData -> string, parse: Parser)
      returns (r: Result<LeadResponse>)
      requires Valid()
      modifies this
      ensures Valid()
      ensures Pages.FindPublished(pages, slug).None? ==> r == Err(NotFound) && unchanged(this)
      ensures Pages.FindPublished(pages, slug).Some? ==>
                var pageId := Pages.FindPublished(pages, slug).value;
                var lead := Lead(pageId, serialize(formData), now, ipAddress);
                && old(nextId) !in old(leads)
                && leads == old(leads)[old(nextId) := lead]
                && r == Ok(ToResponse(old(nextId), lead, pages[pageId], parse))
                && r.value.pageSlug == slug
    {
      var found := Pages.FindPublished(pages, slug);
      if found.None? {
        return Err(NotFound);
      }
      var page := pages[found.value];
      var lead := Lead(found.value, serialize(formData), now, ipAddress);
      var id := nextId;
      leads := leads[id := lead];
      nextId := nextId + 1;
      r := Ok(ToResponse(id, lead, page, parse));
    }

    function GetLeads(pages: map<int, Pages.Page>, userId: int, filter: LeadFilter, parse: Parser)
      : (seq<LeadResponse>, int)
      reads this
    {
      List(leads, pages, userId, filter, parse)
    }

    /** A lead on someone else's page is `NotFound`, like a missing one. */
    function GetLead(pages: map<int, Pages.Page>, id: int, userId: int, parse: Parser): (r: Result<LeadResponse>)
      reads this
      ensures r.Err? <==> !OwnsLead(leads, pages, id, userId)
      ensures r.Err? ==> r.error == NotFound
      ensures r.Ok? ==> r.value.id == id && r.value.pageId == leads[id].pageId
    {
      if OwnsLead(leads, pages, id, userId) then Ok(ToResponse(id, leads[id], pages[leads[id].pageId], parse))
      else Err(NotFound)
    }

    method DeleteLead(pages: map<int, Pages.Page>, id: int, userId: int) returns (r: Outcome)
      requires Valid()
      modifies this
      ensures Valid() && nextId == old(nextId)
      ensures r == Fail(NotFound) <==> !OwnsLead(old(leads), pages, id, userId)
      ensures r.Fail? ==> unchanged(this)
      ensures r.Pass? ==> leads == old(leads) - {id}
    {
      if !OwnsLead(leads, pages, id, userId) {
        return Fail(NotFound);
      }
      leads := leads - {id};
      r := Pass;
    }
  }
}
