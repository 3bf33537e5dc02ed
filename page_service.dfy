/** The page composition engine: pages, their sections, the draft/published lifecycle that gates
    every structural edit, and the two unique indexes of the store (a page's slug; a section's
    order number within its page), checked when a change is committed. */
module Pages {
  import opened Wrappers
  import opened Queries
  import PageSlug
  import Templates

  const Draft: string := "draft"
  const Published: string := "published"

  datatype Page = Page(title: string, slug: string, status: string, userId: int, publishedAt: Option<int>)

  /** A section as the service writes it: it always stores an order number and an active flag. */
  datatype Section = Section(
    pageId: int,
    templateId: int,
    orderNum: int,
    isActive: bool,
    customContent: Option<string>)

  /** The page returned to callers (PageResponse); `sections` is null unless they were loaded. */
  datatype PageView = PageView(
    id: int,
    title: string,
    slug: string,
    status: string,
    userId: int,
    publishedAt: Option<int>,
    sections: Option<seq<SectionView>>)

  /** PageSectionResponse, where order number and active flag are nullable. */
  datatype SectionView = SectionView(
    id: int,
    pageId: int,
    templateId: int,
    templateName: string,
    templateType: string,
    orderNum: Option<int>,
    isActive: Option<bool>,
    customContent: Option<string>,
    defaultHtml: Option<string>)

  // ----- the store's constraints -----

  /** Unique index on pages.slug. */
  predicate SlugsUnique(pages: map<int, Page>) {
    forall a, b | a in pages && b in pages && a != b :: pages[a].slug != pages[b].slug
  }

  /** Unique index on (page_sections.page_id, page_sections.order_num). */
  predicate OrdersUnique(sections: map<int, Section>) {
    forall a, b | a in sections && b in sections && a != b && sections[a].pageId == sections[b].pageId ::
      sections[a].orderNum != sections[b].orderNum
  }

  predicate SlugTaken(pages: map<int, Page>, slug: string) {
    exists id | id in pages :: pages[id].slug == slug
  }

  predicate SlugTakenByOther(pages: map<int, Page>, self: int, slug: string) {
    exists id | id in pages :: id != self && pages[id].slug == slug
  }

  predicate OrderTakenByOther(sections: map<int, Section>, self: int, pageId: int, orderNum: int) {
    exists id | id in sections :: id != self && sections[id].pageId == pageId && sections[id].orderNum == orderNum
  }

  predicate Owned(pages: map<int, Page>, pageId: int, userId: int) {
    pageId in pages && pages[pageId].userId == userId
  }

  predicate HasSections(sections: map<int, Section>, pageId: int) {
    exists id | id in sections :: sections[id].pageId == pageId
  }

  predicate NonEmpty(s: Option<string>) { s.Some? && s.value != "" }

  // ----- derived values -----

  /** The slug a new page receives: the normalised title, with '-' and the token appended when
      some page already has the normalised title as its slug. */
  function CreateSlug(pages: map<int, Page>, title: string, token: string): string {
    var slug := PageSlug.GenerateSlug(title);
    if SlugTaken(pages, slug) then slug + "-" + token else slug
  }

  /** The page after an update request: a non-empty title replaces the title and regenerates the
      slug; a non-empty status is stored as given. */
  function Revised(p: Page, title: Option<string>, status: Option<string>): Page {
    var p1 := if NonEmpty(title) then p.(title := title.value, slug := PageSlug.GenerateSlug(title.value)) else p;
    if NonEmpty(status) then p1.(status := status.value) else p1
  }

  /** The default order number of a new section: one more than the page's largest, or 0. */
  function NextOrder(sections: map<int, Section>, pageId: int): (r: int)
    ensures forall id | id in sections && sections[id].pageId == pageId :: sections[id].orderNum < r
    ensures !HasSections(sections, pageId) ==> r == 0
    ensures HasSections(sections, pageId) ==>
              exists id | id in sections :: sections[id].pageId == pageId && sections[id].orderNum == r - 1
  {
    var orders := set id | id in sections && sections[id].pageId == pageId :: sections[id].orderNum;
    assert forall id | id in sections && sections[id].pageId == pageId :: sections[id].orderNum in orders;
    if orders == {} then 0 else MaxOf(orders) + 1
  }

  function OnPage(pageId: int): ((int, Section)) -> bool {
    (row: (int, Section)) => row.1.pageId == pageId
  }

  /** The sections of a page, as (id, section) rows in id order. */
  function SectionsOf(sections: map<int, Section>, pageId: int): seq<(int, Section)> {
    Filter(OnPage(pageId), Rows(sections))
  }

  predicate ByOrder(x: (int, Section), y: (int, Section)) {
    x.1.orderNum <= y.1.orderNum
  }

  lemma ByOrderTotal()
    ensures TotalPreorder(ByOrder)
  {
  }

  /** `PageSections.OrderBy(s => s.OrderNum)`. */
  function Ordered(sections: map<int, Section>, pageId: int): seq<(int, Section)> {
    SortBy(SectionsOf(sections, pageId), ByOrder)
  }

  predicate IsActiveRow(row: (int, Section)) { row.1.isActive }

  /** `PageSections.Where(s => s.IsActive == true).OrderBy(s => s.OrderNum)`. */
  function ActiveOrdered(sections: map<int, Section>, pageId: int): seq<(int, Section)> {
    SortBy(Filter(IsActiveRow, SectionsOf(sections, pageId)), ByOrder)
  }

  /** `src` lists each section of page `pageId` exactly once, and nothing else. */
  ghost predicate ListsPage(src: seq<(int, Section)>, sections: map<int, Section>, pageId: int) {
    && Distinct(src)
    && (forall row | row in src :: row.0 in sections && row.1 == sections[row.0] && row.1.pageId == pageId)
    && (forall id | id in sections && sections[id].pageId == pageId :: (id, sections[id]) in src)
  }

  lemma SectionsOfSound(sections: map<int, Section>, pageId: int)
    ensures forall row | row in SectionsOf(sections, pageId) ::
              row.0 in sections && row.1 == sections[row.0] && row.1.pageId == pageId
  {
    var rows := Rows(sections);
    var r := SectionsOf(sections, pageId);
    forall row | row in r
      ensures row.0 in sections && row.1 == sections[row.0] && row.1.pageId == pageId
    {
      var j :| 0 <= j < |r| && r[j] == row;
      assert OnPage(pageId)(r[j]);
      var i :| 0 <= i < |rows| && rows[i] == row;
    }
  }

  lemma SectionsOfComplete(sections: map<int, Section>, pageId: int)
    ensures forall id | id in sections && sections[id].pageId == pageId :: (id, sections[id]) in SectionsOf(sections, pageId)
  {
    var rows := Rows(sections);
    forall id | id in sections && sections[id].pageId == pageId
      ensures (id, sections[id]) in SectionsOf(sections, pageId)
    {
      var i :| 0 <= i < |rows| && rows[i] == (id, sections[id]);
      assert OnPage(pageId)(rows[i]);
    }
  }

  /** The rows of a page's sections list each section of that page once, and nothing else. */
  lemma SectionsOfSpec(sections: map<int, Section>, pageId: int)
    ensures ListsPage(SectionsOf(sections, pageId), sections, pageId)
  {
    RowsDistinct(sections);
    FilterDistinct(OnPage(pageId), Rows(sections));
    SectionsOfSound(sections, pageId);
    SectionsOfComplete(sections, pageId);
  }

  /** Sorting a list of a page's sections lists the same sections. */
  lemma SortListsPage(s: seq<(int, Section)>, sections: map<int, Section>, pageId: int)
    requires ListsPage(s, sections, pageId)
    ensures ListsPage(SortBy(s, ByOrder), sections, pageId)
  {
    SortByMembers(s, ByOrder);
  }

  /** The ordered list holds exactly the page's sections, once each, by ascending order number. */
  lemma OrderedSpec(sections: map<int, Section>, pageId: int)
    ensures SortedBy(Ordered(sections, pageId), ByOrder)
    ensures ListsPage(Ordered(sections, pageId), sections, pageId)
  {
    var s := SectionsOf(sections, pageId);
    SectionsOfSpec(sections, pageId);
    SortListsPage(s, sections, pageId);
    ByOrderTotal();
    SortBySorted(s, ByOrder);
  }

  lemma ActiveRowsSpec(sections: map<int, Section>, pageId: int)
    ensures var f := Filter(IsActiveRow, SectionsOf(sections, pageId));
            && Distinct(f)
            && (forall row | row in f ::
                  row.0 in sections && row.1 == sections[row.0] && row.1.pageId == pageId && row.1.isActive)
            && (forall id | id in sections && sections[id].pageId == pageId && sections[id].isActive ::
                  (id, sections[id]) in f)
  {
    var s := SectionsOf(sections, pageId);
    SectionsOfSpec(sections, pageId);
    FilterDistinct(IsActiveRow, s);
    FilterMembers(IsActiveRow, s);
  }

  /** The public list is ordered by ascending order number and lists no row twice. */
  lemma ActiveOrderedSorted(sections: map<int, Section>, pageId: int)
    ensures var r := ActiveOrdered(sections, pageId);
            SortedBy(r, ByOrder) && Distinct(r)
  {
    var f := Filter(IsActiveRow, SectionsOf(sections, pageId));
    ActiveRowsSpec(sections, pageId);
    ByOrderTotal();
    SortBySorted(f, ByOrder);
  }

  /** The public list holds only active sections of the page, as stored. */
  lemma ActiveOrderedSound(sections: map<int, Section>, pageId: int)
    ensures forall row | row in ActiveOrdered(sections, pageId) ::
              row.0 in sections && row.1 == sections[row.0] && row.1.pageId == pageId && row.1.isActive
  {
    var f := Filter(IsActiveRow, SectionsOf(sections, pageId));
    ActiveRowsSpec(sections, pageId);
    SortByMembers(f, ByOrder);
  }

  /** The public list holds every active section of the page. */
  lemma ActiveOrderedComplete(sections: map<int, Section>, pageId: int)
    ensures forall id | id in sections && sections[id].pageId == pageId && sections[id].isActive ::
              (id, sections[id]) in ActiveOrdered(sections, pageId)
  {
    var f := Filter(IsActiveRow, SectionsOf(sections, pageId));
    ActiveRowsSpec(sections, pageId);
    SortByMembers(f, ByOrder);
  }

  /** Rows taken from the store name existing templates when every stored section does. */
  lemma RowsResolve<V>(rows: seq<(int, Section)>, sections: map<int, Section>, templates: map<int, V>)
    requires forall row | row in rows :: row.0 in sections && row.1 == sections[row.0]
    requires forall id | id in sections :: sections[id].templateId in templates
    ensures forall i :: 0 <= i < |rows| ==> rows[i].1.templateId in templates
  {
    forall i | 0 <= i < |rows|
      ensures rows[i].1.templateId in templates
    {
      var row := rows[i];
      assert row in rows;
      var id: int := row.0;
      assert id in sections && row.1 == sections[id];
      var section := sections[id];
      assert section.templateId in templates;
    }
  }

  /** Every row of the public list names an existing template when every stored section does. */
  lemma ActiveOrderedResolve<V>(sections: map<int, Section>, pageId: int, templates: map<int, V>)
    requires forall id | id in sections :: sections[id].templateId in templates
    ensures forall i :: 0 <= i < |ActiveOrdered(sections, pageId)| ==>
              ActiveOrdered(sections, pageId)[i].1.templateId in templates
  {
    ActiveOrderedSound(sections, pageId);
    RowsResolve(ActiveOrdered(sections, pageId), sections, templates);
  }

  /** The new sections of a clone: the k-th source row becomes section id `first + k`, moved to
      the new page with every other field kept. */
  function Copies(src: seq<(int, Section)>, newPageId: int, first: int): (c: map<int, Section>)
    ensures forall k :: k in c <==> first <= k < first + |src|
    ensures forall k | k in c :: c[k] == src[k - first].1.(pageId := newPageId)
  {
    if src == [] then map[]
    else Copies(src[..|src| - 1], newPageId, first)[first + |src| - 1 := src[|src| - 1].1.(pageId := newPageId)]
  }

  /** Every copy in a clone repeats a section of the source page, moved to the new page. */
  lemma CopiesSound(src: seq<(int, Section)>, sections: map<int, Section>, pageId: int, newPageId: int, first: int)
    requires ListsPage(src, sections, pageId)
    ensures var c := Copies(src, newPageId, first);
            forall k | k in c :: exists id | id in sections ::
              sections[id].pageId == pageId && c[k] == sections[id].(pageId := newPageId)
  {
    CopiesFrom(src, sections, pageId, newPageId, first);
  }

  lemma CopiesFrom(src: seq<(int, Section)>, sections: map<int, Section>, pageId: int, newPageId: int, first: int)
    requires forall row | row in src :: row.0 in sections && row.1 == sections[row.0] && row.1.pageId == pageId
    ensures var c := Copies(src, newPageId, first);
            forall k | k in c :: exists id | id in sections ::
              sections[id].pageId == pageId && c[k] == sections[id].(pageId := newPageId)
  {
    var c := Copies(src, newPageId, first);
    forall k | k in c
      ensures exists id | id in sections :: sections[id].pageId == pageId && c[k] == sections[id].(pageId := newPageId)
    {
      var row := src[k - first];
      assert row in src;
      var id: int := row.0;
      assert c[k] == sections[id].(pageId := newPageId);
    }
  }

  /** A clone holds a copy of every section of the source page, with the same template, order
      number, active flag and custom content. */
  lemma CopiesComplete(src: seq<(int, Section)>, sections: map<int, Section>, pageId: int, newPageId: int, first: int)
    requires ListsPage(src, sections, pageId)
    ensures forall id | id in sections && sections[id].pageId == pageId ::
              sections[id].(pageId := newPageId) in Copies(src, newPageId, first).Values
  {
    var c := Copies(src, newPageId, first);
    forall id | id in sections && sections[id].pageId == pageId
      ensures sections[id].(pageId := newPageId) in c.Values
    {
      var i :| 0 <= i < |src| && src[i] == (id, sections[id]);
      var k := first + i;
      assert k in c && k - first == i;
      assert c[k] == sections[id].(pageId := newPageId);
    }
  }

  /** No two copies in a clone share an order number, since the source page's sections do not. */
  lemma CopiesOrdersDistinct(src: seq<(int, Section)>, sections: map<int, Section>, pageId: int, newPageId: int, first: int)
    requires OrdersUnique(sections)
    requires ListsPage(src, sections, pageId)
    ensures var c := Copies(src, newPageId, first);
            forall k1, k2 | k1 in c && k2 in c && k1 != k2 :: c[k1].orderNum != c[k2].orderNum
  {
    var c := Copies(src, newPageId, first);
    forall k1, k2 | k1 in c && k2 in c && k1 != k2
      ensures c[k1].orderNum != c[k2].orderNum
    {
      var a, b := src[k1 - first], src[k2 - first];
      assert a in src && b in src;
      assert a != b;
      assert a.0 in sections && a.1 == sections[a.0] && a.1.pageId == pageId;
      assert b.0 in sections && b.1 == sections[b.0] && b.1.pageId == pageId;
      assert a.0 != b.0;
      assert c[k1].orderNum == a.1.orderNum && c[k2].orderNum == b.1.orderNum;
    }
  }

  /** Adding a clone's copies to a store under fresh ids keeps the order index, when no stored
      section belongs to the new page yet. */
  lemma CloneOrdersUnique(src: seq<(int, Section)>, sections: map<int, Section>, pageId: int, newPageId: int, first: int)
    requires OrdersUnique(sections)
    requires ListsPage(src, sections, pageId)
    requires forall id | id in sections :: id < first && sections[id].pageId != newPageId
    ensures OrdersUnique(sections + Copies(src, newPageId, first))
  {
    var c := Copies(src, newPageId, first);
    var all := sections + c;
    CopiesOrdersDistinct(src, sections, pageId, newPageId, first);
    forall a, b | a in all && b in all && a != b && all[a].pageId == all[b].pageId
      ensures all[a].orderNum != all[b].orderNum
    {
      assert a in c <==> all[a].pageId == newPageId;
      assert b in c <==> all[b].pageId == newPageId;
      if a in c {
        assert all[a] == c[a] && all[b] == c[b];
      } else {
        assert all[a] == sections[a] && all[b] == sections[b];
      }
    }
  }

  lemma MergeUpdate<K, V>(a: map<K, V>, b: map<K, V>, k: K, v: V)
    ensures (a + b)[k := v] == a + b[k := v]
  {
  }

  lemma CopiesSnoc(src: seq<(int, Section)>, newPageId: int, first: int, i: int)
    requires 0 <= i < |src|
    ensures Copies(src[..i + 1], newPageId, first)
            == Copies(src[..i], newPageId, first)[first + i := src[i].1.(pageId := newPageId)]
  {
    assert src[..i + 1][..i] == src[..i];
  }

  /** One entry of a reorder request applied to the sections: the listed section gets the order
      number if it exists and belongs to the page; otherwise nothing happens. */
  function ReorderOne(m: map<int, Section>, pageId: int, entry: (int, int)): map<int, Section> {
    if entry.0 in m && m[entry.0].pageId == pageId then m[entry.0 := m[entry.0].(orderNum := entry.1)]
    else m
  }

  /** A whole reorder request, entry by entry in list order. */
  function Reordered(m: map<int, Section>, pageId: int, entries: seq<(int, int)>): map<int, Section> {
    if entries == [] then m
    else ReorderOne(Reordered(m, pageId, entries[..|entries| - 1]), pageId, entries[|entries| - 1])
  }

  /** The order number the last entry for `id` assigns, if any. */
  function LastOrderFor(entries: seq<(int, int)>, id: int): Option<int> {
    if entries == [] then None
    else if entries[|entries| - 1].0 == id then Some(entries[|entries| - 1].1)
    else LastOrderFor(entries[..|entries| - 1], id)
  }

  /** After a reorder, each section of the page that the request lists holds the order number of
      its last entry; every other field, every unlisted section, the sections of other pages and
      the set of ids are unchanged; entries for unknown ids have no effect. */
  lemma {:induction false} ReorderedSpec(m: map<int, Section>, pageId: int, entries: seq<(int, int)>)
    ensures var r := Reordered(m, pageId, entries);
            && r.Keys == m.Keys
            && forall k | k in m ::
                 r[k] == (if m[k].pageId == pageId && LastOrderFor(entries, k).Some?
                          then m[k].(orderNum := LastOrderFor(entries, k).value)
                          else m[k])
  {
    if entries != [] {
      ReorderedSpec(m, pageId, entries[..|entries| - 1]);
    }
  }

  function SectionViewOf(id: int, s: Section, templates: map<int, Templates.BlockTemplate>): SectionView
    requires s.templateId in templates
  {
    var t := templates[s.templateId];
    SectionView(id, s.pageId, s.templateId, t.name, t.blockType, Some(s.orderNum), Some(s.isActive),
                s.customContent, t.defaultHtml)
  }

  function ViewsOf(rows: seq<(int, Section)>, templates: map<int, Templates.BlockTemplate>): (r: seq<SectionView>)
    requires forall i :: 0 <= i < |rows| ==> rows[i].1.templateId in templates
    ensures |r| == |rows|
    ensures forall i :: 0 <= i < |rows| ==> r[i] == SectionViewOf(rows[i].0, rows[i].1, templates)
  {
    seq(|rows|, i requires 0 <= i < |rows| => SectionViewOf(rows[i].0, rows[i].1, templates))
  }

  /** The sections of a page as GetPageAsync returns them: all of them, by order number. */
  function AllSectionViews(sections: map<int, Section>, pageId: int, templates: map<int, Templates.BlockTemplate>): seq<SectionView>
    requires forall id | id in sections :: sections[id].templateId in templates
  {
    OrderedSpec(sections, pageId);
    RowsResolve(Ordered(sections, pageId), sections, templates);
    ViewsOf(Ordered(sections, pageId), templates)
  }

  /** The sections of a page as the public lookup returns them: the active ones, by order number. */
  function PublicSectionViews(sections: map<int, Section>, pageId: int, templates: map<int, Templates.BlockTemplate>): seq<SectionView>
    requires forall id | id in sections :: sections[id].templateId in templates
  {
    ActiveOrderedResolve(sections, pageId, templates);
    ViewsOf(ActiveOrdered(sections, pageId), templates)
  }

  /** The page published under `slug`, if any (at most one, by the slug index). */
  function FindPublished(pages: map<int, Page>, slug: string): (r: Option<int>)
    ensures r.Some? ==> r.value in pages && pages[r.value].slug == slug && pages[r.value].status == Published
    ensures r.None? ==> forall id | id in pages :: !(pages[id].slug == slug && pages[id].status == Published)
  {
    var ids := set id | id in pages && pages[id].slug == slug && pages[id].status == Published;
    assert forall id | id in pages && pages[id].slug == slug && pages[id].status == Published :: id in ids;
    if ids == {} then None else Some(MinOf(ids))
  }

  lemma FindPublishedUnique(pages: map<int, Page>, id: int)
    requires SlugsUnique(pages)
    requires id in pages && pages[id].status == Published
    ensures FindPublished(pages, pages[id].slug) == Some(id)
  {
    var ids := set i | i in pages && pages[i].slug == pages[id].slug && pages[i].status == Published;
    assert id in ids;
    assert forall i | i in ids :: i == id;
    assert ids == {id};
  }

  /** The store's invariant over its tables and identity counters. */
  ghost predicate StoreValid(pages: map<int, Page>, sections: map<int, Section>, nextPageId: int, nextSectionId: int) {
    && SlugsUnique(pages)
    && OrdersUnique(sections)
    && (forall id | id in sections :: sections[id].pageId in pages)
    && 1 <= nextPageId && 1 <= nextSectionId
    && (forall id | id in pages :: 1 <= id < nextPageId)
    && (forall id | id in sections :: 1 <= id < nextSectionId)
  }

  /** A new page under the next id and an unused slug keeps the store valid. */
  lemma AddPageKeepsStore(pages: map<int, Page>, sections: map<int, Section>, nextPageId: int, nextSectionId: int,
                          page: Page)
    requires StoreValid(pages, sections, nextPageId, nextSectionId)
    requires !SlugTaken(pages, page.slug)
    ensures StoreValid(pages[nextPageId := page], sections, nextPageId + 1, nextSectionId)
  {
    var pages' := pages[nextPageId := page];
    forall a, b | a in pages' && b in pages' && a != b
      ensures pages'[a].slug != pages'[b].slug
    {
      if a == nextPageId {
        assert pages'[b] == pages[b];
      } else if b == nextPageId {
        assert pages'[a] == pages[a];
      }
    }
  }

  /** A clone's two saves keep the store valid: a new page under a fresh id and an unused slug,
      then copies of a page's sections under fresh ids, all on the new page. */
  lemma CloneKeepsStore(pages: map<int, Page>, sections: map<int, Section>, nextPageId: int, nextSectionId: int,
                        pageId: int, copy: Page, src: seq<(int, Section)>)
    requires StoreValid(pages, sections, nextPageId, nextSectionId)
    requires !SlugTaken(pages, copy.slug)
    requires ListsPage(src, sections, pageId)
    ensures StoreValid(pages[nextPageId := copy], sections + Copies(src, nextPageId, nextSectionId),
                       nextPageId + 1, nextSectionId + |src|)
  {
    var pages' := pages[nextPageId := copy];
    var c := Copies(src, nextPageId, nextSectionId);
    forall a, b | a in pages' && b in pages' && a != b
      ensures pages'[a].slug != pages'[b].slug
    {
      if a == nextPageId {
        assert pages'[b] == pages[b];
      } else if b == nextPageId {
        assert pages'[a] == pages[a];
      }
    }
    assert forall id | id in sections :: id < nextSectionId && sections[id].pageId != nextPageId;
    CloneOrdersUnique(src, sections, pageId, nextPageId, nextSectionId);
  }

  class PageService {
    var pages: map<int, Page>
    var sections: map<int, Section>
    var nextPageId: int
    var nextSectionId: int

    /** The store's invariant: both unique indexes hold, every section's page exists (foreign
        key), and identity columns issue ids above every existing one. */
    ghost predicate Valid()
      reads this
    {
      StoreValid(pages, sections, nextPageId, nextSectionId)
    }

    /** Every section's template exists (the foreign key to the template table). */
    ghost predicate TemplatesResolve(templates: map<int, Templates.BlockTemplate>)
      reads this
    {
      forall id | id in sections :: sections[id].templateId in templates
    }

    constructor ()
      ensures Valid()
      ensures pages == map[] && sections == map[]
    {
      pages := map[];
      sections := map[];
      nextPageId := 1;
      nextSectionId := 1;
    }

    method CreatePage(userId: int, title: string, token: string) returns (r: Result<int>)
      requires Valid()
      requires |token| == 8
      modifies this
      ensures Valid()
      ensures var slug := CreateSlug(old(pages), title, token);
              if SlugTaken(old(pages), slug) then
                r == Err(ConstraintViolation) && unchanged(this)
              else
                && r == Ok(old(nextPageId))
                && pages == old(pages)[r.value := Page(title, slug, Draft, userId, None)]
                && sections == old(sections)
                && nextPageId == old(nextPageId) + 1 && nextSectionId == old(nextSectionId)
    {
      var slug := CreateSlug(pages, title, token);
      if SlugTaken(pages, slug) {
        return Err(ConstraintViolation);
      }
      var id := nextPageId;
      AddPageKeepsStore(pages, sections, nextPageId, nextSectionId, Page(title, slug, Draft, userId, None));
      pages := pages[id := Page(title, slug, Draft, userId, None)];
      nextPageId := nextPageId + 1;
      r := Ok(id);
    }

    method UpdatePage(pageId: int, userId: int, title: Option<string>, status: Option<string>) returns (r: Outcome)
      requires Valid()
      modifies this
      ensures Valid()
      ensures !Owned(old(pages), pageId, userId) ==> r == Fail(NotFound) && unchanged(this)
      ensures Owned(old(pages), pageId, userId) && old(pages)[pageId].status == Published ==>
                r == Fail(InvalidOperation) && unchanged(this)
      ensures Owned(old(pages), pageId, userId) && old(pages)[pageId].status != Published ==>
                var p := Revised(old(pages)[pageId], title, status);
                if SlugTakenByOther(old(pages), pageId, p.slug) then
                  r == Fail(ConstraintViolation) && unchanged(this)
                else
                  && r == Pass
                  && pages == old(pages)[pageId := p]
                  && sections == old(sections)
                  && nextPageId == old(nextPageId) && nextSectionId == old(nextSectionId)
    {
      if !Owned(pages, pageId, userId) {
        return Fail(NotFound);
      }
      if pages[pageId].status == Published {
        return Fail(InvalidOperation);
      }
      var p := Revised(pages[pageId], title, status);
      if SlugTakenByOther(pages, pageId, p.slug) {
        return Fail(ConstraintViolation);
      }
      pages := pages[pageId := p];
      r := Pass;
    }

    method DeletePage(pageId: int, userId: int) returns (r: Outcome)
      requires Valid()
      modifies this
      ensures Valid()
      ensures !Owned(old(pages), pageId, userId) ==> r == Fail(NotFound) && unchanged(this)
      ensures Owned(old(pages), pageId, userId) && HasSections(old(sections), pageId) ==>
                r == Fail(InvalidOperation) && unchanged(this)
      ensures Owned(old(pages), pageId, userId) && !HasSections(old(sections), pageId) ==>
                && r == Pass
                && pages == old(pages) - {pageId}
                && sections == old(sections)
                && nextPageId == old(nextPageId) && nextSectionId == old(nextSectionId)
    {
      if !Owned(pages, pageId, userId) {
        return Fail(NotFound);
      }
      if HasSections(sections, pageId) {
        return Fail(InvalidOperation);
      }
      pages := pages - {pageId};
      r := Pass;
    }

    /** Copies a page of any status into a new draft: first the page is saved, then one section
        per source section, taken in ascending order number. */
    method ClonePage(pageId: int, userId: int, token: string) returns (r: Result<int>)
      requires Valid()
      requires |token| == 8
      modifies this
      ensures Valid()
      ensures !Owned(old(pages), pageId, userId) ==> r == Err(NotFound) && unchanged(this)
      ensures Owned(old(pages), pageId, userId) ==>
                var orig := old(pages)[pageId];
                var copy := Page(orig.title + " (Copy)", orig.slug + "-copy-" + token, Draft, userId, None);
                var src := Ordered(old(sections), pageId);
                if SlugTaken(old(pages), copy.slug) then
                  r == Err(ConstraintViolation) && unchanged(this)
                else
                  && r == Ok(old(nextPageId))
                  && pages == old(pages)[r.value := copy]
                  && sections == old(sections) + Copies(src, r.value, old(nextSectionId))
                  && nextPageId == old(nextPageId) + 1
                  && nextSectionId == old(nextSectionId) + |src|
    {
      if !Owned(pages, pageId, userId) {
        return Err(NotFound);
      }
      var orig := pages[pageId];
      var copy := Page(orig.title + " (Copy)", orig.slug + "-copy-" + token, Draft, userId, None);
      if SlugTaken(pages, copy.slug) {
        return Err(ConstraintViolation);
      }
      var newId := nextPageId;
      var src := Ordered(sections, pageId);
      OrderedSpec(sections, pageId);
      CloneKeepsStore(pages, sections, nextPageId, nextSectionId, pageId, copy, src);
      pages := pages[newId := copy];
      nextPageId := nextPageId + 1;
      CopySections(src, newId);
      r := Ok(newId);
    }

    /** The clone's second save: one new section per row of `src`, in list order, moved to page
        `newPageId`, under consecutive fresh ids. */
    method CopySections(src: seq<(int, Section)>, newPageId: int)
      modifies this
      ensures sections == old(sections) + Copies(src, newPageId, old(nextSectionId))
      ensures nextSectionId == old(nextSectionId) + |src|
      ensures pages == old(pages) && nextPageId == old(nextPageId)
    {
      var first := nextSectionId;
      var i := 0;
      while i < |src|
        invariant 0 <= i <= |src|
        invariant nextSectionId == first + i
        invariant sections == old(sections) + Copies(src[..i], newPageId, first)
        invariant pages == old(pages) && nextPageId == old(nextPageId)
      {
        CopiesSnoc(src, newPageId, first, i);
        MergeUpdate(old(sections), Copies(src[..i], newPageId, first), nextSectionId, src[i].1.(pageId := newPageId));
        sections := sections[nextSectionId := src[i].1.(pageId := newPageId)];
        nextSectionId := nextSectionId + 1;
        i := i + 1;
      }
      assert src[..|src|] == src;
    }

    method PublishPage(pageId: int, userId: int, now: int) returns (r: Outcome)
      requires Valid()
      modifies this
      ensures Valid()
      ensures !Owned(old(pages), pageId, userId) ==> r == Fail(NotFound) && unchanged(this)
      ensures Owned(old(pages), pageId, userId) && !HasSections(old(sections), pageId) ==>
                r == Fail(InvalidOperation) && unchanged(this)
      ensures Owned(old(pages), pageId, userId) && HasSections(old(sections), pageId) ==>
                && r == Pass
                && pages == old(pages)[pageId := old(pages)[pageId].(status := Published, publishedAt := Some(now))]
                && sections == old(sections)
                && nextPageId == old(nextPageId) && nextSectionId == old(nextSectionId)
      ensures r.Pass? ==> FindPublished(pages, pages[pageId].slug) == Some(pageId)
    {
      if !Owned(pages, pageId, userId) {
        return Fail(NotFound);
      }
      if !HasSections(sections, pageId) {
        return Fail(InvalidOperation);
      }
      pages := pages[pageId := pages[pageId].(status := Published, publishedAt := Some(now))];
      FindPublishedUnique(pages, pageId);
      r := Pass;
    }

    method UnpublishPage(pageId: int, userId: int) returns (r: Outcome)
      requires Valid()
      modifies this
      ensures Valid()
      ensures !Owned(old(pages), pageId, userId) ==> r == Fail(NotFound) && unchanged(this)
      ensures Owned(old(pages), pageId, userId) ==>
                && r == Pass
                && pages == old(pages)[pageId := old(pages)[pageId].(status := Draft)]
                && sections == old(sections)
                && nextPageId == old(nextPageId) && nextSectionId == old(nextSectionId)
      ensures r.Pass? ==> FindPublished(pages, pages[pageId].slug) == None
    {
      if !Owned(pages, pageId, userId) {
        return Fail(NotFound);
      }
      pages := pages[pageId := pages[pageId].(status := Draft)];
      r := Pass;
    }

    /** Checks, in order: the page exists and is the caller's, it is a draft, the template
        exists. The order number defaults to one past the page's largest. */
    method AddSection(pageId: int, userId: int, templateId: int, orderNum: Option<int>,
                      customContent: Option<string>, templateIds: set<int>) returns (r: Result<int>)
      requires Valid()
      modifies this
      ensures Valid()
      ensures !Owned(old(pages), pageId, userId) ==> r == Err(NotFound) && unchanged(this)
      ensures Owned(old(pages), pageId, userId) && old(pages)[pageId].status == Published ==>
                r == Err(InvalidOperation) && unchanged(this)
      ensures Owned(old(pages), pageId, userId) && old(pages)[pageId].status != Published && templateId !in templateIds ==>
                r == Err(NotFound) && unchanged(this)
      ensures Owned(old(pages), pageId, userId) && old(pages)[pageId].status != Published && templateId in templateIds ==>
                var s := Section(pageId, templateId, orderNum.GetOr(NextOrder(old(sections), pageId)), true, customContent);
                if OrderTakenByOther(old(sections), old(nextSectionId), pageId, s.orderNum) then
                  r == Err(ConstraintViolation) && unchanged(this)
                else
                  && r == Ok(old(nextSectionId))
                  && sections == old(sections)[r.value := s]
                  && pages == old(pages)
                  && nextPageId == old(nextPageId) && nextSectionId == old(nextSectionId) + 1
      ensures (Owned(old(pages), pageId, userId) && old(pages)[pageId].status != Published
               && templateId in templateIds && orderNum.None?) ==> r.Ok?
    {
      if !Owned(pages, pageId, userId) {
        return Err(NotFound);
      }
      if pages[pageId].status == Published {
        return Err(InvalidOperation);
      }
      if templateId !in templateIds {
        return Err(NotFound);
      }
      var order := orderNum.GetOr(NextOrder(sections, pageId));
      var id := nextSectionId;
      if OrderTakenByOther(sections, id, pageId, order) {
        return Err(ConstraintViolation);
      }
      sections := sections[id := Section(pageId, templateId, order, true, customContent)];
      nextSectionId := nextSectionId + 1;
      r := Ok(id);
    }

    /** The section exists and its page is the caller's. */
    ghost predicate SectionOwned(sectionId: int, userId: int)
      reads this
    {
      sectionId in sections && Owned(pages, sections[sectionId].pageId, userId)
    }

    /** Writes only the fields the request supplies. */
    method UpdateSection(sectionId: int, userId: int, orderNum: Option<int>, isActive: Option<bool>,
                         customContent: Option<string>) returns (r: Outcome)
      requires Valid()
      modifies this
      ensures Valid()
      ensures !old(SectionOwned(sectionId, userId)) ==> r == Fail(NotFound) && unchanged(this)
      ensures old(SectionOwned(sectionId, userId)) && old(pages)[old(sections)[sectionId].pageId].status == Published ==>
                r == Fail(InvalidOperation) && unchanged(this)
      ensures old(SectionOwned(sectionId, userId)) && old(pages)[old(sections)[sectionId].pageId].status != Published ==>
                var s0 := old(sections)[sectionId];
                var s := s0.(orderNum := orderNum.GetOr(s0.orderNum),
                             isActive := isActive.GetOr(s0.isActive),
                             customContent := if customContent.Some? then customContent else s0.customContent);
                if OrderTakenByOther(old(sections), sectionId, s.pageId, s.orderNum) then
                  r == Fail(ConstraintViolation) && unchanged(this)
                else
                  && r == Pass
                  && sections == old(sections)[sectionId := s]
                  && pages == old(pages)
                  && nextPageId == old(nextPageId) && nextSectionId == old(nextSectionId)
    {
      if !(sectionId in sections && Owned(pages, sections[sectionId].pageId, userId)) {
        return Fail(NotFound);
      }
      var s := sections[sectionId];
      if pages[s.pageId].status == Published {
        return Fail(InvalidOperation);
      }
      if orderNum.Some? {
        s := s.(orderNum := orderNum.value);
      }
      if isActive.Some? {
        s := s.(isActive := isActive.value);
      }
      if customContent.Some? {
        s := s.(customContent := customContent);
      }
      if OrderTakenByOther(sections, sectionId, s.pageId, s.orderNum) {
        return Fail(ConstraintViolation);
      }
      sections := sections[sectionId := s];
      r := Pass;
    }

    method DeleteSection(sectionId: int, userId: int) returns (r: Outcome)
      requires Valid()
      modifies this
      ensures Valid()
      ensures !old(SectionOwned(sectionId, userId)) ==> r == Fail(NotFound) && unchanged(this)
      ensures old(SectionOwned(sectionId, userId)) && old(pages)[old(sections)[sectionId].pageId].status == Published ==>
                r == Fail(InvalidOperation) && unchanged(this)
      ensures old(SectionOwned(sectionId, userId)) && old(pages)[old(sections)[sectionId].pageId].status != Published ==>
                && r == Pass
                && sections == old(sections) - {sectionId}
                && pages == old(pages)
                && nextPageId == old(nextPageId) && nextSectionId == old(nextSectionId)
    {
      if !(sectionId in sections && Owned(pages, sections[sectionId].pageId, userId)) {
        return Fail(NotFound);
      }
      if pages[sections[sectionId].pageId].status == Published {
        return Fail(InvalidOperation);
      }
      sections := sections - {sectionId};
      r := Pass;
    }

    /** Applies the (section id, order number) entries of a reorder request in list order to the
        page's sections, then saves once. */
    method ReorderSections(pageId: int, userId: int, entries: seq<(int, int)>) returns (r: Outcome)
      requires Valid()
      modifies this
      ensures Valid()
      ensures !Owned(old(pages), pageId, userId) ==> r == Fail(NotFound) && unchanged(this)
      ensures Owned(old(pages), pageId, userId) && old(pages)[pageId].status == Published ==>
                r == Fail(InvalidOperation) && unchanged(this)
      ensures Owned(old(pages), pageId, userId) && old(pages)[pageId].status != Published ==>
                var staged := Reordered(old(sections), pageId, entries);
                if !OrdersUnique(staged) then
                  r == Fail(ConstraintViolation) && unchanged(this)
                else
                  && r == Pass
                  && sections == staged
                  && pages == old(pages)
                  && nextPageId == old(nextPageId) && nextSectionId == old(nextSectionId)
    {
      if !Owned(pages, pageId, userId) {
        return Fail(NotFound);
      }
      if pages[pageId].status == Published {
        return Fail(InvalidOperation);
      }
      var staged := sections;
      var i := 0;
      while i < |entries|
        invariant 0 <= i <= |entries|
        invariant staged == Reordered(sections, pageId, entries[..i])
      {
        assert entries[..i + 1][..i] == entries[..i];
        var (sid, order) := entries[i];
        if sid in staged && staged[sid].pageId == pageId {
          staged := staged[sid := staged[sid].(orderNum := order)];
        }
        i := i + 1;
      }
      assert entries[..|entries|] == entries;
      if !OrdersUnique(staged) {
        return Fail(ConstraintViolation);
      }
      ReorderedSpec(sections, pageId, entries);
      sections := staged;
      r := Pass;
    }

    /** GetPageAsync: the caller's page with all its sections in ascending order number. */
    function GetPage(pageId: int, userId: int, templates: map<int, Templates.BlockTemplate>): (r: Result<PageView>)
      reads this
      requires TemplatesResolve(templates)
      ensures !Owned(pages, pageId, userId) <==> r == Err(NotFound)
      ensures r.Ok? ==>
                && r.value.id == pageId && r.value.title == pages[pageId].title
                && r.value.slug == pages[pageId].slug && r.value.status == pages[pageId].status
                && r.value.sections == Some(AllSectionViews(sections, pageId, templates))
    {
      if !Owned(pages, pageId, userId) then Err(NotFound)
      else
        var p := pages[pageId];
        Ok(PageView(pageId, p.title, p.slug, p.status, p.userId, p.publishedAt,
                    Some(AllSectionViews(sections, pageId, templates))))
    }

    /** GetPageBySlugAsync: the published page with that slug, carrying only its active sections
        in ascending order number. */
    function GetPageBySlug(slug: string, templates: map<int, Templates.BlockTemplate>): (r: Result<PageView>)
      reads this
      requires TemplatesResolve(templates)
      ensures r.Err? <==> FindPublished(pages, slug).None?
      ensures r.Err? ==> r.error == NotFound
      ensures r.Ok? ==>
                && r.value.id in pages && r.value.slug == slug && r.value.status == Published
                && r.value.sections == Some(PublicSectionViews(sections, r.value.id, templates))
    {
      match FindPublished(pages, slug)
      case None => Err(NotFound)
      case Some(id) =>
        var p := pages[id];
        Ok(PageView(id, p.title, p.slug, p.status, p.userId, p.publishedAt,
                    Some(PublicSectionViews(sections, id, templates))))
    }
  }
}
