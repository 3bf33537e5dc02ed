/** The admin pages' helpers: the pager (its page window and its navigation), the required-field
    check of a form, and the status badge lookup. */
module Admin {
  import opened Wrappers
  import opened Strings
  import Queries
  import SiteUtils

  // ----- the pager -----

  /** What `render` writes into the container, in order. */
  datatype Item = Previous(disabled: bool) | PageButton(page: int, current: bool) | Ellipsis | Next(disabled: bool)

  /** Page `i` gets a button when it is the first, the last, or within two of the current page. */
  predicate ShowsButton(i: int, current: int, total: int) {
    i == 1 || i == total || (current - 2 <= i && i <= current + 2)
  }

  /** What page `i` contributes: its button, else an ellipsis three pages from the current one. */
  function PageItem(i: int, current: int, total: int): seq<Item> {
    if ShowsButton(i, current, total) then [PageButton(i, i == current)]
    else if i == current - 3 || i == current + 3 then [Ellipsis]
    else []
  }

  /** What pages 1 to `n` contribute. */
  function PageItems(current: int, total: int, n: nat): seq<Item> {
    if n == 0 then [] else PageItems(current, total, n - 1) + PageItem(n, current, total)
  }

  /** The whole pager: the two arrows around the page items. */
  function Rendered(current: int, total: nat): (r: seq<Item>)
    ensures |r| >= 2 && r[0] == Previous(current == 1) && r[|r| - 1] == Next(current == total)
  {
    [Previous(current == 1)] + PageItems(current, total, total) + [Next(current == total)]
  }

  /** The page numbers of the buttons among `items`, in order. */
  function ButtonPages(items: seq<Item>): seq<int> {
    if items == [] then []
    else (if items[0].PageButton? then [items[0].page] else []) + ButtonPages(items[1..])
  }

  lemma {:induction false} ButtonPagesAppend(a: seq<Item>, b: seq<Item>)
    ensures ButtonPages(a + b) == ButtonPages(a) + ButtonPages(b)
    decreases |a|
  {
    if a == [] {
      assert a + b == b;
    } else {
      var h := if a[0].PageButton? then [a[0].page] else [];
      assert (a + b)[0] == a[0];
      assert (a + b)[1..] == a[1..] + b;
      ButtonPagesAppend(a[1..], b);
      var x, y := ButtonPages(a[1..]), ButtonPages(b);
      assert ButtonPages(a + b) == h + (x + y);
      assert ButtonPages(a) == h + x;
      assert h + (x + y) == (h + x) + y;
    }
  }

  /** The buttons of pages 1 to `n` are exactly the pages in that range that get one. */
  lemma {:induction false} ButtonsShown(current: int, total: int, n: nat)
    ensures forall i :: i in ButtonPages(PageItems(current, total, n)) <==> 1 <= i <= n && ShowsButton(i, current, total)
  {
    if n > 0 {
      ButtonsShown(current, total, n - 1);
      ButtonPagesAppend(PageItems(current, total, n - 1), PageItem(n, current, total));
    }
  }

  /** The buttons come in ascending page order. */
  lemma {:induction false} ButtonsAscending(current: int, total: int, n: nat)
    ensures forall k, l :: 0 <= k < l < |ButtonPages(PageItems(current, total, n))| ==>
              ButtonPages(PageItems(current, total, n))[k] < ButtonPages(PageItems(current, total, n))[l]
  {
    if n > 0 {
      var prev := PageItems(current, total, n - 1);
      var item := PageItem(n, current, total);
      var bp := ButtonPages(prev);
      ButtonsAscending(current, total, n - 1);
      ButtonsBelow(current, total, n - 1);
      ButtonPagesAppend(prev, item);
      assert PageItems(current, total, n) == prev + item;
      if ShowsButton(n, current, total) {
        assert ButtonPages(item) == [n];
        AscendingSnoc(bp, n);
      } else {
        assert ButtonPages(item) == [];
        assert bp + [] == bp;
      }
    }
  }

  lemma ButtonsBelow(current: int, total: int, n: nat)
    ensures forall x :: x in ButtonPages(PageItems(current, total, n)) ==> x < n + 1
  {
    ButtonsShown(current, total, n);
  }

  lemma AscendingSnoc(s: seq<int>, n: int)
    requires forall k, l :: 0 <= k < l < |s| ==> s[k] < s[l]
    requires forall x :: x in s ==> x < n
    ensures var r := s + [n];
            forall k, l :: 0 <= k < l < |r| ==> r[k] < r[l]
  {
    var r := s + [n];
    forall k, l | 0 <= k < l < |r| ensures r[k] < r[l] {
      if l < |s| {
        assert r[k] == s[k] && r[l] == s[l];
      } else {
        assert r[k] == s[k] && s[k] in s;
      }
    }
  }

  /** Only the current page's button is marked as current. */
  lemma {:induction false} OnlyCurrentMarked(current: int, total: int, n: nat)
    ensures forall p, c :: PageButton(p, c) in PageItems(current, total, n) ==> (c <==> p == current)
  {
    if n > 0 {
      OnlyCurrentMarked(current, total, n - 1);
    }
  }

  /** An ellipsis stands only three pages from the current one, so there are at most two. */
  lemma {:induction false} AtMostTwoEllipses(current: int, total: int, n: nat)
    ensures multiset(PageItems(current, total, n))[Ellipsis]
            <= (if n >= current + 3 then 2 else if n >= current - 3 then 1 else 0)
  {
    if n > 0 {
      AtMostTwoEllipses(current, total, n - 1);
      var prev := PageItems(current, total, n - 1);
      var item := PageItem(n, current, total);
      assert multiset(prev + item) == multiset(prev) + multiset(item);
    }
  }

  /** The shown page numbers are the first, the last and those within two of the current page,
      so the pager never shows more than seven page buttons. */
  lemma AtMostSevenButtons(current: int, total: nat)
    ensures |ButtonPages(PageItems(current, total, total))| <= 7
  {
    var bp := ButtonPages(PageItems(current, total, total));
    ButtonsShown(current, total, total);
    ButtonsAscending(current, total, total);
    assert Queries.Distinct(bp);
    Queries.DistinctCard(bp);
    var shown := set x | x in bp;
    var allowed := {1, total, current - 2, current - 1, current, current + 1, current + 2};
    assert shown <= allowed;
    SubsetCard(shown, allowed);
    assert |allowed| <= 7;
  }

  lemma SubsetCard(a: set<int>, b: set<int>)
    requires a <= b
    ensures |a| <= |b|
  {
    assert b == a + (b - a);
  }

  class Pagination {
    var hasContainer: bool
    var currentPage: int
    var totalPages: int
    /** The container's content: `None` until the first render. */
    var html: Option<seq<Item>>
    /** The pages handed to `onPageChange`, oldest first. */
    var pageChanges: seq<int>

    /** `options.currentPage || 1` and `options.totalPages || 1`: an absent or zero option falls
        back to 1. */
    constructor (hasContainer: bool, currentPage: Option<int>, totalPages: Option<int>)
      ensures this.hasContainer == hasContainer
      ensures this.currentPage == (if currentPage.None? || currentPage.value == 0 then 1 else currentPage.value)
      ensures this.totalPages == (if totalPages.None? || totalPages.value == 0 then 1 else totalPages.value)
      ensures html == None && pageChanges == []
    {
      this.hasContainer := hasContainer;
      this.currentPage := if currentPage.None? || currentPage.value == 0 then 1 else currentPage.value;
      this.totalPages := if totalPages.None? || totalPages.value == 0 then 1 else totalPages.value;
      html := None;
      pageChanges := [];
    }

    /** `render`: nothing without a container or with at most one page; otherwise the arrows,
        disabled at the ends, around the page window. */
    method Render()
      modifies this
      ensures currentPage == old(currentPage) && totalPages == old(totalPages)
      ensures hasContainer == old(hasContainer) && pageChanges == old(pageChanges)
      ensures !hasContainer || totalPages <= 1 ==> html == old(html)
      ensures hasContainer && totalPages > 1 ==> html == Some(Rendered(currentPage, totalPages))
    {
      if !hasContainer || totalPages <= 1 {
        return;
      }
      var items := [Previous(currentPage == 1)];
      var i := 1;
      while i <= totalPages
        invariant 1 <= i <= totalPages + 1
        invariant items == [Previous(currentPage == 1)] + PageItems(currentPage, totalPages, i - 1)
      {
        if i == 1 || i == totalPages || (i >= currentPage - 2 && i <= currentPage + 2) {
          items := items + [PageButton(i, i == currentPage)];
        } else if i == currentPage - 3 || i == currentPage + 3 {
          items := items + [Ellipsis];
        }
        i := i + 1;
      }
      items := items + [Next(currentPage == totalPages)];
      html := Some(items);
    }

    /** `goToPage`: a page outside 1..totalPages is ignored; any other becomes current, is handed
        to `onPageChange`, and the pager is drawn again. */
    method GoToPage(page: int)
      modifies this
      ensures page < 1 || page > old(totalPages) ==> unchanged(this)
      ensures 1 <= page <= old(totalPages) ==>
                && currentPage == page && totalPages == old(totalPages) && hasContainer == old(hasContainer)
                && pageChanges == old(pageChanges) + [page]
                && html == (if hasContainer && totalPages > 1 then Some(Rendered(page, totalPages)) else old(html))
    {
      if page < 1 || page > totalPages {
        return;
      }
      currentPage := page;
      pageChanges := pageChanges + [page];
      Render();
    }
  }

  // ----- validateForm -----

  /** A value whose trimmed form is empty. */
  predicate Blank(value: string) {
    SiteUtils.TrimSpace(value) == ""
  }

  /** A value is blank exactly when it is all white space. */
  lemma BlankIffSpaces(value: string)
    ensures Blank(value) <==> forall i :: 0 <= i < |value| ==> IsJsSpace(value[i])
  {
    var t := SiteUtils.TrimSpace(value);
    if forall i :: 0 <= i < |value| ==> IsJsSpace(value[i]) {
      assert forall c :: c in t ==> IsJsSpace(c) by {
        forall c | c in t ensures IsJsSpace(c) {
          var i :| 0 <= i < |value| && value[i] == c;
        }
      }
    } else {
      var i :| 0 <= i < |value| && !IsJsSpace(value[i]);
      assert value[i] in t;
    }
  }

  /** `validateForm`: `form` is the values of the form's required inputs, or `None` when there is
      no such form. Returns the verdict and, per input, whether it was marked as invalid. */
  method ValidateForm(form: Option<seq<string>>) returns (isValid: bool, marked: seq<bool>)
    ensures isValid <==> form.Some? && forall i :: 0 <= i < |form.value| ==> !Blank(form.value[i])
    ensures form.None? ==> marked == []
    ensures form.Some? ==> |marked| == |form.value| && forall i :: 0 <= i < |marked| ==> (marked[i] <==> Blank(form.value[i]))
  {
    if form.None? {
      return false, [];
    }
    var inputs := form.value;
    isValid := true;
    marked := [];
    var k := 0;
    while k < |inputs|
      invariant 0 <= k <= |inputs| && |marked| == k
      invariant forall i :: 0 <= i < k ==> (marked[i] <==> Blank(inputs[i]))
      invariant isValid <==> forall i :: 0 <= i < k ==> !Blank(inputs[i])
    {
      if SiteUtils.TrimSpace(inputs[k]) == "" {
        marked := marked + [true];
        isValid := false;
      } else {
        marked := marked + [false];
      }
      k := k + 1;
    }
  }

  // ----- getStatusBadge -----

  const Badges: map<string, string> := map[
    "active" := "<span class=\"px-2 py-1 bg-green-100 text-green-800 text-xs rounded-full\">Active</span>",
    "inactive" := "<span class=\"px-2 py-1 bg-gray-100 text-gray-800 text-xs rounded-full\">Inactive</span>",
    "draft" := "<span class=\"px-2 py-1 bg-yellow-100 text-yellow-800 text-xs rounded-full\">Draft</span>",
    "published" := "<span class=\"px-2 py-1 bg-blue-100 text-blue-800 text-xs rounded-full\">Published</span>",
    "pending" := "<span class=\"px-2 py-1 bg-orange-100 text-orange-800 text-xs rounded-full\">Pending</span>"]

  /** `getStatusBadge`: the badge of a known status, looked up in lower case, else the status
      itself. */
  function StatusBadge(status: string): (r: string)
    ensures Lower(status) in Badges ==> r == Badges[Lower(status)]
    ensures Lower(status) !in Badges ==> r == status
  {
    var key := Lower(status);
    if key in Badges then Badges[key] else status
  }

  /** Statuses that differ only in the case of ASCII letters get the same badge. */
  lemma BadgeIgnoresCase(a: string, b: string)
    requires Lower(a) == Lower(b) && Lower(a) in Badges
    ensures StatusBadge(a) == StatusBadge(b)
  {
  }
}
