/** Navigation menus and their items: menus placed at a location, items nested one under another
    through a parent id, listed by order number. */
module Menus {
  import opened Wrappers
  import opened Strings
  import opened Queries

  datatype Menu = Menu(name: string, location: string, isActive: bool, createdAt: int, updatedAt: int)

  datatype MenuItem = MenuItem(menuId: int, parentId: Option<int>, labelText: string, url: Option<string>,
                               orderNum: int, isActive: bool, createdAt: int)

  datatype MenuRequest = MenuRequest(name: string, location: string, isActive: bool)

  datatype MenuItemRequest = MenuItemRequest(menuId: int, parentId: Option<int>, labelText: string,
                                             url: Option<string>, orderNum: int, isActive: bool)

  /** The response for an item: its id, its record and its listed children. */
  datatype ItemView = ItemView(id: int, item: MenuItem, children: seq<ItemView>)

  datatype MenuView = MenuView(id: int, menu: Menu, items: seq<ItemView>)

  function Ids(vs: seq<ItemView>): (r: seq<int>)
    ensures |r| == |vs| && forall i :: 0 <= i < |vs| ==> r[i] == vs[i].id
  {
    seq(|vs|, i requires 0 <= i < |vs| => vs[i].id)
  }

  // ----- listing -----

  /** `OrderBy(mi => mi.OrderNum)`. */
  predicate OrderLe(a: (int, MenuItem), b: (int, MenuItem)) {
    a.1.orderNum <= b.1.orderNum
  }

  lemma OrderLeTotal()
    ensures TotalPreorder(OrderLe)
  {
  }

  function IsRootOf(menuId: int, activeOnly: bool): ((int, MenuItem)) -> bool {
    (row: (int, MenuItem)) => row.1.menuId == menuId && row.1.parentId.None? && (row.1.isActive || !activeOnly)
  }

  function IsChildOf(parent: int, activeOnly: bool): ((int, MenuItem)) -> bool {
    (row: (int, MenuItem)) => row.1.parentId == Some(parent) && (row.1.isActive || !activeOnly)
  }

  /** The items selected by `p`, ordered by order number. */
  function Listed(items: map<int, MenuItem>, p: ((int, MenuItem)) -> bool): seq<(int, MenuItem)> {
    Query(items, p, OrderLe)
  }

  /** Children are loaded one level below the root items, so deeper levels are listed empty. */
  const LoadedDepth: nat := 1

  /** `MapItemToResponse`: the item with its loaded children, ordered by order number. */
  function ItemViewOf(items: map<int, MenuItem>, row: (int, MenuItem), depth: nat, activeOnly: bool): (r: ItemView)
    ensures r.id == row.0 && r.item == row.1
    decreases depth, 0
  {
    if depth == 0 then ItemView(row.0, row.1, [])
    else ItemView(row.0, row.1, ViewsOf(items, Listed(items, IsChildOf(row.0, activeOnly)), depth - 1, activeOnly))
  }

  /** `Select(MapItemToResponse)` over a list of rows. */
  function ViewsOf(items: map<int, MenuItem>, rows: seq<(int, MenuItem)>, depth: nat, activeOnly: bool): (r: seq<ItemView>)
    ensures |r| == |rows|
    ensures forall i :: 0 <= i < |rows| ==> r[i] == ItemViewOf(items, rows[i], depth, activeOnly)
    decreases depth, |rows| + 1
  {
    if rows == [] then []
    else [ItemViewOf(items, rows[0], depth, activeOnly)] + ViewsOf(items, rows[1..], depth, activeOnly)
  }

  /** `MapToResponse`: the root items of the menu, ordered by order number. */
  function MenuViewOf(items: map<int, MenuItem>, menuId: int, menu: Menu, activeOnly: bool): MenuView {
    MenuView(menuId, menu, ViewsOf(items, Listed(items, IsRootOf(menuId, activeOnly)), LoadedDepth, activeOnly))
  }

  /** The views of `rows` carry their ids in order, so distinct rows give distinct ids. */
  lemma ViewIds(items: map<int, MenuItem>, rows: seq<(int, MenuItem)>, depth: nat, activeOnly: bool)
    requires Distinct(rows)
    requires forall i :: 0 <= i < |rows| ==> rows[i].0 in items && items[rows[i].0] == rows[i].1
    ensures var v := ViewsOf(items, rows, depth, activeOnly);
            && (forall i :: 0 <= i < |v| ==> v[i].id == rows[i].0 && v[i].item == rows[i].1)
            && Distinct(Ids(v))
  {
    var v := ViewsOf(items, rows, depth, activeOnly);
    forall i, j | 0 <= i < j < |v| ensures Ids(v)[i] != Ids(v)[j] {
      var a, b := rows[i], rows[j];
      var ka: int := a.0;
      var kb: int := b.0;
      assert a.1 == items[ka] && b.1 == items[kb];
      assert a != b;
    }
  }

  /** A listed view exists for every row `p` selects. */
  lemma ViewsComplete(items: map<int, MenuItem>, p: ((int, MenuItem)) -> bool, depth: nat, activeOnly: bool, k: int)
    requires k in items && p((k, items[k]))
    ensures k in Ids(ViewsOf(items, Listed(items, p), depth, activeOnly))
  {
    var rows := Listed(items, p);
    QueryComplete(items, p, OrderLe);
    var i :| 0 <= i < |rows| && rows[i] == (k, items[k]);
    var v := ViewsOf(items, rows, depth, activeOnly);
    assert v[i] == ItemViewOf(items, rows[i], depth, activeOnly);
    assert Ids(v)[i] == v[i].id == k;
  }

  /** The rows `p` selects become views in ascending order number, each once. */
  lemma ListedViews(items: map<int, MenuItem>, p: ((int, MenuItem)) -> bool, depth: nat, activeOnly: bool)
    ensures var v := ViewsOf(items, Listed(items, p), depth, activeOnly);
            && (forall i, j :: 0 <= i < j < |v| ==> v[i].item.orderNum <= v[j].item.orderNum)
            && (forall i :: 0 <= i < |v| ==> v[i].id in items && items[v[i].id] == v[i].item && p((v[i].id, v[i].item)))
            && Distinct(Ids(v))
  {
    ListedSorted(items, p, depth, activeOnly);
    ListedSound(items, p, depth, activeOnly);
  }

  lemma ListedSorted(items: map<int, MenuItem>, p: ((int, MenuItem)) -> bool, depth: nat, activeOnly: bool)
    ensures var v := ViewsOf(items, Listed(items, p), depth, activeOnly);
            forall i, j :: 0 <= i < j < |v| ==> v[i].item.orderNum <= v[j].item.orderNum
  {
    OrderLeTotal();
    QuerySorted(items, p, OrderLe);
    ViewsSorted(items, Listed(items, p), depth, activeOnly);
  }

  lemma ListedSound(items: map<int, MenuItem>, p: ((int, MenuItem)) -> bool, depth: nat, activeOnly: bool)
    ensures var v := ViewsOf(items, Listed(items, p), depth, activeOnly);
            && (forall i :: 0 <= i < |v| ==> v[i].id in items && items[v[i].id] == v[i].item && p((v[i].id, v[i].item)))
            && Distinct(Ids(v))
  {
    var rows := Listed(items, p);
    QuerySound(items, p, OrderLe);
    QueryDistinct(items, p, OrderLe);
    ViewIds(items, rows, depth, activeOnly);
  }

  lemma ViewsSorted(items: map<int, MenuItem>, rows: seq<(int, MenuItem)>, depth: nat, activeOnly: bool)
    requires SortedBy(rows, OrderLe)
    ensures var v := ViewsOf(items, rows, depth, activeOnly);
            forall i, j :: 0 <= i < j < |v| ==> v[i].item.orderNum <= v[j].item.orderNum
  {
    var v := ViewsOf(items, rows, depth, activeOnly);
    forall i, j | 0 <= i < j < |v| ensures v[i].item.orderNum <= v[j].item.orderNum {
      assert OrderLe(rows[i], rows[j]);
      assert v[i].item == rows[i].1 && v[j].item == rows[j].1;
    }
  }

  /** A menu lists each root item of that menu once (only active ones when `activeOnly`), by
      ascending order number, and each of those lists its children as `ChildrenOk` says. */
  lemma MenuViewSpec(items: map<int, MenuItem>, menuId: int, menu: Menu, activeOnly: bool)
    ensures var v := MenuViewOf(items, menuId, menu, activeOnly).items;
            && (forall i, j :: 0 <= i < j < |v| ==> v[i].item.orderNum <= v[j].item.orderNum)
            && (forall i :: 0 <= i < |v| ==>
                  && v[i].id in items && items[v[i].id] == v[i].item
                  && v[i].item.menuId == menuId && v[i].item.parentId.None?
                  && (activeOnly ==> v[i].item.isActive))
            && (forall k :: (k in items && items[k].menuId == menuId && items[k].parentId.None?
                               && (items[k].isActive || !activeOnly)) ==> k in Ids(v))
            && Distinct(Ids(v))
    ensures var v := MenuViewOf(items, menuId, menu, activeOnly).items;
            forall i :: 0 <= i < |v| ==> ChildrenOk(items, v[i], activeOnly)
  {
    var p := IsRootOf(menuId, activeOnly);
    RootsSpec(items, menuId, activeOnly);
    RootsChildren(items, Listed(items, p), activeOnly);
  }

  lemma RootsSpec(items: map<int, MenuItem>, menuId: int, activeOnly: bool)
    ensures var v := ViewsOf(items, Listed(items, IsRootOf(menuId, activeOnly)), LoadedDepth, activeOnly);
            && (forall i, j :: 0 <= i < j < |v| ==> v[i].item.orderNum <= v[j].item.orderNum)
            && (forall i :: 0 <= i < |v| ==>
                  && v[i].id in items && items[v[i].id] == v[i].item
                  && v[i].item.menuId == menuId && v[i].item.parentId.None?
                  && (activeOnly ==> v[i].item.isActive))
            && (forall k :: (k in items && items[k].menuId == menuId && items[k].parentId.None?
                               && (items[k].isActive || !activeOnly)) ==> k in Ids(v))
            && Distinct(Ids(v))
  {
    var p := IsRootOf(menuId, activeOnly);
    var v := ViewsOf(items, Listed(items, p), LoadedDepth, activeOnly);
    ListedViews(items, p, LoadedDepth, activeOnly);
    forall i | 0 <= i < |v|
      ensures v[i].item.menuId == menuId && v[i].item.parentId.None? && (activeOnly ==> v[i].item.isActive)
    {
      assert p((v[i].id, v[i].item));
    }
    RootsComplete(items, menuId, activeOnly);
  }

  lemma RootsComplete(items: map<int, MenuItem>, menuId: int, activeOnly: bool)
    ensures var v := ViewsOf(items, Listed(items, IsRootOf(menuId, activeOnly)), LoadedDepth, activeOnly);
            forall k :: (k in items && items[k].menuId == menuId && items[k].parentId.None?
                           && (items[k].isActive || !activeOnly)) ==> k in Ids(v)
  {
    var p := IsRootOf(menuId, activeOnly);
    forall k | k in items && items[k].menuId == menuId && items[k].parentId.None? && (items[k].isActive || !activeOnly)
      ensures k in Ids(ViewsOf(items, Listed(items, p), LoadedDepth, activeOnly))
    {
      assert p((k, items[k]));
      ViewsComplete(items, p, LoadedDepth, activeOnly, k);
    }
  }

  lemma RootsChildren(items: map<int, MenuItem>, rows: seq<(int, MenuItem)>, activeOnly: bool)
    ensures var v := ViewsOf(items, rows, LoadedDepth, activeOnly);
            forall i :: 0 <= i < |v| ==> ChildrenOk(items, v[i], activeOnly)
  {
    var v := ViewsOf(items, rows, LoadedDepth, activeOnly);
    forall i | 0 <= i < |v| ensures ChildrenOk(items, v[i], activeOnly) {
      ChildrenSpec(items, rows[i], activeOnly);
    }
  }

  /** The children of `parent` are each child item of it once (only active ones when
      `activeOnly`), by ascending order number, with nothing listed below them. */
  ghost predicate ChildrenOk(items: map<int, MenuItem>, parent: ItemView, activeOnly: bool) {
    var c := parent.children;
    && (forall a, b :: 0 <= a < b < |c| ==> c[a].item.orderNum <= c[b].item.orderNum)
    && (forall a :: 0 <= a < |c| ==>
          && c[a].id in items && items[c[a].id] == c[a].item
          && c[a].item.parentId == Some(parent.id)
          && (activeOnly ==> c[a].item.isActive)
          && c[a].children == [])
    && (forall k :: (k in items && items[k].parentId == Some(parent.id)
                       && (items[k].isActive || !activeOnly)) ==> k in Ids(c))
    && Distinct(Ids(c))
  }

  lemma ChildrenSpec(items: map<int, MenuItem>, row: (int, MenuItem), activeOnly: bool)
    ensures ChildrenOk(items, ItemViewOf(items, row, LoadedDepth, activeOnly), activeOnly)
  {
    var p := IsChildOf(row.0, activeOnly);
    var c := ItemViewOf(items, row, LoadedDepth, activeOnly).children;
    assert c == ViewsOf(items, Listed(items, p), 0, activeOnly);
    ListedViews(items, p, 0, activeOnly);
    forall k | k in items && items[k].parentId == Some(row.0) && (items[k].isActive || !activeOnly)
      ensures k in Ids(c)
    {
      ViewsComplete(items, p, 0, activeOnly, k);
    }
  }

  // ----- reorder -----

  /** One position of a reorder request: the listed item gets the position as its order number
      when it exists and belongs to the menu. */
  function ReorderOne(items: map<int, MenuItem>, menuId: int, id: int, position: int): map<int, MenuItem> {
    if id in items && items[id].menuId == menuId then items[id := items[id].(orderNum := position)] else items
  }

  /** The whole request, position by position. */
  function Reordered(items: map<int, MenuItem>, menuId: int, ids: seq<int>): map<int, MenuItem> {
    if ids == [] then items
    else ReorderOne(Reordered(items, menuId, ids[..|ids| - 1]), menuId, ids[|ids| - 1], |ids| - 1)
  }

  /** The last position at which `id` is listed, if any. */
  function LastIndexOf(ids: seq<int>, id: int): (r: Option<int>)
    ensures r.Some? ==> 0 <= r.value < |ids| && ids[r.value] == id
                        && forall j :: r.value < j < |ids| ==> ids[j] != id
    ensures r.None? ==> id !in ids
  {
    if ids == [] then None
    else if ids[|ids| - 1] == id then Some(|ids| - 1)
    else LastIndexOf(ids[..|ids| - 1], id)
  }

  /** After a reorder, every item of the menu that the request lists holds the last position at
      which it is listed; every other field, every unlisted item, the items of other menus and
      the set of ids are unchanged. */
  lemma {:induction false} ReorderedSpec(items: map<int, MenuItem>, menuId: int, ids: seq<int>)
    ensures var r := Reordered(items, menuId, ids);
            && r.Keys == items.Keys
            && forall k | k in items ::
                 r[k] == (if items[k].menuId == menuId && LastIndexOf(ids, k).Some?
                          then items[k].(orderNum := LastIndexOf(ids, k).value)
                          else items[k])
  {
    if ids != [] {
      ReorderedSpec(items, menuId, ids[..|ids| - 1]);
    }
  }

  /** Menu-name order, case-folded. */
  predicate NameLe(a: (int, Menu), b: (int, Menu)) {
    LexLe(Lower(a.1.name), Lower(b.1.name))
  }

  lemma NameLeTotal()
    ensures TotalPreorder(NameLe)
  {
    forall a: (int, Menu), b: (int, Menu) ensures NameLe(a, b) || NameLe(b, a) {
      LexLeTotal(Lower(a.1.name), Lower(b.1.name));
    }
    forall a: (int, Menu), b: (int, Menu), c: (int, Menu) | NameLe(a, b) && NameLe(b, c) ensures NameLe(a, c) {
      LexLeTrans(Lower(a.1.name), Lower(b.1.name), Lower(c.1.name));
    }
  }

  function AnyMenu(row: (int, Menu)): bool { true }

  function MenuViewOfRow(items: map<int, MenuItem>): ((int, Menu)) -> MenuView {
    (row: (int, Menu)) => MenuViewOf(items, row.0, row.1, false)
  }

  /** The menu rows of `GetAllMenusAsync`: every menu, ordered by name. */
  function MenuRows(menus: map<int, Menu>): seq<(int, Menu)> {
    Query(menus, AnyMenu, NameLe)
  }

  /** `GetAllMenusAsync`: the response of each menu row, in order. */
  function AllMenus(menus: map<int, Menu>, items: map<int, MenuItem>): seq<MenuView> {
    Select(MenuViewOfRow(items), MenuRows(menus))
  }

  /** Every menu is listed exactly once, with its own record, in name order. */
  lemma MenuRowsSpec(menus: map<int, Menu>)
    ensures var r := MenuRows(menus);
            && (forall i :: 0 <= i < |r| ==> r[i].0 in menus && r[i].1 == menus[r[i].0])
            && (forall i, j :: 0 <= i < j < |r| ==> LexLe(Lower(r[i].1.name), Lower(r[j].1.name)))
            && (forall k :: k in menus ==> (k, menus[k]) in r)
            && Distinct(r) && |r| == |menus|
  {
    var r := MenuRows(menus);
    assert forall i :: 0 <= i < |r| ==> r[i].0 in menus && r[i].1 == menus[r[i].0] by {
      QuerySound(menus, AnyMenu, NameLe);
    }
    forall k | k in menus ensures (k, menus[k]) in r {
      assert AnyMenu((k, menus[k]));
      QueryComplete(menus, AnyMenu, NameLe);
    }
    assert Distinct(r) by {
      QueryDistinct(menus, AnyMenu, NameLe);
    }
    MenuRowsCount(menus);
    MenuRowsSorted(menus);
  }

  lemma MenuRowsSorted(menus: map<int, Menu>)
    ensures var r := MenuRows(menus);
            forall i, j :: 0 <= i < j < |r| ==> LexLe(Lower(r[i].1.name), Lower(r[j].1.name))
  {
    var r := MenuRows(menus);
    NameLeTotal();
    QuerySorted(menus, AnyMenu, NameLe);
    assert SortedBy(r, NameLe);
    forall i, j | 0 <= i < j < |r| ensures LexLe(Lower(r[i].1.name), Lower(r[j].1.name)) {
      assert NameLe(r[i], r[j]);
    }
  }

  lemma MenuRowsCount(menus: map<int, Menu>)
    ensures |MenuRows(menus)| == |menus|
  {
    FilterAll(AnyMenu, Rows(menus));
  }

  class MenuService {
    var menus: map<int, Menu>
    var items: map<int, MenuItem>
    var nextMenuId: int
    var nextItemId: int

    ghost predicate Valid()
      reads this
    {
      && 0 < nextMenuId && 0 < nextItemId
      && (forall id | id in menus :: 0 < id < nextMenuId)
      && (forall id | id in items :: 0 < id < nextItemId)
    }

    constructor ()
      ensures Valid() && menus == map[] && items == map[]
    {
      menus := map[];
      items := map[];
      nextMenuId := 1;
      nextItemId := 1;
    }

    /** All menus by name, each with its root items and their children. */
    function GetAllMenus(): seq<MenuView>
      reads this
    {
      AllMenus(menus, items)
    }

    /** A missing menu is `NotFound`; otherwise the menu with all its root items. */
    function GetMenuById(id: int): (r: Result<MenuView>)
      reads this
      ensures r.Err? <==> id !in menus
      ensures r.Err? ==> r.error == NotFound
      ensures r.Ok? ==> r.value.id == id && r.value.menu == menus[id]
    {
      if id !in menus then Err(NotFound) else Ok(MenuViewOf(items, id, menus[id], false))
    }

    /** The first active menu at the location, with only its active items; `NotFound` when
        there is none. */
    function GetMenuByLocation(location: string): (r: Result<MenuView>)
      reads this
      ensures r.Err? <==> forall id | id in menus :: menus[id].location != location || !menus[id].isActive
      ensures r.Err? ==> r.error == NotFound
      ensures r.Ok? ==> r.value.id in menus && r.value.menu == menus[r.value.id]
                        && r.value.menu.location == location && r.value.menu.isActive
                        && r.value == MenuViewOf(items, r.value.id, r.value.menu, true)
    {
      if forall id | id in menus :: menus[id].location != location || !menus[id].isActive then Err(NotFound)
      else
        var ids := set id | id in menus && menus[id].location == location && menus[id].isActive;
        assert ids != {} by {
          var w :| w in menus && menus[w].location == location && menus[w].isActive;
          assert w in ids;
        }
        var id := MinOf(ids);
        Ok(MenuViewOf(items, id, menus[id], true))
    }

    method CreateMenu(req: MenuRequest, now: int) returns (id: int)
      requires Valid()
      modifies this
      ensures Valid()
      ensures id !in old(menus) && menus == old(menus)[id := Menu(req.name, req.location, req.isActive, now, now)]
      ensures items == old(items) && nextItemId == old(nextItemId)
    {
      id := nextMenuId;
      menus := menus[id := Menu(req.name, req.location, req.isActive, now, now)];
      nextMenuId := nextMenuId + 1;
    }

    method UpdateMenu(id: int, req: MenuRequest, now: int) returns (r: Outcome)
      requires Valid()
      modifies this
      ensures Valid()
      ensures r == Fail(NotFound) <==> id !in old(menus)
      ensures r.Fail? ==> r.error == NotFound && unchanged(this)
      ensures r.Pass? ==> menus == old(menus)[id := Menu(req.name, req.location, req.isActive, old(menus)[id].createdAt, now)]
      ensures items == old(items) && nextMenuId == old(nextMenuId) && nextItemId == old(nextItemId)
    {
      if id !in menus {
        return Fail(NotFound);
      }
      menus := menus[id := Menu(req.name, req.location, req.isActive, menus[id].createdAt, now)];
      r := Pass;
    }

    method DeleteMenu(id: int) returns (r: Outcome)
      requires Valid()
      modifies this
      ensures Valid()
      ensures r == Fail(NotFound) <==> id !in old(menus)
      ensures r.Fail? ==> unchanged(this)
      ensures r.Pass? ==> menus == old(menus) - {id}
      ensures items == old(items) && nextMenuId == old(nextMenuId) && nextItemId == old(nextItemId)
    {
      if id !in menus {
        return Fail(NotFound);
      }
      menus := menus - {id};
      r := Pass;
    }

    method CreateMenuItem(req: MenuItemRequest, now: int) returns (id: int)
      requires Valid()
      modifies this
      ensures Valid()
      ensures id !in old(items)
      ensures items == old(items)[id := MenuItem(req.menuId, req.parentId, req.labelText, req.url, req.orderNum, req.isActive, now)]
      ensures menus == old(menus) && nextMenuId == old(nextMenuId)
    {
      id := nextItemId;
      items := items[id := MenuItem(req.menuId, req.parentId, req.labelText, req.url, req.orderNum, req.isActive, now)];
      nextItemId := nextItemId + 1;
    }

    /** Overwrites label, url, parent, order number and activity; the menu and the creation time
        stay. */
    method UpdateMenuItem(id: int, req: MenuItemRequest) returns (r: Outcome)
      requires Valid()
      modifies this
      ensures Valid()
      ensures r == Fail(NotFound) <==> id !in old(items)
      ensures r.Fail? ==> unchanged(this)
      ensures r.Pass? ==>
                var it := old(items)[id];
                items == old(items)[id := MenuItem(it.menuId, req.parentId, req.labelText, req.url, req.orderNum, req.isActive, it.createdAt)]
      ensures menus == old(menus) && nextMenuId == old(nextMenuId) && nextItemId == old(nextItemId)
    {
      if id !in items {
        return Fail(NotFound);
      }
      var it := items[id];
      items := items[id := it.(labelText := req.labelText, url := req.url, parentId := req.parentId,
                               orderNum := req.orderNum, isActive := req.isActive)];
      r := Pass;
    }

    method DeleteMenuItem(id: int) returns (r: Outcome)
      requires Valid()
      modifies this
      ensures Valid()
      ensures r == Fail(NotFound) <==> id !in old(items)
      ensures r.Fail? ==> unchanged(this)
      ensures r.Pass? ==> items == old(items) - {id}
      ensures menus == old(menus) && nextMenuId == old(nextMenuId) && nextItemId == old(nextItemId)
    {
      if id !in items {
        return Fail(NotFound);
      }
      items := items - {id};
      r := Pass;
    }

    /** Gives the i-th listed item its position i as order number, when it exists and belongs to
        the menu; unknown ids and items of other menus are skipped. */
    method ReorderMenuItems(menuId: int, ids: seq<int>)
      requires Valid()
      modifies this
      ensures Valid()
      ensures items == Reordered(old(items), menuId, ids)
      ensures menus == old(menus) && nextMenuId == old(nextMenuId) && nextItemId == old(nextItemId)
    {
      var i := 0;
      while i < |ids|
        invariant 0 <= i <= |ids|
        invariant items == Reordered(old(items), menuId, ids[..i])
        invariant items.Keys == old(items).Keys
        invariant menus == old(menus) && nextMenuId == old(nextMenuId) && nextItemId == old(nextItemId)
      {
        assert ids[..i + 1][..i] == ids[..i];
        var id := ids[i];
        if id in items && items[id].menuId == menuId {
          items := items[id := items[id].(orderNum := i)];
        }
        i := i + 1;
      }
      assert ids[..|ids|] == ids;
    }
  }
}
