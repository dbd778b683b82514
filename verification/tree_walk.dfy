/** The walk that finds which tree entries to show expanded: a recursive search over arrays and items that
    pushes to and pops from one shared list (apps/dokploy/components/ui/file-tree.tsx:57-86). */
module TreeWalk {
  import opened Ordering

  /** An item without, or with, a `children` array (which may be empty). */
  datatype TreeItem = Plain(id: string) | Parent(id: string, children: seq<TreeItem>)

  /** The component's `data`: an array of items or one item. */
  datatype Data = Forest(items: seq<TreeItem>) | Single(item: TreeItem)

  // --- Places in a forest -------------------------------------------------------

  /** A place is the list of child positions on the way down from the roots. */
  type Place = seq<nat>

  predicate IsPlace(items: seq<TreeItem>, a: Place) {
    && a != [] && a[0] < |items|
    && (|a| > 1 ==> items[a[0]].Parent? && IsPlace(items[a[0]].children, a[1..]))
  }

  function IdAt(items: seq<TreeItem>, a: Place): string
    requires IsPlace(items, a)
  {
    if |a| == 1 then items[a[0]].id else IdAt(items[a[0]].children, a[1..])
  }

  /** The ids met on the way down to a place, its own included. */
  function IdsAlong(items: seq<TreeItem>, a: Place): seq<string>
    requires IsPlace(items, a)
  {
    [items[a[0]].id] + if |a| == 1 then [] else IdsAlong(items[a[0]].children, a[1..])
  }

  /** Preorder: a parent before its children, a sibling's whole subtree before the next sibling. */
  predicate Before(a: Place, b: Place) {
    |b| > 0 && (|a| == 0 || a[0] < b[0] || (a[0] == b[0] && Before(a[1..], b[1..])))
  }

  // --- What the walk computes ---------------------------------------------------

  function PathFrom(items: seq<TreeItem>, target: string): Option<seq<string>>
    decreases items, 1
  {
    if items == [] then None
    else match PathBelow(items[0], target)
      case Some(path) => Some([items[0].id] + path)
      case None => PathFrom(items[1..], target)
  }

  function PathBelow(item: TreeItem, target: string): Option<seq<string>>
    decreases item, 0
  {
    if item.id == target then Some([])
    else if item.Parent? then PathFrom(item.children, target)
    else None
  }

  function Preorder(items: seq<TreeItem>): seq<string>
    decreases items, 1
  {
    if items == [] then [] else [items[0].id] + PreorderBelow(items[0]) + Preorder(items[1..])
  }

  function PreorderBelow(item: TreeItem): seq<string>
    decreases item, 0
  {
    if item.Parent? then Preorder(item.children) else []
  }

  class Walker {
    const expandAll: bool
    var ids: seq<string>

    constructor (expandAll: bool)
      ensures this.expandAll == expandAll && ids == []
    {
      this.expandAll := expandAll;
      ids := [];
    }

    /** `walkTreeItems` on an array. A subtree without the target leaves the list as it was. */
    method WalkItems(items: seq<TreeItem>, targetId: string) returns (found: bool)
      modifies this`ids
      decreases items, 1
      ensures expandAll ==> !found && ids == old(ids) + Preorder(items)
      ensures !expandAll ==> found == PathFrom(items, targetId).Some?
      ensures !expandAll ==> ids == old(ids) + if found then PathFrom(items, targetId).value else []
    {
      var i := 0;
      while i < |items|
        invariant i <= |items|
        invariant expandAll ==> old(ids) + Preorder(items) == ids + Preorder(items[i..])
        invariant !expandAll ==> ids == old(ids) && PathFrom(items, targetId) == PathFrom(items[i..], targetId)
      {
        assert items[i..][0] == items[i] && items[i..][1..] == items[i + 1..];
        ids := ids + [items[i].id];
        var hit := WalkItem(items[i], targetId);
        if hit && !expandAll { return true; }
        if !expandAll { ids := ids[..|ids| - 1]; }
        i := i + 1;
      }
      assert items[i..] == [];
      return false;
    }

    /** `walkTreeItems` on one item. */
    method WalkItem(item: TreeItem, targetId: string) returns (found: bool)
      modifies this`ids
      decreases item, 0
      ensures expandAll ==> !found && ids == old(ids) + PreorderBelow(item)
      ensures !expandAll ==> found == PathBelow(item, targetId).Some?
      ensures !expandAll ==> ids == old(ids) + if found then PathBelow(item, targetId).value else []
    {
      if !expandAll && item.id == targetId {
        return true;
      } else if item.Parent? {
        found := WalkItems(item.children, targetId);
      } else {
        return false;
      }
    }
  }

  /** `expandedItemIds` as a function of the component's properties. */
  function ExpandedIds(data: Data, selected: Option<string>, expandAll: bool): seq<string> {
    if selected.None? || selected.value == "" then []
    else if expandAll then (match data case Forest(items) => Preorder(items) case Single(item) => PreorderBelow(item))
    else
      var path := match data
        case Forest(items) => PathFrom(items, selected.value)
        case Single(item) => PathBelow(item, selected.value);
      match path
      case Some(path) => path
      case None => []
  }

  /** Without a selection the list is empty, whatever the data and the mode. With one it names, in preorder, every place
      of an array or every place below a single item; or else it is the way to the first match in preorder, without a
      single item's own id, and empty without a match. */
  method ExpandedItemIds(data: Data, selected: Option<string>, expandAll: bool) returns (ids: seq<string>)
    ensures ids == ExpandedIds(data, selected, expandAll)
    ensures selected.None? || selected.value == "" ==> ids == []
    ensures selected.Some? && selected.value != "" && expandAll && data.Forest? ==> NamesAll(data.items, ids)
    ensures selected.Some? && selected.value != "" && expandAll && data.Single? ==>
              NamesAll([data.item], [data.item.id] + ids)
    ensures selected.Some? && selected.value != "" && !expandAll && data.Forest? ==>
              if Absent(data.items, selected.value) then ids == [] else LeadsDown(data.items, selected.value, ids)
    ensures selected.Some? && selected.value != "" && !expandAll && data.Single? ==>
              if Absent([data.item], selected.value) then ids == []
              else LeadsDown([data.item], selected.value, [data.item.id] + ids)
  {
    if selected.None? || selected.value == "" { return []; }
    match data {
      case Forest(items) =>
        SearchResult(items, selected.value);
        ExpandAllResult(items, selected);
      case Single(item) =>
        SearchBelowSingle(item, selected.value);
        ExpandAllBelowSingle(item, selected);
    }
    var w := new Walker(expandAll);
    match data {
      case Forest(items) => var _ := w.WalkItems(items, selected.value);
      case Single(item) => var _ := w.WalkItem(item, selected.value);
    }
    return w.ids;
  }

  // --- Search -------------------------------------------------------------------

  ghost predicate Absent(items: seq<TreeItem>, target: string) {
    forall a :: IsPlace(items, a) ==> IdAt(items, a) != target
  }

  /** `a` is the first place in preorder that carries the target's id. */
  ghost predicate FirstMatch(items: seq<TreeItem>, target: string, a: Place) {
    && IsPlace(items, a) && IdAt(items, a) == target
    && forall b :: IsPlace(items, b) && Before(b, a) ==> IdAt(items, b) != target
  }

  /** A place of the tail, as a place of the whole array. */
  function Shift(a: Place): Place
    requires a != []
  {
    [a[0] + 1] + a[1..]
  }

  function Unshift(a: Place): Place
    requires a != [] && a[0] > 0
  {
    [a[0] - 1] + a[1..]
  }

  lemma ShiftPlace(items: seq<TreeItem>, a: Place)
    requires items != [] && IsPlace(items, a) && a[0] > 0
    ensures IsPlace(items[1..], Unshift(a)) && IdAt(items[1..], Unshift(a)) == IdAt(items, a)
    ensures IdsAlong(items[1..], Unshift(a)) == IdsAlong(items, a)
  {
    assert Unshift(a)[1..] == a[1..];
  }

  lemma UnshiftPlace(items: seq<TreeItem>, a: Place)
    requires items != [] && IsPlace(items[1..], a)
    ensures IsPlace(items, Shift(a)) && IdAt(items, Shift(a)) == IdAt(items[1..], a)
    ensures IdsAlong(items, Shift(a)) == IdsAlong(items[1..], a)
  {
    assert Shift(a)[1..] == a[1..];
  }

  lemma UnshiftBefore(b: Place, a: Place)
    requires a != [] && b != [] && b[0] > 0 && Before(b, Shift(a))
    ensures Before(Unshift(b), a)
  {
    assert Shift(a)[1..] == a[1..] && Unshift(b)[1..] == b[1..];
  }

  /** The path that the walk returns is the one to the first match in preorder; without a match there is none. */
  lemma {:induction false} PathIsFirstMatch(items: seq<TreeItem>, target: string) returns (a: Place)
    ensures PathFrom(items, target).None? ==> Absent(items, target)
    ensures PathFrom(items, target).Some? ==>
              FirstMatch(items, target, a) && PathFrom(items, target).value == IdsAlong(items, a)
    decreases items, 1
  {
    a := [0];
    if items == [] { return; }
    var head := items[0];
    if head.id == target {
      assert PathBelow(head, target) == Some([]);
      assert IdsAlong(items, a) == [head.id];
      return;
    }
    var below: Place := [];
    if head.Parent? {
      below := PathIsFirstMatch(head.children, target);
      if PathBelow(head, target).Some? {
        a := [0] + below;
        assert a[1..] == below;
        forall b | IsPlace(items, b) && Before(b, a) ensures IdAt(items, b) != target {
          if |b| > 1 { assert IsPlace(head.children, b[1..]) && Before(b[1..], below); }
        }
        return;
      }
    }
    assert PathBelow(head, target).None?;
    NotUnderHead(items, target);
    var rest := PathIsFirstMatch(items[1..], target);
    if PathFrom(items, target).Some? {
      a := Shift(rest);
      UnshiftPlace(items, rest);
      forall b | IsPlace(items, b) && Before(b, a) ensures IdAt(items, b) != target {
        if b[0] > 0 {
          ShiftPlace(items, b);
          UnshiftBefore(b, rest);
        }
      }
    } else {
      forall b | IsPlace(items, b) ensures IdAt(items, b) != target {
        if b[0] > 0 { ShiftPlace(items, b); }
      }
    }
  }

  lemma NotUnderHead(items: seq<TreeItem>, target: string)
    requires items != [] && items[0].id != target
    requires items[0].Parent? ==> Absent(items[0].children, target)
    ensures forall b :: IsPlace(items, b) && b[0] == 0 ==> IdAt(items, b) != target
  {
  }

  /** The ids on the way to the first match in preorder. */
  ghost predicate LeadsDown(items: seq<TreeItem>, target: string, ids: seq<string>) {
    exists a :: FirstMatch(items, target, a) && ids == IdsAlong(items, a)
  }

  /** On an array, without `expandAll` and with a selection: the ids on the way to the first match in preorder,
      and the empty list exactly when no item has the id. */
  lemma SearchResult(items: seq<TreeItem>, selected: string)
    requires selected != ""
    ensures var ids := ExpandedIds(Forest(items), Some(selected), false);
            && (ids == [] <==> Absent(items, selected))
            && (ids != [] ==> LeadsDown(items, selected, ids))
  {
    var a := PathIsFirstMatch(items, selected);
    if PathFrom(items, selected).Some? { assert IsPlace(items, a) && IdAt(items, a) == selected; }
  }

  /** On a single item the list leaves out the root: it is the path below the root, so it is empty
      when the root itself is selected as well as when the id does not occur. */
  lemma SearchBelowSingle(item: TreeItem, selected: string)
    requires selected != ""
    ensures var ids := ExpandedIds(Single(item), Some(selected), false);
            && (ids == [] <==> item.id == selected || Absent([item], selected))
            && (!Absent([item], selected) ==> LeadsDown([item], selected, [item.id] + ids))
  {
    var a := PathIsFirstMatch([item], selected);
    assert [item][1..] == [];
    if PathBelow(item, selected).Some? {
      assert IsPlace([item], a) && IdAt([item], a) == selected;
      if item.id != selected {
        var b := PathIsFirstMatch(item.children, selected);
      }
    }
  }

  // --- Expanding everything -----------------------------------------------------

  ghost predicate InOrder(places: seq<Place>) {
    forall i, j :: 0 <= i < j < |places| ==> Before(places[i], places[j])
  }

  lemma JoinInOrder(head: seq<Place>, moved: seq<Place>)
    requires InOrder(head) && InOrder(moved)
    requires forall k :: 0 <= k < |head| ==> head[k] != [] && head[k][0] == 0
    requires forall k :: 0 <= k < |moved| ==> moved[k] != [] && moved[k][0] > 0
    ensures InOrder(head + moved)
  {
    var places := head + moved;
    forall i, j | 0 <= i < j < |places| ensures Before(places[i], places[j]) {
      if i >= |head| { assert places[i] == moved[i - |head|] && places[j] == moved[j - |head|]; }
    }
  }

  /** `places` are all places of the forest, once each, in preorder. */
  ghost predicate AllInOrder(items: seq<TreeItem>, places: seq<Place>) {
    && (forall k :: 0 <= k < |places| ==> IsPlace(items, places[k]))
    && InOrder(places)
    && (forall a :: IsPlace(items, a) ==> a in places)
  }

  function Under(k: nat, places: seq<Place>): seq<Place> {
    seq(|places|, i requires 0 <= i < |places| => [k] + places[i])
  }

  function Shifted(places: seq<Place>): seq<Place>
    requires forall a :: a in places ==> a != []
  {
    seq(|places|, i requires 0 <= i < |places| => assert places[i] in places; Shift(places[i]))
  }

  /** The places below the first item, as places of the whole array. */
  lemma UnderPlaces(items: seq<TreeItem>, below: seq<Place>) returns (moved: seq<Place>)
    requires items != [] && items[0].Parent? && AllInOrder(items[0].children, below)
    ensures |moved| == |below| && InOrder(moved)
    ensures forall k :: 0 <= k < |below| ==>
              IsPlace(items, moved[k]) && moved[k][0] == 0 && |moved[k]| > 1 &&
                  IdAt(items, moved[k]) == IdAt(items[0].children, below[k])
    ensures forall a :: IsPlace(items, a) && a[0] == 0 && |a| > 1 ==> a in moved
  {
    moved := Under(0, below);
    forall k | 0 <= k < |below| ensures moved[k] == [0] + below[k] && moved[k][1..] == below[k] {}
    forall i, j | 0 <= i < j < |moved| ensures Before(moved[i], moved[j]) {
      assert Before(below[i], below[j]) && moved[i][1..] == below[i] && moved[j][1..] == below[j];
    }
    forall a | IsPlace(items, a) && a[0] == 0 && |a| > 1 ensures a in moved {
      assert a[1..] in below;
      var k :| 0 <= k < |below| && below[k] == a[1..];
      assert a == [0] + a[1..] && moved[k] == a;
    }
  }

  lemma RootFirst(moved: seq<Place>)
    requires InOrder(moved) && forall k :: 0 <= k < |moved| ==> |moved[k]| > 1 && moved[k][0] == 0
    ensures InOrder([[0]] + moved)
  {
    var places := [[0]] + moved;
    forall i, j | 0 <= i < j < |places| ensures Before(places[i], places[j]) {
      assert places[j] == moved[j - 1];
      if i > 0 { assert places[i] == moved[i - 1]; }
    }
  }

  /** The root of the first item, then the places below it. */
  lemma RootAndUnder(items: seq<TreeItem>, moved: seq<Place>, ids: seq<string>)
    requires items != [] && InOrder(moved) && |moved| == |ids|
    requires forall k :: 0 <= k < |moved| ==>
              IsPlace(items, moved[k]) && moved[k][0] == 0 && |moved[k]| > 1 && IdAt(items, moved[k]) == ids[k]
    requires forall a :: IsPlace(items, a) && a[0] == 0 && |a| > 1 ==> a in moved
    ensures HeadInOrder(items, [[0]] + moved, [items[0].id] + ids)
  {
    RootFirst(moved);
    var places := [[0]] + moved;
    assert IsPlace(items, [0]) && IdAt(items, [0]) == items[0].id;
    forall k | 0 <= k < |places|
      ensures IsPlace(items, places[k]) && places[k][0] == 0 && IdAt(items, places[k]) == ([items[0].id] + ids)[k]
    {
      if k > 0 { assert places[k] == moved[k - 1]; }
    }
    forall a | IsPlace(items, a) && a[0] == 0 ensures a in places {
      if |a| == 1 { assert a == [0] && places[0] == [0]; } else { assert a in moved; }
    }
  }

  /** `places` are the places in the first item's subtree, in preorder, with their ids. */
  ghost predicate HeadInOrder(items: seq<TreeItem>, places: seq<Place>, ids: seq<string>) {
    && |places| == |ids| && InOrder(places)
    && (forall k :: 0 <= k < |places| ==>
          IsPlace(items, places[k]) && places[k][0] == 0 && IdAt(items, places[k]) == ids[k])
    && (forall a :: IsPlace(items, a) && a[0] == 0 ==> a in places)
  }

  lemma {:induction false} HeadPlaces(items: seq<TreeItem>) returns (places: seq<Place>)
    requires items != []
    ensures HeadInOrder(items, places, [items[0].id] + PreorderBelow(items[0]))
    decreases items, 0
  {
    var moved: seq<Place> := [];
    if items[0].Parent? {
      var below := PreorderOrder(items[0].children);
      moved := UnderPlaces(items, below);
    }
    places := [[0]] + moved;
    RootAndUnder(items, moved, PreorderBelow(items[0]));
  }

  /** The places of the tail, as places of the whole array. */
  lemma TailPlaces(items: seq<TreeItem>, rest: seq<Place>) returns (moved: seq<Place>)
    requires items != [] && AllInOrder(items[1..], rest)
    ensures |moved| == |rest|
    ensures forall k :: 0 <= k < |rest| ==>
              IsPlace(items, moved[k]) && moved[k][0] > 0 && IdAt(items, moved[k]) == IdAt(items[1..], rest[k])
    ensures InOrder(moved)
    ensures forall a :: IsPlace(items, a) && a[0] > 0 ==> a in moved
  {
    forall a | a in rest ensures a != [] {}
    moved := Shifted(rest);
    forall k | 0 <= k < |rest|
      ensures IsPlace(items, moved[k]) && moved[k][0] > 0 && IdAt(items, moved[k]) == IdAt(items[1..], rest[k])
    {
      UnshiftPlace(items, rest[k]);
    }
    forall i, j | 0 <= i < j < |moved| ensures Before(moved[i], moved[j]) {
      assert Before(rest[i], rest[j]) && moved[i][1..] == rest[i][1..] && moved[j][1..] == rest[j][1..];
    }
    forall a | IsPlace(items, a) && a[0] > 0 ensures a in moved {
      ShiftPlace(items, a);
      var k :| 0 <= k < |rest| && rest[k] == Unshift(a);
      assert moved[k] == a;
    }
  }

  lemma HeadAndTail(items: seq<TreeItem>, head: seq<Place>, headIds: seq<string>, moved: seq<Place>,
                    tailIds: seq<string>)
    requires HeadInOrder(items, head, headIds)
    requires InOrder(moved) && |moved| == |tailIds|
    requires forall k :: 0 <= k < |moved| ==>
               IsPlace(items, moved[k]) && moved[k][0] > 0 && IdAt(items, moved[k]) == tailIds[k]
    requires forall a :: IsPlace(items, a) && a[0] > 0 ==> a in moved
    ensures AllInOrder(items, head + moved)
    ensures forall k :: 0 <= k < |head + moved| ==> IdAt(items, (head + moved)[k]) == (headIds + tailIds)[k]
  {
    var places := head + moved;
    JoinInOrder(head, moved);
    forall k | 0 <= k < |places| ensures IsPlace(items, places[k]) && IdAt(items, places[k]) == (headIds + tailIds)[k] {
      if k >= |head| { assert places[k] == moved[k - |head|]; } else { assert places[k] == head[k]; }
    }
    forall a | IsPlace(items, a) ensures a in places { assert a in head || a in moved; }
  }

  /** `expandAll` lists the id of every place exactly once, in preorder. */
  lemma {:induction false} PreorderOrder(items: seq<TreeItem>) returns (places: seq<Place>)
    ensures AllInOrder(items, places) && |places| == |Preorder(items)|
    ensures forall k :: 0 <= k < |places| ==> IdAt(items, places[k]) == Preorder(items)[k]
    decreases items, 1
  {
    if items == [] { return []; }
    var head := HeadPlaces(items);
    var rest := PreorderOrder(items[1..]);
    var moved := TailPlaces(items, rest);
    HeadAndTail(items, head, [items[0].id] + PreorderBelow(items[0]), moved, Preorder(items[1..]));
    places := head + moved;
  }

  /** `ids` are the ids of all places of the forest, in preorder. */
  ghost predicate NamesAll(items: seq<TreeItem>, ids: seq<string>) {
    exists places :: AllInOrder(items, places) && |places| == |ids|
                     && forall k :: 0 <= k < |places| ==> IdAt(items, places[k]) == ids[k]
  }

  /** With `expandAll` the list names every item of the forest in preorder if something is selected, and is empty
      otherwise. */
  lemma ExpandAllResult(items: seq<TreeItem>, selected: Option<string>)
    ensures var ids := ExpandedIds(Forest(items), selected, true);
            && (selected.None? || selected.value == "" ==> ids == [])
            && (selected.Some? && selected.value != "" ==> NamesAll(items, ids))
  {
    var places := PreorderOrder(items);
  }

  /** On a single item it names, in preorder, every place below the root. */
  lemma ExpandAllBelowSingle(item: TreeItem, selected: Option<string>)
    ensures var ids := ExpandedIds(Single(item), selected, true);
            && (selected.None? || selected.value == "" ==> ids == [])
            && (selected.Some? && selected.value != "" ==> NamesAll([item], [item.id] + ids))
  {
    var places := PreorderOrder([item]);
    assert Preorder([item]) == [item.id] + PreorderBelow(item);
  }
}
