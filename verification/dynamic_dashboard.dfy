/**
 * The customisable dashboard: the widget list and the per-breakpoint grid
 * layouts, with the operations that add, remove and retitle widgets and
 * restore the defaults. Grid compaction, dragging and chart drawing belong
 * to the rendering libraries and are not part of this model.
 */
module DynamicDashboard {

  import opened Common
  import opened Text

  /** A grid item `{ i, x, y, w, h, type }`. */
  datatype Item = Item(i: string, x: nat, y: nat, w: nat, h: nat, kind: string)

  /** The layouts by breakpoint name (`lg`, `md`, `sm`, or whatever was saved). */
  type Layouts = map<string, seq<Item>>

  /** A widget `{ id, type, title, data }`; `hasSample` says whether `data` is a sample series or `[]`. */
  datatype Widget = Widget(id: string, kind: string, title: string, hasSample: bool)

  /** The dashboard state: the widget list and the layouts. */
  datatype Board = Board(widgets: seq<Widget>, layouts: Layouts)

  const DefaultLg: seq<Item> := [
    Item("stats-1", 0, 0, 4, 2, "stats"),
    Item("bar-1", 4, 0, 8, 4, "bar"),
    Item("pie-1", 0, 2, 4, 4, "pie"),
    Item("line-1", 0, 6, 6, 4, "line"),
    Item("table-1", 6, 6, 6, 4, "table")]

  const DefaultMd: seq<Item> := [
    Item("stats-1", 0, 0, 4, 2, "stats"),
    Item("bar-1", 4, 0, 4, 4, "bar"),
    Item("pie-1", 0, 2, 4, 4, "pie"),
    Item("line-1", 0, 6, 4, 4, "line"),
    Item("table-1", 4, 4, 4, 4, "table")]

  const DefaultSm: seq<Item> := [
    Item("stats-1", 0, 0, 6, 2, "stats"),
    Item("bar-1", 0, 2, 6, 4, "bar"),
    Item("pie-1", 0, 6, 6, 4, "pie"),
    Item("line-1", 0, 10, 6, 4, "line"),
    Item("table-1", 0, 14, 6, 4, "table")]

  const DefaultLayouts: Layouts := map["lg" := DefaultLg, "md" := DefaultMd, "sm" := DefaultSm]

  /** `defaultWidgetTitles[id]`. */
  function DefaultTitle(id: string): Option<string> {
    if id == "stats-1" then Some("Statistik Kehadiran")
    else if id == "bar-1" then Some("Kehadiran Bulanan")
    else if id == "pie-1" then Some("Distribusi Kehadiran")
    else if id == "line-1" then Some("Tren Kehadiran")
    else if id == "table-1" then Some("Data Kehadiran Terkini")
    else None
  }

  /** The widget types with a sample series. */
  predicate HasSample(kind: string) {
    kind in {"bar", "line", "pie", "stats", "table"}
  }

  /** `defaultWidgetTitles[item.i] || \`Widget ${item.i}\``. */
  function TitleOf(id: string): (t: string)
    ensures DefaultTitle(id).Some? ==> t == DefaultTitle(id).value
    ensures DefaultTitle(id).None? ==> t == "Widget " + id
  {
    match DefaultTitle(id)
    case Some(t) => t
    case None => "Widget " + id
  }

  /**
   * The widget a grid item stands for: the item's id and type, the default
   * title of that id or "Widget " and the id, and a sample series exactly for
   * the five chart types.
   */
  function WidgetOf(item: Item): (w: Widget)
    ensures w.id == item.i && w.kind == item.kind
    ensures DefaultTitle(item.i).Some? ==> w.title == DefaultTitle(item.i).value
    ensures DefaultTitle(item.i).None? ==> w.title == "Widget " + item.i
    ensures w.hasSample <==> item.kind in {"bar", "line", "pie", "stats", "table"}
  {
    Widget(item.i, item.kind, TitleOf(item.i), HasSample(item.kind))
  }

  /** `Object.values(lg).map(...)`: one widget per `lg` item, in order. */
  function WidgetsOf(lg: seq<Item>): (ws: seq<Widget>)
    ensures |ws| == |lg|
    ensures forall k :: 0 <= k < |lg| ==> ws[k] == WidgetOf(lg[k])
  {
    seq(|lg|, k requires 0 <= k < |lg| => WidgetOf(lg[k]))
  }

  /** `layouts.lg || {}`. */
  function LgOf(layouts: Layouts): seq<Item> {
    if "lg" in layouts then layouts["lg"] else []
  }

  /** The state on mount: the saved layouts if any, else the defaults, and widgets from their `lg` items. */
  function InitialBoard(saved: Option<Layouts>): (b: Board)
    ensures saved.None? ==> b.layouts == DefaultLayouts
    ensures saved.Some? ==> b.layouts == saved.value
    ensures |b.widgets| == |LgOf(b.layouts)|
  {
    var layouts := saved.GetOr(DefaultLayouts);
    Board(WidgetsOf(LgOf(layouts)), layouts)
  }

  /** Widgets and `lg` items correspond one to one, in order, by id and type. */
  lemma InitialMatchesLg(saved: Option<Layouts>, k: nat)
    requires k < |LgOf(InitialBoard(saved).layouts)|
    ensures var b := InitialBoard(saved);
      b.widgets[k].id == LgOf(b.layouts)[k].i && b.widgets[k].kind == LgOf(b.layouts)[k].kind
  {
  }

  // ---------------------------------------------------------------------------
  // addWidget
  // ---------------------------------------------------------------------------

  /** `type.charAt(0).toUpperCase() + type.slice(1)`. */
  function Capitalise(s: string): (r: string)
    ensures |r| == |s|
    ensures |s| > 0 ==> r[0] == UpperChar(s[0]) && r[1..] == s[1..]
  {
    if |s| == 0 then "" else [UpperChar(s[0])] + s[1..]
  }

  /** The bottom edge of the lowest item: the largest `y + h`, or 0 for no items. */
  function Bottom(items: seq<Item>): (b: nat)
    ensures forall k :: 0 <= k < |items| ==> items[k].y + items[k].h <= b
    ensures |items| == 0 ==> b == 0
    ensures |items| > 0 ==> exists k :: 0 <= k < |items| && items[k].y + items[k].h == b
  {
    if |items| == 0 then 0
    else
      var rest := Bottom(items[1..]);
      var top := items[0].y + items[0].h;
      if |items| > 1 && rest > top then
        assert forall k :: 0 < k < |items| ==> items[k] == items[1..][k - 1];
        rest
      else
        top
  }

  /**
   * The item `addWidget` appends to one breakpoint: at the left edge, six
   * columns wide, two rows high for stats and four otherwise, and placed
   * exactly at the lowest bottom edge of the existing items (0 for none).
   */
  function NewItem(items: seq<Item>, id: string, kind: string): (x: Item)
    ensures x.i == id && x.kind == kind && x.x == 0 && x.w == 6 && x.h == (if kind == "stats" then 2 else 4)
    ensures forall k :: 0 <= k < |items| ==> items[k].y + items[k].h <= x.y
    ensures |items| == 0 ==> x.y == 0
    ensures |items| > 0 ==> exists k :: 0 <= k < |items| && items[k].y + items[k].h == x.y
  {
    Item(id, 0, Bottom(items), 6, if kind == "stats" then 2 else 4, kind)
  }

  /** `\`${type}-${Date.now()}\``, with the clock reading as a parameter. */
  function NewId(kind: string, stamp: string): string {
    kind + "-" + stamp
  }

  function AddWidget(b: Board, kind: string, stamp: string): (b': Board)
    ensures b'.layouts.Keys == b.layouts.Keys
    ensures b'.widgets == b.widgets + [Widget(NewId(kind, stamp), kind, "New " + Capitalise(kind) + " Chart", HasSample(kind))]
    ensures forall bp :: bp in b.layouts ==> b'.layouts[bp] == b.layouts[bp] + [NewItem(b.layouts[bp], NewId(kind, stamp), kind)]
  {
    var id := NewId(kind, stamp);
    var w := Widget(id, kind, "New " + Capitalise(kind) + " Chart", HasSample(kind));
    Board(b.widgets + [w], AppendEverywhere(b.layouts, id, kind))
  }

  /** The layouts with the new item appended to every breakpoint. */
  function AppendEverywhere(layouts: Layouts, id: string, kind: string): (r: Layouts)
    ensures r.Keys == layouts.Keys
  {
    map bp | bp in layouts :: layouts[bp] + [NewItem(layouts[bp], id, kind)]
  }

  /** In every breakpoint the new item starts at the left edge, below every existing item. */
  lemma AddedBelow(b: Board, kind: string, stamp: string, bp: string)
    requires bp in b.layouts
    ensures var items' := AddWidget(b, kind, stamp).layouts[bp];
      var n := |b.layouts[bp]|;
      |items'| == n + 1 && items'[..n] == b.layouts[bp] &&
      items'[n].x == 0 && items'[n].w == 6 && items'[n].h == (if kind == "stats" then 2 else 4) &&
      forall k :: 0 <= k < n ==> items'[k].y + items'[k].h <= items'[n].y
  {
    assert AddWidget(b, kind, stamp).layouts[bp][..|b.layouts[bp]|] == b.layouts[bp];
  }

  /** The added widget's title spells its type with a capital first letter. */
  lemma AddedTitle(b: Board, stamp: string)
    ensures AddWidget(b, "bar", stamp).widgets[|b.widgets|].title == "New Bar Chart"
    ensures AddWidget(b, "stats", stamp).widgets[|b.widgets|].title == "New Stats Chart"
  {
    assert UpperChar('b') == 'B' && UpperChar('s') == 'S';
    assert Capitalise("bar") == "Bar";
    assert Capitalise("stats") == "Stats";
  }

  // ---------------------------------------------------------------------------
  // removeWidget
  // ---------------------------------------------------------------------------

  /**
   * `widgets.filter(widget => widget.id !== id)`: the widgets with other ids,
   * in their original order (each as often as before: `DropWidgetCounts`).
   */
  function DropWidget(ws: seq<Widget>, id: string): (r: seq<Widget>)
    ensures |r| <= |ws|
    ensures forall w :: w in r <==> w in ws && w.id != id
    ensures Subsequence(r, ws)
    decreases |ws|
  {
    if |ws| == 0 then []
    else
      var rest := DropWidget(ws[1..], id);
      assert ws == [ws[0]] + ws[1..];
      if ws[0].id != id then
        assert ([ws[0]] + rest)[1..] == rest;
        [ws[0]] + rest
      else
        SubsequenceDrop(rest, ws);
        rest
  }

  /** `items.filter(item => item.i !== id)`: the items with other ids, in order (multiplicity: `DropItemCounts`). */
  function DropItem(items: seq<Item>, id: string): (r: seq<Item>)
    ensures |r| <= |items|
    ensures forall x :: x in r <==> x in items && x.i != id
    ensures Subsequence(r, items)
    decreases |items|
  {
    if |items| == 0 then []
    else
      var rest := DropItem(items[1..], id);
      assert items == [items[0]] + items[1..];
      if items[0].i != id then
        assert ([items[0]] + rest)[1..] == rest;
        [items[0]] + rest
      else
        SubsequenceDrop(rest, items);
        rest
  }

  /**
   * `removeWidget`: the id leaves the widget list and every breakpoint; what
   * stays keeps its order and multiplicity, and the breakpoints stay the same.
   */
  function RemoveWidget(b: Board, id: string): (b': Board)
    ensures b'.layouts.Keys == b.layouts.Keys
    ensures forall w :: w in b'.widgets <==> w in b.widgets && w.id != id
    ensures Subsequence(b'.widgets, b.widgets)
    ensures forall w :: multiset(b'.widgets)[w] == if w.id != id then multiset(b.widgets)[w] else 0
    ensures forall bp, x :: bp in b.layouts ==> (x in b'.layouts[bp] <==> x in b.layouts[bp] && x.i != id)
    ensures forall bp :: bp in b.layouts ==> Subsequence(b'.layouts[bp], b.layouts[bp])
    ensures forall bp, x :: bp in b.layouts ==>
      multiset(b'.layouts[bp])[x] == if x.i != id then multiset(b.layouts[bp])[x] else 0
  {
    DropWidgetCounts(b.widgets, id);
    forall bp | bp in b.layouts
      ensures forall x :: multiset(DropItem(b.layouts[bp], id))[x] == if x.i != id then multiset(b.layouts[bp])[x] else 0
    {
      DropItemCounts(b.layouts[bp], id);
    }
    Board(DropWidget(b.widgets, id), DropEverywhere(b.layouts, id))
  }

  /** Every widget with another id is kept as often as it occurs; those with the id are gone. */
  lemma {:induction false} DropWidgetCounts(ws: seq<Widget>, id: string)
    ensures forall w :: multiset(DropWidget(ws, id))[w] == if w.id != id then multiset(ws)[w] else 0
    decreases |ws|
  {
    if |ws| > 0 {
      DropWidgetCounts(ws[1..], id);
      DropWidgetFront(ws, id);
      assert ws == [ws[0]] + ws[1..];
    }
  }

  /** Every item with another id is kept as often as it occurs; those with the id are gone. */
  lemma {:induction false} DropItemCounts(items: seq<Item>, id: string)
    ensures forall x :: multiset(DropItem(items, id))[x] == if x.i != id then multiset(items)[x] else 0
    decreases |items|
  {
    if |items| > 0 {
      DropItemCounts(items[1..], id);
      DropItemFront(items, id);
      assert items == [items[0]] + items[1..];
    }
  }

  /** The layouts with the id's items filtered out of every breakpoint. */
  function DropEverywhere(layouts: Layouts, id: string): (r: Layouts)
    ensures r.Keys == layouts.Keys
    ensures forall bp :: bp in layouts ==> r[bp] == DropItem(layouts[bp], id)
  {
    map bp | bp in layouts :: DropItem(layouts[bp], id)
  }

  /** A list with no entry of that id is left as it is. */
  lemma {:induction false} DropWidgetAbsent(ws: seq<Widget>, id: string)
    requires forall k :: 0 <= k < |ws| ==> ws[k].id != id
    ensures DropWidget(ws, id) == ws
    decreases |ws|
  {
    if |ws| > 0 {
      assert forall k :: 0 <= k < |ws[1..]| ==> ws[1..][k] == ws[k + 1];
      DropWidgetAbsent(ws[1..], id);
    }
  }

  lemma {:induction false} DropItemAbsent(items: seq<Item>, id: string)
    requires forall k :: 0 <= k < |items| ==> items[k].i != id
    ensures DropItem(items, id) == items
    decreases |items|
  {
    if |items| > 0 {
      assert forall k :: 0 <= k < |items[1..]| ==> items[1..][k] == items[k + 1];
      DropItemAbsent(items[1..], id);
    }
  }

  /** Removing twice is removing once. */
  lemma RemoveIdempotent(b: Board, id: string)
    ensures RemoveWidget(RemoveWidget(b, id), id) == RemoveWidget(b, id)
  {
    var ws := DropWidget(b.widgets, id);
    DropWidgetAbsent(ws, id);
    DropEverywhereTwice(b.layouts, id);
    assert RemoveWidget(b, id) == Board(ws, DropEverywhere(b.layouts, id));
  }

  /** Dropping an id from every breakpoint twice is dropping it once. */
  lemma DropEverywhereTwice(layouts: Layouts, id: string)
    ensures DropEverywhere(DropEverywhere(layouts, id), id) == DropEverywhere(layouts, id)
  {
    var once := DropEverywhere(layouts, id);
    forall bp | bp in once
      ensures DropItem(once[bp], id) == once[bp]
    {
      DropItemAbsent(once[bp], id);
    }
  }

  /** One step of the filter: the first entry is kept or dropped, then the rest is filtered. */
  lemma DropWidgetFront(ws: seq<Widget>, id: string)
    requires |ws| > 0
    ensures DropWidget(ws, id) == (if ws[0].id != id then [ws[0]] else []) + DropWidget(ws[1..], id)
  {
  }

  /** Dropping from a list with one more widget at its end drops from the list, then keeps or drops that widget. */
  lemma {:induction false} DropWidgetAppend(ws: seq<Widget>, w: Widget, id: string)
    ensures DropWidget(ws + [w], id) == DropWidget(ws, id) + (if w.id != id then [w] else [])
    decreases |ws|
  {
    if |ws| == 0 {
      assert ([w])[1..] == [];
    } else {
      DropWidgetAppend(ws[1..], w, id);
      DropWidgetAppendStep(ws, w, id);
    }
  }

  /** The inductive step of `DropWidgetAppend`, from the claim for the tail. */
  lemma DropWidgetAppendStep(ws: seq<Widget>, w: Widget, id: string)
    requires |ws| > 0
    requires DropWidget(ws[1..] + [w], id) == DropWidget(ws[1..], id) + (if w.id != id then [w] else [])
    ensures DropWidget(ws + [w], id) == DropWidget(ws, id) + (if w.id != id then [w] else [])
  {
    var a, tail := ws + [w], if w.id != id then [w] else [];
    assert a[0] == ws[0] && a[1..] == ws[1..] + [w];
    var head := if ws[0].id != id then [ws[0]] else [];
    DropWidgetFront(a, id);
    DropWidgetFront(ws, id);
    AppendAssoc(head, DropWidget(ws[1..], id), tail);
  }



  /** One step of the filter: the first entry is kept or dropped, then the rest is filtered. */
  lemma DropItemFront(items: seq<Item>, id: string)
    requires |items| > 0
    ensures DropItem(items, id) == (if items[0].i != id then [items[0]] else []) + DropItem(items[1..], id)
  {
  }

  /** The same for the items of one breakpoint. */
  lemma {:induction false} DropItemAppend(items: seq<Item>, x: Item, id: string)
    ensures DropItem(items + [x], id) == DropItem(items, id) + (if x.i != id then [x] else [])
    decreases |items|
  {
    if |items| == 0 {
      assert ([x])[1..] == [];
    } else {
      DropItemAppend(items[1..], x, id);
      DropItemAppendStep(items, x, id);
    }
  }

  /** The inductive step of `DropItemAppend`, from the claim for the tail. */
  lemma DropItemAppendStep(items: seq<Item>, x: Item, id: string)
    requires |items| > 0
    requires DropItem(items[1..] + [x], id) == DropItem(items[1..], id) + (if x.i != id then [x] else [])
    ensures DropItem(items + [x], id) == DropItem(items, id) + (if x.i != id then [x] else [])
  {
    var a, tail := items + [x], if x.i != id then [x] else [];
    assert a[0] == items[0] && a[1..] == items[1..] + [x];
    var head := if items[0].i != id then [items[0]] else [];
    DropItemFront(a, id);
    DropItemFront(items, id);
    AppendAssoc(head, DropItem(items[1..], id), tail);
  }



  /** Removing an item appended under a fresh id gives back the breakpoint's items. */
  lemma DropNewItem(items: seq<Item>, id: string, kind: string)
    requires forall k :: 0 <= k < |items| ==> items[k].i != id
    ensures DropItem(items + [NewItem(items, id, kind)], id) == items
  {
    DropItemAppend(items, NewItem(items, id, kind), id);
    DropItemAbsent(items, id);
  }

  /** A predicate for "no widget and no grid item uses this id yet". */
  predicate Unused(b: Board, id: string) {
    (forall k :: 0 <= k < |b.widgets| ==> b.widgets[k].id != id) &&
    (forall bp, k :: bp in b.layouts && 0 <= k < |b.layouts[bp]| ==> b.layouts[bp][k].i != id)
  }

  lemma RemoveAddedWidget(b: Board, kind: string, stamp: string)
    requires Unused(b, NewId(kind, stamp))
    ensures RemoveWidget(AddWidget(b, kind, stamp), NewId(kind, stamp)).widgets == b.widgets
  {
    var id := NewId(kind, stamp);
    DropWidgetAppend(b.widgets, AddWidget(b, kind, stamp).widgets[|b.widgets|], id);
    DropWidgetAbsent(b.widgets, id);
  }

  lemma RemoveAddedAt(layouts: Layouts, id: string, kind: string, bp: string)
    requires bp in layouts
    requires forall k :: 0 <= k < |layouts[bp]| ==> layouts[bp][k].i != id
    ensures DropEverywhere(AppendEverywhere(layouts, id, kind), id)[bp] == layouts[bp]
  {
    DropNewItem(layouts[bp], id, kind);
  }

  lemma RemoveAddedItems(layouts: Layouts, id: string, kind: string)
    requires forall bp, k :: bp in layouts && 0 <= k < |layouts[bp]| ==> layouts[bp][k].i != id
    ensures DropEverywhere(AppendEverywhere(layouts, id, kind), id) == layouts
  {
    var r := DropEverywhere(AppendEverywhere(layouts, id, kind), id);
    forall bp | bp in layouts
      ensures r[bp] == layouts[bp]
    {
      RemoveAddedAt(layouts, id, kind, bp);
    }
    SameLayouts(r, layouts);
  }

  /** Two layout maps with the same breakpoints and the same items at each are equal. */
  lemma SameLayouts(a: Layouts, b: Layouts)
    requires a.Keys == b.Keys
    requires forall bp :: bp in a ==> a[bp] == b[bp]
    ensures a == b
  {
  }

  /** Removing a freshly added widget by its id gives back the board before the addition. */
  lemma RemoveUndoesAdd(b: Board, kind: string, stamp: string)
    requires Unused(b, NewId(kind, stamp))
    ensures RemoveWidget(AddWidget(b, kind, stamp), NewId(kind, stamp)) == b
  {
    RemoveAddedWidget(b, kind, stamp);
    RemoveAddedItems(b.layouts, NewId(kind, stamp), kind);
  }

  // ---------------------------------------------------------------------------
  // Title edit and reset
  // ---------------------------------------------------------------------------

  /** `widgets.map(w => w.id === editingWidget ? { ...w, title } : w)`. */
  function EditTitle(ws: seq<Widget>, editing: string, title: string): (r: seq<Widget>)
    ensures |r| == |ws|
    ensures forall k :: 0 <= k < |ws| ==> r[k].id == ws[k].id && r[k].kind == ws[k].kind && r[k].hasSample == ws[k].hasSample
    ensures forall k :: 0 <= k < |ws| ==> r[k].title == if ws[k].id == editing then title else ws[k].title
  {
    seq(|ws|, k requires 0 <= k < |ws| => if ws[k].id == editing then ws[k].(title := title) else ws[k])
  }

  /** Only the edited widget changes: every other widget is exactly as before. */
  lemma EditOthersUnchanged(ws: seq<Widget>, editing: string, title: string, k: nat)
    requires k < |ws| && ws[k].id != editing
    ensures EditTitle(ws, editing, title)[k] == ws[k]
  {
  }

  /** Editing twice with the same text is editing once. */
  lemma EditIdempotent(ws: seq<Widget>, editing: string, title: string)
    ensures EditTitle(EditTitle(ws, editing, title), editing, title) == EditTitle(ws, editing, title)
  {
  }

  /** `resetLayout`: the default layouts and widgets from their `lg` items. */
  function ResetLayout(b: Board): (b': Board)
    ensures b'.layouts == DefaultLayouts
    ensures |b'.widgets| == |DefaultLg|
  {
    Board(WidgetsOf(DefaultLayouts["lg"]), DefaultLayouts)
  }

  /** After a reset the board is what a first visit with nothing saved shows. */
  lemma ResetIsFirstVisit(b: Board)
    ensures ResetLayout(b) == InitialBoard(None)
  {
  }

  /** The default widgets carry the five default titles, in layout order. */
  lemma DefaultTitles()
    ensures [ResetLayout(Board([], map[])).widgets[0].title, ResetLayout(Board([], map[])).widgets[4].title] ==
      ["Statistik Kehadiran", "Data Kehadiran Terkini"]
    ensures forall k :: 0 <= k < 5 ==> ResetLayout(Board([], map[])).widgets[k].hasSample
  {
  }
}
