/**
 * The layer list of the vectors panel: which map layers are listed, how each is classified
 * as a point, polygon or line layer, and how reordering the list renumbers z-indices.
 */
module LayerList {
  import opened Wrappers
  import JsText

  /** A map layer as the list sees it; the three flags persist on the layer between renders. */
  datatype MapLayer = MapLayer(
    kind: string,                 // `layer.type`
    name: Option<string>,
    geometry: Option<string>,     // `layer.geometry`
    geometryType: Option<string>, // what the layer reports through `getGeometryType()`
    legend: Option<string>,
    isVisible: bool,
    visible: bool,
    point: bool, polygon: bool, line: bool,
    zIndex: int)

  const LISTED_TYPES: seq<string> := ["kml", "geojson", "wfs", "vector"]
  const HIDDEN_NAMES: seq<string> := ["selectLayer", "__draw__", "Resultado búsquedas"]

  /** `M.utils.isNullOrEmpty` on an optional string. */
  predicate IsNullOrEmpty(s: Option<string>)
  {
    s.None? || s.value == ""
  }

  /** A layer of a vector type with a name that is not one of the control's own layers. */
  predicate Eligible(l: MapLayer)
  {
    JsText.ToLower(l.kind) in LISTED_TYPES && l.name.Some? && l.name.value !in HIDDEN_NAMES
  }

  /** The `filter` over the map's layers. */
  function Eligibles(ls: seq<MapLayer>): (r: seq<MapLayer>)
    ensures |r| <= |ls|
    ensures forall l :: l in r <==> l in ls && Eligible(l)
  {
    if |ls| == 0 then []
    else (if Eligible(ls[0]) then [ls[0]] else []) + Eligibles(ls[1..])
  }

  /** The filter keeps the map's order: filtering a concatenation concatenates the filtered parts. */
  lemma {:induction false} EligiblesAppend(a: seq<MapLayer>, b: seq<MapLayer>)
    ensures Eligibles(a + b) == Eligibles(a) + Eligibles(b)
  {
    if |a| > 0 {
      assert (a + b)[0] == a[0];
      assert (a + b)[1..] == a[1..] + b;
      EligiblesAppend(a[1..], b);
    } else {
      assert a + b == b;
    }
  }

  /** The geometry a layer is classified by: its own field, else what it reports. */
  function GeometryOf(l: MapLayer): Option<string>
  {
    if !IsNullOrEmpty(l.geometry) then l.geometry else l.geometryType
  }

  /** The geometry is present and its lower-cased text contains the word. */
  predicate Mentions(geometry: Option<string>, word: string)
  {
    !IsNullOrEmpty(geometry) && JsText.Contains(JsText.ToLower(geometry.value), word)
  }

  /**
   * The first of "point", "polygon", "line" found in the lower-cased geometry sets its flag
   * (tested in that order); flags already set stay set and nothing else changes.
   */
  function Classified(l: MapLayer): (r: MapLayer)
    ensures var g := GeometryOf(l);
      && r.point == (l.point || Mentions(g, "point"))
      && r.polygon == (l.polygon || (!Mentions(g, "point") && Mentions(g, "polygon")))
      && r.line == (l.line || (!Mentions(g, "point") && !Mentions(g, "polygon") && Mentions(g, "line")))
    ensures r == l.(point := r.point, polygon := r.polygon, line := r.line)
  {
    var g := GeometryOf(l);
    if Mentions(g, "point") then l.(point := true)
    else if Mentions(g, "polygon") then l.(polygon := true)
    else if Mentions(g, "line") then l.(line := true)
    else l
  }

  /** The KML layer of map attributions is never listed. */
  predicate IsAttributions(l: MapLayer)
    requires l.name.Some?
  {
    JsText.ToLower(l.kind) == "kml" && JsText.ToLower(l.name.value) == "attributions"
  }

  /** The entry an eligible layer contributes, if any: classified, legend defaulted to its name. */
  function Entry(l: MapLayer): (r: Option<MapLayer>)
    requires Eligible(l)
    ensures r.Some? <==> !IsAttributions(l) && var c := Classified(l); c.point || c.polygon || c.line
    ensures r.Some? ==> r.value.kind == l.kind && r.value.name == l.name && r.value.zIndex == l.zIndex
    ensures r.Some? ==> (r.value.point || r.value.polygon || r.value.line)
    ensures r.Some? ==> r.value.legend == (if l.legend.None? then l.name else l.legend) && r.value.visible == l.isVisible
    ensures r.Some? ==> r.value == Classified(l).(legend := (if l.legend.None? then l.name else l.legend), visible := l.isVisible)
  {
    if IsAttributions(l) then None
    else
      var c := Classified(l);
      if c.point || c.polygon || c.line then
        Some(c.(legend := if c.legend.None? then c.name else c.legend, visible := c.isVisible))
      else None
  }

  /** The list the panel shows, in map order. */
  function Entries(ls: seq<MapLayer>): (r: seq<MapLayer>)
    requires forall l :: l in ls ==> Eligible(l)
    ensures |r| <= |ls|
    ensures forall e :: e in r ==> exists l :: l in ls && Entry(l) == Some(e)
  {
    if |ls| == 0 then []
    else Entries(ls[..|ls| - 1]) + (match Entry(ls[|ls| - 1]) case Some(e) => [e] case None => [])
  }

  /** `renderLayers` up to the template: the filter, then the `forEach` that pushes each entry. */
  method RenderLayers(mapLayers: seq<MapLayer>) returns (layers: seq<MapLayer>)
    ensures layers == Entries(Eligibles(mapLayers))
  {
    var filtered := Eligibles(mapLayers);
    layers := [];
    for i := 0 to |filtered|
      invariant layers == Entries(filtered[..i])
    {
      assert filtered[..i + 1][..i] == filtered[..i];
      var entry := Entry(filtered[i]);
      if entry.Some? {
        layers := layers + [entry.value];
      }
    }
    assert filtered[..|filtered|] == filtered;
  }

  /** The list of two runs of layers is the list of the first followed by that of the second. */
  lemma {:induction false} EntriesAppend(a: seq<MapLayer>, b: seq<MapLayer>)
    requires forall l :: l in a + b ==> Eligible(l)
    ensures Entries(a + b) == Entries(a) + Entries(b)
  {
    if |b| == 0 {
      assert a + b == a;
    } else {
      var init := b[..|b| - 1];
      assert (a + b)[..|a + b| - 1] == a + init;
      assert (a + b)[|a + b| - 1] == b[|b| - 1];
      assert forall l :: l in a + init ==> l in a + b;
      EntriesAppend(a, init);
    }
  }

  /** Every eligible layer that has an entry is listed. */
  lemma {:induction false} EntriesComplete(ls: seq<MapLayer>)
    requires forall l :: l in ls ==> Eligible(l)
    ensures forall l :: l in ls && Entry(l).Some? ==> Entry(l).value in Entries(ls)
  {
    if |ls| > 0 {
      var init := ls[..|ls| - 1];
      assert forall l :: l in init ==> l in ls;
      EntriesComplete(init);
      forall l | l in ls && Entry(l).Some?
        ensures Entry(l).value in Entries(ls)
      {
        if l in init {
          assert Entry(l).value in Entries(init);
        } else {
          assert ls == init + [ls[|ls| - 1]];
          assert l == ls[|ls| - 1];
        }
      }
    }
  }

  /** Every listed layer is eligible, is a point, polygon or line layer and has a legend. */
  lemma {:induction false} EntriesShown(ls: seq<MapLayer>)
    requires forall l :: l in ls ==> Eligible(l)
    ensures forall e :: e in Entries(ls) ==>
              Eligible(e) && (e.point || e.polygon || e.line) && e.legend.Some? && !IsAttributions(e)
  {
    if |ls| > 0 {
      var init := ls[..|ls| - 1];
      assert forall l :: l in init ==> l in ls;
      EntriesShown(init);
      var last := ls[|ls| - 1];
      assert Entries(ls) == Entries(init) + (match Entry(last) case Some(e) => [e] case None => []);
      match Entry(last)
      case None =>
      case Some(e) =>
        assert Eligible(e) && !IsAttributions(e);
    }
  }

  /** A layer named "selectLayer", the control's selection layer, never appears in the list. */
  lemma SelectionLayerNeverListed(mapLayers: seq<MapLayer>)
    ensures forall e :: e in Entries(Eligibles(mapLayers)) ==> e.name != Some("selectLayer")
  {
    EntriesShown(Eligibles(mapLayers));
  }

  /** The index of the first layer with a name, or -1. */
  function FirstNamed(ls: seq<MapLayer>, name: string): (k: int)
    ensures -1 <= k < |ls|
    ensures k >= 0 ==> ls[k].name == Some(name) && forall j :: 0 <= j < k ==> ls[j].name != Some(name)
    ensures k < 0 ==> forall j :: 0 <= j < |ls| ==> ls[j].name != Some(name)
  {
    if |ls| == 0 then -1
    else if ls[0].name == Some(name) then 0
    else var k := FirstNamed(ls[1..], name); if k < 0 then -1 else k + 1
  }

  /** The largest z-index of a non-empty list. */
  function MaxZIndex(ls: seq<MapLayer>): (z: int)
    requires |ls| > 0
    ensures forall l :: l in ls ==> l.zIndex <= z
    ensures exists l :: l in ls && l.zIndex == z
  {
    if |ls| == 1 then ls[0].zIndex
    else
      var rest := MaxZIndex(ls[1..]);
      assert ls[0] in ls;
      if ls[0].zIndex >= rest then ls[0].zIndex else rest
  }

  /**
   * The z-indices after a reorder: walking the list items in their new order, the first
   * layer with each item's name gets `top`, and `top` goes down by one for each item found.
   */
  function Renumbered(ls: seq<MapLayer>, order: seq<string>, top: int): (r: seq<MapLayer>)
    ensures |r| == |ls|
    ensures forall m :: 0 <= m < |ls| ==> r[m].name == ls[m].name
    decreases |order|
  {
    if |order| == 0 then ls
    else
      var k := FirstNamed(ls, order[0]);
      if k < 0 then Renumbered(ls, order[1..], top)
      else Renumbered(ls[k := ls[k].(zIndex := top)], order[1..], top - 1)
  }

  /** The `onEnd` handler of the sortable list, over the listed layers. */
  method Reorder(layers: seq<MapLayer>, order: seq<string>) returns (r: seq<MapLayer>)
    requires |layers| > 0
    ensures r == Renumbered(layers, order, MaxZIndex(layers))
  {
    var maxZIndex := MaxZIndex(layers);
    r := layers;
    for i := 0 to |order|
      invariant Renumbered(r, order[i..], maxZIndex) == Renumbered(layers, order, MaxZIndex(layers))
    {
      var k := FirstNamed(r, order[i]);
      assert order[i..][1..] == order[i + 1..];
      if k >= 0 {
        r := r[k := r[k].(zIndex := maxZIndex)];
        maxZIndex := maxZIndex - 1;
      }
    }
    assert order[|order|..] == [];
  }

  /** Setting z-indices keeps every name, hence every first-named index. */
  lemma {:induction false} SameNamesSameFirst(a: seq<MapLayer>, b: seq<MapLayer>, name: string)
    requires |a| == |b| && forall m :: 0 <= m < |a| ==> a[m].name == b[m].name
    ensures FirstNamed(a, name) == FirstNamed(b, name)
  {
    if |a| > 0 {
      SameNamesSameFirst(a[1..], b[1..], name);
    }
  }

  /** A layer whose name is not in the order keeps its z-index. */
  lemma {:induction false} RenumberedUntouched(ls: seq<MapLayer>, order: seq<string>, top: int, m: int)
    requires 0 <= m < |ls| && forall i :: 0 <= i < |order| ==> ls[m].name != Some(order[i])
    ensures Renumbered(ls, order, top)[m] == ls[m]
    decreases |order|
  {
    if |order| > 0 {
      var k := FirstNamed(ls, order[0]);
      if k < 0 {
        RenumberedUntouched(ls, order[1..], top, m);
      } else {
        RenumberedUntouched(ls[k := ls[k].(zIndex := top)], order[1..], top - 1, m);
      }
    }
  }

  /**
   * When the list items name distinct layers that all exist, the layer named by the i-th
   * item ends with z-index `top - i`: the list's order from top to bottom is the stacking order.
   */
  lemma {:induction false} RenumberedCountsDown(ls: seq<MapLayer>, order: seq<string>, top: int)
    requires forall i, j :: 0 <= i < j < |order| ==> order[i] != order[j]
    requires forall i :: 0 <= i < |order| ==> FirstNamed(ls, order[i]) >= 0
    ensures forall i :: 0 <= i < |order| ==> Renumbered(ls, order, top)[FirstNamed(ls, order[i])].zIndex == top - i
    decreases |order|
  {
    if |order| > 0 {
      var k := FirstNamed(ls, order[0]);
      var next := ls[k := ls[k].(zIndex := top)];
      var rest := order[1..];
      var r := Renumbered(next, rest, top - 1);
      assert Renumbered(ls, order, top) == r;
      forall i | 0 <= i < |rest|
        ensures rest[i] == order[i + 1] && FirstNamed(next, rest[i]) == FirstNamed(ls, order[i + 1])
      {
        SameNamesSameFirst(ls, next, rest[i]);
      }
      RenumberedCountsDown(next, rest, top - 1);
      FirstGetsTop(ls, order, top);
      forall i | 0 < i < |order|
        ensures r[FirstNamed(ls, order[i])].zIndex == top - i
      {
        assert FirstNamed(next, rest[i - 1]) == FirstNamed(ls, order[i]);
      }
    }
  }

  /** The first item's layer gets `top` and keeps it, since no later item names it. */
  lemma FirstGetsTop(ls: seq<MapLayer>, order: seq<string>, top: int)
    requires |order| > 0 && FirstNamed(ls, order[0]) >= 0
    requires forall j :: 0 < j < |order| ==> order[0] != order[j]
    ensures Renumbered(ls, order, top)[FirstNamed(ls, order[0])].zIndex == top
  {
    var k := FirstNamed(ls, order[0]);
    var next := ls[k := ls[k].(zIndex := top)];
    var rest := order[1..];
    forall j | 0 <= j < |rest|
      ensures next[k].name != Some(rest[j])
    {
      assert rest[j] == order[j + 1];
    }
    RenumberedUntouched(next, rest, top - 1, k);
  }

  /** The first item of the reordered list gets the largest z-index the layers had. */
  lemma ReorderTopGetsMax(layers: seq<MapLayer>, order: seq<string>)
    requires |layers| > 0
    requires forall i, j :: 0 <= i < j < |order| ==> order[i] != order[j]
    requires forall i :: 0 <= i < |order| ==> FirstNamed(layers, order[i]) >= 0
    ensures forall i :: 0 <= i < |order| ==>
              Renumbered(layers, order, MaxZIndex(layers))[FirstNamed(layers, order[i])].zIndex == MaxZIndex(layers) - i
  {
    RenumberedCountsDown(layers, order, MaxZIndex(layers));
  }
}
