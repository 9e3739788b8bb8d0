/**
 * The interaction-mode state machine of the vectors control: drawing on one layer, editing
 * (selecting) features of one layer, the selected feature and its emphasis in the selection
 * layer, drawing and deleting features, the current stroke option and the chosen file.
 * The map's draw and select interactions are represented by two handle flags.
 */
module Control {
  import opened Wrappers
  import opened GeoJson
  import JsText
  import opened Styles
  import Upload

  /** A feature on the map: its id, geometry and the style set on it. */
  datatype MapFeature = MapFeature(id: Option<string>, geometry: Geometry, style: Option<Style>)

  /** What stands for the selected feature in the selection layer. */
  datatype Shape =
    | CloneOf(feature: MapFeature)       // a copy of a point feature
    | ExtentOf(feature: MapFeature)      // the rectangle around any other feature

  datatype Emphasis = Emphasis(shape: Shape, style: Style)

  const EMPHASIS_COLOR: string := "#FF0000"
  const HALO_STYLE: Style := PointStyle(Number(Num(20.0)), None, Stroke(EMPHASIS_COLOR, Number(Num(2.0)), None))
  const FRAME_STYLE: Style := LineStyle(Stroke(EMPHASIS_COLOR, Number(Num(2.0)), None))

  /** The emphasis for a selected feature: a red halo for points, a red extent frame otherwise. */
  function EmphasisFor(f: MapFeature, geometry: Option<string>): (e: Emphasis)
    ensures e.shape.feature == f
    ensures e.shape.CloneOf? <==> geometry == Some("Point") || geometry == Some("MultiPoint")
    ensures e.style == if e.shape.CloneOf? then HALO_STYLE else FRAME_STYLE
  {
    if geometry == Some("Point") || geometry == Some("MultiPoint") then Emphasis(CloneOf(f), HALO_STYLE)
    else Emphasis(ExtentOf(f), FRAME_STYLE)
  }

  /** A vector layer: its name and the features it holds. */
  class Layer {
    const name: string
    var features: seq<MapFeature>

    constructor(name: string, features: seq<MapFeature>)
      ensures this.name == name && this.features == features
    {
      this.name := name;
      this.features := features;
    }
  }

  /** The interaction mode, by layer name. */
  datatype Mode = Idle | Drawing(layer: string) | Editing(layer: string)

  /** The "draw" action on a layer: off when it is the layer being drawn on, else draw there. */
  function DrawToggle(m: Mode, name: string): (r: Mode)
    ensures r == Idle <==> m == Drawing(name)
    ensures r != Idle ==> r == Drawing(name)
  {
    if m == Drawing(name) then Idle else Drawing(name)
  }

  /**
   * The "edit" action on a layer: off when it is the layer being edited; otherwise edit
   * there if it has features; on a featureless layer, editing another layer goes on and
   * anything else ends idle (drawing has already been cancelled).
   */
  function EditToggle(m: Mode, name: string, hasFeatures: bool): (r: Mode)
    ensures m == Editing(name) ==> r == Idle
    ensures r == Editing(name) <==> m != Editing(name) && hasFeatures
    ensures r.Drawing? ==> false
    ensures !hasFeatures && m != Editing(name) ==> r == if m.Editing? then m else Idle
  {
    if m == Editing(name) then Idle
    else if hasFeatures then Editing(name)
    else if m.Editing? then m
    else Idle
  }

  /** Pressing the same mode button twice from a mode other than that one ends idle. */
  lemma ToggleTwice(m: Mode, name: string)
    ensures m != Drawing(name) ==> DrawToggle(DrawToggle(m, name), name) == Idle
    ensures m != Editing(name) ==> EditToggle(EditToggle(m, name, true), name, true) == Idle
  {
  }

  class VectorsControl {
    var isDrawingActive: bool
    var isEditionActive: bool
    var drawLayer: Layer?
    var feature: Option<MapFeature>
    var geometry: Option<string>
    var emphasis: Option<Emphasis>
    /** The features of the selection layer. */
    var selection: seq<Emphasis>
    /** Whether the map holds the draw interaction. */
    var drawHandle: bool
    /** Whether the map holds the select and modify interactions. */
    var selectHandle: bool
    var currentColor: string
    var currentThickness: Measure
    var currentLineDash: Option<seq<int>>
    /** The stroke options marked `active`. */
    var strokeActive: set<Preset>
    var file: Option<Upload.FileInfo>

    /**
     * The invariant every handler keeps: never drawing and editing at once; a mode names
     * its layer; the draw interaction is there exactly while drawing and the select
     * interaction only while editing; the selection layer holds the emphasis of the selected
     * feature and nothing when none is selected.
     */
    predicate Valid()
      reads this
    {
      && !(isDrawingActive && isEditionActive)
      && (isDrawingActive || isEditionActive ==> drawLayer != null)
      && (drawHandle <==> isDrawingActive)
      && (selectHandle ==> isEditionActive)
      && (feature.Some? ==> emphasis.Some? && selection == [emphasis.value])
      && (feature.None? ==> selection == [])
    }

    /** The current mode. */
    function ModeOf(): Mode
      requires Valid()
      reads this
    {
      if isDrawingActive then Drawing(drawLayer.name)
      else if isEditionActive then Editing(drawLayer.name)
      else Idle
    }

    /** The drawing parameters: current colour, thickness, dash pattern and active stroke options. */
    function DrawingParams(): Params
      reads this`currentColor, this`currentThickness, this`currentLineDash, this`strokeActive
    {
      Params(currentColor, currentThickness, currentLineDash, strokeActive)
    }

    /** The control as created, with the colour and thickness inputs' initial values. */
    constructor(color: string, thickness: string)
      ensures Valid() && ModeOf() == Idle
      ensures drawLayer == null && feature.None? && geometry.None? && emphasis.None? && selection == []
      ensures currentColor == color && currentThickness == Text(thickness) && currentLineDash.None?
      ensures strokeActive == {Continuous} && file.None?
    {
      isDrawingActive, isEditionActive := false, false;
      drawLayer := null;
      feature, geometry, emphasis := None, None, None;
      selection := [];
      drawHandle, selectHandle := false, false;
      currentColor, currentThickness, currentLineDash := color, Text(thickness), None;
      strokeActive := {Continuous};
      file := None;
    }

    /**
     * `emphasizeSelectedFeature`: empties the selection layer and, when a feature is
     * selected, puts its emphasis there.
     */
    method EmphasizeSelectedFeature()
      modifies this`emphasis, this`selection
      ensures emphasis == if feature.Some? then Some(EmphasisFor(feature.value, geometry)) else None
      ensures selection == if feature.Some? then [emphasis.value] else []
      ensures |selection| == (if feature.Some? then 1 else 0)
    {
      emphasis := None;
      selection := [];
      if feature.Some? {
        emphasis := Some(EmphasisFor(feature.value, geometry));
        selection := selection + [emphasis.value];
      }
    }

    /** `deactivateDrawing`: forgets the selected feature and removes the draw interaction. */
    method DeactivateDrawing()
      modifies this`feature, this`emphasis, this`selection, this`drawHandle
      ensures feature.None? && emphasis.None? && selection == [] && !drawHandle
    {
      feature := None;
      EmphasizeSelectedFeature();
      drawHandle := false;
    }

    /**
     * `deactivateSelection`: forgets the selected feature and its geometry type and removes
     * the select and modify interactions.
     */
    method DeactivateSelection()
      modifies this`feature, this`geometry, this`emphasis, this`selection, this`selectHandle
      ensures feature.None? && geometry.None? && emphasis.None? && selection == [] && !selectHandle
    {
      feature := None;
      geometry := None;
      EmphasizeSelectedFeature();
      selectHandle := false;
    }

    /** `resetInteractions`: back to idle, with no layer, nothing selected and no interaction. */
    method ResetInteractions()
      modifies this`isDrawingActive, this`isEditionActive, this`drawLayer, this`feature, this`geometry
      modifies this`emphasis, this`selection, this`drawHandle, this`selectHandle
      ensures Valid() && ModeOf() == Idle
      ensures drawLayer == null && feature.None? && geometry.None? && selection == []
      ensures !drawHandle && !selectHandle
    {
      DeactivateDrawing();
      DeactivateSelection();
      isDrawingActive := false;
      isEditionActive := false;
      drawLayer := null;
    }

    /**
     * `openDrawOptions`: ends editing and both interactions, then either turns drawing off
     * (when already drawing and the layer named the same as the current one) or starts
     * drawing on the layer.
     */
    method OpenDrawOptions(layer: Layer)
      modifies this`isDrawingActive, this`isEditionActive, this`drawLayer, this`feature, this`geometry
      modifies this`emphasis, this`selection, this`drawHandle, this`selectHandle
      ensures Valid()
      ensures old(Valid()) ==> ModeOf() == DrawToggle(old(ModeOf()), layer.name)
      ensures var start := (old(drawLayer) != null && layer.name != old(drawLayer).name) || !old(isDrawingActive);
              && isDrawingActive == start && !isEditionActive
              && drawLayer == (if start then layer else null)
      ensures drawHandle == isDrawingActive && !selectHandle
      ensures feature.None? && geometry.None? && selection == []
    {
      isEditionActive := false;
      DeactivateSelection();
      DeactivateDrawing();
      var cond := drawLayer != null && layer.name != drawLayer.name;
      if cond || !isDrawingActive {
        drawLayer := layer;
        isDrawingActive := true;
        drawHandle := true;
      } else {
        isDrawingActive := false;
        drawLayer := null;
      }
    }

    /**
     * `openEditOptions`: ends drawing and both interactions; turns editing off when already
     * editing the layer named the same; otherwise starts editing the layer if it has
     * features, and on a featureless layer only warns, leaving the edit flag and the layer
     * as they were. Returns whether the "no features" warning is shown.
     */
    method OpenEditOptions(layer: Layer) returns (warned: bool)
      modifies this`isDrawingActive, this`isEditionActive, this`drawLayer, this`feature, this`geometry
      modifies this`emphasis, this`selection, this`drawHandle, this`selectHandle
      ensures old(Valid()) ==> Valid() && ModeOf() == EditToggle(old(ModeOf()), layer.name, old(|layer.features|) > 0)
      ensures var enter := (old(drawLayer) != null && layer.name != old(drawLayer).name) || !old(isEditionActive);
              && warned == (enter && old(|layer.features|) == 0)
              && isEditionActive == (if enter then old(|layer.features|) > 0 || old(isEditionActive) else false)
              && drawLayer == (if !enter then null else if old(|layer.features|) > 0 then layer else old(drawLayer))
              && selectHandle == (enter && old(|layer.features|) > 0)
      ensures !isDrawingActive && !drawHandle
      ensures feature.None? && geometry.None? && selection == []
    {
      warned := false;
      isDrawingActive := false;
      DeactivateSelection();
      DeactivateDrawing();
      var cond := drawLayer != null && layer.name != drawLayer.name;
      if cond || !isEditionActive {
        if |layer.features| > 0 {
          drawLayer := layer;
          isEditionActive := true;
          selectHandle := true;
        } else {
          warned := true;
        }
      } else {
        isEditionActive := false;
        drawLayer := null;
      }
    }

    /**
     * `onSelect`: the selected map feature becomes the current feature, found among the
     * drawn layer's features, is emphasized and its info shown, which reads the drawing
     * parameters back from its style; a feature that is not on the layer leaves none
     * selected and throws when its geometry type is read.
     */
    method OnSelect(selected: MapFeature, infoShown: bool) returns (threw: bool)
      requires drawLayer != null
      modifies this`feature, this`geometry, this`emphasis, this`selection
      modifies this`currentColor, this`currentThickness, this`currentLineDash, this`strokeActive
      ensures selected !in drawLayer.features ==>
                threw && feature.None? && geometry == old(geometry) && emphasis == old(emphasis)
                && selection == old(selection) && DrawingParams() == old(DrawingParams())
      ensures selected in drawLayer.features ==>
                var info := FeatureInfo(Some(selected.geometry.Kind()), Some(selected), infoShown, old(DrawingParams()));
                && feature == Some(selected) && geometry == Some(selected.geometry.Kind())
                && emphasis == Some(EmphasisFor(selected, geometry)) && selection == [emphasis.value]
                && threw == info.Failure?
                && DrawingParams() == (if info.Success? then info.value else old(DrawingParams()))
      ensures selected in drawLayer.features && old(Valid()) ==> Valid()
    {
      if selected in drawLayer.features {
        feature := Some(selected);
        geometry := Some(selected.geometry.Kind());
        EmphasizeSelectedFeature();
        threw := ShowFeatureInfo(infoShown);
      } else {
        feature := None;
        threw := true;
      }
    }

    /**
     * `onDraw`: the drawn geometry becomes the current feature with id "<layer name>.<time>",
     * gets the style of the current drawing parameters, is added to the layer, emphasized
     * and its info shown, which reads the drawing parameters back from the style just set
     * and cannot throw. An unstyleable geometry type throws before the feature is added.
     */
    method OnDraw(drawn: Geometry, time: nat, infoShown: bool) returns (threw: bool)
      requires drawLayer != null
      modifies this`feature, this`geometry, this`emphasis, this`selection, drawLayer`features
      modifies this`currentColor, this`currentThickness, this`currentLineDash, this`strokeActive
      ensures var id := Some(drawLayer.name + "." + JsText.NatToString(time));
              var style := FeatureStyle(drawn.Kind(), old(currentColor), old(currentThickness), old(currentLineDash));
              && threw == style.Failure?
              && geometry == Some(drawn.Kind())
              && (threw ==> feature == Some(MapFeature(id, drawn, None)) && drawLayer.features == old(drawLayer.features)
                            && emphasis == old(emphasis) && selection == old(selection)
                            && DrawingParams() == old(DrawingParams()))
              && (!threw ==> feature == Some(MapFeature(id, drawn, Some(style.value)))
                             && drawLayer.features == old(drawLayer.features) + [feature.value]
                             && emphasis == Some(EmphasisFor(feature.value, geometry))
                             && selection == [emphasis.value]
                             && DrawingParams() == FeatureInfo(geometry, feature, infoShown, old(DrawingParams())).value)
      ensures !threw && old(Valid()) ==> Valid() && ModeOf() == old(ModeOf())
    {
      var params := DrawingParams();
      threw := AddDrawnFeature(drawn, time);
      if !threw {
        DrawnFeatureInfo(feature.value, infoShown, params);
        var infoThrew := ShowFeatureInfo(infoShown);
      }
    }

    /**
     * The part of `onDraw` before the info is shown: the feature is created, styled by
     * `setFeatureStyle`, added to the layer and emphasized.
     */
    method AddDrawnFeature(drawn: Geometry, time: nat) returns (threw: bool)
      requires drawLayer != null
      modifies this`feature, this`geometry, this`emphasis, this`selection, drawLayer`features
      ensures var id := Some(drawLayer.name + "." + JsText.NatToString(time));
              var style := FeatureStyle(drawn.Kind(), currentColor, currentThickness, currentLineDash);
              && threw == style.Failure?
              && geometry == Some(drawn.Kind())
              && (threw ==> feature == Some(MapFeature(id, drawn, None)) && drawLayer.features == old(drawLayer.features)
                            && emphasis == old(emphasis) && selection == old(selection))
              && (!threw ==> feature == Some(MapFeature(id, drawn, Some(style.value)))
                             && drawLayer.features == old(drawLayer.features) + [feature.value]
                             && emphasis == Some(EmphasisFor(feature.value, geometry))
                             && selection == [emphasis.value])
      ensures !threw && old(Valid()) ==> Valid() && ModeOf() == old(ModeOf())
    {
      var id := Some(drawLayer.name + "." + JsText.NatToString(time));
      feature := Some(MapFeature(id, drawn, None));
      geometry := Some(drawn.Kind());
      var style := FeatureStyle(drawn.Kind(), currentColor, currentThickness, currentLineDash);
      if style.Failure? {
        threw := true;
        return;
      }
      threw := false;
      feature := Some(MapFeature(id, drawn, Some(style.value)));
      drawLayer.features := drawLayer.features + [feature.value];
      EmphasizeSelectedFeature();
    }

    /**
     * `showFeatureInfo`, when the info box `#featureInfo` is there (`infoShown`): for a
     * point, line or polygon with a style, the drawing parameters are read back from that
     * style; for a line, the stroke options are all cleared and the one its dash pattern
     * is classified as is marked active. A style without the fill it is read from throws,
     * leaving the parameters as they were.
     */
    method ShowFeatureInfo(infoShown: bool) returns (threw: bool)
      modifies this`currentColor, this`currentThickness, this`currentLineDash, this`strokeActive
      ensures var info := FeatureInfo(geometry, feature, infoShown, old(DrawingParams()));
              && threw == info.Failure?
              && DrawingParams() == (if info.Success? then info.value else old(DrawingParams()))
    {
      threw := false;
      if !infoShown || geometry.None? || geometry.value !in KNOWN_KINDS {
        return;
      }
      if feature.None? {
        threw := true;
        return;
      }
      if feature.value.style.None? {
        return;
      }
      var kind, style := geometry.value, feature.value.style.value;
      if kind == "Point" || kind == "MultiPoint" {
        if FillOf(style).None? {
          threw := true;
          return;
        }
        currentColor := FillOf(style).value.color;
        currentThickness := OrSix(RadiusOf(style));
      } else if kind == "LineString" || kind == "MultiLineString" {
        var stroke := style.stroke;
        currentColor := stroke.color;
        currentThickness := OrSix(Some(stroke.width));
        currentLineDash := stroke.linedash;
        ClearActiveOptions();
        strokeActive := strokeActive + {PresetOf(stroke.linedash)};
      } else {
        if FillOf(style).None? {
          threw := true;
          return;
        }
        currentColor := FillOf(style).value.color;
        currentThickness := OrSix(Some(style.stroke.width));
      }
    }

    /**
     * `deleteSingleFeature`: removes the selected feature from the layer, forgets it and its
     * type, removes its emphasis from the selection layer and, when editing, opens edit mode
     * again on the same layer, which warns and ends editing when no feature is left.
     */
    method DeleteSingleFeature() returns (warned: bool)
      requires Valid() && drawLayer != null
      modifies this`isDrawingActive, this`isEditionActive, this`drawLayer, this`feature, this`geometry
      modifies this`emphasis, this`selection, this`drawHandle, this`selectHandle
      modifies drawLayer`features
      ensures drawLayer != null
      ensures drawLayer == old(drawLayer)
      ensures drawLayer.features == Without(old(drawLayer.features), old(feature))
      ensures feature.None? && geometry.None? && selection == []
      ensures isDrawingActive == old(isDrawingActive) && drawHandle == old(drawHandle)
      ensures isEditionActive == (old(isEditionActive) && |drawLayer.features| > 0)
      ensures selectHandle == isEditionActive
      ensures warned == (old(isEditionActive) && |drawLayer.features| == 0)
      ensures Valid()
    {
      warned := false;
      drawLayer.features := Without(drawLayer.features, feature);
      feature := None;
      geometry := None;
      if emphasis.Some? {
        selection := Without(selection, emphasis);
      }
      if isEditionActive {
        isEditionActive := false;
        warned := OpenEditOptions(drawLayer);
      }
    }

    /**
     * `changeFile`: keeps the chosen file unless it is over the size limit, in which case it
     * is dropped; returns what happens next.
     */
    method ChangeFile(chosen: Option<Upload.FileInfo>) returns (step: Upload.UploadStep)
      modifies this`file
      ensures file == if chosen.Some? && !Upload.Accepted(chosen.value) then None else chosen
      ensures step == Upload.Choose(chosen)
    {
      file := chosen;
      if chosen.Some? && !Upload.Accepted(chosen.value) {
        file := None;
      }
      step := Upload.Choose(chosen);
    }

    /** The loop every branch of the stroke-options handler runs: no option stays active. */
    method ClearActiveOptions()
      modifies this`strokeActive
      ensures strokeActive == {}
    {
      var divs := [Continuous, DotsLines, Lines, Dots];
      for i := 0 to |divs|
        invariant strokeActive == old(strokeActive) - set k | 0 <= k < i :: divs[k]
      {
        strokeActive := strokeActive - {divs[i]};
      }
      forall p: Preset
        ensures p !in strokeActive
      {
        var k := match p case Continuous => 0 case DotsLines => 1 case Lines => 2 case Dots => 3;
        assert divs[k] == p;
      }
    }

    /**
     * A branch for a dashed option, run after the active marks are cleared: back to
     * continuous when the clicked element is still active, else that option.
     */
    method SelectUnlessActive(target: ClickTarget, p: Preset)
      modifies this`strokeActive, this`currentLineDash
      ensures var revert := "active" in ClassesOf(target, old(strokeActive));
              && strokeActive == (if revert then {Continuous} else {p})
              && currentLineDash == (if revert then None else DashOf(p))
    {
      if "active" in ClassesOf(target, strokeActive) {
        strokeActive, currentLineDash := {Continuous}, None;
      } else {
        strokeActive, currentLineDash := {p}, DashOf(p);
      }
    }

    /**
     * The stroke-options click handler: the target's classes are tested in the order
     * continuous, dots-lines, lines, dots; each branch clears the active marks first and
     * then selects its option (or continuous, when the target itself is still active); any
     * other target changes nothing. The handler ends with `styleChange`, which restyles the
     * selected feature from the new parameters; that restyle is `Styles.Restyled`.
     */
    method ClickStrokeOption(target: ClickTarget)
      modifies this`strokeActive, this`currentLineDash
      ensures StrokeState(strokeActive, currentLineDash) == StrokeClick(StrokeState(old(strokeActive), old(currentLineDash)), target)
    {
      var classes := ClassesOf(target, strokeActive);
      if ClassName(Continuous) in classes {
        ClearActiveOptions();
        strokeActive, currentLineDash := {Continuous}, None;
      } else if ClassName(DotsLines) in classes {
        ClearActiveOptions();
        SelectUnlessActive(target, DotsLines);
      } else if ClassName(Lines) in classes {
        ClearActiveOptions();
        SelectUnlessActive(target, Lines);
      } else if ClassName(Dots) in classes {
        ClearActiveOptions();
        SelectUnlessActive(target, Dots);
      }
    }
  }

  /**
   * The drawing parameters after `showFeatureInfo` on the current type and feature: changed
   * only when the info box is shown for a point, line or polygon feature that has a style,
   * and then read back from that style; reading the style of a missing feature throws.
   */
  function FeatureInfo(geometry: Option<string>, feature: Option<MapFeature>, infoShown: bool, p: Params): (r: Result<Params, JsError>)
    ensures !infoShown || geometry.None? || geometry.value !in KNOWN_KINDS ==> r == Success(p)
    ensures infoShown && geometry.Some? && geometry.value in KNOWN_KINDS && feature.None? ==> r.Failure?
    ensures feature.Some? && feature.value.style.None? ==> r == Success(p)
    ensures r.Success? && r.value != p ==>
              infoShown && feature.Some? && feature.value.style.Some?
              && r == ReadBack(geometry.value, feature.value.style.value, p)
  {
    if !infoShown || geometry.None? || geometry.value !in KNOWN_KINDS then Success(p)
    else if feature.None? then Failure(TypeError)
    else if feature.value.style.None? then Success(p)
    else ReadBack(geometry.value, feature.value.style.value, p)
  }

  /**
   * Showing the info of a feature styled from the drawing parameters never throws, and a
   * point or line feature keeps the colour and dash pattern it was drawn with.
   */
  lemma DrawnFeatureInfo(f: MapFeature, infoShown: bool, p: Params)
    requires FeatureStyle(f.geometry.Kind(), p.color, p.thickness, p.dash).Success?
    requires f.style == Some(FeatureStyle(f.geometry.Kind(), p.color, p.thickness, p.dash).value)
    ensures var r := FeatureInfo(Some(f.geometry.Kind()), Some(f), infoShown, p);
      && r.Success? && r.value.color == p.color && r.value.dash == p.dash
  {
    ReadBackOfDrawnStyle(f.geometry.Kind(), p);
  }

  /** The features left after removing every one equal to the given one (none when absent). */
  function Without<T(==, !new)>(xs: seq<T>, x: Option<T>): (r: seq<T>)
    ensures |r| <= |xs|
    ensures forall y :: y in r <==> y in xs && Some(y) != x
  {
    if |xs| == 0 then []
    else (if Some(xs[0]) == x then [] else [xs[0]]) + Without(xs[1..], x)
  }

  /** Removal from a list with a first element: that element is tested, then the rest. */
  lemma WithoutCons<T(!new)>(h: T, t: seq<T>, x: Option<T>)
    ensures Without([h] + t, x) == (if Some(h) == x then [] else [h]) + Without(t, x)
  {
    assert ([h] + t)[1..] == t;
  }

  /** The removal keeps the order and number of the other features: it works run by run. */
  lemma {:induction false} WithoutAppend<T(!new)>(a: seq<T>, b: seq<T>, x: Option<T>)
    ensures Without(a + b, x) == Without(a, x) + Without(b, x)
  {
    if |a| > 0 {
      assert a + b == [a[0]] + (a[1..] + b);
      assert a == [a[0]] + a[1..];
      WithoutCons(a[0], a[1..] + b, x);
      WithoutCons(a[0], a[1..], x);
      WithoutAppend(a[1..], b, x);
    } else {
      assert a + b == b;
    }
  }
}
