/**
 * Feature styles derived from the current drawing parameters, the three line-dash presets,
 * the stroke-option click handler and the classification of a dash pattern into a preset.
 */
module Styles {
  import opened Wrappers
  import opened GeoJson
  import JsText

  /** A style option that is either the raw text of an input or a number. */
  datatype Measure = Text(text: string) | Number(value: Value)

  datatype Fill = Fill(color: string, opacity: Option<real>)

  datatype Stroke = Stroke(color: string, width: Measure, linedash: Option<seq<int>>)

  datatype Style =
    | PointStyle(radius: Measure, fill: Option<Fill>, stroke: Stroke)
    | LineStyle(stroke: Stroke)
    | PolygonStyle(area: Fill, stroke: Stroke)

  datatype StyleError = UnknownGeometry

  const WHITE_OUTLINE: Stroke := Stroke("white", Number(Num(2.0)), None)
  const POLYGON_FILL_OPACITY: real := 0.2

  /** A real number's integer part, rounded toward zero. */
  function Truncated(x: real): int
  {
    if x >= 0.0 then x.Floor else -((-x).Floor)
  }

  /**
   * `Number.parseInt(thickness, 10)` as a style number (NaN when no digits). A numeric
   * thickness is printed and read back, which keeps its integer part.
   */
  function ParsedWidth(thickness: Measure): (r: Measure)
    ensures r.Number?
    ensures thickness.Text? ==> (r == Number(NaN) <==> JsText.ParseInt(thickness.text).None?)
    ensures thickness.Text? && JsText.ParseInt(thickness.text).Some? ==> r == Number(Num(JsText.ParseInt(thickness.text).value as real))
    ensures thickness.Number? && thickness.value.Num? && thickness.value.r.Floor as real == thickness.value.r ==> r == thickness
  {
    match thickness
    case Text(t) =>
      (match JsText.ParseInt(t)
       case None => Number(NaN)
       case Some(n) => Number(Num(n as real)))
    case Number(NaN) => Number(NaN)
    case Number(Num(x)) => Number(Num(Truncated(x) as real))
  }

  /**
   * `setFeatureStyle`: the style for a geometry type from the current colour, thickness and
   * dash pattern.
   */
  function FeatureStyle(kind: string, color: string, thickness: Measure, dash: Option<seq<int>>): (r: Result<Style, StyleError>)
    ensures r.Success? <==> kind in KNOWN_KINDS
  {
    if kind == "Point" || kind == "MultiPoint" then
      Success(PointStyle(thickness, Some(Fill(color, None)), WHITE_OUTLINE))
    else if kind == "LineString" || kind == "MultiLineString" then
      Success(LineStyle(Stroke(color, thickness, dash)))
    else if kind == "Polygon" || kind == "MultiPolygon" then
      Success(PolygonStyle(Fill(color, Some(POLYGON_FILL_OPACITY)), Stroke(color, ParsedWidth(thickness), None)))
    else
      Failure(UnknownGeometry)
  }

  /**
   * The style rule per family: points get radius = thickness, fill = colour and a white
   * outline of width 2; lines a stroke of the colour, width = thickness and the current dash;
   * polygons a 0.2-opaque fill of the colour and a stroke of the colour whose width is the
   * thickness read by parseInt; any other type is an error.
   */
  lemma StyleRule(kind: string, color: string, thickness: Measure, dash: Option<seq<int>>)
    ensures var r := FeatureStyle(kind, color, thickness, dash);
      && ((kind == "Point" || kind == "MultiPoint") ==>
            r == Success(PointStyle(thickness, Some(Fill(color, None)), Stroke("white", Number(Num(2.0)), None))))
      && ((kind == "LineString" || kind == "MultiLineString") ==>
            r == Success(LineStyle(Stroke(color, thickness, dash))))
      && ((kind == "Polygon" || kind == "MultiPolygon") ==>
            r.Success? && r.value.PolygonStyle? && r.value.area == Fill(color, Some(0.2))
            && r.value.stroke.color == color && r.value.stroke.width == ParsedWidth(thickness) && r.value.stroke.linedash == None)
      && (kind !in KNOWN_KINDS ==> r == Failure(UnknownGeometry))
  {
  }

  /** A polygon's stroke width is the integer the thickness text starts with ("4" and "4px" give 4). */
  lemma PolygonWidthFromThickness(kind: string, color: string, n: nat, suffix: string, dash: Option<seq<int>>)
    requires kind == "Polygon" || kind == "MultiPolygon"
    requires |suffix| == 0 || !JsText.IsDigit(suffix[0])
    ensures FeatureStyle(kind, color, Text(JsText.NatToString(n) + suffix), dash).value.stroke.width == Number(Num(n as real))
  {
    ParsedWidthOfDecimal(n, suffix);
  }

  /** parseInt reads the decimal a thickness text starts with. */
  lemma ParsedWidthOfDecimal(n: nat, suffix: string)
    requires |suffix| == 0 || !JsText.IsDigit(suffix[0])
    ensures ParsedWidth(Text(JsText.NatToString(n) + suffix)) == Number(Num(n as real))
  {
    JsText.ParseIntOfDecimal(n, suffix);
  }

  /**
   * The style `styleChange` gives the selected feature: the rule of `setFeatureStyle`,
   * except that a polygon's stroke width is the thickness as it is (no parseInt) and an
   * unknown type leaves the feature's style alone (None) instead of throwing.
   */
  function Restyled(kind: string, color: string, thickness: Measure, dash: Option<seq<int>>): (r: Option<Style>)
    ensures r.Some? <==> kind in KNOWN_KINDS
  {
    if kind == "Point" || kind == "MultiPoint" then
      Some(PointStyle(thickness, Some(Fill(color, None)), WHITE_OUTLINE))
    else if kind == "LineString" || kind == "MultiLineString" then
      Some(LineStyle(Stroke(color, thickness, dash)))
    else if kind == "Polygon" || kind == "MultiPolygon" then
      Some(PolygonStyle(Fill(color, Some(POLYGON_FILL_OPACITY)), Stroke(color, thickness, None)))
    else
      None
  }

  /**
   * Restyling agrees with drawing-time styling on every known type except in a polygon's
   * stroke width, which differs exactly when parseInt changes the thickness ("4px" stays
   * "4px" instead of becoming 4).
   */
  lemma RestyledAgainstFeatureStyle(kind: string, color: string, thickness: Measure, dash: Option<seq<int>>)
    requires kind in KNOWN_KINDS
    ensures var drawn := FeatureStyle(kind, color, thickness, dash).value;
      && (!(kind == "Polygon" || kind == "MultiPolygon") ==> Restyled(kind, color, thickness, dash) == Some(drawn))
      && ((kind == "Polygon" || kind == "MultiPolygon") ==>
            Restyled(kind, color, thickness, dash) == Some(drawn.(stroke := drawn.stroke.(width := thickness))))
      && (Restyled(kind, color, thickness, dash) == Some(drawn) <==>
            !(kind == "Polygon" || kind == "MultiPolygon") || ParsedWidth(thickness) == thickness)
  {
  }

  /** A text thickness with trailing text is restyled as that text, where drawing gave a number. */
  lemma RestyledPolygonKeepsText(color: string, n: nat, suffix: string)
    requires |suffix| == 0 || !JsText.IsDigit(suffix[0])
    ensures var t := Text(JsText.NatToString(n) + suffix);
      && Restyled("Polygon", color, t, None).value.stroke.width == t
      && FeatureStyle("Polygon", color, t, None).value.stroke.width == Number(Num(n as real))
  {
    PolygonWidthFromThickness("Polygon", color, n, suffix, None);
  }

  /** JavaScript truthiness of a style option: a non-empty text, or a number that is neither 0 nor NaN. */
  predicate Truthy(m: Measure)
  {
    match m
    case Text(t) => t != ""
    case Number(v) => v != NaN && v != Num(0.0)
  }

  /** `x || 6` for an option that may be `undefined` (None). */
  function OrSix(m: Option<Measure>): (r: Measure)
    ensures Truthy(r)
    ensures m.Some? && Truthy(m.value) ==> r == m.value
    ensures !(m.Some? && Truthy(m.value)) ==> r == Number(Num(6.0))
  {
    if m.Some? && Truthy(m.value) then m.value else Number(Num(6.0))
  }

  /** `style.getOptions().fill`: a point's optional fill, a polygon's fill, nothing for a line. */
  function FillOf(s: Style): Option<Fill>
  {
    match s
    case PointStyle(_, fill, _) => fill
    case LineStyle(_) => None
    case PolygonStyle(area, _) => Some(area)
  }

  /** `style.getOptions().radius`: only a point style has one. */
  function RadiusOf(s: Style): Option<Measure>
  {
    if s.PointStyle? then Some(s.radius) else None
  }

  /** The drawing parameters: colour, thickness, dash pattern and the stroke options marked active. */
  datatype Params = Params(color: string, thickness: Measure, dash: Option<seq<int>>, active: set<Preset>)

  /**
   * `showFeatureInfo` on a styled feature of a given type, once the info box is shown:
   * points and polygons take the colour from the style's fill (throwing when it has none)
   * and the thickness from the radius or the stroke width, `|| 6`; lines take colour, width
   * `|| 6` and dash from the stroke, and the option classified from that dash becomes the
   * only one marked active; any other type changes nothing.
   */
  function ReadBack(kind: string, style: Style, p: Params): (r: Result<Params, JsError>)
    ensures r.Failure? <==> kind in {"Point", "MultiPoint", "Polygon", "MultiPolygon"} && FillOf(style).None?
    ensures kind !in KNOWN_KINDS ==> r == Success(p)
    ensures r.Success? && kind in KNOWN_KINDS ==> Truthy(r.value.thickness)
    ensures r.Success? && (kind == "LineString" || kind == "MultiLineString") ==>
      r.value.active == {PresetOf(r.value.dash)} && r.value.dash == style.stroke.linedash
    ensures r.Success? && !(kind == "LineString" || kind == "MultiLineString") ==>
      r.value.dash == p.dash && r.value.active == p.active
  {
    if kind == "Point" || kind == "MultiPoint" then
      match FillOf(style)
      case None => Failure(TypeError)
      case Some(f) => Success(p.(color := f.color, thickness := OrSix(RadiusOf(style))))
    else if kind == "LineString" || kind == "MultiLineString" then
      var st := style.stroke;
      Success(Params(st.color, OrSix(Some(st.width)), st.linedash, {PresetOf(st.linedash)}))
    else if kind == "Polygon" || kind == "MultiPolygon" then
      match FillOf(style)
      case None => Failure(TypeError)
      case Some(f) => Success(p.(color := f.color, thickness := OrSix(Some(style.stroke.width))))
    else
      Success(p)
  }

  /**
   * Selecting a feature styled at drawing time reads the drawing parameters back: a point or
   * line keeps colour and (truthy) thickness, a line its dash pattern too, with the option it
   * is classified as marked active; a polygon keeps its colour and gets the parseInt of the
   * thickness, or 6 when that is NaN or 0.
   */
  lemma ReadBackOfDrawnStyle(kind: string, p: Params)
    requires kind in KNOWN_KINDS
    ensures var r := ReadBack(kind, FeatureStyle(kind, p.color, p.thickness, p.dash).value, p);
      && r.Success? && r.value.color == p.color && r.value.dash == p.dash
      && ((kind == "Point" || kind == "MultiPoint" || kind == "LineString" || kind == "MultiLineString") ==>
            r.value.thickness == OrSix(Some(p.thickness)))
      && ((kind == "LineString" || kind == "MultiLineString") ==> r.value.active == {PresetOf(p.dash)})
      && ((kind == "Polygon" || kind == "MultiPolygon") ==> r.value.thickness == OrSix(Some(ParsedWidth(p.thickness))))
  {
  }

  /** Selecting a line drawn with one of the options' patterns marks exactly that option active. */
  lemma ReadBackMarksDrawnOption(kind: string, color: string, thickness: Measure, q: Preset, active: set<Preset>)
    requires kind == "LineString" || kind == "MultiLineString"
    ensures var p := Params(color, thickness, DashOf(q), active);
      ReadBack(kind, FeatureStyle(kind, color, thickness, DashOf(q)).value, p).value.active == {q}
  {
    PresetRoundTrip(q);
  }

  /**
   * A polygon drawn with a thickness text that parseInt reads as a non-zero integer (4 for
   * "4px", see ParsedWidthOfDecimal) is read back with that integer as a number.
   */
  lemma ReadBackPolygonThickness(kind: string, color: string, t: string, n: int, active: set<Preset>)
    requires kind == "Polygon" || kind == "MultiPolygon"
    requires JsText.ParseInt(t) == Some(n) && n != 0
    ensures var p := Params(color, Text(t), None, active);
      ReadBack(kind, FeatureStyle(kind, color, p.thickness, None).value, p)
        == Success(Params(color, Number(Num(n as real)), None, active))
  {
    var p := Params(color, Text(t), None, active);
    ReadBackOfDrawnStyle(kind, p);
    PolygonWidthOfParsed(t, n);
  }

  /** A thickness text that parseInt reads as a non-zero integer gives that width, which is truthy. */
  lemma PolygonWidthOfParsed(t: string, n: int)
    requires JsText.ParseInt(t) == Some(n) && n != 0
    ensures OrSix(Some(ParsedWidth(Text(t)))) == Number(Num(n as real))
  {
    assert (n as real) != 0.0;
  }

  /** The four stroke options of the drawing tools. */
  datatype Preset = Continuous | DotsLines | Lines | Dots

  const POINTS: seq<int> := [1, 15]
  const LINES: seq<int> := [10, 15]
  const LINE_POINTS: seq<int> := [1, 15, 20, 15]

  /** The `currentLineDash` a preset stands for; continuous is `undefined`. */
  function DashOf(p: Preset): Option<seq<int>>
  {
    match p
    case Continuous => None
    case DotsLines => Some(LINE_POINTS)
    case Lines => Some(LINES)
    case Dots => Some(POINTS)
  }

  /** The class naming each option's `div`. */
  function ClassName(p: Preset): string
  {
    match p
    case Continuous => "stroke-continuous"
    case DotsLines => "stroke-dots-lines"
    case Lines => "stroke-lines"
    case Dots => "stroke-dots"
  }

  /**
   * The option `showFeatureInfo` marks active for a line's dash pattern: more than two
   * values is dots-lines, a first value above 2 lines, below 2 dots, anything else (no
   * pattern, an empty one, a first value of exactly 2) continuous.
   */
  function PresetOf(dash: Option<seq<int>>): (r: Preset)
    ensures (exists q :: dash == DashOf(q)) ==> DashOf(r) == dash
    ensures dash.None? ==> r == Continuous
  {
    if dash.Some? && |dash.value| > 2 then DotsLines
    else if dash.Some? && |dash.value| > 0 && dash.value[0] > 2 then Lines
    else if dash.Some? && |dash.value| > 0 && dash.value[0] < 2 then Dots
    else Continuous
  }

  /** Each preset's pattern, and the absence of one, is classified back as that preset. */
  lemma PresetRoundTrip(p: Preset)
    ensures PresetOf(DashOf(p)) == p
  {
  }

  /** The element a click on the stroke options lands on. */
  datatype ClickTarget =
    | OptionDiv(preset: Preset)           // one of the four option `div`s
    | Element(classes: set<string>)       // an element inside the options container that is not a `div`

  /** The target's classes with `active` as the option `div`s carry it. */
  function ClassesOf(target: ClickTarget, active: set<Preset>): set<string>
  {
    match target
    case OptionDiv(p) => {ClassName(p)} + (if p in active then {"active"} else {})
    case Element(cs) => cs
  }

  /** The options marked active and the current dash pattern. */
  datatype StrokeState = StrokeState(active: set<Preset>, dash: Option<seq<int>>)

  /**
   * The stroke-options click handler: the target's classes choose a branch; every option
   * `div` loses `active` first; only then does a branch test whether the target is active.
   */
  function StrokeClick(s: StrokeState, target: ClickTarget): (r: StrokeState)
    ensures (forall p :: ClassName(p) !in ClassesOf(target, s.active)) ==> r == s
    ensures (exists p :: ClassName(p) in ClassesOf(target, s.active)) ==>
              r.active == {PresetOf(r.dash)} && r.dash == DashOf(PresetOf(r.dash))
  {
    var classes := ClassesOf(target, s.active);
    var stillActive := "active" in ClassesOf(target, {});
    if ClassName(Continuous) in classes then StrokeState({Continuous}, None)
    else if ClassName(DotsLines) in classes then
      if stillActive then StrokeState({Continuous}, None) else StrokeState({DotsLines}, DashOf(DotsLines))
    else if ClassName(Lines) in classes then
      if stillActive then StrokeState({Continuous}, None) else StrokeState({Lines}, DashOf(Lines))
    else if ClassName(Dots) in classes then
      if stillActive then StrokeState({Continuous}, None) else StrokeState({Dots}, DashOf(Dots))
    else s
  }

  /**
   * Clicking an option `div` always selects that option, whatever was active before: the
   * "clicked again, back to continuous" branches are unreachable from the option `div`s.
   */
  lemma OptionClickSelects(s: StrokeState, p: Preset)
    ensures StrokeClick(s, OptionDiv(p)) == StrokeState({p}, DashOf(p))
  {
  }

  /** Clicking the same option twice leaves it selected. */
  lemma ReclickKeepsOption(s: StrokeState, p: Preset)
    ensures StrokeClick(StrokeClick(s, OptionDiv(p)), OptionDiv(p)) == StrokeState({p}, DashOf(p))
  {
    OptionClickSelects(s, p);
    OptionClickSelects(StrokeClick(s, OptionDiv(p)), p);
  }

  /**
   * Whenever a branch runs, exactly one option is marked active, and it is the option the
   * resulting dash pattern is classified as.
   */
  lemma ActiveMatchesDash(s: StrokeState, target: ClickTarget)
    requires exists p :: ClassName(p) in ClassesOf(target, s.active)
    ensures StrokeClick(s, target).active == {PresetOf(StrokeClick(s, target).dash)}
  {
  }

  /** Only some other element that itself carries `active` reverts to continuous. */
  lemma RevertNeedsOtherActiveElement(s: StrokeState, cs: set<string>, p: Preset)
    requires p != Continuous && ClassName(p) in cs && "active" in cs && ClassName(Continuous) !in cs
    ensures StrokeClick(s, Element(cs)) == StrokeState({Continuous}, None)
  {
  }
}
