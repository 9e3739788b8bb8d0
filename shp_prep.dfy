/**
 * The Shapefile export preparation: every feature whose type starts with "Multi" is split
 * into one feature per element of its coordinates, of the simple type, with a derived id and
 * empty properties; every other feature passes through; then every id is deleted.
 */
module ShpPrep {
  import opened Wrappers
  import opened GeoJson
  import JsText

  /** `featureType.match(/^Multi/)`. */
  predicate IsMulti(kind: string)
  {
    "Multi" <= kind
  }

  /** `${originalFeature.id}`: an absent id prints as "undefined". */
  function IdText(id: Option<string>): string
  {
    match id
    case None => "undefined"
    case Some(s) => s
  }

  /** The feature built for element `idx` of a split feature's coordinates. */
  function Piece(f: Feature, idx: nat, geometry: Geometry): Feature
  {
    Feature(Some(IdText(f.id) + JsText.NatToString(idx)), geometry, map[])
  }

  /**
   * The features one input feature becomes. An unknown "Multi…" type gets the empty type
   * name; its coordinates must be an array, or `.map` throws.
   */
  function Pieces(f: Feature): (r: Result<seq<Feature>, JsError>)
    ensures r.Failure? <==> f.geometry.Other? && IsMulti(f.geometry.kind) && f.geometry.raw.Leaf?
    ensures r.Success? ==> |r.value| == PartCount(f)
    ensures r.Success? && !Splits(f) ==> r.value == [f]
  {
    match f.geometry
    case MultiPoint(ps) => Success(seq(|ps|, i requires 0 <= i < |ps| => Piece(f, i, Point(ps[i]))))
    case MultiLineString(ls) => Success(seq(|ls|, i requires 0 <= i < |ls| => Piece(f, i, LineString(ls[i]))))
    case MultiPolygon(ms) => Success(seq(|ms|, i requires 0 <= i < |ms| => Piece(f, i, Polygon(ms[i]))))
    case Other(kind, raw) =>
      if !IsMulti(kind) then Success([f])
      else if raw.Leaf? then Failure(TypeError)
      else Success(seq(|raw.kids|, i requires 0 <= i < |raw.kids| => Piece(f, i, Other("", raw.kids[i]))))
    case _ => Success([f])
  }

  /** How many features `f` becomes when its split does not throw. */
  function PartCount(f: Feature): nat
  {
    match f.geometry
    case MultiPoint(ps) => |ps|
    case MultiLineString(ls) => |ls|
    case MultiPolygon(ms) => |ms|
    case Other(kind, raw) => if IsMulti(kind) && raw.Node? then |raw.kids| else 1
    case _ => 1
  }

  function TotalParts(fs: seq<Feature>): nat
  {
    if |fs| == 0 then 0 else TotalParts(fs[..|fs| - 1]) + PartCount(fs[|fs| - 1])
  }

  /** The `forEach` building `newFeatures`: pieces in input order, or the first throw. */
  function Decomposed(fs: seq<Feature>): (r: Result<seq<Feature>, JsError>)
    ensures r.Success? ==> |r.value| == TotalParts(fs)
  {
    if |fs| == 0 then Success([])
    else match Decomposed(fs[..|fs| - 1])
      case Failure(e) => Failure(e)
      case Success(init) =>
        match Pieces(fs[|fs| - 1])
        case Failure(e) => Failure(e)
        case Success(last) => Success(init + last)
  }

  /** The `delete feature.id` loop's result. */
  function WithoutIds(fs: seq<Feature>): (r: seq<Feature>)
    ensures |r| == |fs|
    ensures forall i :: 0 <= i < |fs| ==>
              r[i].id.None? && r[i].geometry == fs[i].geometry && r[i].properties == fs[i].properties
  {
    seq(|fs|, i requires 0 <= i < |fs| => fs[i].(id := None))
  }

  /** The simple type a split feature of kind `g` gets. */
  function SimpleGeometry(g: Geometry, i: nat): Option<Geometry>
  {
    match g
    case MultiPoint(ps) => if i < |ps| then Some(Point(ps[i])) else None
    case MultiLineString(ls) => if i < |ls| then Some(LineString(ls[i])) else None
    case MultiPolygon(ms) => if i < |ms| then Some(Polygon(ms[i])) else None
    case Other(kind, raw) =>
      if IsMulti(kind) && raw.Node? && i < |raw.kids| then Some(Other("", raw.kids[i])) else None
    case _ => None
  }

  /** Whether, and what, a feature is split into. */
  predicate Splits(f: Feature)
  {
    f.geometry.MultiPoint? || f.geometry.MultiLineString? || f.geometry.MultiPolygon?
    || (f.geometry.Other? && IsMulti(f.geometry.kind))
  }

  /**
   * The pieces of a split feature: the i-th is of the simple type and holds part i, with
   * id `<id><i>` and empty properties.
   */
  lemma PiecesSpec(f: Feature)
    ensures Pieces(f).Success? ==>
      var ps := Pieces(f).value;
      && (Splits(f) ==> forall i :: 0 <= i < |ps| ==>
            && SimpleGeometry(f.geometry, i).Some?
            && ps[i] == Feature(Some(IdText(f.id) + JsText.NatToString(i)), SimpleGeometry(f.geometry, i).value, map[]))
  {
  }

  /** Where the pieces of input `k` start: after the pieces of all inputs before it. */
  function Offset(fs: seq<Feature>, k: nat): nat
    requires k <= |fs|
  {
    TotalParts(fs[..k])
  }

  /** The pieces of input `k` sit consecutively in `out`, in order, after those of the inputs before it. */
  predicate PlacedAt(fs: seq<Feature>, out: seq<Feature>, k: nat)
    requires k < |fs|
  {
    && Pieces(fs[k]).Success?
    && Offset(fs, k) + PartCount(fs[k]) <= |out|
    && out[Offset(fs, k)..Offset(fs, k) + PartCount(fs[k])] == Pieces(fs[k]).value
  }

  /** `out` has as many features as all part counts together, and every input's pieces are placed. */
  predicate LaidOut(fs: seq<Feature>, out: seq<Feature>)
  {
    && |out| == TotalParts(fs)
    && forall k :: 0 <= k < |fs| ==> PlacedAt(fs, out, k)
  }

  /**
   * The decomposition of a whole collection: it succeeds exactly when every feature's split
   * does, has as many features as all part counts together, and the features coming from
   * input `k` sit consecutively, in order, after those of the inputs before it.
   */
  lemma {:induction false} DecomposedSpec(fs: seq<Feature>)
    ensures Decomposed(fs).Success? <==> forall k :: 0 <= k < |fs| ==> Pieces(fs[k]).Success?
    ensures Decomposed(fs).Success? ==> LaidOut(fs, Decomposed(fs).value)
  {
    if |fs| > 0 {
      var init := fs[..|fs| - 1];
      var last := fs[|fs| - 1];
      assert fs == init + [last];
      DecomposedSpec(init);
      forall k | 0 <= k < |init| ensures init[k] == fs[k] { }
      if Decomposed(fs).Success? {
        LaidOutStep(init, last, Decomposed(init).value, Pieces(last).value);
      }
    }
  }

  /** Appending one feature appends its pieces after those of the features before it. */
  lemma LaidOutStep(init: seq<Feature>, last: Feature, head: seq<Feature>, tail: seq<Feature>)
    requires LaidOut(init, head)
    requires Pieces(last) == Success(tail)
    ensures LaidOut(init + [last], head + tail)
  {
    var fs, out := init + [last], head + tail;
    PiecesSpec(last);
    assert fs[..|fs| - 1] == init;
    forall k | 0 <= k < |fs|
      ensures PlacedAt(fs, out, k)
    {
      if k < |init| {
        EarlierPiecesKept(init, last, head, tail, k);
      } else {
        LastPiecesPlaced(init, last, head, tail);
      }
    }
  }

  /** The pieces of an appended input come right after all earlier pieces. */
  lemma LastPiecesPlaced(init: seq<Feature>, last: Feature, head: seq<Feature>, tail: seq<Feature>)
    requires LaidOut(init, head)
    requires Pieces(last) == Success(tail)
    ensures PlacedAt(init + [last], head + tail, |init|)
  {
    var fs, out := init + [last], head + tail;
    PiecesSpec(last);
    assert fs[..|init|] == init;
    assert out[|head|..|head| + |tail|] == tail;
  }

  /** The pieces of an earlier input stay where they were when more pieces are appended. */
  lemma EarlierPiecesKept(init: seq<Feature>, last: Feature, head: seq<Feature>, tail: seq<Feature>, k: nat)
    requires LaidOut(init, head) && k < |init|
    ensures PlacedAt(init + [last], head + tail, k)
  {
    var fs, out := init + [last], head + tail;
    assert PlacedAt(init, head, k);
    assert fs[k] == init[k];
    assert fs[..k] == init[..k];
    var lo, hi := Offset(init, k), Offset(init, k) + PartCount(init[k]);
    assert out[lo..hi] == head[lo..hi];
  }

  /** The example of a MultiPoint with three points and id "A": Points "A0", "A1", "A2". */
  lemma ThreePointExample(a: Position, b: Position, c: Position, props: map<string, string>)
    ensures Pieces(Feature(Some("A"), MultiPoint([a, b, c]), props)) ==
      Success([Feature(Some("A0"), Point(a), map[]), Feature(Some("A1"), Point(b), map[]),
               Feature(Some("A2"), Point(c), map[])])
  {
    var f := Feature(Some("A"), MultiPoint([a, b, c]), props);
    var ps := Pieces(f).value;
    assert JsText.NatToString(0) == "0" && JsText.NatToString(1) == "1" && JsText.NatToString(2) == "2";
    assert IdText(f.id) + JsText.NatToString(0) == "A0";
    assert ps[0] == Feature(Some("A0"), Point(a), map[]);
    assert IdText(f.id) + JsText.NatToString(1) == "A1";
    assert ps[1] == Feature(Some("A1"), Point(b), map[]);
    assert IdText(f.id) + JsText.NatToString(2) == "A2";
    assert ps[2] == Feature(Some("A2"), Point(c), map[]);
    assert |ps| == 3;
    assert ps == [ps[0], ps[1], ps[2]];
  }
}
