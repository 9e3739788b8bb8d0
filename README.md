# Vectors control — a Dafny model

This project models the logic of the Vectors plugin's facade control,
`src/facade/js/vectorscontrol.js`. The control lets a map user draw, edit, upload and
download vector layers. The model covers five parts of it:

- **Reprojection** (`reproject.dfy`). Before a download, a layer's GeoJSON features are
  walked and rebuilt with every position sent through the map's coordinate transform.
  The walk is nested `for`/`push` loops, one arrangement per RFC 7946 geometry type
  (section 3.1 of RFC 7946). An unknown type gets empty coordinates.
- **Export corrections** (`kml_fix.dfy`, `shp_prep.dfy`, `feature_collection.dfy`).
  - The KML fix pops a trailing `NaN` off positions, in place. Its case label is spelled
    "Poylgon", so Polygons are never fixed, and its crash paths are kept.
  - The Shapefile preparation splits every "Multi…" feature into simple features and then
    deletes every id.
  - The download switch applies one, the other or neither.
- **Styles and dash presets** (`styles.dfy`).
  - The style each geometry type gets from the current colour, thickness and dash.
  - The three dash constants.
  - The stroke-option click handler, with its clearing of `active` marks before the
    re-click test.
  - The classification of a dash pattern back into an option.
  - The drawing parameters read back from a selected feature's style when its info is shown.
  - The style `styleChange` gives a feature when the colour or thickness input changes.
- **The interaction state machine** (`vectors_control.dfy`). A class with the control's
  fields: drawing/editing flags, the layer acted on, the selected feature and its type, the
  emphasis and the selection layer's contents. Two flags stand for the map's draw and select
  interactions. Its methods are the handlers that update them. The same class holds the
  chosen file, the stroke options and the drawing parameters (colour, thickness, dash), which
  selecting or drawing a feature reads back from its style.
- **Small string and list rules** (`js_text.dfy`, `upload.dfy`, `layer_list.dfy`).
  - The upload size guard.
  - The extension and layer name cut from a file name. The extension uses JavaScript's
    `>>> 0`, which is modelled as reduction modulo 2^32.
  - The extension dispatch and the load outcome.
  - The layer-list filter and point/polygon/line classification.
  - The z-index countdown after the list is reordered.

Representation choices:

- Coordinate values are `Num(real)` or `NaN`.
- Strings are `seq<char>`. The JavaScript string and number helpers the code relies on are
  modelled in `JsText`: `lastIndexOf`, `slice`, `split`/`join`, `parseInt(…, 10)`, decimal
  printing and ASCII `toLowerCase`.
- A thrown `TypeError` is a result flag or a `Failure`.
- Services the control calls into become parameters or flags:
  - the map's transform;
  - the timestamp;
  - the loaders' results;
  - the draw and select interactions.

### Behaviour kept as written

The control is often described by its intended behaviour. In these places the code does
something else, and the model follows the code:

- Re-clicking the active dash option is meant to turn dashing off. In the code, every option
  `div` loses `active` before the clicked one is tested, so clicking an option `div` always
  selects it (`Styles.OptionClickSelects`, `Styles.ReclickKeepsOption`).
- "Edit" on a featureless layer is meant to warn and change nothing. In the code it has
  already stopped drawing, cleared the selection and released both interactions. Only the
  edit flag and the layer stay as they were (`Control.VectorsControl.OpenEditOptions`). If
  another layer was being edited, the edit flag stays up with no select interaction.
- Deleting the last feature while editing warns "no features". It leaves the deleted-from
  layer set while neither mode is active (`Control.VectorsControl.DeleteSingleFeature`).
- Polygons are never KML-fixed, because of the "Poylgon" label (`KmlFix.PolygonUntouched`).
- A polygon's stroke width is `parseInt(thickness, 10)` rather than the thickness text
  itself (`Styles.PolygonWidthFromThickness`). Selecting the polygon then reads that number
  back as the thickness, so "4px" becomes 4 (`Styles.ReadBackPolygonThickness`).
- Re-styling with `styleChange` does not parse the thickness: a polygon gets the raw text as
  its width. An unknown geometry type is skipped there, where drawing-time styling throws
  (`Styles.RestyledAgainstFeatureStyle`).
- Showing the info of a point or polygon whose style has no fill throws a `TypeError` on
  `style.fill.color`, and the drawing parameters stay as they were (`Styles.ReadBack`).
- An extension other than the four known ones shows an error. The download code then still
  saves a file named `<layer>.undefined` (`Export.FeatureCollection.PrepareDownload`'s
  `NotSelected`).

## Model

| member | source | states |
|---|---|---|
| Reprojection.TransformCoordinates | src/facade/js/vectorscontrol.js:856-916 | the rebuilt coordinates have the input's type and, at every nesting level, the input's lengths; every position is the transform of the input position at the same place; an unknown type gets empty coordinates |
| Reprojection.GeojsonTo4326 | src/facade/js/vectorscontrol.js:838-921 | one output feature per input, in order; each keeps the input's id and properties and gets the input's geometry reprojected |
| Reprojection.ReprojectedIsUnique | src/facade/js/vectorscontrol.js:853-921 | the reprojection of a geometry is determined by the geometry, the projection code and the transform |
| Reprojection.IdentityKeepsGeometry | src/facade/js/vectorscontrol.js:856-916 | with a transform that maps every position to itself, a geometry of a known type comes back unchanged |
| Reprojection.ReprojectTwice | src/facade/js/vectorscontrol.js:856-916 | with an idempotent transform, reprojecting twice gives the same geometry as reprojecting once |
| GeoJson.EndsInNaN | src/facade/js/vectorscontrol.js:581 | a position ends in NaN exactly when it is non-empty and popping its last value and putting NaN back rebuilds it |
| GeoJson.Pop | src/facade/js/vectorscontrol.js:582 | `pop()` keeps all values but the last, in order, and leaves an empty position empty |
| GeoJson.PopEach | src/facade/js/vectorscontrol.js:588 | popping every position keeps their number, and each loses exactly its last value |
| KmlFix.PointFix | src/facade/js/vectorscontrol.js:580-584 | a Point loses its last value if and only if that value is NaN, and never throws |
| KmlFix.LineStringFix | src/facade/js/vectorscontrol.js:585-590 | a LineString throws exactly when it has no position; otherwise every position loses its last value exactly when the first position ends in NaN |
| KmlFix.FixPartsSpec | src/facade/js/vectorscontrol.js:592-609 | for a MultiPolygon, the pass throws exactly when some part or its first ring is empty; each part before the first such part loses the last value of every position in all of its rings exactly when the first position of its first ring ends in NaN; later parts are untouched |
| KmlFix.PolygonUntouched | src/facade/js/vectorscontrol.js:591-611 | Polygon, MultiPoint and MultiLineString geometries are left as they are and do not throw |
| KmlFix.PolygonNaNKept | src/facade/js/vectorscontrol.js:591-601 | a concrete Polygon whose positions end in NaN keeps those values |
| KmlFix.FixGeometry | src/facade/js/vectorscontrol.js:579-612 | the correction keeps a geometry's type; only a LineString, a MultiPolygon or an unknown type labelled "Poylgon" can throw |
| KmlFix.FixPart | src/facade/js/vectorscontrol.js:592-609 | a part is processed exactly when it and its first ring are non-empty (else the access throws); then every position of every ring loses its last value exactly when the first ring's first position ends in NaN |
| KmlFix.FixParts | src/facade/js/vectorscontrol.js:592-609 | the parts keep their number; the pass throws exactly when some part is not processable |
| KmlFix.FixFeature | src/facade/js/vectorscontrol.js:578-613 | the corrected feature keeps its id, its properties and its geometry type |
| KmlFix.FirstThrowing | src/facade/js/vectorscontrol.js:578-613 | the index of the first feature whose visit throws: every feature before it passes, and it throws unless it is the end |
| Export.FeatureCollection.constructor | src/facade/js/vectorscontrol.js:680-684 | the collection holds the given features |
| Export.FeatureCollection.FixKmlBug | src/facade/js/vectorscontrol.js:575-617 | the feature count and order are unchanged; it throws exactly when some feature's visit throws; features up to and including the throwing one are corrected (the throwing one partly), later ones are untouched |
| ShpPrep.Pieces | src/facade/js/vectorscontrol.js:631-663 | only an unknown Multi type without an array throws; otherwise a feature becomes as many features as it has parts, and a feature that is not split stays as it is |
| ShpPrep.PiecesSpec | src/facade/js/vectorscontrol.js:632-663 | the i-th piece of a split feature is of the simple type, holds part i, and has id `<id><i>` and empty properties |
| ShpPrep.Decomposed | src/facade/js/vectorscontrol.js:631-666 | a successful split has as many features as the part counts together |
| ShpPrep.DecomposedSpec | src/facade/js/vectorscontrol.js:631-666 | the collection's split succeeds exactly when every feature's does; it then has as many features as all part counts together, and each input's pieces sit consecutively and in order after those of the inputs before it |
| ShpPrep.WithoutIds | src/facade/js/vectorscontrol.js:667-669 | every feature loses its id and keeps its geometry and properties, in order |
| ShpPrep.ThreePointExample | src/facade/js/vectorscontrol.js:635-659 | a MultiPoint with three points and id "A" becomes Points "A0", "A1", "A2" with empty properties |
| Export.FeatureCollection.ParseForShp | src/facade/js/vectorscontrol.js:627-671 | on a throw the collection is unchanged; otherwise it holds the decomposition with every id deleted |
| Export.FeatureCollection.PrepareDownload | src/facade/js/vectorscontrol.js:692-744 | GeoJSON and GPX are saved as they are with their extension and MIME type; KML after the KML correction; Shapefile after the Shapefile preparation; a TypeError in a correction escapes `downloadLayer` and nothing is saved; any other format is not selected and leaves the features unchanged |
| Styles.FeatureStyle | src/facade/js/vectorscontrol.js:484-525 | styling succeeds exactly for the six GeoJSON geometry types |
| Styles.StyleRule | src/facade/js/vectorscontrol.js:484-525 | points get radius = thickness, fill = colour and a white outline of width 2; lines get a stroke of the colour, width = thickness and the current dash; polygons get a 0.2-opaque fill of the colour and an undashed stroke of the colour whose width is `parseInt` of the thickness; any other type is an error |
| Styles.ParsedWidth | src/facade/js/vectorscontrol.js:518 | the width is NaN exactly when `parseInt` finds no digits in the thickness text, and otherwise the integer it reads; an integral number is kept |
| Styles.PolygonWidthFromThickness | src/facade/js/vectorscontrol.js:509-520 | a polygon's stroke width is the integer the thickness text starts with |
| Styles.ParsedWidthOfDecimal | src/facade/js/vectorscontrol.js:518 | `parseInt` of a thickness text made of a decimal and a non-digit suffix is that decimal |
| Styles.Restyled | src/facade/js/vectorscontrol.js:422-468 | re-styling gives a style exactly for the six geometry types, and none (the style is left alone) for any other |
| Styles.RestyledAgainstFeatureStyle | src/facade/js/vectorscontrol.js:422-468 | re-styling agrees with drawing-time styling except in a polygon's stroke width, which is the raw thickness; the two agree exactly when parseInt keeps the thickness |
| Styles.RestyledPolygonKeepsText | src/facade/js/vectorscontrol.js:462 | a polygon re-styled with a thickness like "4px" gets that text as its width, where drawing gave the number 4 |
| Styles.OrSix | src/facade/js/vectorscontrol.js:1279 | `x || 6` is `x` when it is truthy and 6 otherwise, and always truthy |
| Styles.ReadBack | src/facade/js/vectorscontrol.js:1276-1323 | reading a style back throws exactly when a point or polygon style lacks a fill; an unknown type changes nothing; the thickness read is truthy; a line's dash is the stroke's and exactly its classified option is marked active; points and polygons keep the dash and the marks |
| Styles.ReadBackOfDrawnStyle | src/facade/js/vectorscontrol.js:1276-1323 | reading back a style set at drawing time never throws and keeps the colour and dash; points and lines keep a truthy thickness, a line's option is marked active, and a polygon gets the parseInt of the thickness, or 6 |
| Styles.ReadBackMarksDrawnOption | src/facade/js/vectorscontrol.js:1282-1296 | selecting a line drawn with an option's dash marks exactly that option active |
| Styles.ReadBackPolygonThickness | src/facade/js/vectorscontrol.js:1318-1323 | a polygon drawn with a thickness text that parses to a non-zero n is read back with thickness n |
| Styles.PresetOf | src/facade/js/vectorscontrol.js:1288-1296 | a dash pattern that is one of the options' is classified as an option with that pattern; no dash is continuous |
| Styles.PresetRoundTrip | src/facade/js/vectorscontrol.js:1288-1296 | each option's dash pattern (none for continuous, `[1,15]`, `[10,15]`, `[1,15,20,15]`) is classified back as that option |
| Styles.StrokeClick | src/facade/js/vectorscontrol.js:297-343 | a click on an element without an option class changes nothing; otherwise exactly one option is active, the one the new dash pattern is classified as, and the dash is that option's |
| Styles.OptionClickSelects | src/facade/js/vectorscontrol.js:297-343 | clicking an option `div` leaves exactly that option active with its dash pattern, whatever was active before |
| Styles.ReclickKeepsOption | src/facade/js/vectorscontrol.js:297-343 | clicking the same option twice leaves it selected |
| Styles.ActiveMatchesDash | src/facade/js/vectorscontrol.js:297-343 | after any click that runs a branch, exactly one option is active and it is the option the new dash pattern is classified as |
| Styles.RevertNeedsOtherActiveElement | src/facade/js/vectorscontrol.js:306-313 | the revert to continuous happens for an element that carries a dashed option's class and `active` but is not one of the cleared `div`s |
| Control.VectorsControl.ClickStrokeOption | src/facade/js/vectorscontrol.js:297-345 | the active options and the current dash pattern become what the click rule gives for the old ones; the closing `styleChange(e)` restyles the selected feature with `Styles.Restyled` (see "## Left out") |
| Control.VectorsControl.ClearActiveOptions | src/facade/js/vectorscontrol.js:301-303 | after the loop over the option `div`s none is active |
| Control.VectorsControl.SelectUnlessActive | src/facade/js/vectorscontrol.js:311-317 | continuous when the clicked element is still active, else the branch's option and its dash |
| JsText.NatToString | src/facade/js/vectorscontrol.js:639 | a number prints as a non-empty string of decimal digits |
| JsText.DigitsValueOfNatToString | src/facade/js/vectorscontrol.js:639 | reading a printed number's digits gives the number back |
| JsText.TrimStart | src/facade/js/vectorscontrol.js:518 | the result is a suffix, everything dropped before it is JavaScript whitespace, and it does not start with whitespace |
| JsText.DigitPrefix | src/facade/js/vectorscontrol.js:518 | the longest prefix made of decimal digits |
| JsText.ParseInt | src/facade/js/vectorscontrol.js:518 | a number is read only from a text that holds a digit, and a negative one only from a text with a minus sign |
| JsText.ParseTrimmed | src/facade/js/vectorscontrol.js:518 | after the white space, a number is read only when a digit is present, and a negative one only after a leading minus |
| JsText.TrimStartSkipsWhitespace | src/facade/js/vectorscontrol.js:518 | white space put in front of a text does not change what trimming leaves |
| JsText.ParseIntSkipsWhitespace | src/facade/js/vectorscontrol.js:518 | white space in front of a text does not change what `parseInt` reads |
| JsText.ParseIntSigned | src/facade/js/vectorscontrol.js:518 | white space, a sign, a printed number and a non-digit suffix read as that number, negated after a minus |
| JsText.ParseIntNaN | src/facade/js/vectorscontrol.js:518 | `parseInt` gives NaN exactly when, after the white space and one optional sign, the text is empty or starts with a non-digit |
| JsText.ParseIntOfDecimal | src/facade/js/vectorscontrol.js:518 | `parseInt` of a printed number followed by a non-digit gives that number |
| JsText.LastIndexOf | src/facade/js/vectorscontrol.js:791 | the index of the last occurrence, or -1 when there is none |
| JsText.ToUint32 | src/facade/js/vectorscontrol.js:791 | `>>> 0` yields an unsigned 32-bit value |
| JsText.ToUint32OneWrap | src/facade/js/vectorscontrol.js:791 | a value within one period of zero is kept when non-negative and shifted up by 2^32 when negative |
| JsText.Slice | src/facade/js/vectorscontrol.js:791 | `slice(start)` is the suffix of the text after `start` characters, empty when `start` is past the end |
| JsText.Split | src/facade/js/vectorscontrol.js:792 | splitting always yields at least one part |
| JsText.JoinSplit | src/facade/js/vectorscontrol.js:792 | joining the split parts with the separator gives the text back |
| JsText.SplitCount | src/facade/js/vectorscontrol.js:792 | there is more than one part exactly when the separator occurs |
| JsText.Join | src/facade/js/vectorscontrol.js:792 | joining starts with the first part, followed by the separator when there is a second; no parts join to the empty text and one part to itself |
| JsText.DropLast | src/facade/js/vectorscontrol.js:792 | `slice(0, -1)` keeps all parts but the last, in order |
| JsText.BeforeLast | src/facade/js/vectorscontrol.js:792 | the text before the last separator: a prefix followed by the separator with no separator after it, or empty when there is none |
| JsText.TextBeforeLast | src/facade/js/vectorscontrol.js:792 | joining all parts but the last gives the text before the last separator, or nothing when there is none |
| JsText.Contains | src/facade/js/vectorscontrol.js:203-207 | `indexOf(sub) > -1` holds for a prefix, and only for a pattern no longer than the text |
| JsText.ContainsSpec | src/facade/js/vectorscontrol.js:203-207 | `indexOf(sub) > -1` holds exactly when `sub` occurs at some index of the text |
| JsText.ToLower | src/facade/js/vectorscontrol.js:192 | each ASCII capital becomes its lower-case letter, every other character is kept, and no capital is left |
| Upload.SizeBoundary | src/facade/js/vectorscontrol.js:774 | a file of exactly 20971520 bytes passes the size guard; one byte more is dropped |
| Upload.ExtensionAfterSpec | src/facade/js/vectorscontrol.js:791 | `(i - 1 >>> 0) + 2` starts the slice right after a dot at position 1 or later and past the end of the name for a dot at 0 or no dot |
| Upload.FileExtension | src/facade/js/vectorscontrol.js:791 | the extension is a proper suffix of the file name, or empty |
| Upload.FileExtensionSpec | src/facade/js/vectorscontrol.js:791 | the extension is the text after the last dot, and empty when there is no dot or the only candidate dot is the first character |
| Upload.FileExtensionHasNoDot | src/facade/js/vectorscontrol.js:791 | the extension never contains a dot |
| Upload.BaseName | src/facade/js/vectorscontrol.js:792 | the layer name is a proper prefix of the file name, or empty, and empty when the name has no dot |
| Upload.BaseNameSpec | src/facade/js/vectorscontrol.js:792 | the layer name is the text before the last dot, or empty when there is none |
| Upload.NameRoundTrip | src/facade/js/vectorscontrol.js:791-792 | with a dot past the first character, layer name, dot and extension rebuild the file name |
| Upload.ReadModeFor | src/facade/js/vectorscontrol.js:819-827 | a read is started exactly for zip, kml, gpx and geojson, and only a zip is read as an array buffer |
| Upload.LoaderFor | src/facade/js/vectorscontrol.js:797-806 | a loader exists exactly for zip, kml, gpx and geojson, and the Shapefile loader only for zip |
| Upload.ReaderAndLoaderAgree | src/facade/js/vectorscontrol.js:797-827 | a read is started exactly for the extensions the load handler has a loader for, and only a zip is read as binary |
| Upload.OnLoaded | src/facade/js/vectorscontrol.js:793-818 | an unknown extension is a load error; a throwing loader gives the "load correct" error; zero features gives the info message, not an error; otherwise the map is centred on the features |
| Upload.Choose | src/facade/js/vectorscontrol.js:771-827 | no file does nothing; an oversized file is dropped; an unknown extension is an error; otherwise the matching loader reads the file under the layer name cut from it |
| Upload.ChooseKmlExample | src/facade/js/vectorscontrol.js:789-824 | "roads.kml" is read as text by the KML loader into a layer named "roads" |
| Control.VectorsControl.ChangeFile | src/facade/js/vectorscontrol.js:771-781 | the file is kept unless it is over the size limit, when it is dropped; the next step is the upload rule's |
| LayerList.Eligibles | src/facade/js/vectorscontrol.js:192-195 | exactly the layers of type kml/geojson/wfs/vector (any case) with a name other than the control's own layers are kept |
| LayerList.EligiblesAppend | src/facade/js/vectorscontrol.js:192-195 | the filter keeps map order and multiplicity: filtering two lists one after the other gives the two filtered lists one after the other |
| LayerList.Classified | src/facade/js/vectorscontrol.js:200-207 | the first of "point", "polygon", "line" that the geometry mentions sets that flag and no other; a flag already set stays set; every other field is kept |
| LayerList.Entry | src/facade/js/vectorscontrol.js:198-216 | an eligible layer is listed exactly when it is not the KML attributions layer and is flagged; a listed layer's entry is the classified layer with its legend (its name when it has none) and its visibility |
| LayerList.Entries | src/facade/js/vectorscontrol.js:198-218 | there are no more entries than layers, and each entry is the entry of one of the layers |
| LayerList.EntriesAppend | src/facade/js/vectorscontrol.js:197-218 | the entries of two lists one after the other are the two lists' entries one after the other, so map order and multiplicity are kept |
| LayerList.EntriesComplete | src/facade/js/vectorscontrol.js:197-218 | every layer of the list that gets an entry has that entry in the list |
| LayerList.RenderLayers | src/facade/js/vectorscontrol.js:191-218 | the loop collects the entries of the eligible layers in map order |
| LayerList.EntriesShown | src/facade/js/vectorscontrol.js:191-218 | every listed layer is eligible, flagged, has a legend and is not the attributions layer |
| LayerList.SelectionLayerNeverListed | src/facade/js/vectorscontrol.js:192-195 | the control's selection layer never appears in the list |
| LayerList.FirstNamed | src/facade/js/vectorscontrol.js:256-258 | the index of the first layer with a name, or -1 when none has it |
| LayerList.MaxZIndex | src/facade/js/vectorscontrol.js:250-252 | the largest z-index of the listed layers |
| LayerList.Renumbered | src/facade/js/vectorscontrol.js:253-264 | renumbering keeps the number of layers and their names |
| LayerList.Reorder | src/facade/js/vectorscontrol.js:249-265 | the loop gives the renumbering that starts from the largest z-index |
| LayerList.RenumberedUntouched | src/facade/js/vectorscontrol.js:253-264 | a layer not named by any list item keeps its z-index |
| LayerList.RenumberedCountsDown | src/facade/js/vectorscontrol.js:253-264 | when the list items name distinct existing layers, the layer named by the i-th item gets z-index `top - i` |
| LayerList.ReorderTopGetsMax | src/facade/js/vectorscontrol.js:249-265 | after a reorder, the i-th item's layer sits at the largest previous z-index minus i |
| Control.EmphasisFor | src/facade/js/vectorscontrol.js:1206-1225 | the emphasis of a point is a clone with a red halo of radius 20; of anything else a frame around its extent drawn as a red line of width 2 |
| Control.DrawToggle | src/facade/js/vectorscontrol.js:1081-1104 | "draw" on the layer being drawn on ends idle; on any other layer, or when not drawing, it starts drawing there |
| Control.EditToggle | src/facade/js/vectorscontrol.js:1106-1128 | "edit" on the layer being edited always ends idle; otherwise it edits the layer exactly when it has features; on a featureless layer editing elsewhere goes on and anything else ends idle; it never leaves drawing on |
| Control.ToggleTwice | src/facade/js/vectorscontrol.js:1081-1128 | pressing the same mode button twice, from a mode other than that one, ends idle |
| Control.VectorsControl.constructor | src/facade/js/vectorscontrol.js:54-142 | the control starts idle, with no layer, nothing selected, no interaction and continuous stroke |
| Control.VectorsControl.EmphasizeSelectedFeature | src/facade/js/vectorscontrol.js:1202-1229 | the selection layer holds exactly the selected feature's emphasis when one is selected and nothing otherwise |
| Control.VectorsControl.DeactivateDrawing | src/facade/js/vectorscontrol.js:1137-1153 | the selection is forgotten, the selection layer emptied and the draw interaction removed |
| Control.VectorsControl.DeactivateSelection | src/facade/js/vectorscontrol.js:1342-1360 | the selection and its type are forgotten, the selection layer emptied and the select interaction removed |
| Control.VectorsControl.ResetInteractions | src/facade/js/vectorscontrol.js:1058-1069 | the control ends idle with no layer, nothing selected, no interaction, the invariant holding and the drawing parameters kept |
| Control.VectorsControl.OpenDrawOptions | src/facade/js/vectorscontrol.js:1081-1104 | the invariant holds after; the mode becomes the draw toggle of the old one; editing and the selection end |
| Control.VectorsControl.OpenEditOptions | src/facade/js/vectorscontrol.js:1106-1128 | the invariant is kept; the mode becomes the edit toggle of the old one; drawing and the selection end; the warning fires exactly for a featureless layer that would have been entered |
| Control.VectorsControl.OnSelect | src/facade/js/vectorscontrol.js:931-945 | a feature on the layer becomes the selection with its type and emphasis, and the drawing parameters become what its info reads back (or stay, when that throws); one not on the layer leaves none selected, the type, emphasis, selection layer and parameters as they were, and throws |
| Control.FeatureInfo | src/facade/js/vectorscontrol.js:1237-1340 | the parameters change only when the info box is shown for a point, line or polygon feature with a style, and then they are read back from that style; a missing feature throws |
| Control.VectorsControl.ShowFeatureInfo | src/facade/js/vectorscontrol.js:1237-1340 | the drawing parameters become what the info rule gives for the old ones, or stay as they were when reading the style throws |
| Control.DrawnFeatureInfo | src/facade/js/vectorscontrol.js:1181-1191 | showing the info of a feature styled from the drawing parameters never throws and keeps the colour and dash |
| Control.VectorsControl.OnDraw | src/facade/js/vectorscontrol.js:1181-1191 | the drawn feature gets id `<layer>.<time>` and the style of the old parameters, is appended to the layer and emphasized, the mode unchanged, and showing its info cannot throw and reads the parameters back from that style; an unstyleable type throws before it is added and leaves the emphasis, the selection layer and the parameters |
| Control.VectorsControl.AddDrawnFeature | src/facade/js/vectorscontrol.js:1182-1189 | the feature is created, styled, appended to the layer and emphasized, or the styling throws before it is added, with the invariant kept |
| Control.VectorsControl.DeleteSingleFeature | src/facade/js/vectorscontrol.js:1161-1170 | the selected feature is removed from the layer, the selection and its type forgotten and the selection layer emptied; if editing, editing goes on exactly when features remain, and otherwise the warning fires |
| Control.Without | src/facade/js/vectorscontrol.js:1162 | removing a feature keeps every other one and drops only that one |
| Control.WithoutAppend | src/facade/js/vectorscontrol.js:1162 | removal works run by run, so the remaining features keep their order and number |

## Left out

- The DOM and templates are not modelled. This covers `createView`, the drawing, upload and
  layer templates, `showFeatureInfo`'s HTML and input values, `clickLayer`'s dialogs,
  `changeLayerLegend`, `addDragDropEvents` and the `setTimeout` calls. They are presentation
  only. Whether the `#featureInfo` box exists is the `infoShown` parameter of
  `Control.VectorsControl.ShowFeatureInfo`, `OnSelect` and `OnDraw`.
- `showFeatureInfo`'s coordinate, length and area figures come from the map implementation
  (`getFeatureCoordinates`, `getFeatureLength`, `getFeatureArea`). They are display only and
  not modelled, nor any throw inside them.
- The in-place re-styling of `styleChange` and `onModify` is not modelled, nor the
  `styleChange(e)` that ends the stroke-option click handler (line 345): the feature object
  they restyle is shared with the layer, and the model holds features as values. The style
  they set is `Styles.Restyled`, and the colour and thickness they store come from the DOM
  inputs.
- LayerList.Entries returns the listed layers as new values. In `renderLayers` the entry is
  the map's own layer object (`const newLayer = layer`, line 199), so the flags, the default
  legend and `visible` it sets stay on the map's layers after rendering; the model does not
  write them back.
- `preserveFeatureStyles` is not modelled. It sets each feature's style to the style it
  already has.
- `getProfile`, `toogleActivate`, `equals`, `openDownloadOptions`, `openUploadOptions` and
  `addNewLayer` are not modelled. They are UI wiring and map services.
- The serializers `tokml`, `togpx` and `shpWrite.download` are not modelled, nor the Blob
  and link download. They are foreign libraries. The model stops at what is handed to them.
- `shp.parseZip`, the `FileReader` and the four layer loaders are not modelled. They are
  foreign and asynchronous. The load handler takes their result (or their throw) as a
  parameter.
- The map services are parameters:
  - the coordinate transform is a function parameter;
  - the feature clone and extent frame are recorded as the feature they stand for;
  - the draw and select interactions are two booleans;
  - `new Date().getTime()` is a parameter.
- Floating point is not modelled. Coordinates are reals with an explicit `NaN`.
  `formatNumber` and the length and area figures are display only.
- Malformed coordinate nesting for a known geometry type cannot be represented, so the
  `TypeError`s it would raise in the reprojection walk are not modelled. An unknown type
  carries an arbitrary tree, and its crash paths are modelled.
- `JsText.ToLower` lower-cases ASCII letters only. The layer types and names it is applied
  to are ASCII.
- `JsText.ParseInt` reads exact integers. It does not model JavaScript's loss of precision
  past 2^53, or `-0`.
- Upload.FileExtensionSpec is stated for names shorter than 2^32 characters. Longer names
  make `>>> 0` wrap a second time.
- Upload.NameRoundTrip is stated for names shorter than 2^32 characters, for the same reason.
- Upload.FileExtensionHasNoDot is stated for names shorter than 2^32 characters, for the same
  reason.
- LayerList.RenumberedCountsDown is stated for list items that name distinct layers that
  all exist. Duplicate names renumber only the first layer with the name.
- LayerList.ReorderTopGetsMax is stated for a non-empty layer list and for list items that
  name distinct layers that all exist, for the same reason. An empty list's maximum would be
  `-Infinity`.
- Styles.ParsedWidth reads a numeric thickness back through its integer part. JavaScript
  prints very large or very small numbers in exponent notation, which `parseInt` would read
  differently; thicknesses are small numbers.
- Control.VectorsControl.OnSelect finds the selected feature by value equality rather than
  by the identity of the underlying map feature. Control.Without likewise removes equal
  features rather than one object.
- `M.utils.isNullOrEmpty(file)` is modelled as "no file". An empty non-null object is not
  distinguished.
- Z-indices are integers. An undefined z-index (a `NaN` maximum) is not modelled.
