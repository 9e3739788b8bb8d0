/**
 * Layer upload: the size limit, how the extension and the layer name are cut out of the
 * file name, how the file is read and which loader handles it, and what the user is told.
 */
module Upload {
  import opened Wrappers
  import opened GeoJson
  import JsText

  /** The largest accepted file, 20 MiB. */
  const MAX_SIZE: nat := 20971520

  /** The part of a browser `File` the upload looks at. */
  datatype FileInfo = FileInfo(name: string, size: nat)

  /** A file passes the size guard when it is at most `MAX_SIZE` bytes. */
  predicate Accepted(f: FileInfo)
  {
    f.size <= MAX_SIZE
  }

  /**
   * The extension: `name.slice((name.lastIndexOf('.') - 1 >>> 0) + 2)`, where `>>> 0`
   * reads the difference as an unsigned 32-bit integer.
   */
  function FileExtension(name: string): (r: string)
    ensures |r| < |name| || r == ""
    ensures r == name[|name| - |r|..]
  {
    ExtensionAfter(name, JsText.LastIndexOf(name, '.'))
  }

  /** `name.slice((i - 1 >>> 0) + 2)` for a dot position `i` (-1 when there is no dot). */
  function ExtensionAfter(name: string, i: int): string
  {
    JsText.Slice(name, JsText.ToUint32(i - 1) + 2)
  }

  /** The layer name: the dot-separated parts of the file name but the last, joined by dots. */
  function BaseName(name: string): (r: string)
    ensures |r| < |name| || r == ""
    ensures r == name[..|r|]
    ensures '.' !in name ==> r == ""
  {
    JsText.TextBeforeLast(name, '.');
    JsText.Join(JsText.DropLast(JsText.Split(name, '.')), '.')
  }

  /**
   * The extension is what follows the last dot, unless that dot is the first character or
   * there is none: then it is empty (a name like ".kml" has no extension).
   */
  lemma FileExtensionSpec(name: string)
    requires |name| < 0x1_0000_0000
    ensures var i := JsText.LastIndexOf(name, '.');
            FileExtension(name) == if i >= 1 then name[i + 1..] else ""
  {
    ExtensionAfterSpec(name, JsText.LastIndexOf(name, '.'));
  }

  /**
   * For a position from -1 up to a length below 2^32, `i - 1 >>> 0` is `i - 1` when `i >= 1`
   * and wraps to at least 2^32 - 2 otherwise, past the end of the name.
   */
  lemma ExtensionAfterSpec(name: string, i: int)
    requires -1 <= i < |name| < 0x1_0000_0000
    ensures ExtensionAfter(name, i) == if i >= 1 then name[i + 1..] else ""
  {
    JsText.ToUint32OneWrap(i - 1);
  }

  /** The extension never holds a dot. */
  lemma FileExtensionHasNoDot(name: string)
    requires |name| < 0x1_0000_0000
    ensures '.' !in FileExtension(name)
  {
    FileExtensionSpec(name);
    var i := JsText.LastIndexOf(name, '.');
    if i >= 1 {
      var e := name[i + 1..];
      forall k | 0 <= k < |e|
        ensures e[k] != '.'
      {
        assert e[k] == name[i + 1 + k];
      }
    }
  }

  /** The layer name is everything before the last dot, or empty when there is no dot. */
  lemma BaseNameSpec(name: string)
    ensures var i := JsText.LastIndexOf(name, '.');
            BaseName(name) == if i >= 0 then name[..i] else ""
  {
    JsText.TextBeforeLast(name, '.');
  }

  /** When a dot past the first character exists, layer name, dot and extension rebuild the file name. */
  lemma NameRoundTrip(name: string)
    requires |name| < 0x1_0000_0000
    requires JsText.LastIndexOf(name, '.') >= 1
    ensures BaseName(name) + "." + FileExtension(name) == name
  {
    FileExtensionSpec(name);
    BaseNameSpec(name);
    var i := JsText.LastIndexOf(name, '.');
    Reassemble(name, i, BaseName(name), FileExtension(name));
  }

  /** The text before and after a dot at `i`, rejoined by a dot, is the whole text. */
  lemma Reassemble(name: string, i: nat, base: string, ext: string)
    requires i < |name| && name[i] == '.'
    requires base == name[..i] && ext == name[i + 1..]
    ensures base + "." + ext == name
  {
    assert name == name[..i] + [name[i]] + name[i + 1..];
  }

  /** The formats the upload understands. */
  datatype Format = Zip | Kml | Gpx | GeoJsonFile

  /** How the file is read. */
  datatype ReadMode = AsArrayBuffer | AsText

  /** The read started for an extension (none is an extension error). */
  function ReadModeFor(ext: string): (r: Option<ReadMode>)
    ensures r.Some? <==> ext in {"zip", "kml", "gpx", "geojson"}
    ensures r == Some(AsArrayBuffer) <==> ext == "zip"
  {
    if ext == "zip" then Some(AsArrayBuffer)
    else if ext == "kml" || ext == "gpx" || ext == "geojson" then Some(AsText)
    else None
  }

  /** The loader the `load` handler calls for an extension (none is a load error). */
  function LoaderFor(ext: string): (r: Option<Format>)
    ensures r.Some? <==> ext in {"zip", "kml", "gpx", "geojson"}
    ensures r == Some(Zip) <==> ext == "zip"
  {
    if ext == "zip" then Some(Zip)
    else if ext == "kml" then Some(Kml)
    else if ext == "gpx" then Some(Gpx)
    else if ext == "geojson" then Some(GeoJsonFile)
    else None
  }

  /**
   * A read is started exactly for the extensions the `load` handler has a loader for, so
   * the handler's own "unknown extension" branch cannot be reached; a shapefile bundle and
   * only it is read as binary.
   */
  lemma ReaderAndLoaderAgree(ext: string)
    ensures ReadModeFor(ext).Some? <==> LoaderFor(ext).Some?
    ensures ReadModeFor(ext) == Some(AsArrayBuffer) <==> LoaderFor(ext) == Some(Zip)
  {
  }

  /** What the user sees once the file has been read. */
  datatype LoadOutcome =
    | NoGeometries                        // info dialog: nothing to show
    | Centered(features: seq<Feature>)    // the map is centred on the loaded features
    | LoadFailed                          // error dialog: the loader threw
    | UnknownFormat                       // error dialog: no loader for the extension

  /** The `load` handler, given what the loader returned or that it threw. */
  function OnLoaded(ext: string, loaded: Result<seq<Feature>, JsError>): (r: LoadOutcome)
    ensures r == UnknownFormat <==> LoaderFor(ext).None?
    ensures r == LoadFailed <==> LoaderFor(ext).Some? && loaded.Failure?
    ensures r.Centered? ==> loaded.Success? && r.features == loaded.value && |r.features| > 0
    ensures r == NoGeometries <==> LoaderFor(ext).Some? && loaded == Success([])
  {
    if LoaderFor(ext).None? then UnknownFormat
    else match loaded
      case Failure(_) => LoadFailed
      case Success(fs) => if |fs| == 0 then NoGeometries else Centered(fs)
  }

  /** What choosing a file leads to. */
  datatype UploadStep =
    | NothingChosen                                          // no file: nothing happens
    | TooLarge                                               // info dialog, the file is dropped
    | BadExtension                                           // error dialog, nothing is read
    | Reading(layerName: string, format: Format, mode: ReadMode)

  /** `changeFile` followed by `loadLayer` up to the start of the read. */
  function Choose(file: Option<FileInfo>): (r: UploadStep)
    ensures r == NothingChosen <==> file.None?
    ensures r == TooLarge <==> file.Some? && !Accepted(file.value)
    ensures r.Reading? ==> file.Some? && Accepted(file.value)
                           && r.layerName == BaseName(file.value.name)
                           && Some(r.format) == LoaderFor(FileExtension(file.value.name))
                           && Some(r.mode) == ReadModeFor(FileExtension(file.value.name))
    ensures r == BadExtension <==> file.Some? && Accepted(file.value) && LoaderFor(FileExtension(file.value.name)).None?
  {
    match file
    case None => NothingChosen
    case Some(f) =>
      if !Accepted(f) then TooLarge
      else
        var ext := FileExtension(f.name);
        match ReadModeFor(ext)
        case None => BadExtension
        case Some(mode) => Reading(BaseName(f.name), LoaderFor(ext).value, mode)
  }

  /** A file of exactly 20 MiB passes the size guard; one byte more is dropped. */
  lemma SizeBoundary(name: string)
    ensures Choose(Some(FileInfo(name, MAX_SIZE))) != TooLarge
    ensures Choose(Some(FileInfo(name, MAX_SIZE + 1))) == TooLarge
  {
  }

  /** "roads.kml" (10 bytes) is read as text by the KML loader into a layer named "roads". */
  lemma ChooseKmlExample(file: FileInfo)
    requires file == FileInfo("roads.kml", 10)
    ensures Choose(Some(file)) == Reading("roads", Kml, AsText)
  {
    RoadsKmlParts(file.name);
  }

  /** The cut of "roads.kml" at its dot. */
  lemma RoadsKmlParts(name: string)
    requires name == "roads.kml"
    ensures FileExtension(name) == "kml" && BaseName(name) == "roads"
  {
    JsText.LastIndexOfAt(name, '.', 5);
    ExtensionAfterSpec(name, 5);
    BaseNameSpec(name);
    assert name[6..] == "kml";
    assert name[..5] == "roads";
  }
}
