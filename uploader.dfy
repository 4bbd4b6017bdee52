/**
 * The EXIF helpers and the form state of the upload dialog
 * (components/image-uploader.tsx).
 */
module Uploader {
  import opened Wrappers

  /** A JavaScript `Date`, by its time value in milliseconds. */
  type Date = int

  /** The image file the user picked. */
  type File = seq<bv8>

  // ---------------------------------------------------------------------
  // GPS coordinates (lines 95-96, 266-269)
  // ---------------------------------------------------------------------

  /** An EXIF GPS value: degrees, minutes and seconds. */
  datatype Dms = Dms(degrees: real, minutes: real, seconds: real)

  function Magnitude(dms: Dms): real {
    dms.degrees + dms.minutes / 60.0 + dms.seconds / 3600.0
  }

  predicate IsSouthOrWest(ref: string) {
    ref == "S" || ref == "W"
  }

  /** `convertDMSToDD`: decimal degrees, negated for the southern and western hemispheres. */
  function ConvertDmsToDd(dms: Dms, ref: string): (dd: real)
    ensures IsSouthOrWest(ref) ==> dd == -Magnitude(dms)
    ensures !IsSouthOrWest(ref) ==> dd == Magnitude(dms)
  {
    var dd := dms.degrees + dms.minutes / 60.0 + dms.seconds / 3600.0;
    if ref == "S" || ref == "W" then -dd else dd
  }

  /**
   * For non-negative components the sign is decided by the reference
   * alone: negative exactly for "S" and "W" (when the value is not zero).
   */
  lemma HemisphereSign(dms: Dms, ref: string)
    requires dms.degrees >= 0.0 && dms.minutes >= 0.0 && dms.seconds >= 0.0
    ensures Magnitude(dms) >= 0.0
    ensures ConvertDmsToDd(dms, ref) <= 0.0 <==> IsSouthOrWest(ref) || Magnitude(dms) == 0.0
    ensures ConvertDmsToDd(dms, ref) >= 0.0 <==> !IsSouthOrWest(ref) || Magnitude(dms) == 0.0
  {
  }

  /** `gps ? convertDMSToDD(gps, ref || '') : null`. */
  function GpsCoordinate(dms: Option<Dms>, ref: Option<string>): (coord: Option<real>)
    ensures coord.None? <==> dms.None?
    ensures dms.Some? ==> coord.value == ConvertDmsToDd(dms.value, ref.GetOr(""))
  {
    if dms.Some? then Some(ConvertDmsToDd(dms.value, ref.GetOr(""))) else None
  }

  /** A missing reference counts as northern or eastern: the coordinate is not negated. */
  lemma MissingRefNotNegated(dms: Dms)
    requires dms.degrees >= 0.0 && dms.minutes >= 0.0 && dms.seconds >= 0.0
    ensures GpsCoordinate(Some(dms), None) == Some(Magnitude(dms))
    ensures GpsCoordinate(Some(dms), None).value >= 0.0
  {
    HemisphereSign(dms, "");
  }

  // ---------------------------------------------------------------------
  // The capture date (lines 271-283)
  // ---------------------------------------------------------------------

  /** The EXIF tags the component reads. */
  datatype ExifData = ExifData(
    gpsLatitude: Option<Dms>,
    gpsLatitudeRef: Option<string>,
    gpsLongitude: Option<Dms>,
    gpsLongitudeRef: Option<string>,
    dateTimeOriginal: Option<string>,
    createDate: Option<string>,
    modifyDate: Option<string>)

  /** The date tags in the order they are tried. */
  function DateFields(exif: ExifData): seq<Option<string>> {
    [exif.dateTimeOriginal, exif.createDate, exif.modifyDate]
  }

  /**
   * The tag is present (a non-empty string) and `parse(..., "yyyy:MM:dd HH:mm:ss")`
   * gives a valid date; `parse` stands for the date library and answers
   * `None` for an invalid date.
   */
  predicate Parses(field: Option<string>, parse: string -> Option<Date>) {
    field.Some? && field.value != "" && parse(field.value).Some?
  }

  /** The parse of the first field that parses, if any. */
  function FirstParsed(fields: seq<Option<string>>, parse: string -> Option<Date>): Option<Date>
    decreases |fields|
  {
    if |fields| == 0 then None
    else if Parses(fields[0], parse) then parse(fields[0].value)
    else FirstParsed(fields[1..], parse)
  }

  /** `FirstParsed` picks the first field that parses, and is `None` only when none does. */
  lemma {:induction false} FirstParsedIsFirst(fields: seq<Option<string>>, parse: string -> Option<Date>)
    ensures FirstParsed(fields, parse).None? <==> forall i :: 0 <= i < |fields| ==> !Parses(fields[i], parse)
    ensures FirstParsed(fields, parse).Some? ==>
              exists i :: 0 <= i < |fields| && Parses(fields[i], parse)
                          && FirstParsed(fields, parse) == parse(fields[i].value)
                          && forall j :: 0 <= j < i ==> !Parses(fields[j], parse)
    decreases |fields|
  {
    if |fields| > 0 {
      FirstParsedIsFirst(fields[1..], parse);
      if !Parses(fields[0], parse) && FirstParsed(fields, parse).Some? {
        var i :| 0 <= i < |fields[1..]| && Parses(fields[1..][i], parse)
                 && FirstParsed(fields[1..], parse) == parse(fields[1..][i].value)
                 && forall j :: 0 <= j < i ==> !Parses(fields[1..][j], parse);
        assert fields[i + 1] == fields[1..][i];
        forall j | 0 <= j < i + 1 ensures !Parses(fields[j], parse) {
          if j > 0 { assert fields[j] == fields[1..][j - 1]; }
        }
      }
      if FirstParsed(fields, parse).None? {
        forall i | 0 <= i < |fields| ensures !Parses(fields[i], parse) {
          if i > 0 { assert fields[i] == fields[1..][i - 1]; }
        }
      }
    }
  }

  /** `getExifDate`: the loop over the date tags with its early return. */
  method GetExifDate(exif: ExifData, parse: string -> Option<Date>) returns (date: Option<Date>)
    ensures date == FirstParsed(DateFields(exif), parse)
  {
    var dateFields := DateFields(exif);
    for i := 0 to |dateFields|
      invariant FirstParsed(dateFields, parse) == FirstParsed(dateFields[i..], parse)
    {
      assert dateFields[i..][1..] == dateFields[i + 1..];
      if dateFields[i].Some? && dateFields[i].value != "" {
        var parsedDate := parse(dateFields[i].value);
        if parsedDate.Some? {
          return parsedDate;
        }
      }
    }
    return None;
  }

  // ---------------------------------------------------------------------
  // The form state (lines 40-67, 69-74, 76-103, 105-107, 109-153)
  // ---------------------------------------------------------------------

  /** A value a metadata field can hold: a number or a date. */
  datatype Value = Num(n: real) | DateValue(d: Date)

  datatype Field = Latitude | Longitude | CreationDate | Width | Height

  /** The five metadata fields; `None` is `null`. */
  datatype Metadata = Metadata(
    latitude: Option<Value>,
    longitude: Option<Value>,
    creationDate: Option<Value>,
    width: Option<Value>,
    height: Option<Value>)
  {
    function Get(f: Field): Option<Value> {
      match f
      case Latitude => latitude
      case Longitude => longitude
      case CreationDate => creationDate
      case Width => width
      case Height => height
    }

    /** `{ ...this, [f]: v }`. */
    function With(f: Field, v: Option<Value>): (m: Metadata)
      ensures m.Get(f) == v
      ensures forall g :: g != f ==> m.Get(g) == Get(g)
    {
      match f
      case Latitude => this.(latitude := v)
      case Longitude => this.(longitude := v)
      case CreationDate => this.(creationDate := v)
      case Width => this.(width := v)
      case Height => this.(height := v)
    }
  }

  /** All five fields null. */
  const Cleared: Metadata := Metadata(None, None, None, None, None)

  /** An argument of `handleMetadataChange`: `undefined`, `null` or a value. */
  datatype Input = Undefined | Null | Given(v: Value)

  /** `value ?? null`. */
  function Nullish(x: Input): (r: Option<Value>)
    ensures r.Some? <==> x.Given?
    ensures x.Given? ==> r.value == x.v
  {
    if x.Given? then Some(x.v) else None
  }

  /** The metadata the EXIF callback sets (lines 94-100). */
  function MetadataFromExif(exif: ExifData, imgWidth: real, imgHeight: real, parse: string -> Option<Date>): (m: Metadata)
    ensures m.latitude.Some? <==> exif.gpsLatitude.Some?
    ensures m.longitude.Some? <==> exif.gpsLongitude.Some?
    ensures m.latitude.Some? ==> m.latitude.value == Num(GpsCoordinate(exif.gpsLatitude, exif.gpsLatitudeRef).value)
    ensures m.longitude.Some? ==> m.longitude.value == Num(GpsCoordinate(exif.gpsLongitude, exif.gpsLongitudeRef).value)
    ensures m.creationDate.Some? <==> FirstParsed(DateFields(exif), parse).Some?
    ensures m.creationDate.Some? ==> m.creationDate.value == DateValue(FirstParsed(DateFields(exif), parse).value)
    ensures m.width == Some(Num(imgWidth)) && m.height == Some(Num(imgHeight))
  {
    var lat := GpsCoordinate(exif.gpsLatitude, exif.gpsLatitudeRef);
    var lng := GpsCoordinate(exif.gpsLongitude, exif.gpsLongitudeRef);
    var date := FirstParsed(DateFields(exif), parse);
    Metadata(
      if lat.Some? then Some(Num(lat.value)) else None,
      if lng.Some? then Some(Num(lng.value)) else None,
      if date.Some? then Some(DateValue(date.value)) else None,
      Some(Num(imgWidth)),
      Some(Num(imgHeight)))
  }

  /** The JSON metadata sent with the file; `creationDate` is `toISOString()` or absent. */
  datatype UploadRequest = UploadRequest(
    file: File,
    latitude: Option<Value>,
    longitude: Option<Value>,
    creationDate: Option<string>,
    width: Option<Value>,
    height: Option<Value>)

  /**
   * The request built from the form, or `None` when `creationDate` holds a
   * number, on which `?.toISOString()` throws.
   */
  function RequestOf(file: File, m: Metadata, toIso: Date -> string): (r: Option<UploadRequest>)
    ensures r.None? <==> m.creationDate.Some? && m.creationDate.value.Num?
    ensures r.Some? ==> r.value.file == file && r.value.latitude == m.latitude && r.value.longitude == m.longitude
    ensures r.Some? ==> r.value.width == m.width && r.value.height == m.height
    ensures r.Some? ==> (r.value.creationDate.None? <==> m.creationDate.None?)
    ensures r.Some? && m.creationDate.Some? ==>
              m.creationDate.value.DateValue? && r.value.creationDate == Some(toIso(m.creationDate.value.d))
  {
    match m.creationDate
    case None => Some(UploadRequest(file, m.latitude, m.longitude, None, m.width, m.height))
    case Some(DateValue(d)) => Some(UploadRequest(file, m.latitude, m.longitude, Some(toIso(d)), m.width, m.height))
    case Some(Num(_)) => None
  }

  /** How a submit ends. */
  datatype SubmitOutcome =
    | NotSubmitted                                  // no file selected: early return
    | Thrown                                        // building the request threw
    | Sent(request: UploadRequest, reloaded: bool)  // the upload ran; `reloaded` when it succeeded

  /** The state of the upload dialog. */
  class UploaderForm {
    var selectedFile: Option<File>
    var preview: Option<string>
    var metadata: Metadata
    var isDialogOpen: bool
    /** The value of the hidden file input. */
    var fileInputValue: string

    /** The state right after mounting. */
    ghost predicate IsCleared()
      reads this
    {
      selectedFile.None? && preview.None? && metadata == Cleared && fileInputValue == ""
    }

    constructor ()
      ensures IsCleared() && !isDialogOpen
    {
      selectedFile, preview, metadata := None, None, Cleared;
      isDialogOpen, fileInputValue := false, "";
    }

    /** `resetState`: clears the file, the preview, all metadata fields and the file input. */
    method ResetState()
      modifies this
      ensures IsCleared()
      ensures isDialogOpen == old(isDialogOpen)
    {
      selectedFile := None;
      preview := None;
      metadata := Cleared;
      fileInputValue := "";
    }

    /** `handleDialogChange`: closing the dialog always resets the state. */
    method HandleDialogChange(open: bool)
      modifies this
      ensures isDialogOpen == open
      ensures !open ==> IsCleared()
      ensures open ==> selectedFile == old(selectedFile) && preview == old(preview)
                       && metadata == old(metadata) && fileInputValue == old(fileInputValue)
    {
      isDialogOpen := open;
      if !open {
        ResetState();
      }
    }

    /**
     * `handleFileSelect`: with a file, keeps it, shows its preview, opens
     * the dialog and fills the metadata from its EXIF tags.
     */
    method HandleFileSelect(file: Option<File>, objectUrl: string, exif: ExifData,
                            imgWidth: real, imgHeight: real, parse: string -> Option<Date>)
      modifies this
      ensures file.None? ==> selectedFile == old(selectedFile) && preview == old(preview)
                             && metadata == old(metadata) && isDialogOpen == old(isDialogOpen)
      ensures file.Some? ==> selectedFile == file && preview == Some(objectUrl) && isDialogOpen
                             && metadata == MetadataFromExif(exif, imgWidth, imgHeight, parse)
      ensures fileInputValue == old(fileInputValue)
    {
      if file.Some? {
        selectedFile := file;
        preview := Some(objectUrl);
        isDialogOpen := true;
        var creationDate := GetExifDate(exif, parse);
        var lat := GpsCoordinate(exif.gpsLatitude, exif.gpsLatitudeRef);
        var lng := GpsCoordinate(exif.gpsLongitude, exif.gpsLongitudeRef);
        metadata := Metadata(
          if lat.Some? then Some(Num(lat.value)) else None,
          if lng.Some? then Some(Num(lng.value)) else None,
          if creationDate.Some? then Some(DateValue(creationDate.value)) else None,
          Some(Num(imgWidth)),
          Some(Num(imgHeight)));
      }
    }

    /** `handleMetadataChange`: sets field `name` to `value ?? null`, nothing else. */
    method HandleMetadataChange(name: Field, value: Input)
      modifies this
      ensures metadata.Get(name) == Nullish(value)
      ensures forall f :: f != name ==> metadata.Get(f) == old(metadata).Get(f)
      ensures selectedFile == old(selectedFile) && preview == old(preview)
      ensures isDialogOpen == old(isDialogOpen) && fileInputValue == old(fileInputValue)
    {
      metadata := metadata.With(name, Nullish(value));
    }

    /**
     * `handleSubmit`: without a file nothing happens; otherwise the dialog
     * closes, the request is sent, and the state is reset whether the
     * upload succeeds or fails. `uploadOk` is the upload's result.
     */
    method HandleSubmit(toIso: Date -> string, uploadOk: bool) returns (outcome: SubmitOutcome)
      modifies this
      ensures old(selectedFile).None? ==>
                outcome == NotSubmitted && selectedFile == old(selectedFile) && preview == old(preview)
                && metadata == old(metadata) && isDialogOpen == old(isDialogOpen)
                && fileInputValue == old(fileInputValue)
      ensures old(selectedFile).Some? ==> !isDialogOpen
      ensures old(selectedFile).Some? && RequestOf(old(selectedFile).value, old(metadata), toIso).Some? ==>
                && outcome == Sent(RequestOf(old(selectedFile).value, old(metadata), toIso).value, uploadOk)
                && IsCleared()
      ensures old(selectedFile).Some? && RequestOf(old(selectedFile).value, old(metadata), toIso).None? ==>
                outcome == Thrown && selectedFile == old(selectedFile) && metadata == old(metadata)
                && preview == old(preview) && fileInputValue == old(fileInputValue)
    {
      if selectedFile.None? {
        return NotSubmitted;
      }
      isDialogOpen := false;
      var request := RequestOf(selectedFile.value, metadata, toIso);
      if request.None? {
        return Thrown;
      }
      outcome := Sent(request.value, uploadOk);
      ResetState();
    }
  }
}
