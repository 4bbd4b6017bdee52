/**
 * The upload route (app/api/image/upload/route.ts): the authorisation gate,
 * field validation, the file name taken from the creation date, the blob
 * write and the read-modify-write of the metadata document.
 */
module Upload {
  import opened Wrappers
  import opened Photos
  import Auth

  // ---------------------------------------------------------------------
  // The file name: `format(creationDate, "yyyyMMddHHmmss")`
  // ---------------------------------------------------------------------

  /**
   * A date in local calendar fields, as `format` reads them; `year` is the
   * era year that the `yyyy` token prints, so it is never 0.
   */
  datatype DateTime = DateTime(year: nat, month: nat, day: nat, hour: nat, minute: nat, second: nat)

  predicate ValidDateTime(d: DateTime) {
    && 1 <= d.year <= 9999
    && 1 <= d.month <= 12 && 1 <= d.day <= 31
    && d.hour < 24 && d.minute < 60 && d.second < 60
  }

  predicate IsDigit(c: char) {
    '0' <= c <= '9'
  }

  predicate AllDigits(s: string) {
    forall i :: 0 <= i < |s| ==> IsDigit(s[i])
  }

  function Digit(n: nat): (c: char)
    requires n < 10
    ensures IsDigit(c)
  {
    (48 + n) as char
  }

  /** The value of a digit string, read most significant digit first. */
  function Value(s: string): nat
    requires AllDigits(s)
    decreases |s|
  {
    if |s| == 0 then 0 else 10 * Value(s[..|s| - 1]) + ((s[|s| - 1] as int) - 48)
  }

  /** The decimal digits of `n`, without leading zeros. */
  function Decimal(n: nat): (s: string)
    ensures |s| >= 1 && AllDigits(s)
    ensures Value(s) == n
    ensures n < 10 ==> |s| == 1
    ensures n < 100 ==> |s| <= 2
    ensures n < 10000 ==> |s| <= 4
    decreases n
  {
    if n < 10 then
      var s := [Digit(n)];
      assert s[..0] == [];
      s
    else
      var init := Decimal(n / 10);
      var s := init + [Digit(n % 10)];
      assert s[..|s| - 1] == init;
      s
  }

  function Zeros(k: nat): (s: string)
    ensures |s| == k && AllDigits(s)
  {
    seq(k, _ => '0')
  }

  lemma {:induction false} ZerosValue(k: nat, s: string)
    requires AllDigits(s)
    ensures AllDigits(Zeros(k) + s) && Value(Zeros(k) + s) == Value(s)
    decreases |s|
  {
    var z := Zeros(k) + s;
    assert AllDigits(z);
    if |s| == 0 {
      assert z == Zeros(k);
      ZerosValueAlone(k);
    } else {
      ZerosValue(k, s[..|s| - 1]);
      assert z[..|z| - 1] == Zeros(k) + s[..|s| - 1];
    }
  }

  lemma {:induction false} ZerosValueAlone(k: nat)
    ensures Value(Zeros(k)) == 0
  {
    if k > 0 {
      ZerosValueAlone(k - 1);
      assert Zeros(k)[..k - 1] == Zeros(k - 1);
    }
  }

  /** `n` in decimal, left-padded with zeros to `width` digits. */
  function Pad(n: nat, width: nat): (s: string)
    ensures AllDigits(s) && |s| >= width
    ensures Value(s) == n
    ensures n < 10 ==> |s| == (if width < 1 then 1 else width)
    ensures n < 100 && width >= 2 ==> |s| == width
    ensures n < 10000 && width >= 4 ==> |s| == width
  {
    var d := Decimal(n);
    if |d| >= width then
      d
    else
      ZerosValue(width - |d|, d);
      Zeros(width - |d|) + d
  }

  /** `format(date, "yyyyMMddHHmmss")`. */
  function FormatStamp(d: DateTime): (s: string)
    ensures AllDigits(s)
    ensures ValidDateTime(d) ==> |s| == 14
  {
    Pad(d.year, 4) + (Pad(d.month, 2) + (Pad(d.day, 2) + (Pad(d.hour, 2) + (Pad(d.minute, 2) + Pad(d.second, 2)))))
  }

  /** Equal concatenations with equal-length heads have equal heads and tails. */
  lemma ConcatCancel(x1: string, y1: string, x2: string, y2: string)
    requires |x1| == |x2| && x1 + y1 == x2 + y2
    ensures x1 == x2 && y1 == y2
  {
    assert x1 == (x1 + y1)[..|x1|] && x2 == (x2 + y2)[..|x2|];
    assert y1 == (x1 + y1)[|x1|..] && y2 == (x2 + y2)[|x2|..];
  }

  /**
   * Two valid dates get the same file name exactly when they agree to the
   * second: uploads within one second collide.
   */
  lemma StampInjective(d1: DateTime, d2: DateTime)
    requires ValidDateTime(d1) && ValidDateTime(d2)
    ensures FormatStamp(d1) == FormatStamp(d2) <==> d1 == d2
  {
    if FormatStamp(d1) == FormatStamp(d2) {
      var e1, e2 := Pad(d1.minute, 2) + Pad(d1.second, 2), Pad(d2.minute, 2) + Pad(d2.second, 2);
      var c1, c2 := Pad(d1.hour, 2) + e1, Pad(d2.hour, 2) + e2;
      var b1, b2 := Pad(d1.day, 2) + c1, Pad(d2.day, 2) + c2;
      var a1, a2 := Pad(d1.month, 2) + b1, Pad(d2.month, 2) + b2;
      ConcatCancel(Pad(d1.year, 4), a1, Pad(d2.year, 4), a2);
      ConcatCancel(Pad(d1.month, 2), b1, Pad(d2.month, 2), b2);
      ConcatCancel(Pad(d1.day, 2), c1, Pad(d2.day, 2), c2);
      ConcatCancel(Pad(d1.hour, 2), e1, Pad(d2.hour, 2), e2);
      ConcatCancel(Pad(d1.minute, 2), Pad(d1.second, 2), Pad(d2.minute, 2), Pad(d2.second, 2));
    }
  }

  // ---------------------------------------------------------------------
  // The request and the object store
  // ---------------------------------------------------------------------

  /**
   * The client's JSON metadata, once parsed. `JSON.parse` hands back
   * `None` for the text `null`, on which reading `creationDate` throws.
   */
  datatype ClientMetadata = ClientMetadata(
    creationDate: Option<string>,
    width: real,
    height: real,
    latitude: real,
    longitude: real)

  /** The multipart form: the image bytes and the metadata JSON text. */
  datatype UploadForm = UploadForm(file: Option<seq<bv8>>, metadata: Option<string>)

  /** Which store calls fail on this request. */
  datatype Faults = Faults(blobWrite: bool, metadataRead: bool, metadataWrite: bool)

  /** What the bucket holds under a key: image bytes or the metadata document. */
  datatype StoredObject = ImageBlob(bytes: seq<bv8>) | MetadataJson(photos: PhotoStore)

  datatype Response = Uploaded(url: string, metadata: Photo) | Failed(status: int, error: string)

  const MetadataKey: string := "images/metadata.json"
  const PublicPrefix: string := "https://r2.memories.zhanyongxiang.com/images/"

  function BlobKey(name: string): string {
    "images/" + name
  }

  /** A digit-only file name never names the metadata document. */
  lemma BlobKeyIsNotMetadataKey(name: string)
    requires AllDigits(name)
    ensures BlobKey(name) != MetadataKey
  {
    if |name| == 0 {
      assert |BlobKey(name)| == 7;
    } else {
      assert BlobKey(name)[7] == name[0];
      assert IsDigit(name[0]) && MetadataKey[7] == 'm';
    }
  }

  /** The bucket: keys to stored objects. Each call is told whether it fails. */
  class Bucket {
    var objects: map<string, StoredObject>

    constructor (initial: map<string, StoredObject>)
      ensures objects == initial
    {
      objects := initial;
    }

    method Put(key: string, obj: StoredObject, fail: bool) returns (ok: bool)
      modifies this
      ensures ok == !fail
      ensures objects == if ok then old(objects)[key := obj] else old(objects)
    {
      ok := !fail;
      if ok {
        objects := objects[key := obj];
      }
    }

    method Get(key: string, fail: bool) returns (r: Option<StoredObject>)
      ensures r.Some? <==> !fail && key in objects
      ensures r.Some? ==> r.value == objects[key]
    {
      if !fail && key in objects {
        r := Some(objects[key]);
      } else {
        r := None;
      }
    }
  }

  // ---------------------------------------------------------------------
  // The steps of the route
  // ---------------------------------------------------------------------

  /** `!session || !session.user?.isAllowedUploader` fails exactly when this is false. */
  predicate IsUploader(session: Option<Auth.Session>) {
    && session.Some?
    && session.value.user.Some?
    && session.value.user.value.isAllowedUploader == Some(true)
  }

  /** `!file || !metadataString` fails exactly when this is false (an empty string is missing). */
  predicate HasRequiredFields(form: UploadForm) {
    form.file.Some? && form.metadata.Some? && form.metadata.value != ""
  }

  /**
   * `metadata.creationDate ? new Date(metadata.creationDate) : new Date()`;
   * `None` is an invalid date, on which `format` throws.
   */
  function CreationDate(meta: ClientMetadata, toDate: string -> Option<DateTime>, now: DateTime): Option<DateTime> {
    if meta.creationDate.Some? && meta.creationDate.value != "" then toDate(meta.creationDate.value) else Some(now)
  }

  /** The fetched document, or `{}` when the read failed or did not hold the document. */
  function DocumentOf(read: Option<StoredObject>): (doc: PhotoStore)
    ensures !(read.Some? && read.value.MetadataJson?) ==> doc == map[]
    ensures read.Some? && read.value.MetadataJson? ==> doc == read.value.photos
  {
    if read.Some? && read.value.MetadataJson? then read.value.photos else map[]
  }

  /** The record written for a new upload (no placeholder is produced). */
  function NewRecord(name: string, meta: ClientMetadata): (p: Photo)
    ensures p.filename == name && p.src == PublicPrefix + name && p.blurDataURL.None?
    ensures p.width == meta.width && p.height == meta.height
    ensures p.latitude == meta.latitude && p.longitude == meta.longitude
  {
    Photo(name, PublicPrefix + name, None, meta.width, meta.height, meta.latitude, meta.longitude)
  }

  /** `allMetadata[name] = record`: set one key, keep every other entry. */
  function Upsert(doc: PhotoStore, name: string, record: Photo): (r: PhotoStore)
    ensures r.Keys == doc.Keys + {name}
    ensures r[name] == record
    ensures forall k :: k in doc && k != name ==> r[k] == doc[k]
  {
    doc[name := record]
  }

  lemma UpsertKeepsKeysMatch(doc: PhotoStore, name: string, meta: ClientMetadata)
    requires KeysMatchFilenames(doc)
    ensures KeysMatchFilenames(Upsert(doc, name, NewRecord(name, meta)))
  {
  }

  /** The outcome of one request: the response and the bucket afterwards. */
  datatype Outcome = Outcome(response: Response, objects: map<string, StoredObject>)

  /** What `POST` does, step by step, as a function of the bucket before the request. */
  function PostSpec(objects: map<string, StoredObject>, session: Option<Auth.Session>, form: UploadForm,
                    parseMetadata: string -> Option<ClientMetadata>, toDate: string -> Option<DateTime>, now: DateTime,
                    faults: Faults): Outcome
  {
    if !IsUploader(session) then Outcome(Failed(403, "Unauthorized upload"), objects)
    else if !HasRequiredFields(form) then Outcome(Failed(400, "File and metadata are required"), objects)
    else
      match parseMetadata(form.metadata.value)
      case None => Outcome(Failed(500, "Upload failed"), objects)
      case Some(meta) =>
      match CreationDate(meta, toDate, now)
      case None => Outcome(Failed(500, "Upload failed"), objects)
      case Some(date) =>
        var name := FormatStamp(date);
        if faults.blobWrite then Outcome(Failed(500, "Upload failed"), objects)
        else
          var afterBlob := objects[BlobKey(name) := ImageBlob(form.file.value)];
          var read := if !faults.metadataRead && MetadataKey in afterBlob then Some(afterBlob[MetadataKey]) else None;
          var record := NewRecord(name, meta);
          var doc := Upsert(DocumentOf(read), name, record);
          if faults.metadataWrite then Outcome(Failed(500, "Upload failed"), afterBlob)
          else Outcome(Uploaded(record.src, record), afterBlob[MetadataKey := MetadataJson(doc)])
  }

  /** The route handler. */
  method Post(bucket: Bucket, session: Option<Auth.Session>, form: UploadForm,
              parseMetadata: string -> Option<ClientMetadata>, toDate: string -> Option<DateTime>, now: DateTime,
              faults: Faults) returns (resp: Response)
    modifies bucket
    ensures Outcome(resp, bucket.objects) == PostSpec(old(bucket.objects), session, form, parseMetadata, toDate, now, faults)
  {
    if !IsUploader(session) {
      return Failed(403, "Unauthorized upload");
    }
    var file := form.file;
    var metadataString := form.metadata;
    if !HasRequiredFields(form) {
      return Failed(400, "File and metadata are required");
    }
    var metadata := parseMetadata(metadataString.value);
    if metadata.None? {
      return Failed(500, "Upload failed");
    }
    var meta := metadata.value;
    var date := CreationDate(meta, toDate, now);
    if date.None? {
      return Failed(500, "Upload failed");
    }
    var uniqueFileName := FormatStamp(date.value);
    var ok := bucket.Put(BlobKey(uniqueFileName), ImageBlob(file.value), faults.blobWrite);
    if !ok {
      return Failed(500, "Upload failed");
    }
    var allMetadata: PhotoStore := map[];
    var read := bucket.Get(MetadataKey, faults.metadataRead);
    allMetadata := DocumentOf(read);
    var newPhotoMetadata := NewRecord(uniqueFileName, meta);
    allMetadata := allMetadata[uniqueFileName := newPhotoMetadata];
    ok := bucket.Put(MetadataKey, MetadataJson(allMetadata), faults.metadataWrite);
    if !ok {
      return Failed(500, "Upload failed");
    }
    resp := Uploaded(newPhotoMetadata.src, newPhotoMetadata);
  }

  // ---------------------------------------------------------------------
  // Properties of the route
  // ---------------------------------------------------------------------

  /** 403 before anything else, and nothing is written. */
  lemma UnauthorizedWritesNothing(objects: map<string, StoredObject>, session: Option<Auth.Session>, form: UploadForm,
                                  parseMetadata: string -> Option<ClientMetadata>, toDate: string -> Option<DateTime>, now: DateTime,
                                  faults: Faults)
    requires !IsUploader(session)
    ensures PostSpec(objects, session, form, parseMetadata, toDate, now, faults) == Outcome(Failed(403, "Unauthorized upload"), objects)
  {
  }

  /** A missing file or metadata string gives 400 and nothing is written. */
  lemma MissingFieldsWritesNothing(objects: map<string, StoredObject>, session: Option<Auth.Session>, form: UploadForm,
                                   parseMetadata: string -> Option<ClientMetadata>, toDate: string -> Option<DateTime>, now: DateTime,
                                   faults: Faults)
    requires IsUploader(session) && !HasRequiredFields(form)
    ensures PostSpec(objects, session, form, parseMetadata, toDate, now, faults) == Outcome(Failed(400, "File and metadata are required"), objects)
  {
  }

  /**
   * Every failure is a 403, a 400 or a 500: 403 exactly when there is no
   * allowed uploader, 400 exactly when an allowed uploader sends an
   * incomplete form, and 500 for anything that goes wrong after that.
   */
  lemma FailureStatuses(objects: map<string, StoredObject>, session: Option<Auth.Session>, form: UploadForm,
                        parseMetadata: string -> Option<ClientMetadata>, toDate: string -> Option<DateTime>, now: DateTime,
                        faults: Faults)
    ensures var out := PostSpec(objects, session, form, parseMetadata, toDate, now, faults);
            out.response.Failed? ==> out.response.status in {403, 400, 500}
    ensures var out := PostSpec(objects, session, form, parseMetadata, toDate, now, faults);
            out.response == Failed(403, "Unauthorized upload") <==> !IsUploader(session)
    ensures var out := PostSpec(objects, session, form, parseMetadata, toDate, now, faults);
            out.response == Failed(400, "File and metadata are required") <==>
              IsUploader(session) && !HasRequiredFields(form)
    ensures var out := PostSpec(objects, session, form, parseMetadata, toDate, now, faults);
            IsUploader(session) && HasRequiredFields(form) && out.response.Failed? ==>
              out.response == Failed(500, "Upload failed")
  {
  }

  /** Metadata whose JSON is `null` fails with a 500 before anything is written. */
  lemma NullMetadataWritesNothing(objects: map<string, StoredObject>, session: Option<Auth.Session>, form: UploadForm,
                                  parseMetadata: string -> Option<ClientMetadata>, toDate: string -> Option<DateTime>, now: DateTime,
                                  faults: Faults)
    requires IsUploader(session) && HasRequiredFields(form) && parseMetadata(form.metadata.value).None?
    ensures PostSpec(objects, session, form, parseMetadata, toDate, now, faults) == Outcome(Failed(500, "Upload failed"), objects)
  {
  }

  /**
   * The 403 gate accepts a session the session callback produced exactly
   * when it has a user whose email is on the allow-list.
   */
  lemma GateFollowsSessionCallback(s: Auth.Session, env: Option<string>)
    ensures IsUploader(Some(Auth.SessionCallback(s, Auth.AllowedUploaders(env)))) <==>
              s.user.Some? && Auth.IsAllowedUploader(s.user.value.email, Auth.AllowedUploaders(env))
  {
  }

  /**
   * The request succeeds exactly when it is authorised, complete, its
   * metadata is not `null`, it carries a valid date and both writes
   * succeed; a failed metadata read does not make it fail.
   */
  lemma SucceedsIff(objects: map<string, StoredObject>, session: Option<Auth.Session>, form: UploadForm,
                    parseMetadata: string -> Option<ClientMetadata>, toDate: string -> Option<DateTime>, now: DateTime,
                    faults: Faults)
    ensures PostSpec(objects, session, form, parseMetadata, toDate, now, faults).response.Uploaded? <==>
              && IsUploader(session) && HasRequiredFields(form)
              && parseMetadata(form.metadata.value).Some?
              && CreationDate(parseMetadata(form.metadata.value).value, toDate, now).Some?
              && !faults.blobWrite && !faults.metadataWrite
  {
  }

  /** A successful request is the two writes, and nothing else. */
  lemma SuccessShape(objects: map<string, StoredObject>, session: Option<Auth.Session>, form: UploadForm,
                     parseMetadata: string -> Option<ClientMetadata>, toDate: string -> Option<DateTime>, now: DateTime,
                     faults: Faults)
    requires PostSpec(objects, session, form, parseMetadata, toDate, now, faults).response.Uploaded?
    ensures IsUploader(session) && HasRequiredFields(form) && !faults.blobWrite && !faults.metadataWrite
    ensures parseMetadata(form.metadata.value).Some?
    ensures CreationDate(parseMetadata(form.metadata.value).value, toDate, now).Some?
    ensures var meta := parseMetadata(form.metadata.value).value;
            var name := FormatStamp(CreationDate(meta, toDate, now).value);
            var afterBlob := objects[BlobKey(name) := ImageBlob(form.file.value)];
            var read := if !faults.metadataRead && MetadataKey in afterBlob then Some(afterBlob[MetadataKey]) else None;
            var record := NewRecord(name, meta);
            PostSpec(objects, session, form, parseMetadata, toDate, now, faults)
              == Outcome(Uploaded(record.src, record), afterBlob[MetadataKey := MetadataJson(Upsert(DocumentOf(read), name, record))])
  {
  }

  /**
   * On success the blob is stored under `images/<name>` and the document
   * written back is the fetched one with only key `name` set to the new
   * record, whose file name is its key; nothing else in the bucket changes.
   */
  lemma SuccessfulUpload(objects: map<string, StoredObject>, session: Option<Auth.Session>, form: UploadForm,
                         parseMetadata: string -> Option<ClientMetadata>, toDate: string -> Option<DateTime>, now: DateTime,
                         faults: Faults)
    requires PostSpec(objects, session, form, parseMetadata, toDate, now, faults).response.Uploaded?
    ensures HasRequiredFields(form) && parseMetadata(form.metadata.value).Some?
    ensures CreationDate(parseMetadata(form.metadata.value).value, toDate, now).Some?
    ensures var out := PostSpec(objects, session, form, parseMetadata, toDate, now, faults);
            var meta := parseMetadata(form.metadata.value).value;
            var name := FormatStamp(CreationDate(meta, toDate, now).value);
            var fetched := if !faults.metadataRead && MetadataKey in objects then DocumentOf(Some(objects[MetadataKey])) else map[];
            && out.response.metadata == NewRecord(name, meta)
            && out.response.url == PublicPrefix + name
            && out.objects.Keys == objects.Keys + {BlobKey(name), MetadataKey}
            && out.objects[BlobKey(name)] == ImageBlob(form.file.value)
            && out.objects[MetadataKey] == MetadataJson(fetched[name := NewRecord(name, meta)])
            && (forall k :: k in objects && k != BlobKey(name) && k != MetadataKey ==> out.objects[k] == objects[k])
  {
    SuccessShape(objects, session, form, parseMetadata, toDate, now, faults);
    var meta := parseMetadata(form.metadata.value).value;
    var name := FormatStamp(CreationDate(meta, toDate, now).value);
    BlobKeyIsNotMetadataKey(name);
    var afterBlob := objects[BlobKey(name) := ImageBlob(form.file.value)];
    var read := if !faults.metadataRead && MetadataKey in afterBlob then Some(afterBlob[MetadataKey]) else None;
    var fetched := if !faults.metadataRead && MetadataKey in objects then DocumentOf(Some(objects[MetadataKey])) else map[];
    assert DocumentOf(read) == fetched;
    TwoWrites(objects, BlobKey(name), ImageBlob(form.file.value),
              MetadataJson(Upsert(DocumentOf(read), name, NewRecord(name, meta))));
  }

  /** Writing the blob and then the document changes those two keys only. */
  lemma TwoWrites(objects: map<string, StoredObject>, blobKey: string, blob: StoredObject, doc: StoredObject)
    requires blobKey != MetadataKey
    ensures var out := objects[blobKey := blob][MetadataKey := doc];
            && out.Keys == objects.Keys + {blobKey, MetadataKey}
            && out[blobKey] == blob && out[MetadataKey] == doc
            && (forall k :: k in objects && k != blobKey && k != MetadataKey ==> out[k] == objects[k])
  {
  }

  /** A failed metadata read replaces the whole catalogue with the one new record. */
  lemma FailedReadLosesCatalogue(objects: map<string, StoredObject>, session: Option<Auth.Session>, form: UploadForm,
                                 parseMetadata: string -> Option<ClientMetadata>, toDate: string -> Option<DateTime>, now: DateTime,
                                 faults: Faults)
    requires faults.metadataRead
    requires PostSpec(objects, session, form, parseMetadata, toDate, now, faults).response.Uploaded?
    ensures var out := PostSpec(objects, session, form, parseMetadata, toDate, now, faults);
            out.objects[MetadataKey] == MetadataJson(map[out.response.metadata.filename := out.response.metadata])
  {
  }

  /**
   * The blob is written before the document: whenever the document
   * changes the blob is in place, and a failed document write leaves the
   * blob stored with the document untouched.
   */
  lemma BlobBeforeMetadata(objects: map<string, StoredObject>, session: Option<Auth.Session>, form: UploadForm,
                           parseMetadata: string -> Option<ClientMetadata>, toDate: string -> Option<DateTime>, now: DateTime,
                           faults: Faults)
    ensures var out := PostSpec(objects, session, form, parseMetadata, toDate, now, faults);
            out.response.Failed? ==>
              && (MetadataKey in out.objects <==> MetadataKey in objects)
              && (MetadataKey in objects ==> out.objects[MetadataKey] == objects[MetadataKey])
    ensures var out := PostSpec(objects, session, form, parseMetadata, toDate, now, faults);
            out.response.Failed? && out.objects != objects ==>
              && out.response.status == 500 && faults.metadataWrite && !faults.blobWrite
              && HasRequiredFields(form)
              && exists name :: AllDigits(name) && out.objects == objects[BlobKey(name) := ImageBlob(form.file.value)]
  {
    var out := PostSpec(objects, session, form, parseMetadata, toDate, now, faults);
    if IsUploader(session) && HasRequiredFields(form) && parseMetadata(form.metadata.value).Some? {
      var meta := parseMetadata(form.metadata.value).value;
      if CreationDate(meta, toDate, now).Some? {
        var name := FormatStamp(CreationDate(meta, toDate, now).value);
        BlobKeyIsNotMetadataKey(name);
      }
    }
  }

  /** A successful upload keeps the catalogue invariant that each record sits under its own name. */
  lemma UploadKeepsKeysMatch(objects: map<string, StoredObject>, session: Option<Auth.Session>, form: UploadForm,
                             parseMetadata: string -> Option<ClientMetadata>, toDate: string -> Option<DateTime>, now: DateTime,
                             faults: Faults)
    requires MetadataKey in objects && objects[MetadataKey].MetadataJson? ==> KeysMatchFilenames(objects[MetadataKey].photos)
    requires PostSpec(objects, session, form, parseMetadata, toDate, now, faults).response.Uploaded?
    ensures var out := PostSpec(objects, session, form, parseMetadata, toDate, now, faults);
            MetadataKey in out.objects && out.objects[MetadataKey].MetadataJson?
            && KeysMatchFilenames(out.objects[MetadataKey].photos)
  {
    SuccessShape(objects, session, form, parseMetadata, toDate, now, faults);
    var meta := parseMetadata(form.metadata.value).value;
    var name := FormatStamp(CreationDate(meta, toDate, now).value);
    BlobKeyIsNotMetadataKey(name);
    var afterBlob := objects[BlobKey(name) := ImageBlob(form.file.value)];
    var read := if !faults.metadataRead && MetadataKey in afterBlob then Some(afterBlob[MetadataKey]) else None;
    assert DocumentOf(read) == map[] || DocumentOf(read) == objects[MetadataKey].photos;
    UpsertKeepsKeysMatch(DocumentOf(read), name, meta);
  }
}
