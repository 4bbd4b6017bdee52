# Photo map: clustering, upload and uploader state, in Dafny

This project models the logic of a small photo-album web app. The app shows
geotagged photos on a map, grouped into clusters by a zoom-dependent square
grid. Allowed users can upload new photos, and each upload updates a single
JSON catalogue held in an object store. The model covers:

- **Clustering** (`clustering.dfy`, from `app/page.tsx`):
  - The zoom is read with `getZoom() || 12`, clamped to 0..20, and used to
    look up the `gridSizes` table.
  - `BuildGrid` is the loop that files each photo under its cell
    `(floor(lng/size), floor(lat/size))`. It is proved equal to a
    group-by function `Grid`.
  - Properties proved about `Grid`:
    - it is a partition;
    - two photos share a cluster exactly when they share a cell;
    - the input order is kept;
    - no cluster is empty;
    - the mean centre of a cluster falls inside its own cell;
    - zooming out never raises the number of clusters, except when zooming
      out to a reading of 0 from a reading of 1 to 11, since 0 counts as
      zoom 12.
  - The marker click rule picks the lone photo, or zooms in by 2 (capped at
    20) on the cluster centre.
  - `MarkerLayer` is the marker list that is cleared and refilled in place.
  - `LoadPhotos` turns the fetched catalogue into the photo list.
- **Cluster thumbnail** (`thumbnail.dfy`, from
  `components/cluster-thumbnail.tsx`): the representative index
  `floor(r * len)`, the count badge, nothing rendered for an empty cluster,
  and the default size.
- **Allow-list and session callback** (`auth.dfy`, from `lib/auth.ts`):
  - `ALLOWED_UPLOADERS` is the environment string split on `,`, with each
    piece trimmed using ECMAScript's `String.prototype.trim` white-space set.
  - The session callback sets `isAllowedUploader` by exact membership of
    `email || ""` in that list.
- **Upload route** (`upload.dfy`, from `app/api/image/upload/route.ts`):
  - Checks run in order: the authorisation gate (403), then the required
    fields (400).
  - The file name is the `yyyyMMddHHmmss` stamp of the creation date. That
    stamp is proved injective on valid dates.
  - The image bytes are written to the blob first. The catalogue is then
    read, treating "not found" or a failure as `{}`, one record is upserted,
    and the catalogue is written back.
  - An unauthorised request gets a 403 and an incomplete one a 400. Any
    later failure (metadata JSON of `null`, an invalid date, a failed blob
    write or a failed catalogue write) gives a 500.
  - The object store is a `Bucket` class. Each call is told through a
    `Faults` record whether it fails. `Post` is proved to follow `PostSpec`
    step by step, and the lemmas about `PostSpec` state the route's
    promises.
- **Uploader component** (`uploader.dfy`, from
  `components/image-uploader.tsx`):
  - `convertDMSToDD`.
  - The `getExifDate` loop with its early return, proved against
    `FirstParsed`.
  - The form state as a class: `resetState`, `handleDialogChange`,
    `handleFileSelect`, `handleMetadataChange` (`?? null`) and
    `handleSubmit`. Submitting without a file does nothing. Otherwise the
    submit closes the dialog and resets after every sent request,
    whatever its result; a throw while building the request skips the
    reset.
- **Data model** (`photo.dfy`, from `types/photo.ts`): `Photo` and
  `PhotoStore = map<string, Photo>`.

Outside code is passed in as parameters:

| outside code | parameter |
|---|---|
| `date-fns` `parse` | `parse` |
| `new Date(string)` | `toDate` |
| `new Date()` | `now` |
| `toISOString` | `toIso` |
| JSON parsing of the metadata field | `parseMetadata` |
| `Math.random()` | `r` |
| image dimensions | `imgWidth`, `imgHeight` |
| EXIF extraction | an `ExifData` value |
| fetch responses | `Option` values |
| upload success | `uploadOk` |

Coordinates are `real`. A grid key is a pair of `int`s. The source uses the
string `` `${x}|${y}` ``, which is injective on integer pairs, so the
grouping is the same.

Three behaviours of the code are worth knowing:

- **Zoom 0.** `getZoom() || 12` reads zoom 0 as 12, because 0 is falsy. So
  a negative zoom selects zoom 0's entry (104.8576), while zoom 0 itself
  selects 0.0256 (`Clustering.ZoomZeroReadsAsDefault`). Going from zoom 0
  to zoom 1 can therefore merge clusters (`Clustering.ZoomZeroToOneMerges`).
- **Raw bytes.** The upload route stores the raw bytes. It neither re-encodes
  the image nor makes a placeholder, so the new record has no `blurDataURL`.
  For that reason `Photo.blurDataURL` is an `Option`, even though
  `types/photo.ts` declares it as a required string.
- **Unset allow-list.** With `ALLOWED_UPLOADERS` unset, the list is `[""]`.
  A signed-in user without an email address then counts as an allowed
  uploader (`Auth.EmailLessUser`).

## Model

| member | source | states |
|---|---|---|
| Clustering.EffectiveZoom | app/page.tsx:85 | a missing zoom and zoom 0 both become 12; any other zoom is kept; the result is never 0 |
| Clustering.Clamp | app/page.tsx:111 | the result lies in 0..20, is the zoom itself inside that range, and is 0 below it and 20 above it |
| Clustering.GridSizeHalves | app/page.tsx:87-109 | each table entry is twice the next zoom's entry |
| Clustering.GridSizeIsPowerOfTwo | app/page.tsx:87-109 | the entry for zoom z is 0.0001 * 2^(20-z), for every z in 0..20 |
| Clustering.GridSizeAntitone | app/page.tsx:87-109 | cell sizes are positive and never grow as the zoom rises |
| Clustering.CellSize | app/page.tsx:85-111 | the cell size for a read zoom is positive and is 0.0001 * 2^(20 - clamp(zoom || 12)) |
| Clustering.ZoomZeroReadsAsDefault | app/page.tsx:85-111 | zoom 0 and a missing zoom get zoom 12's cell size; negative zooms get zoom 0's; zooms above 20 get zoom 20's |
| Clustering.FloorIndex | app/page.tsx:117-118 | floor(x/size) is the one integer k with k*size <= x < (k+1)*size |
| Clustering.CellOfPoint | app/page.tsx:117-119 | a point lies inside the square of the cell computed for it |
| Clustering.MembersIff | app/page.tsx:116-125 | a photo is in a cell's list exactly when it is an input photo whose cell is that cell |
| Clustering.MembersCount | app/page.tsx:116-125 | a cell's list holds each photo of that cell as many times as the input does, and no other photo |
| Clustering.MembersAppend | app/page.tsx:116-124 | a cell's list for a concatenated input is the concatenation of the lists, so the input order is kept |
| Clustering.GridSnoc | app/page.tsx:121-124 | appending a photo pushes it onto its cell's list, creating the list if missing, and leaves every other cell alone |
| Clustering.GridEmpty | app/page.tsx:114-127 | no photos give an empty grid |
| Clustering.GridClustersNonEmpty | app/page.tsx:121-124 | every cluster in the grid is non-empty |
| Clustering.GridMembership | app/page.tsx:116-125 | a photo is in the cluster under key c exactly when it is an input photo whose cell is c |
| Clustering.GridPartition | app/page.tsx:116-125 | every input photo is in its own cell's cluster, with its full multiplicity, and in no other cluster |
| Clustering.SameClusterIffSameCell | app/page.tsx:117-119 | two input photos share a cluster exactly when their (floor(lng/size), floor(lat/size)) cells are equal |
| Clustering.BuildGrid | app/page.tsx:114-125 | the `forEach` loop over the photos builds exactly the group-by map `Grid` |
| Clustering.GridSize | app/page.tsx:87-109 | the 21 table entries; their values are stated by GridSizeIsPowerOfTwo, GridSizeHalves and GridSizeAntitone |
| Clustering.CellOf | app/page.tsx:117-119 | a photo's cell, the cell of its position; that the photo lies in that cell's square is stated by CellOfPoint |
| Clustering.Members | app/page.tsx:114-125 | the photos of one cell in input order; stated by MembersIff, MembersCount and MembersAppend |
| Clustering.Grid | app/page.tsx:114-125 | the group-by map the loop builds; stated by GridMembership, GridPartition, SameClusterIffSameCell and BuildGrid |
| Clustering.Sum | app/page.tsx:57-58 | the left fold `reduce((sum, x) => sum + x, 0)`; bounded by SumBounds |
| Clustering.SumBounds | app/page.tsx:57-58 | a sum of n values in [lo, hi) lies in [n*lo, n*hi) |
| Clustering.Mean | app/page.tsx:57-58 | the sum divided by the length; stated by MeanWithin |
| Clustering.ClusterCenter | app/page.tsx:56-60 | a one-photo cluster is centred on its own photo; where the mean of a larger cluster lies is stated by CenterWithinBounds and CenterInCell |
| Clustering.MeanWithin | app/page.tsx:57-58 | the mean of values in [lo, hi) is in [lo, hi) |
| Clustering.CenterWithinBounds | app/page.tsx:56-59 | the centre lies in any box that holds every photo of the cluster |
| Clustering.ClusterInCellSquare | app/page.tsx:116-125 | every photo of a cluster lies inside that cluster's cell square |
| Clustering.CenterInCell | app/page.tsx:56-59 | the cell of a cluster's centre is the cluster's own cell |
| Clustering.FloorHalf | app/page.tsx:117-118 | flooring by twice the size halves the floor index |
| Clustering.CellOfZoomOut | app/page.tsx:87-118 | a photo's cell one zoom level out is the parent of its cell one level in |
| Clustering.ParentImageCard | app/page.tsx:117-119 | merging cells into their parents never adds cells |
| Clustering.CellsOfZoomOut | app/page.tsx:87-125 | the occupied cells one level out are the parents of those one level in |
| Clustering.ClusterCountMonotone | app/page.tsx:87-125 | for table zooms z1 <= z2, zoom z2 never has fewer clusters than z1, for any photos |
| Clustering.GridOfPair | app/page.tsx:114-125 | two photos give exactly as many clusters as the number of distinct cells they fall in |
| Clustering.ReadZoomCountMonotone | app/page.tsx:85-125 | for map zoom readings z1 <= z2 with z1 not 0, zooming in never lowers the number of clusters; z2 may be 0, since every reading below 0 clamps to 0 |
| Clustering.ZoomZeroToOneMerges | app/page.tsx:85-125 | two photos 0.03 degrees apart form two clusters at a reading of 0 (taken as 12) and one at 1, so a reading of 0 breaks that monotonicity |
| Clustering.OnMarkerClick | app/page.tsx:142-150 | a one-photo cluster selects its photo; a larger one zooms in to min(zoom + 2, 20) on the cluster centre |
| Clustering.ZoomInRefines | app/page.tsx:146-148 | the zoom-in never makes cells larger, and makes them four times smaller from a reading in 0..18 |
| Clustering.MarkerLayer.constructor | app/page.tsx:79 | the layer starts without markers |
| Clustering.MarkerLayer.Update | app/page.tsx:81-138 | after an update there is exactly one marker per cluster of the current grid, carrying that cluster and its centre |
| Clustering.PlaceOne | app/page.tsx:127-138 | placing one more cluster's marker keeps one marker per done cell, at its centre, with no cell twice |
| Clustering.MarkersOf | app/page.tsx:127-138 | one marker per grid entry, with distinct cells, each entry covered |
| Clustering.LoadPhotos | app/page.tsx:39-45 | with a response the list is the catalogue's values, one per key; after a failed load the list is unchanged |
| Thumbnail.RepresentativeIndex | components/cluster-thumbnail.tsx:14 | floor(r * len) with 0 <= r < 1 is a valid index of a non-empty cluster |
| Thumbnail.RepresentativeReachable | components/cluster-thumbnail.tsx:14 | every index of the cluster can be picked by some r |
| Thumbnail.EveryMemberCanBeShown | components/cluster-thumbnail.tsx:10-31 | for each member k there is a draw r = k / length whose thumbnail shows member k with the default size, the count and the badge |
| Thumbnail.ClusterThumbnail | components/cluster-thumbnail.tsx:10-31 | nothing is rendered exactly for an empty cluster; the shown photo is a member, the one at `RepresentativeIndex(r, length)`; the count is the length; the badge shows exactly when the count is over 1; size defaults to 96 |
| Auth.IsJsWhitespace | lib/auth.ts:15 | the white space and line terminators that `trim` removes; used by Trim, TrimStart and TrimEnd |
| Auth.RawList | lib/auth.ts:14 | `process.env.ALLOWED_UPLOADERS OR ""`; stated by UnsetListIsEmptyString |
| Auth.TrimStart | lib/auth.ts:15 | it removes leading white space only, up to the first other character |
| Auth.TrimEnd | lib/auth.ts:15 | it removes trailing white space only, back to the last other character |
| Auth.Trim | lib/auth.ts:15 | the result has no white space at either end and is the input with white space removed from both ends |
| Auth.InnerOfBothEnds | lib/auth.ts:15 | cutting leading then trailing white space leaves a trimmed inner part of the string |
| Auth.TrimKeepsOut | lib/auth.ts:15 | trimming never introduces a character, such as a comma |
| Auth.TrimOfTrimmed | lib/auth.ts:15 | a trimmed string is its own trim |
| Auth.TrimIdempotent | lib/auth.ts:15 | trimming twice is trimming once |
| Auth.Split | lib/auth.ts:15 | splitting gives one more part than separators, and no part holds the separator |
| Auth.JoinSplit | lib/auth.ts:15 | joining the parts back with the separator gives the original string |
| Auth.SplitPrefix | lib/auth.ts:15 | a separator-free prefix joins the first part |
| Auth.SplitJoin | lib/auth.ts:15 | splitting a join of separator-free parts gives those parts |
| Auth.AllowedUploaders | lib/auth.ts:14-15 | the list has one entry per comma plus one; each entry is the trimmed piece between commas |
| Auth.UnsetListIsEmptyString | lib/auth.ts:14-15 | an unset or empty variable gives the list [""] |
| Auth.IsAllowedUploader | lib/auth.ts:32 | true exactly when some list entry equals `email OR ""` exactly |
| Auth.SessionCallback | lib/auth.ts:30-35 | a session without a user is returned unchanged; otherwise only the user's `isAllowedUploader` is set, to the membership test |
| Auth.EmailLessUser | lib/auth.ts:14-32 | a user without an email is allowed exactly when the list holds "", which it does when the variable is unset |
| Auth.UntrimmedEmailRejected | lib/auth.ts:14-32 | an email with white space at either end is never allowed, since the email is not trimmed but the entries are |
| Upload.IsUploader | app/api/image/upload/route.ts:11 | the negation of the 403 condition; its effect is stated by UnauthorizedWritesNothing and SucceedsIff |
| Upload.HasRequiredFields | app/api/image/upload/route.ts:19 | a file and a non-empty metadata string; its effect is stated by MissingFieldsWritesNothing and SucceedsIff |
| Upload.CreationDate | app/api/image/upload/route.ts:28 | the client date when one is given, otherwise now; its role is stated by SucceedsIff and SuccessfulUpload |
| Upload.BlobKey | app/api/image/upload/route.ts:34 | `images/<name>`; stated by BlobKeyIsNotMetadataKey |
| Upload.PostSpec | app/api/image/upload/route.ts:9-77 | the route step by step; stated by Post and the lemmas UnauthorizedWritesNothing through UploadKeepsKeysMatch |
| Upload.Digit | app/api/image/upload/route.ts:29 | a number below 10 becomes a digit character |
| Upload.Decimal | app/api/image/upload/route.ts:29 | the decimal rendering is all digits and reads back as the number, with the expected widths |
| Upload.Zeros | app/api/image/upload/route.ts:29 | k zero digits |
| Upload.ZerosValue | app/api/image/upload/route.ts:29 | leading zeros do not change a digit string's value |
| Upload.ZerosValueAlone | app/api/image/upload/route.ts:29 | a string of zeros reads as 0 |
| Upload.Pad | app/api/image/upload/route.ts:29 | zero-padding to a width keeps the value and gives exactly that width when the number fits |
| Upload.FormatStamp | app/api/image/upload/route.ts:29-30 | the `yyyyMMddHHmmss` name is all digits, 14 of them for a valid date |
| Upload.StampInjective | app/api/image/upload/route.ts:29-30 | two valid dates (era year 1 to 9999) give the same file name exactly when they are equal, so two uploads in the same second collide |
| Upload.BlobKeyIsNotMetadataKey | app/api/image/upload/route.ts:34-43 | the key `images/<name>` of a digit name never collides with `images/metadata.json` |
| Upload.Bucket.constructor | app/api/image/upload/route.ts:32-68 | the bucket starts with the given objects |
| Upload.Bucket.Put | app/api/image/upload/route.ts:32-37 | a put that succeeds stores the object under its key; a failed put changes nothing |
| Upload.Bucket.Get | app/api/image/upload/route.ts:41-46 | a get answers the stored object, or nothing when it fails or the key is absent |
| Upload.DocumentOf | app/api/image/upload/route.ts:39-50 | a failed or missing catalogue read, or a stored object that is not the catalogue (one `JSON.parse` rejects), gives `{}`; otherwise the stored catalogue |
| Upload.NewRecord | app/api/image/upload/route.ts:52-59 | the record's file name is the name, its `src` is the public prefix plus the name, it has no placeholder, and size and position come from the client metadata |
| Upload.Upsert | app/api/image/upload/route.ts:61 | only the key `name` is set to the record, and every other entry is kept |
| Upload.UpsertKeepsKeysMatch | app/api/image/upload/route.ts:52-61 | upserting a new record keeps each record stored under its own file name |
| Upload.Post | app/api/image/upload/route.ts:9-77 | the handler's response and the bucket afterwards are the ones `PostSpec` describes for the bucket before |
| Upload.UnauthorizedWritesNothing | app/api/image/upload/route.ts:10-13 | without an allowed uploader the answer is 403 and the bucket is untouched |
| Upload.NullMetadataWritesNothing | app/api/image/upload/route.ts:23-28 | metadata JSON of `null` makes reading `creationDate` throw inside the `try`: a 500 with the bucket untouched |
| Upload.MissingFieldsWritesNothing | app/api/image/upload/route.ts:19-21 | an authorised request without a file or metadata gets 400 and the bucket is untouched |
| Upload.FailureStatuses | app/api/image/upload/route.ts:11-75 | every failure is a 403, a 400 or a 500; 403 exactly when there is no allowed uploader, 400 exactly when an allowed uploader sends an incomplete form, and 500 for any other failure (metadata JSON of `null`, invalid date, failed blob write, failed catalogue write) |
| Upload.GateFollowsSessionCallback | app/api/image/upload/route.ts:11 | on a session produced by the session callback, the 403 gate passes exactly when there is a user whose email is on the allow-list |
| Upload.SucceedsIff | app/api/image/upload/route.ts:9-77 | success exactly when authorised, complete, with metadata JSON that is not `null`, a valid date and both writes succeed; a failed read does not fail it |
| Upload.SuccessShape | app/api/image/upload/route.ts:9-73 | a success means authorised, complete, metadata that is not `null`, a valid date and both writes succeeded, and the bucket is the blob write followed by the catalogue upsert write |
| Upload.SuccessfulUpload | app/api/image/upload/route.ts:28-73 | on success the blob is stored under `images/<stamp>`, the catalogue written is the fetched one with only that key set to the new record, nothing else changes, and the response carries the record and its URL |
| Upload.FailedReadLosesCatalogue | app/api/image/upload/route.ts:39-68 | when the read fails and the upload succeeds, the catalogue is replaced by the one new record |
| Upload.BlobBeforeMetadata | app/api/image/upload/route.ts:32-76 | a failed request never changes the catalogue; if it changed anything, it is a 500 after the blob write, with only the blob stored |
| Upload.UploadKeepsKeysMatch | app/api/image/upload/route.ts:52-68 | a successful upload keeps the invariant that each record sits under its own file name, including the first upload into a bucket without a catalogue |
| Uploader.Magnitude | components/image-uploader.tsx:267 | d + m/60 + s/3600; used by ConvertDmsToDd and HemisphereSign |
| Uploader.ConvertDmsToDd | components/image-uploader.tsx:266-269 | the result is -(d + m/60 + s/3600) exactly for "S" and "W", and d + m/60 + s/3600 for any other reference |
| Uploader.HemisphereSign | components/image-uploader.tsx:266-269 | for non-negative components the result is at most 0 exactly for "S" and "W" (or a zero value), and at least 0 exactly otherwise |
| Uploader.GpsCoordinate | components/image-uploader.tsx:95-96 | a missing GPS array gives null; otherwise the conversion with the reference defaulting to "" |
| Uploader.MissingRefNotNegated | components/image-uploader.tsx:95-96 | a missing reference leaves the coordinate non-negative |
| Uploader.FirstParsed | components/image-uploader.tsx:271-283 | the parse of the first field that parses; stated by FirstParsedIsFirst |
| Uploader.FirstParsedIsFirst | components/image-uploader.tsx:271-283 | the date is the parse of the first present field that parses, and null exactly when none does |
| Uploader.GetExifDate | components/image-uploader.tsx:271-283 | the loop over DateTimeOriginal, CreateDate, ModifyDate with its early return gives the first-parsed date |
| Uploader.Metadata.With | components/image-uploader.tsx:106 | the named field gets the value and every other field is kept |
| Uploader.Nullish | components/image-uploader.tsx:106 | `value ?? null` is the value exactly when one is given |
| Uploader.MetadataFromExif | components/image-uploader.tsx:90-100 | coordinates are the converted GPS tags, null when absent; the date is DateValue of the first EXIF date that parses, null when none does; the size is the image's |
| Uploader.RequestOf | components/image-uploader.tsx:120-128 | the request carries the file and the fields, with `creationDate` absent when null and `toISOString()` of the date otherwise; a number in `creationDate` throws |
| Uploader.UploaderForm.constructor | components/image-uploader.tsx:40-50 | the form starts with no file, no preview, null metadata and a closed dialog |
| Uploader.UploaderForm.ResetState | components/image-uploader.tsx:54-67 | the file, the preview, all five fields and the file input are cleared; the dialog is left as it is |
| Uploader.UploaderForm.HandleDialogChange | components/image-uploader.tsx:69-74 | the dialog takes the new state; closing always resets, opening changes nothing else |
| Uploader.UploaderForm.HandleFileSelect | components/image-uploader.tsx:76-103 | no file changes nothing; a file is kept and previewed, opens the dialog, and fills the metadata from its EXIF tags |
| Uploader.UploaderForm.HandleMetadataChange | components/image-uploader.tsx:105-107 | only field `name` changes, to `value ?? null` |
| Uploader.UploaderForm.HandleSubmit | components/image-uploader.tsx:109-153 | no file is a no-op; otherwise the dialog closes, the request is sent, the outcome records success, and the state is reset whatever the upload's result; a throw while building the request skips the reset |

## Left out

- Google Maps loading, marker DOM elements, `createRoot` rendering and `debounce` (app/page.tsx:63-80, 126-141, 152-166) belong to outside UI libraries. A marker is a value with a cell, a position and a cluster.
- `fetch`, the S3 client and multipart parsing are network I/O. Responses are `Option` parameters, and store calls fail as the `Faults` record says.
- `date-fns` `parse`/`isValid`, `new Date(...)`, `toISOString`, the `exif-js` reader and `Math.random` are outside code and become parameters. Turning a `Date` into calendar fields (time zone) is part of `toDate`. Only the `yyyyMMddHHmmss` rendering of those fields is modelled.
- IEEE double arithmetic becomes exact `real` arithmetic. JavaScript rounding in `lng / size`, in `Math.floor` near a cell boundary and in the mean is not captured.
- Fractional zooms from the map are not modelled. The zoom is an `int`, and a fractional zoom's table lookup would be `undefined`.
- The unguarded `JSON.parse` of the metadata field (app/api/image/upload/route.ts:23) throws outside the `try` on text that is not JSON. That throw is not modelled: `parseMetadata` is total, with `None` for the text `null`. JSON that is a number, a string or an array reads as a metadata value without a `creationDate`; the `undefined` record fields it then gives are not modelled.
- The catalogue is stored as a `PhotoStore` value, not as JSON text. A document that is not a catalogue reads as `{}`.
- The content types of the stored objects and the bucket name from the environment are not modelled.
- The lost update between two concurrent uploads is a concurrency matter and is not modelled.
- The delete route (app/api/image/[filename]/route.ts) and `handleDelete` in app/page.tsx are not part of this model.
- Image re-encoding and placeholder generation do not happen in the code at all.
- The OAuth provider configuration (lib/auth.ts:17-28) is configuration only.
- The toasts, the `isLoading` flag of `loadPhotos`, the `selectedPhoto` state behind `SelectPhoto`, and the `imageSize` state of the uploader (set on image load, never read by the handlers) are display state.
- The layout, loading, account and config files are presentation only.
- Clustering.LoadPhotos: the order of the photo list is left open, because `Object.values` order comes from key insertion in the fetched JSON, which the model does not keep.
- Uploader.UploaderForm.HandleSubmit: a `RangeError` from `toISOString` on an invalid `Date` is not modelled, because a date is its time value here and is always valid.
- Upload.ClientMetadata and Photos.Photo: `null` or `NaN` coordinates and sizes are not modelled. The uploader sends `null` latitude and longitude for a photo without GPS tags (components/image-uploader.tsx:95-96, 123-124). It sends `NaN` after a number field is cleared (`parseFloat('')`, lines 203 and 215), and `JSON.stringify` writes that as `null`. The route copies these values into the record unchanged (app/api/image/upload/route.ts:55-58). The fields here are `real`, so the model does not capture that the page then files such a photo in cell (0, 0), because `null / size` is 0.
- Uploader.UploaderForm.HandleFileSelect: the metadata is set in one step with the file. In the source it is set later, in the asynchronous `EXIF.getData` callback (components/image-uploader.tsx:90-101), which reads `img.width` and `img.height` whether or not the image has loaded. The model does not capture the window in which a submit, or a close and reset, runs before that callback and the callback then overwrites the metadata.
- Upload.DateTime: `toDate` and `now` give the calendar fields that `format` prints, with the era year. A 1 BC date and a 1 AD date print the same year, and years past 9999 print more than four digits. Neither case is covered by the stamp lemmas.
