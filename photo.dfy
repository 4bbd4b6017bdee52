/** The photo record and the metadata document (types/photo.ts). */
module Photos {
  import opened Wrappers

  /**
   * One photo. `filename` is the identifier and the store key; `blurDataURL`
   * is optional here because the upload route writes records without it.
   */
  datatype Photo = Photo(
    filename: string,
    src: string,
    blurDataURL: Option<string>,
    width: real,
    height: real,
    latitude: real,
    longitude: real)

  /** The metadata document: photo identifier to photo record. */
  type PhotoStore = map<string, Photo>

  /** The invariant the upload route keeps: every record is stored under its own filename. */
  ghost predicate KeysMatchFilenames(store: PhotoStore) {
    forall k :: k in store ==> store[k].filename == k
  }
}
