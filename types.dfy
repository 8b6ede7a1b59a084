/**
 * The records shared by every component of the slideshow: a media file, the
 * transition effect enumeration and the image-fit choice.
 */
module Types {

  datatype Option<+T> = None | Some(value: T)

  /** The `type` of a media file. */
  datatype MediaType = Image | Video | Audio

  /** A file handle picked by the user; the model only ever reads its name and MIME type. */
  datatype File = File(name: string, mimeType: string)

  /**
   * One imported media file. `isDramatic` and `overlayText` are optional
   * properties: absent (`None`) until first set. `overlayOptions` is the
   * property the store's overlay save writes as the code stands (see
   * OverlayFinding); no component reads it.
   */
  datatype MediaFile = MediaFile(
    id: string,
    file: File,
    src: string,
    kind: MediaType,
    isDramatic: Option<bool>,
    overlayText: Option<string>,
    overlayOptions: Option<string>)

  /** The eight transition effects a slide can be shown with. */
  datatype SlideEffect = Fade | Slide | Zoom | Blur | Flip | Rotate | KenBurns | None

  /** How an image or video fills the player: `'contain'` or `'cover'`. */
  datatype Fit = Contain | Cover

  /** JavaScript truthiness of the optional dramatic flag: absent reads as false. */
  predicate Dramatic(m: MediaFile) {
    m.isDramatic == Some(true)
  }

  /** JavaScript truthiness of the optional overlay text: absent and "" both read as false. */
  predicate HasOverlayText(m: MediaFile) {
    m.overlayText.Some? && m.overlayText.value != ""
  }

  /** No two items of the visual list share an id. */
  ghost predicate UniqueIds(s: seq<MediaFile>) {
    forall i, j :: 0 <= i < |s| && 0 <= j < |s| && i != j ==> s[i].id != s[j].id
  }

  /** `id` names some item of `s`. */
  ghost predicate HasId(s: seq<MediaFile>, id: string) {
    exists j :: 0 <= j < |s| && s[j].id == id
  }
}
