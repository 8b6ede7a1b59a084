/**
 * The gallery (components/MediaGallery.tsx): one tile per visual item, the
 * current one highlighted, and the commands its clicks and drops send to the
 * store. It keeps no state of its own.
 */
module MediaGallery {
  import opened Types

  /** The callbacks the gallery calls on the store, with their arguments. */
  datatype Command =
    | SelectSlide(index: nat)                   // onSelectSlide
    | RemoveMedia(id: string)                   // onRemoveMedia
    | ToggleDramatic(id: string)                // onToggleDramatic
    | ReorderMedia(dragIndex: nat, hoverIndex: nat)  // onReorderMedia
    | EditText(mediaFile: MediaFile)            // onEditText

  /** What the user does on one tile; a drop carries the index its drag started from. */
  datatype TileEvent = TileClick | EditTextClick | DramaticClick | RemoveClick | DropFrom(dragIndex: nat)

  datatype Thumbnail = ImageThumb(src: string) | VideoThumb(src: string)

  /** One rendered tile: its React key, its ring, its thumbnail and its badges. */
  datatype Tile = Tile(key: string, highlighted: bool, thumbnail: Thumbnail, dramaticActive: bool, videoBadge: bool)

  datatype View = EmptyPlaceholder | Grid(tiles: seq<Tile>)

  function TileFor(m: MediaFile, highlighted: bool): Tile {
    Tile(m.id, highlighted,
         if m.kind == Image then ImageThumb(m.src) else VideoThumb(m.src),
         Dramatic(m), m.kind == Video)
  }

  /** The gallery for a list and the store's current index. */
  function Render(mediaFiles: seq<MediaFile>, currentSlideIndex: nat): (v: View)
    ensures v.EmptyPlaceholder? <==> mediaFiles == []
    ensures v.Grid? ==> |v.tiles| == |mediaFiles|
    ensures v.Grid? ==> forall i :: 0 <= i < |mediaFiles| ==>
      && v.tiles[i].key == mediaFiles[i].id
      && v.tiles[i].thumbnail.src == mediaFiles[i].src
      && (v.tiles[i].highlighted <==> i == currentSlideIndex)
      && (v.tiles[i].thumbnail.ImageThumb? <==> mediaFiles[i].kind == Image)
      && (v.tiles[i].dramaticActive <==> Dramatic(mediaFiles[i]))
  {
    if mediaFiles == [] then EmptyPlaceholder
    else Grid(seq(|mediaFiles|, i requires 0 <= i < |mediaFiles| => TileFor(mediaFiles[i], i == currentSlideIndex)))
  }

  /** At most one tile is highlighted, and exactly one when the index is inside the list. */
  lemma OneHighlightedTile(mediaFiles: seq<MediaFile>, currentSlideIndex: nat)
    requires mediaFiles != []
    ensures var tiles := Render(mediaFiles, currentSlideIndex).tiles;
      && (forall i, j :: 0 <= i < |tiles| && 0 <= j < |tiles| && tiles[i].highlighted && tiles[j].highlighted ==> i == j)
      && (currentSlideIndex < |tiles| ==> tiles[currentSlideIndex].highlighted)
  {
  }

  /** A command the store can carry out on this list: indices inside it, ids and items taken from it. */
  ghost predicate CommandValid(c: Command, mediaFiles: seq<MediaFile>) {
    match c
    case SelectSlide(i) => i < |mediaFiles|
    case RemoveMedia(id) => HasId(mediaFiles, id)
    case ToggleDramatic(id) => HasId(mediaFiles, id)
    case ReorderMedia(d, h) => d < |mediaFiles| && h < |mediaFiles| && d != h
    case EditText(m) => m in mediaFiles
  }

  /**
   * The tile's handlers. A click selects the tile's own index; each button
   * forwards the tile's own id or item (and stops the click from also
   * selecting); a drop reorders only when it lands on a different tile.
   */
  function OnTileEvent(mediaFiles: seq<MediaFile>, index: nat, e: TileEvent): (c: Option<Command>)
    requires index < |mediaFiles|
    requires e.DropFrom? ==> e.dragIndex < |mediaFiles|
    ensures c.None? <==> e == DropFrom(index)
    ensures c.Some? ==> CommandValid(c.value, mediaFiles)
    ensures e.TileClick? ==> c == Option.Some(SelectSlide(index))
    ensures e.RemoveClick? ==> c == Option.Some(RemoveMedia(mediaFiles[index].id))
    ensures e.DramaticClick? ==> c == Option.Some(ToggleDramatic(mediaFiles[index].id))
    ensures e.EditTextClick? ==> c == Option.Some(EditText(mediaFiles[index]))
    ensures e.DropFrom? && c.Some? ==> c.value == ReorderMedia(e.dragIndex, index)
  {
    match e
    case TileClick => Option.Some(SelectSlide(index))
    case EditTextClick => Option.Some(EditText(mediaFiles[index]))
    case DramaticClick => Option.Some(ToggleDramatic(mediaFiles[index].id))
    case RemoveClick => Option.Some(RemoveMedia(mediaFiles[index].id))
    case DropFrom(dragIndex) =>
      if dragIndex != index then Option.Some(ReorderMedia(dragIndex, index)) else Option.None
  }
}
