# Slideshow-Master: a verified model of the slideshow store and its components

Slideshow-Master is a browser slideshow tool. The user imports images and
videos and one audio track. They arrange the items in a gallery, mark items
as "dramatic", add captions, and play the slides with a transition effect.
This project models the logic of that tool in Dafny and proves its rules:

- **App** (`App.tsx`): the class `App.Slideshow` holds the application state.
  That state is the ordered visual list, the audio item, the current slide
  index, play/pause, the effect, fit and duration settings, and the item
  being captioned. Each handler is a method.
  - Its invariant `Valid()` has four parts. The index points into the list,
    or is 0 when the list is empty. An empty list is never playing. Ids are
    unique. The duration is 1..15 seconds.
  - The pure rules the handlers apply live in module `MediaStore`: next/prev
    arithmetic, `findIndex` and `filter` for removal, the splice move,
    the dramatic toggle and the overlay save.
- **SlideshowPlayer** (`components/SlideshowPlayer.tsx`): the CSS classes for
  each effect and transition phase, the Ken Burns pan wrapper, the caption
  box, and the placeholder shown when there is no media. The class
  `Transition` models the entering/settled phase, which a new media file
  restarts under a new key.
- **FileImporter** (`components/FileImporter.tsx`): the loop that turns
  picked files into `image`/`video` items, and the replacement of the audio
  item.
- **MediaGallery** (`components/MediaGallery.tsx`): the tiles, the highlight
  rule, and the command that each click or drop sends to the store.
- **TextEditModal** (`components/TextEditModal.tsx`): one caption-editing
  session. `Session` holds the local text buffer. `Run` plays a sequence of
  user events until one of them saves or closes the session.
- **OverlayFinding**: the overlay save as the code writes it, and the
  corrected save (see Findings). `App.Slideshow` has both: `SaveOverlayOptions`
  is the handler as written, `SaveOverlayText` the corrected one.

Types come from `types.ts`. `isDramatic` and `overlayText` are optional, as
in the source, so they are modelled as `Option` values with JavaScript
truthiness (`Types.Dramatic`, `Types.HasOverlayText`).

## Model

| member | source | states |
|---|---|---|
| `MediaStore.NextIndex` | App.tsx:27-31 | one step forward, wrapping from the last slide to the first; a no-op on lists of at most one item |
| `MediaStore.PrevIndex` | App.tsx:33-37 | one step back, wrapping from the first slide to the last; a no-op on lists of at most one item |
| `MediaStore.NextPrevInverse` | App.tsx:27-37 | next and prev keep the index in range, and each undoes the other |
| `MediaStore.AutoAdvanceShowsAnotherItem` | App.tsx:87-95 | the auto-advance condition never holds for a list of one item; when it holds, firing `next` moves to a different index and to an item with a different id |
| `MediaStore.FindIndex` | App.tsx:110-111 | the first position holding the id, or -1 exactly when no item has it |
| `MediaStore.Without` | App.tsx:114 | the filtered list holds only items without the id, and every item without it is kept |
| `MediaStore.WithoutAppend` | App.tsx:114 | the filter works item by item: it distributes over concatenation, and keeps a single item exactly when its id differs; so it keeps the order and the number of copies of the kept items |
| `MediaStore.WithoutAbsent` | App.tsx:110-114 | filtering out an id the list does not hold leaves the list unchanged |
| `MediaStore.WithoutRemovesOne` | App.tsx:110-114 | with unique ids, the filter removes exactly the one item at the found index and keeps the rest in order |
| `MediaStore.RemoveAtKeepsUniqueIds` | App.tsx:114 | removing an item keeps ids unique, and the removed id no longer appears |
| `MediaStore.IndexAfterRemoval` | App.tsx:116-122 | the index after a removal stays in range of the new list (0 when it is empty) and never moves forward |
| `MediaStore.RemovalKeepsViewedItem` | App.tsx:116-122 | removing another item keeps the same item on screen; removing the current item shows its predecessor, or the new first item |
| `MediaStore.RemoveAt` | App.tsx:142 | `splice(k, 1)`: one element fewer; the elements before k stay in place and those after k shift down by one |
| `MediaStore.InsertAt` | App.tsx:143 | `splice(k, 0, x)`: x lands at position k; the elements before k stay in place and the rest shift up by one |
| `MediaStore.Move` | App.tsx:138-146 | the reordered list keeps its length, and the dragged item sits at the hover index |
| `MediaStore.RemoveInsert` | App.tsx:142-143 | inserting at k and then removing at k gives back the list |
| `MediaStore.InsertRemove` | App.tsx:142-143 | removing at k and putting the same element back at k gives back the list |
| `MediaStore.MoveKeepsOthersInOrder` | App.tsx:138-146 | apart from the moved item, the reordered list keeps every other item in its old relative order |
| `MediaStore.MoveRoundTrip` | App.tsx:138-146 | moving the item back from the hover index to the drag index restores the list |
| `MediaStore.MovePermutes` | App.tsx:138-146 | a reorder is a permutation: the multiset of items is unchanged |
| `MediaStore.MoveKeepsUniqueIds` | App.tsx:138-146 | a reorder keeps ids unique |
| `MediaStore.ToggleDramaticById` | App.tsx:128-136 | items with the id get the negation of their flag (an absent flag counts as false) and keep every other field; other items are untouched; the length is kept |
| `MediaStore.ToggleTwiceRestores` | App.tsx:128-136 | toggling twice restores whether each item is dramatic and changes nothing else |
| `MediaStore.SaveOverlayById` | App.tsx:148-153 | corrected save: items with the id get the new overlay text and keep every other field; other items and the order are untouched |
| `MediaStore.SaveOverlayAsWritten` | App.tsx:148-153 | the save as written: items with the id get the text under `overlayOptions`; no item's `overlayText` changes |
| `MediaStore.UpdatesOfAbsentIdAreNoOps` | App.tsx:128-153 | toggling or saving on an id that is not in the list leaves the list unchanged |
| `MediaStore.UpdatesKeepIds` | App.tsx:128-153 | the toggle and the save keep ids unique |
| `App.Slideshow.constructor` | App.tsx:11-18 | the initial state: empty list, no audio, index 0, paused, Fade, contain, 5 s, no editor |
| `App.Slideshow.CurrentMediaFile` | App.tsx:157 | the item on screen is present exactly when the list is non-empty, and it is the item at the current index |
| `App.Slideshow.NextSlide` | App.tsx:27-31 | the index becomes `NextIndex` of the old one; the invariant is kept |
| `App.Slideshow.PrevSlide` | App.tsx:33-37 | the index becomes `PrevIndex` of the old one; the invariant is kept |
| `App.Slideshow.AutoAdvance` | App.tsx:87-95 | a timer that fires while the auto-advance condition holds performs `next` and puts an item with a different id on screen |
| `App.Slideshow.PlayPause` | App.tsx:98-107 | isPlaying is negated; nothing else changes |
| `App.Slideshow.RemoveVisualMedia` | App.tsx:109-126 | an unknown id changes nothing. Otherwise the item leaves the list. An emptied list gets index 0 and stops playing. Otherwise the index follows `IndexAfterRemoval`. The invariant is kept |
| `App.Slideshow.ToggleDramatic` | App.tsx:128-136 | the list becomes `ToggleDramaticById` of the old list; ids stay unique |
| `App.Slideshow.ReorderMedia` | App.tsx:138-146 | the two splices give `Move` of the old list, a permutation with the dragged item at the hover index; the current index is not remapped |
| `App.Slideshow.SaveOverlayOptions` | App.tsx:148-155 | as written: the list becomes `SaveOverlayAsWritten` of the old list (text under `overlayOptions`, every `overlayText` unchanged), ids stay unique, and the editor is closed |
| `App.Slideshow.SaveOverlayText` | App.tsx:148-155 | the corrected handler of the Findings row: the list becomes `SaveOverlayById` of the old list, ids stay unique, and the editor is closed |
| `App.Slideshow.SelectSlide` | App.tsx:180 | a tile click sets the index to that tile's position |
| `App.Slideshow.EditText` | App.tsx:185 | the editor opens on a snapshot of the item |
| `App.Slideshow.CloseEditor` | App.tsx:228 | the editor's close clears the item being edited |
| `App.Slideshow.SetSlideDuration` | components/PlayerControls.tsx:106-113 | the duration takes a slider value, which lies in 1..15 |
| `App.Slideshow.SetSlideEffect` | App.tsx:211 | the effect select sets the effect |
| `App.Slideshow.SetImageFit` | App.tsx:213 | the Fit/Fill buttons set the fit |
| `App.Slideshow.ImportVisualFiles` | components/FileImporter.tsx:13-28 | with a file list, one new item per file is appended after all existing items, in input order, and existing items are unchanged; without one, nothing changes; fresh ids keep ids unique |
| `App.Slideshow.ImportAudioFile` | components/FileImporter.tsx:30-40 | the audio item becomes `AudioAfterImport` of the old one |
| `App.Slideshow.Dispatch` | App.tsx:178-186 | each gallery command runs its handler with that handler's full effect. Select sets the index. Remove filters the id out (one item fewer), moves the index by `IndexAfterRemoval` and stops playing on an emptied list. Toggle and reorder update the list. Edit opens the editor. Reorder, toggle and edit keep the index, only remove changes play state, and only edit changes the editor |
| `FileImporter.NewMediaFiles` | components/FileImporter.tsx:16-25 | one item per file, in order, with the i-th platform id and URL; an item is `image` exactly when its MIME type starts with "image", and `video` otherwise; no item has a dramatic flag or overlay |
| `FileImporter.FirstFile` | components/FileImporter.tsx:31 | `files?.[0]`: present exactly when there is a non-empty file list, and then it is the first file |
| `FileImporter.AudioAfterImport` | components/FileImporter.tsx:30-40 | without a file the audio item is unchanged; with one it is replaced wholesale by a fresh `audio` item for the first file |
| `MediaGallery.Render` | components/MediaGallery.tsx:16-117 | an empty list shows the placeholder; otherwise there is one tile per item, in order and keyed by its id; tile i is highlighted exactly when i is the current index; image items get image thumbnails |
| `MediaGallery.OneHighlightedTile` | components/MediaGallery.tsx:68 | at most one tile is highlighted, and the current one is when the index is in range |
| `MediaGallery.OnTileEvent` | components/MediaGallery.tsx:24-50 | a click selects the tile's own index; each button forwards the tile's own id or item; a drop reorders (drag, tile) exactly when the two differ; every command is valid for the list |
| `SlideshowPlayer.EffectClasses` | components/SlideshowPlayer.tsx:25-44 | None gives no classes. Every other effect starts with the base transition. It has `opacity-0` exactly while entering and `opacity-100` exactly once settled |
| `SlideshowPlayer.EffectLooks` | components/SlideshowPlayer.tsx:27-30 | Ken Burns draws exactly like Fade in each phase; every effect except None looks different while entering and once settled |
| `SlideshowPlayer.KenBurnsVariant` | components/SlideshowPlayer.tsx:71 | the pan variant is always in 1..4 |
| `SlideshowPlayer.KenBurnsVariantCycles` | components/SlideshowPlayer.tsx:71 | the variant repeats every four slides, and any four consecutive slides get four different variants |
| `SlideshowPlayer.DigitChar` | components/SlideshowPlayer.tsx:71 | the number in the class name is written as the decimal digit of that number |
| `SlideshowPlayer.KenBurnsClass` | components/SlideshowPlayer.tsx:71 | the pan class is `kenburns-` followed by the digit of the slide's variant, so one of `kenburns-1` .. `kenburns-4` |
| `SlideshowPlayer.KenBurnsClassCycles` | components/SlideshowPlayer.tsx:71 | the pan class repeats every four slides and differs between neighbouring slides |
| `SlideshowPlayer.MediaClasses` | components/SlideshowPlayer.tsx:50-51 | `object-contain` is present exactly for contain and `object-cover` exactly for cover; `dramatic-flicker` is present exactly when the item is dramatic |
| `SlideshowPlayer.CaptionBox` | components/SlideshowPlayer.tsx:104-108 | the caption box is shown exactly when the overlay text is present and non-empty, and it shows that text |
| `SlideshowPlayer.RenderMedia` | components/SlideshowPlayer.tsx:46-86 | the pan wrapper is present exactly for Ken Burns. It lasts `slideDuration` seconds, is keyed by (id, duration, fit) and takes the index's pan class. Image items render as images and all others as autoplaying-while-playing videos |
| `SlideshowPlayer.Render` | components/SlideshowPlayer.tsx:88-110 | no media gives the placeholder, with no effect classes; otherwise the keyed container carries the effect classes of the phase, the media and the caption box |
| `SlideshowPlayer.Transition.CurrentPhase` | components/SlideshowPlayer.tsx:15-44 | for every effect but None, the container carries `opacity-0` exactly while `isTransitioning` holds |
| `SlideshowPlayer.Transition.constructor` | components/SlideshowPlayer.tsx:15-23 | mounting enters the transition for the first media file under the clock's key |
| `SlideshowPlayer.Transition.OnMediaFile` | components/SlideshowPlayer.tsx:18-23 | a different media file re-enters the transition under a new key; the same one changes nothing |
| `SlideshowPlayer.Transition.TimerFired` | components/SlideshowPlayer.tsx:21 | the 500 ms timer settles the transition: the phase becomes Settled, and the media file and key are kept |
| `TextEditModal.InitialText` | components/TextEditModal.tsx:12 | the buffer starts as the overlay text, or "" when it is absent or empty |
| `TextEditModal.Respond` | components/TextEditModal.tsx:14-32 | only Save saves, and with exactly (item id, buffer). Escape, a click on the backdrop itself, and Cancel close. Every other event does nothing |
| `TextEditModal.Session.constructor` | components/TextEditModal.tsx:11-12 | a session starts on its item with `InitialText` |
| `TextEditModal.Session.Handle` | components/TextEditModal.tsx:24-50 | typing only replaces the buffer; every other event leaves it and answers as `Respond` |
| `TextEditModal.NoSaveWithoutSaveClick` | components/TextEditModal.tsx:24-26 | a session without a Save click never saves: typing alone never reaches the store |
| `TextEditModal.SaveTargetsOwnItem` | components/TextEditModal.tsx:24-26 | a session only ever saves for the item it was opened on |
| `TextEditModal.SaveCarriesBuffer` | components/TextEditModal.tsx:24-26 | after events that neither save nor close, Save emits (item id, last text typed) |
| `TextEditModal.RunSession` | components/TextEditModal.tsx:14-50 | driving an open `Session` through events, one `Handle` call each, until one saves or closes, gives exactly the answer `Run` describes, and a session that goes on holds the last text typed; so the session lemmas below hold of the class |
| `TextEditModal.CloseDiscardsBuffer` | components/TextEditModal.tsx:15-32 | after events that neither save nor close, Escape, a backdrop click or Cancel closes without saving |
| `OverlayFinding.SaveAsWrittenIsInvisible` | App.tsx:148-153 | as written, a save changes neither the caption the player shows nor the text the editor reopens with |
| `OverlayFinding.SaveAsWrittenLosesCaption` | App.tsx:151 | concretely: saving "Hi" on a new image shows no caption, and the editor reopens without "Hi" |
| `OverlayFinding.SaveRoundTrip` | App.tsx:148-153 | corrected: the editor reopens with the saved text, and the player shows it exactly when it is non-empty |
| `OverlayFinding.EditThenSaveReopensWithTypedText` | components/TextEditModal.tsx:12-26 | corrected, end to end: open, type, Save; the item then reopens with the text last typed |

## Left out

- Fullscreen handling and the 1.5 s inactivity auto-hide of the controls (App.tsx:39-84). They rely on the platform Fullscreen API, DOM listeners and `setTimeout`.
- Wall-clock time. The slide timer (App.tsx:90) appears only as the auto-advance condition, which is the precondition of `App.Slideshow.AutoAdvance`; cancelling and re-arming it when its inputs change is not modelled. The 500 ms transition timer is not a field of `Transition`: it is outstanding exactly while `isTransitioning` holds, and `TimerFired` is its callback. The clock behind the player's `key` (`Date.now()`) is a parameter.
- Audio `play()`/`pause()` calls (App.tsx:100-103, 119). They are asynchronous platform calls whose failures are only logged.
- `crypto.randomUUID()` and `URL.createObjectURL()`. The ids and URLs they return are inputs, and the import requires the ids to be distinct and unused (`App.FreshIds`). Object URLs are never released by the code, so no release is modelled.
- The drag payload (`dataTransfer` JSON, components/MediaGallery.tsx:39-41, 45). The drag index is an input. A payload that is not JSON makes `JSON.parse` throw. A JSON payload without an in-range index (`{}` from another page, or `{"index":7}` on a three-item list) passes the guard at components/MediaGallery.tsx:47-49 and reaches `handleReorderMedia`, which then inserts `undefined` into the list (App.tsx:140-143). `MediaGallery.OnTileEvent` requires the drag index to be a tile of this list, so neither case is modelled.
- JSX markup, SVG, Tailwind styling, and React rendering and keying. CSS class strings are modelled as their lists of space-separated class names. The Ken Burns wrapper key is the triple (id, duration, fit), not the joined string.
- React state mechanics. Updater functions and batching are not modelled: each handler is one atomic step on the current state. `handleRemoveVisualMedia` calls `setCurrentSlideIndex` inside the `setVisualMedia` updater; the model treats this as part of the same step.
- The player's effect re-runs when `mediaFile` is a different object. The model compares media files by value.
- `App.Slideshow.PlayPause` requires a non-empty list, because its button is disabled without media (components/PlayerControls.tsx:62).
- `App.Slideshow.SetSlideDuration` requires 1..15, the slider's range (components/PlayerControls.tsx:106-113).
- sw.js, the offline cache, is not part of this model. components/PlayerControls.tsx is markup; only its slider bounds and disabled buttons are used.

## Findings

| source | as written | input that shows it | evidently intended | confidence | as-written member | corrected member |
|---|---|---|---|---|---|---|
| App.tsx:148-155 | the save stores the editor's text as `overlayOptions`, a property nothing reads; the player (components/SlideshowPlayer.tsx:104) and the editor (components/TextEditModal.tsx:12) read `overlayText` | save "Hi" on a new image item: no caption is shown, and the editor reopens empty | store the text as `overlayText` | high (not executed) | `OverlayFinding.SaveAsWrittenLosesCaption` | `OverlayFinding.SaveRoundTrip` |
