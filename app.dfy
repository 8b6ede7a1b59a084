/**
 * The slideshow's top-level state (App.tsx): the ordered visual list, the
 * single audio item, the current slide index, play/pause, the effect, fit and
 * duration settings and the item being captioned. Every handler is a method;
 * the pure rules it applies live in MediaStore.
 */
module App {
  import opened Types
  import opened MediaStore
  import FileImporter
  import MediaGallery

  /** The platform ids for a batch of new items: distinct, and none already in the list. */
  ghost predicate FreshIds(ids: seq<string>, s: seq<MediaFile>) {
    && (forall i, j :: 0 <= i < |ids| && 0 <= j < |ids| && i != j ==> ids[i] != ids[j])
    && (forall i :: 0 <= i < |ids| ==> !HasId(s, ids[i]))
  }

  class Slideshow {
    var visualMedia: seq<MediaFile>
    var audioFile: Option<MediaFile>
    var currentSlideIndex: nat
    var isPlaying: bool
    var slideEffect: SlideEffect
    var imageFit: Fit
    var slideDuration: nat
    var editingMediaFile: Option<MediaFile>

    /**
     * The store's invariant: the index points into the list (0 when it is
     * empty), an empty list is never playing, ids are unique, and the
     * duration is within the slider's 1..15 seconds.
     */
    ghost predicate Valid()
      reads this
    {
      && IndexInRange(currentSlideIndex, |visualMedia|)
      && (visualMedia == [] ==> !isPlaying)
      && UniqueIds(visualMedia)
      && 1 <= slideDuration <= 15
    }

    constructor()
      ensures Valid()
      ensures visualMedia == [] && audioFile.None? && currentSlideIndex == 0 && !isPlaying
      ensures slideEffect == Fade && imageFit == Contain && slideDuration == 5 && editingMediaFile.None?
    {
      visualMedia := [];
      audioFile := Option.None;
      currentSlideIndex := 0;
      isPlaying := false;
      slideEffect := Fade;
      imageFit := Contain;
      slideDuration := 5;
      editingMediaFile := Option.None;
    }

    /** `currentMediaFile`: the item on screen, none exactly when the list is empty. */
    function CurrentMediaFile(): (m: Option<MediaFile>)
      reads this
      requires Valid()
      ensures m.None? <==> visualMedia == []
      ensures m.Some? ==> m.value in visualMedia && m.value == visualMedia[currentSlideIndex]
    {
      if |visualMedia| > 0 then Option.Some(visualMedia[currentSlideIndex]) else Option.None
    }

    /** `handleNextSlide`. */
    method NextSlide()
      requires Valid()
      modifies this`currentSlideIndex
      ensures Valid()
      ensures currentSlideIndex == NextIndex(old(currentSlideIndex), |visualMedia|)
    {
      if |visualMedia| > 1 {
        currentSlideIndex := (currentSlideIndex + 1) % |visualMedia|;
      }
    }

    /** `handlePrevSlide`. */
    method PrevSlide()
      requires Valid()
      modifies this`currentSlideIndex
      ensures Valid()
      ensures currentSlideIndex == PrevIndex(old(currentSlideIndex), |visualMedia|)
    {
      if |visualMedia| > 1 {
        currentSlideIndex := (currentSlideIndex - 1 + |visualMedia|) % |visualMedia|;
      }
    }

    /**
     * The slide timer firing. It is only pending while the auto-advance
     * condition holds (the effect cancels it whenever its inputs change),
     * and it performs `next`, which always moves to another item.
     */
    method AutoAdvance()
      requires Valid() && AutoAdvanceArmed(isPlaying, |visualMedia|)
      modifies this`currentSlideIndex
      ensures Valid()
      ensures currentSlideIndex == NextIndex(old(currentSlideIndex), |visualMedia|)
      ensures visualMedia[currentSlideIndex].id != visualMedia[old(currentSlideIndex)].id
    {
      AutoAdvanceShowsAnotherItem(visualMedia, isPlaying, currentSlideIndex);
      NextSlide();
    }

    /** `handlePlayPause`; the button is disabled while there is no media. */
    method PlayPause()
      requires Valid() && visualMedia != []
      modifies this`isPlaying
      ensures Valid()
      ensures isPlaying == !old(isPlaying)
    {
      isPlaying := !isPlaying;
    }

    /**
     * `handleRemoveVisualMedia`: an unknown id changes nothing; otherwise the
     * item leaves the list, an emptied list stops playing with index 0, and
     * the index steps back when the current slide was at or after the
     * removed one.
     */
    method RemoveVisualMedia(idToRemove: string)
      requires Valid()
      modifies this`visualMedia, this`currentSlideIndex, this`isPlaying
      ensures Valid()
      ensures !HasId(old(visualMedia), idToRemove) ==>
        && visualMedia == old(visualMedia)
        && currentSlideIndex == old(currentSlideIndex)
        && isPlaying == old(isPlaying)
      ensures HasId(old(visualMedia), idToRemove) ==>
        var k := FindIndex(old(visualMedia), idToRemove);
        && 0 <= k < |old(visualMedia)|
        && visualMedia == RemoveAt(old(visualMedia), k)
        && currentSlideIndex == IndexAfterRemoval(old(currentSlideIndex), k, |visualMedia|)
        && isPlaying == (old(isPlaying) && visualMedia != [])
      ensures visualMedia == Without(old(visualMedia), idToRemove)
    {
      var indexToRemove := FindIndex(visualMedia, idToRemove);
      if indexToRemove == -1 {
        WithoutAbsent(visualMedia, idToRemove);
        return;
      }
      var newMedia := Without(visualMedia, idToRemove);
      WithoutRemovesOne(visualMedia, idToRemove, indexToRemove);
      RemoveAtKeepsUniqueIds(visualMedia, indexToRemove);
      assert newMedia == RemoveAt(visualMedia, indexToRemove) && |newMedia| + 1 == |visualMedia|;
      ghost var target := IndexAfterRemoval(currentSlideIndex, indexToRemove, |newMedia|);
      assert IndexInRange(target, |newMedia|);
      if |newMedia| == 0 {
        currentSlideIndex := 0;
        isPlaying := false;
      } else if currentSlideIndex >= indexToRemove {
        currentSlideIndex := if currentSlideIndex - 1 > 0 then currentSlideIndex - 1 else 0;
      }
      assert currentSlideIndex == target;
      visualMedia := newMedia;
    }

    /** `handleToggleDramatic`. */
    method ToggleDramatic(idToToggle: string)
      requires Valid()
      modifies this`visualMedia
      ensures Valid()
      ensures visualMedia == ToggleDramaticById(old(visualMedia), idToToggle)
    {
      UpdatesKeepIds(visualMedia, idToToggle, "");
      visualMedia := ToggleDramaticById(visualMedia, idToToggle);
    }

    /**
     * `handleReorderMedia`: the two splices on a copy of the list. The
     * dragged item lands at `hoverIndex`, the list is a permutation of the
     * old one, and the current index stays on the same slot.
     */
    method ReorderMedia(dragIndex: nat, hoverIndex: nat)
      requires Valid() && dragIndex < |visualMedia| && hoverIndex < |visualMedia|
      modifies this`visualMedia
      ensures Valid()
      ensures visualMedia == Move(old(visualMedia), dragIndex, hoverIndex)
      ensures visualMedia[hoverIndex] == old(visualMedia)[dragIndex]
      ensures multiset(visualMedia) == multiset(old(visualMedia))
    {
      var draggedItem := visualMedia[dragIndex];
      var newMedia := visualMedia;
      newMedia := newMedia[..dragIndex] + newMedia[dragIndex + 1..];
      newMedia := newMedia[..hoverIndex] + [draggedItem] + newMedia[hoverIndex..];
      MoveKeepsUniqueIds(visualMedia, dragIndex, hoverIndex);
      MovePermutes(visualMedia, dragIndex, hoverIndex);
      visualMedia := newMedia;
    }

    /**
     * `handleSaveOverlayOptions` as written: the text goes under
     * `overlayOptions`, which neither the player nor the editor reads (see
     * OverlayFinding); then the editor closes.
     */
    method SaveOverlayOptions(id: string, text: string)
      requires Valid()
      modifies this`visualMedia, this`editingMediaFile
      ensures Valid()
      ensures visualMedia == SaveOverlayAsWritten(old(visualMedia), id, text)
      ensures editingMediaFile.None?
    {
      UpdatesKeepIds(visualMedia, id, text);
      visualMedia := SaveOverlayAsWritten(visualMedia, id, text);
      editingMediaFile := Option.None;
    }

    /**
     * The save as evidently intended: the text goes under `overlayText`, where
     * the player and the editor read it; then the editor closes.
     */
    method SaveOverlayText(id: string, text: string)
      requires Valid()
      modifies this`visualMedia, this`editingMediaFile
      ensures Valid()
      ensures visualMedia == SaveOverlayById(old(visualMedia), id, text)
      ensures editingMediaFile.None?
    {
      UpdatesKeepIds(visualMedia, id, text);
      visualMedia := SaveOverlayById(visualMedia, id, text);
      editingMediaFile := Option.None;
    }

    /** `onSelectSlide` from a gallery tile. */
    method SelectSlide(index: nat)
      requires Valid() && index < |visualMedia|
      modifies this`currentSlideIndex
      ensures Valid() && currentSlideIndex == index
    {
      currentSlideIndex := index;
    }

    /** `onEditText`: open the editor on a snapshot of the item. */
    method EditText(mediaFile: MediaFile)
      requires Valid()
      modifies this`editingMediaFile
      ensures Valid() && editingMediaFile == Option.Some(mediaFile)
    {
      editingMediaFile := Option.Some(mediaFile);
    }

    /** The editor's `onClose`. */
    method CloseEditor()
      requires Valid()
      modifies this`editingMediaFile
      ensures Valid() && editingMediaFile.None?
    {
      editingMediaFile := Option.None;
    }

    /** The duration slider; it only offers 1..15 seconds. */
    method SetSlideDuration(seconds: nat)
      requires Valid() && 1 <= seconds <= 15
      modifies this`slideDuration
      ensures Valid() && slideDuration == seconds
    {
      slideDuration := seconds;
    }

    /** The effect select. */
    method SetSlideEffect(effect: SlideEffect)
      requires Valid()
      modifies this`slideEffect
      ensures Valid() && slideEffect == effect
    {
      slideEffect := effect;
    }

    /** The Fit / Fill buttons. */
    method SetImageFit(fit: Fit)
      requires Valid()
      modifies this`imageFit
      ensures Valid() && imageFit == fit
    {
      imageFit := fit;
    }

    /**
     * The visual file picker: with a file list the new items are appended
     * after every existing one, in the order picked; without one nothing
     * changes. The current index is left alone.
     */
    method ImportVisualFiles(files: Option<seq<File>>, ids: seq<string>, srcs: seq<string>)
      requires Valid()
      requires files.Some? ==> |ids| == |files.value| && |srcs| == |files.value| && FreshIds(ids, visualMedia)
      modifies this`visualMedia
      ensures Valid()
      ensures files.None? ==> visualMedia == old(visualMedia)
      ensures files.Some? ==>
        && |visualMedia| == |old(visualMedia)| + |files.value|
        && visualMedia[..|old(visualMedia)|] == old(visualMedia)
        && forall i :: 0 <= i < |files.value| ==>
             visualMedia[|old(visualMedia)| + i] == FileImporter.Imported(files.value[i], ids[i], srcs[i])
    {
      if files.Some? {
        var newMediaFiles := FileImporter.NewMediaFiles(files.value, ids, srcs);
        var combined := visualMedia + newMediaFiles;
        forall i, j | 0 <= i < |combined| && 0 <= j < |combined| && i != j
          ensures combined[i].id != combined[j].id
        {
          var n := |visualMedia|;
          if i >= n && j < n {
            assert combined[i].id == ids[i - n];
            assert !HasId(visualMedia, ids[i - n]);
          } else if i < n && j >= n {
            assert combined[j].id == ids[j - n];
            assert !HasId(visualMedia, ids[j - n]);
          }
        }
        visualMedia := combined;
      }
    }

    /** The audio file picker: the first picked file replaces the audio item wholesale. */
    method ImportAudioFile(files: Option<seq<File>>, id: string, src: string)
      requires Valid()
      modifies this`audioFile
      ensures Valid()
      ensures audioFile == FileImporter.AudioAfterImport(old(audioFile), files, id, src)
    {
      var file := FileImporter.FirstFile(files);
      if file.Some? {
        audioFile := Option.Some(MediaFile(id, file.value, src, Audio, Option.None, Option.None, Option.None));
      }
    }

    /** The gallery's callbacks as wired up in the app. */
    method Dispatch(c: MediaGallery.Command)
      requires Valid() && MediaGallery.CommandValid(c, visualMedia)
      modifies this`visualMedia, this`currentSlideIndex, this`isPlaying, this`editingMediaFile
      ensures Valid()
      ensures c.SelectSlide? ==> currentSlideIndex == c.index && visualMedia == old(visualMedia)
      ensures c.RemoveMedia? ==> |visualMedia| == |old(visualMedia)| - 1
      ensures c.RemoveMedia? ==> visualMedia == Without(old(visualMedia), c.id)
      ensures c.ToggleDramatic? ==> visualMedia == ToggleDramaticById(old(visualMedia), c.id)
      ensures c.ReorderMedia? ==> visualMedia == Move(old(visualMedia), c.dragIndex, c.hoverIndex)
      ensures c.EditText? ==> editingMediaFile == Option.Some(c.mediaFile) && visualMedia == old(visualMedia)
      ensures c.RemoveMedia? ==>
        && currentSlideIndex == IndexAfterRemoval(old(currentSlideIndex), FindIndex(old(visualMedia), c.id), |visualMedia|)
        && isPlaying == (old(isPlaying) && visualMedia != [])
      ensures !c.RemoveMedia? ==> isPlaying == old(isPlaying)
      ensures c.ReorderMedia? || c.ToggleDramatic? || c.EditText? ==> currentSlideIndex == old(currentSlideIndex)
      ensures !c.EditText? ==> editingMediaFile == old(editingMediaFile)
    {
      match c
      case SelectSlide(index) => SelectSlide(index);
      case RemoveMedia(id) => RemoveVisualMedia(id);
      case ToggleDramatic(id) => ToggleDramatic(id);
      case ReorderMedia(dragIndex, hoverIndex) => ReorderMedia(dragIndex, hoverIndex);
      case EditText(mediaFile) => EditText(mediaFile);
    }
  }
}
