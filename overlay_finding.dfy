/**
 * The overlay save of App.tsx:148-155 stores the editor's text under the
 * property `overlayOptions`, but the player (SlideshowPlayer.tsx:104) and the
 * editor (TextEditModal.tsx:12) both read `overlayText`. As written, a saved
 * caption is neither shown nor offered again when the editor reopens. This
 * module states that of the code as written and proves the intended
 * behaviour of the corrected save. App.Slideshow offers both handlers.
 */
module OverlayFinding {
  import opened Types
  import opened MediaStore
  import TextEditModal
  import SlideshowPlayer

  /** As written: whatever is saved, every item keeps the caption the player shows and the editor reloads. */
  lemma SaveAsWrittenIsInvisible(s: seq<MediaFile>, id: string, text: string, i: nat)
    requires i < |s|
    ensures var r := SaveOverlayAsWritten(s, id, text);
      && SlideshowPlayer.CaptionBox(r[i]) == SlideshowPlayer.CaptionBox(s[i])
      && TextEditModal.InitialText(r[i]) == TextEditModal.InitialText(s[i])
  {
  }

  /** A concrete input: save "Hi" on a new image; no caption appears and the editor reopens empty. */
  lemma SaveAsWrittenLosesCaption()
    ensures var m := MediaFile("a", File("beach.png", "image/png"), "blob:a", Image,
                               Option.None, Option.None, Option.None);
            var r := SaveOverlayAsWritten([m], "a", "Hi");
            && r[0].overlayOptions == Option.Some("Hi")
            && SlideshowPlayer.CaptionBox(r[0]).None?
            && TextEditModal.InitialText(r[0]) != "Hi"
  {
    var m := MediaFile("a", File("beach.png", "image/png"), "blob:a", Image,
                       Option.None, Option.None, Option.None);
    SaveAsWrittenIsInvisible([m], "a", "Hi", 0);
  }

  /**
   * Corrected: the saved text is what the editor reopens with, and the player
   * shows it as the caption exactly when it is non-empty.
   */
  lemma SaveRoundTrip(s: seq<MediaFile>, id: string, text: string, i: nat)
    requires i < |s| && s[i].id == id
    ensures var r := SaveOverlayById(s, id, text);
      && TextEditModal.InitialText(r[i]) == text
      && SlideshowPlayer.CaptionBox(r[i]) == (if text != "" then Option.Some(text) else Option.None)
  {
  }

  /**
   * Corrected, end to end: an editor opened on an item, after some quiet
   * events and Save, leaves the item reopening with the text last typed.
   */
  lemma EditThenSaveReopensWithTypedText(s: seq<MediaFile>, i: nat, quiet: seq<TextEditModal.Event>)
    requires i < |s|
    requires forall e :: e in quiet ==> TextEditModal.Quiet(e)
    ensures var req := TextEditModal.Run(s[i].id, TextEditModal.InitialText(s[i]), quiet + [TextEditModal.SaveClick]);
      && req.Save?
      && req.id == s[i].id
      && TextEditModal.InitialText(SaveOverlayById(s, req.id, req.text)[i]) == req.text
      && req.text == TextEditModal.AfterTyping(TextEditModal.InitialText(s[i]), quiet)
  {
    var start := TextEditModal.InitialText(s[i]);
    TextEditModal.SaveCarriesBuffer(s[i].id, start, quiet, []);
    assert quiet + [TextEditModal.SaveClick] + [] == quiet + [TextEditModal.SaveClick];
    var req := TextEditModal.Run(s[i].id, start, quiet + [TextEditModal.SaveClick]);
    SaveRoundTrip(s, req.id, req.text, i);
  }
}
