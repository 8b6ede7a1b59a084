/**
 * The caption editor (components/TextEditModal.tsx): a session over one
 * item holding a local text buffer. Typing changes only the buffer; Save
 * hands (item id, buffer) to the owner; Escape, a click on the backdrop
 * itself and Cancel ask the owner to close without saving.
 */
module TextEditModal {
  import opened Types

  /** The buffer a session starts from: `mediaFile.overlayText || ''`. */
  function InitialText(m: MediaFile): (t: string)
    ensures HasOverlayText(m) ==> t == m.overlayText.value
    ensures !HasOverlayText(m) ==> t == ""
  {
    if m.overlayText.Some? && m.overlayText.value != "" then m.overlayText.value else ""
  }

  /** What the user does while the editor is open. */
  datatype Event =
    | Typed(text: string)                      // the textarea's new value
    | SaveClick
    | KeyDown(key: string)                     // a key pressed anywhere in the window
    | BackdropClick(targetIsBackdrop: bool)    // a click that bubbled to the backdrop
    | CancelClick

  /** What the editor asks of its owner: nothing, `onSave(id, text)` or `onClose()`. */
  datatype Request = Stay | Save(id: string, text: string) | Close

  /** The guarded callbacks: which event saves, which closes, and with what. */
  function Respond(id: string, text: string, e: Event): (r: Request)
    ensures r.Save? <==> e.SaveClick?
    ensures r.Save? ==> r.id == id && r.text == text
    ensures r.Close? <==> e == KeyDown("Escape") || e == BackdropClick(true) || e == CancelClick
  {
    match e
    case Typed(_) => Stay
    case SaveClick => Save(id, text)
    case KeyDown(key) => if key == "Escape" then Close else Stay
    case BackdropClick(targetIsBackdrop) => if targetIsBackdrop then Close else Stay
    case CancelClick => Close
  }

  /** One open editor: the item it was opened on and its local `text` state. */
  class Session {
    const mediaFile: MediaFile
    var text: string

    constructor(mediaFile: MediaFile)
      ensures this.mediaFile == mediaFile && text == InitialText(mediaFile)
    {
      this.mediaFile := mediaFile;
      text := InitialText(mediaFile);
    }

    /** Handles one event; only typing touches the buffer, and nothing here touches the store. */
    method Handle(e: Event) returns (r: Request)
      modifies this`text
      ensures e.Typed? ==> text == e.text && r == Stay
      ensures !e.Typed? ==> text == old(text) && r == Respond(mediaFile.id, text, e)
    {
      if e.Typed? {
        text := e.text;
        r := Stay;
      } else {
        r := Respond(mediaFile.id, text, e);
      }
    }
  }

  /** A whole session on item `id` from buffer `text`: events in order until one saves or closes. */
  function Run(id: string, text: string, events: seq<Event>): Request
    decreases |events|
  {
    if events == [] then Stay
    else if events[0].Typed? then Run(id, events[0].text, events[1..])
    else
      var r := Respond(id, text, events[0]);
      if r.Stay? then Run(id, text, events[1..]) else r
  }

  /** The buffer after a run of events: the last text typed, or the starting text. */
  function AfterTyping(text: string, events: seq<Event>): string
    decreases |events|
  {
    if events == [] then text
    else AfterTyping(if events[0].Typed? then events[0].text else text, events[1..])
  }

  /**
   * Drives an open editor through events in order, stopping at the first one
   * that saves or closes; the answer is the one `Run` describes.
   */
  method RunSession(s: Session, events: seq<Event>) returns (r: Request)
    modifies s`text
    ensures r == Run(s.mediaFile.id, old(s.text), events)
    ensures r == Stay ==> s.text == AfterTyping(old(s.text), events)
  {
    r := Stay;
    var i := 0;
    while i < |events|
      invariant 0 <= i <= |events|
      invariant r == Stay
      invariant Run(s.mediaFile.id, old(s.text), events) == Run(s.mediaFile.id, s.text, events[i..])
      invariant AfterTyping(old(s.text), events) == AfterTyping(s.text, events[i..])
    {
      assert events[i..][1..] == events[i + 1..];
      r := s.Handle(events[i]);
      if r != Stay {
        return;
      }
      i := i + 1;
    }
  }

  /** An event that neither saves nor closes. */
  predicate Quiet(e: Event) {
    Respond("", "", e).Stay?
  }

  /** Without a Save click a session never saves: typing alone never reaches the store. */
  lemma {:induction false} NoSaveWithoutSaveClick(id: string, text: string, events: seq<Event>)
    requires SaveClick !in events
    ensures !Run(id, text, events).Save?
    decreases |events|
  {
    if events != [] {
      assert events[0] != SaveClick;
      assert SaveClick !in events[1..];
      if events[0].Typed? {
        NoSaveWithoutSaveClick(id, events[0].text, events[1..]);
      } else {
        NoSaveWithoutSaveClick(id, text, events[1..]);
      }
    }
  }

  /** A session only ever saves for the item it was opened on. */
  lemma {:induction false} SaveTargetsOwnItem(id: string, text: string, events: seq<Event>)
    ensures Run(id, text, events).Save? ==> Run(id, text, events).id == id
    decreases |events|
  {
    if events != [] {
      if events[0].Typed? {
        SaveTargetsOwnItem(id, events[0].text, events[1..]);
      } else {
        SaveTargetsOwnItem(id, text, events[1..]);
      }
    }
  }

  /** After quiet events, Save hands over exactly the item's id and the last text typed. */
  lemma {:induction false} SaveCarriesBuffer(id: string, text: string, quiet: seq<Event>, rest: seq<Event>)
    requires forall e :: e in quiet ==> Quiet(e)
    ensures Run(id, text, quiet + [SaveClick] + rest) == Save(id, AfterTyping(text, quiet))
    decreases |quiet|
  {
    if quiet == [] {
      assert quiet + [SaveClick] + rest == [SaveClick] + rest;
    } else {
      var e := quiet[0];
      assert (quiet + [SaveClick] + rest)[1..] == quiet[1..] + [SaveClick] + rest;
      assert Quiet(e);
      if e.Typed? {
        SaveCarriesBuffer(id, e.text, quiet[1..], rest);
      } else {
        assert Respond(id, text, e).Stay?;
        SaveCarriesBuffer(id, text, quiet[1..], rest);
      }
    }
  }

  /** After quiet events, Escape, a backdrop click or Cancel closes the session without saving. */
  lemma {:induction false} CloseDiscardsBuffer(id: string, text: string, quiet: seq<Event>, close: Event, rest: seq<Event>)
    requires forall e :: e in quiet ==> Quiet(e)
    requires close == KeyDown("Escape") || close == BackdropClick(true) || close == CancelClick
    ensures Run(id, text, quiet + [close] + rest) == Close
    decreases |quiet|
  {
    if quiet == [] {
      assert quiet + [close] + rest == [close] + rest;
    } else {
      var e := quiet[0];
      assert (quiet + [close] + rest)[1..] == quiet[1..] + [close] + rest;
      assert Quiet(e);
      if e.Typed? {
        CloseDiscardsBuffer(id, e.text, quiet[1..], close, rest);
      } else {
        assert Respond(id, text, e).Stay?;
        CloseDiscardsBuffer(id, text, quiet[1..], close, rest);
      }
    }
  }
}
