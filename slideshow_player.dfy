/**
 * The player (components/SlideshowPlayer.tsx): which CSS classes the current
 * slide is drawn with for the chosen effect and transition phase, the
 * Ken Burns pan wrapper, the caption box, and the transition phase that a
 * new media file restarts. Class strings are modelled as their lists of
 * space-separated class names.
 */
module SlideshowPlayer {
  import opened Types

  /** `isTransitioning`: Entering right after a new media file arrives, Settled once the 500 ms timer fires. */
  datatype Phase = Entering | Settled

  /** `baseTransition`. */
  const BaseTransition: seq<string> := ["transition-all", "duration-500", "ease-in-out"]

  /** `getEffectClasses`: the transition classes of the slide container. */
  function EffectClasses(effect: SlideEffect, phase: Phase): (cls: seq<string>)
    ensures cls == [] <==> effect == SlideEffect.None
    ensures effect != SlideEffect.None ==> |cls| > 3 && cls[..3] == BaseTransition
    ensures effect != SlideEffect.None ==> ("opacity-0" in cls <==> phase == Entering)
    ensures effect != SlideEffect.None ==> ("opacity-100" in cls <==> phase == Settled)
  {
    var entering := phase == Entering;
    if effect == KenBurns then
      BaseTransition + (if entering then ["opacity-0"] else ["opacity-100"])
    else
      match effect
      case Fade =>
        BaseTransition + (if entering then ["opacity-0"] else ["opacity-100"])
      case Slide =>
        BaseTransition + (if entering then ["translate-x-full", "opacity-0"] else ["translate-x-0", "opacity-100"])
      case Zoom =>
        BaseTransition + (if entering then ["scale-50", "opacity-0"] else ["scale-100", "opacity-100"])
      case Blur =>
        BaseTransition + (if entering then ["opacity-0", "blur-md"] else ["opacity-100", "blur-0"])
      case Flip =>
        BaseTransition + (if entering then ["rotate-y-90", "opacity-0"] else ["rotate-y-0", "opacity-100"])
      case Rotate =>
        BaseTransition + (if entering then ["scale-50", "opacity-0", "rotate-[-45deg]"]
                                      else ["scale-100", "opacity-100", "rotate-0"])
      case _ => []
  }

  /** Ken Burns takes the early return, which draws exactly like Fade; every other effect has its own entering look. */
  lemma EffectLooks(phase: Phase)
    ensures EffectClasses(KenBurns, phase) == EffectClasses(Fade, phase)
    ensures forall e :: e != SlideEffect.None ==> EffectClasses(e, Entering) != EffectClasses(e, Settled)
  {
  }

  /** The Ken Burns pan variant: `(slideIndex % 4) + 1`. */
  function KenBurnsVariant(slideIndex: nat): (k: nat)
    ensures 1 <= k <= 4
  {
    slideIndex % 4 + 1
  }

  /** The variants repeat every four slides, and any four consecutive slides pan four different ways. */
  lemma KenBurnsVariantCycles(slideIndex: nat)
    ensures KenBurnsVariant(slideIndex + 4) == KenBurnsVariant(slideIndex)
    ensures forall a: nat, b: nat :: slideIndex <= a < b < slideIndex + 4 ==> KenBurnsVariant(a) != KenBurnsVariant(b)
  {
  }

  /** The decimal digit for 0..9. */
  function DigitChar(d: nat): (c: char)
    requires d < 10
    ensures '0' <= c <= '9'
    ensures c as int - '0' as int == d
  {
    ('0' as int + d) as char
  }

  /** `kenburns-<variant>`: one of the four pan classes, named by the slide's variant. */
  function KenBurnsClass(slideIndex: nat): (c: string)
    ensures c in ["kenburns-1", "kenburns-2", "kenburns-3", "kenburns-4"]
    ensures |c| == 10 && c[..9] == "kenburns-" && c[9] == DigitChar(KenBurnsVariant(slideIndex))
  {
    var k := KenBurnsVariant(slideIndex);
    var c := "kenburns-" + [DigitChar(k)];
    assert c == "kenburns-1" || c == "kenburns-2" || c == "kenburns-3" || c == "kenburns-4" by {
      if k == 1 { assert DigitChar(k) == '1'; }
      else if k == 2 { assert DigitChar(k) == '2'; }
      else if k == 3 { assert DigitChar(k) == '3'; }
      else { assert DigitChar(k) == '4'; }
    }
    c
  }

  /** The pan class repeats every four slides, and two neighbouring slides never get the same one. */
  lemma KenBurnsClassCycles(slideIndex: nat)
    ensures KenBurnsClass(slideIndex + 4) == KenBurnsClass(slideIndex)
    ensures KenBurnsClass(slideIndex + 1) != KenBurnsClass(slideIndex)
  {
    KenBurnsVariantCycles(slideIndex);
    var a, b := KenBurnsVariant(slideIndex), KenBurnsVariant(slideIndex + 1);
    assert KenBurnsClass(slideIndex)[9] == DigitChar(a);
    assert KenBurnsClass(slideIndex + 1)[9] == DigitChar(b);
  }

  /** The object-fit class: `object-contain` for Contain, `object-cover` for anything else. */
  function FitClass(fit: Fit): string {
    if fit == Contain then "object-contain" else "object-cover"
  }

  /** The classes of the `<img>` or `<video>` element. */
  function MediaClasses(m: MediaFile, fit: Fit): (cls: seq<string>)
    ensures "object-contain" in cls <==> fit == Contain
    ensures "object-cover" in cls <==> fit == Cover
    ensures "dramatic-flicker" in cls <==> Dramatic(m)
  {
    ["w-full", "h-full", FitClass(fit)] + (if Dramatic(m) then ["dramatic-flicker"] else [])
  }

  /** The media element: an image for `image` items, a looping muted video keyed by its URL otherwise. */
  datatype Element =
    | Img(src: string, alt: string, classes: seq<string>)
    | VideoElement(key: string, src: string, classes: seq<string>, autoPlay: bool)

  /** The key of the Ken Burns wrapper: a new key restarts the pan animation. */
  datatype PanKey = PanKey(id: string, durationSeconds: nat, fit: Fit)

  datatype Content =
    | Plain(element: Element)
    | KenBurnsPan(key: PanKey, panClass: string, animationSeconds: nat, element: Element)

  /** What the player shows: a placeholder without media, otherwise the keyed slide container. */
  datatype Screen =
    | Placeholder
    | Showing(key: int, classes: seq<string>, content: Content, caption: Option<string>)

  /** The caption box: shown only when the overlay text is present and non-empty. */
  function CaptionBox(m: MediaFile): (c: Option<string>)
    ensures c.Some? <==> HasOverlayText(m)
    ensures c.Some? ==> c.value == m.overlayText.value && c.value != ""
  {
    if m.overlayText.Some? && m.overlayText.value != "" then Option.Some(m.overlayText.value) else Option.None
  }

  /** `renderMedia` for a present media file. */
  function RenderMedia(m: MediaFile, effect: SlideEffect, isPlaying: bool, fit: Fit, slideIndex: nat, slideDuration: nat)
    : (c: Content)
    ensures c.KenBurnsPan? <==> effect == KenBurns
    ensures c.KenBurnsPan? ==>
      && c.animationSeconds == slideDuration
      && c.key == PanKey(m.id, slideDuration, fit)
      && c.panClass == KenBurnsClass(slideIndex)
    ensures c.element.Img? <==> m.kind == Image
    ensures c.element.src == m.src && c.element.classes == MediaClasses(m, fit)
    ensures c.element.VideoElement? ==> c.element.autoPlay == isPlaying && c.element.key == m.src
  {
    var element :=
      if m.kind == Image then Img(m.src, m.file.name, MediaClasses(m, fit))
      else VideoElement(m.src, m.src, MediaClasses(m, fit), isPlaying);
    if effect == KenBurns then
      KenBurnsPan(PanKey(m.id, slideDuration, fit), KenBurnsClass(slideIndex), slideDuration, element)
    else
      Plain(element)
  }

  /** The player's output for one render. */
  function Render(mediaFile: Option<MediaFile>, effect: SlideEffect, isPlaying: bool, fit: Fit,
                  slideIndex: nat, slideDuration: nat, phase: Phase, key: int): (s: Screen)
    ensures s.Placeholder? <==> mediaFile.None?
    ensures s.Showing? ==>
      && s.key == key
      && |s.classes| >= 7
      && s.classes[..7] == ["w-full", "h-full", "flex", "items-center", "justify-center", "overflow-hidden", "relative"]
      && s.classes[7..] == EffectClasses(effect, phase)
      && s.content == RenderMedia(mediaFile.value, effect, isPlaying, fit, slideIndex, slideDuration)
      && s.caption == CaptionBox(mediaFile.value)
  {
    match mediaFile
    case None => Placeholder
    case Some(m) =>
      Showing(key,
              ["w-full", "h-full", "flex", "items-center", "justify-center", "overflow-hidden", "relative"]
                + EffectClasses(effect, phase),
              RenderMedia(m, effect, isPlaying, fit, slideIndex, slideDuration),
              CaptionBox(m))
  }

  /**
   * The `isTransitioning`/`key` state. A different media file takes a new key
   * from the clock and re-enters the transition; the 500 ms timer the effect
   * then schedules settles it. The timer itself is not a field: it is
   * outstanding exactly while `isTransitioning` holds.
   */
  class Transition {
    var shown: Option<MediaFile>
    var isTransitioning: bool
    var key: int

    /** The phase the container is drawn in: invisible (`opacity-0`) exactly while transitioning. */
    function CurrentPhase(): (p: Phase)
      reads this
      ensures forall effect :: effect != SlideEffect.None ==>
        ("opacity-0" in EffectClasses(effect, p) <==> isTransitioning)
    {
      if isTransitioning then Entering else Settled
    }

    /** Mounting runs the effect once for the first media file. */
    constructor(mediaFile: Option<MediaFile>, now: int)
      ensures shown == mediaFile && isTransitioning && key == now
    {
      shown := mediaFile;
      key := now;
      isTransitioning := true;
    }

    /** The effect on `[mediaFile]`: it re-runs only when the media file differs from the one shown. */
    method OnMediaFile(mediaFile: Option<MediaFile>, now: int)
      modifies this
      ensures mediaFile != old(shown) ==> shown == mediaFile && isTransitioning && key == now
      ensures mediaFile == old(shown) ==>
        shown == old(shown) && isTransitioning == old(isTransitioning) && key == old(key)
    {
      if mediaFile != shown {
        shown := mediaFile;
        key := now;
        isTransitioning := true;
      }
    }

    /** The settle timer fired: the container is drawn settled under the same key. */
    method TimerFired()
      modifies this
      ensures !isTransitioning && shown == old(shown) && key == old(key)
      ensures CurrentPhase() == Settled
    {
      isTransitioning := false;
    }
  }
}
