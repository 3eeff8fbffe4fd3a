/** The about section: a reveal latch driven by an intersection observer,
    and a background video whose source falls back on a load error. */
module About {

  /** The two animation targets of the section's container. */
  datatype Variant = Hidden | Visible

  const InitialVideo := "/trail.mp4"
  const FallbackVideo := "/skate1.mp4"

  /** The container animates to "visible" exactly when the section has been
      seen, and to "hidden" otherwise. */
  function ContainerTarget(isInView: bool): (v: Variant)
    ensures v == Visible <==> isInView
    ensures v == Hidden <==> !isInView
  {
    if isInView then Visible else Hidden
  }

  /** The latch after one observer callback per element of `firsts`, each
      element being the `isIntersecting` flag of that callback's first
      entry (the only entry the callback looks at). */
  function Revealed(start: bool, firsts: seq<bool>): bool
    decreases |firsts|
  {
    if firsts == [] then start
    else Revealed(start || firsts[0], firsts[1..])
  }

  /** After any run of callbacks the section is in view exactly when it was
      before or some callback reported an intersection: once true, nothing
      sets it back. */
  lemma {:induction false} RevealedIff(start: bool, firsts: seq<bool>)
    ensures Revealed(start, firsts) <==> start || exists k :: 0 <= k < |firsts| && firsts[k]
    decreases |firsts|
  {
    if firsts != [] {
      RevealedIff(start || firsts[0], firsts[1..]);
      if exists k :: 0 <= k < |firsts[1..]| && firsts[1..][k] {
        var k :| 0 <= k < |firsts[1..]| && firsts[1..][k];
        assert firsts[k + 1];
      }
      if exists k :: 0 <= k < |firsts| && firsts[k] {
        var k :| 0 <= k < |firsts| && firsts[k];
        if k > 0 {
          assert firsts[1..][k - 1];
        }
      }
    }
  }

  /** A latch that starts true stays true. */
  lemma RevealedStaysTrue(firsts: seq<bool>)
    ensures Revealed(true, firsts)
  {
    RevealedIff(true, firsts);
  }

  /** Callbacks that report no intersection leave the latch as it was. */
  lemma RevealedUnchangedWithoutHit(start: bool, firsts: seq<bool>)
    requires forall k :: 0 <= k < |firsts| ==> !firsts[k]
    ensures Revealed(start, firsts) == start
  {
    RevealedIff(start, firsts);
  }

  /** The video source after `errors` load errors. */
  function SourceAfterErrors(src: string, errors: nat): string
    decreases errors
  {
    if errors == 0 then src else SourceAfterErrors(FallbackVideo, errors - 1)
  }

  /** One error switches to the fallback source and any further error keeps
      it there. */
  lemma {:induction false} ErrorsSettleOnFallback(src: string, errors: nat)
    ensures errors == 0 ==> SourceAfterErrors(src, errors) == src
    ensures errors > 0 ==> SourceAfterErrors(src, errors) == FallbackVideo
    decreases errors
  {
    if errors > 1 {
      ErrorsSettleOnFallback(FallbackVideo, errors - 1);
    }
  }

  class AboutSection {
    var isInView: bool
    var videoSrc: string

    constructor ()
      ensures !isInView && videoSrc == InitialVideo
      ensures ContainerTarget(isInView) == Hidden
    {
      isInView, videoSrc := false, InitialVideo;
    }

    /** The observer callback: it reads its first entry only, sets the latch
        when that entry intersects and leaves it alone otherwise. */
    method OnIntersection(entries: seq<bool>)
      requires |entries| > 0
      modifies this
      ensures isInView == Revealed(old(isInView), [entries[0]])
      ensures old(isInView) ==> isInView
      ensures entries[0] ==> isInView
      ensures !entries[0] ==> isInView == old(isInView)
      ensures videoSrc == old(videoSrc)
    {
      if entries[0] {
        isInView := true;
      }
    }

    /** The video's error handler. */
    method OnVideoError()
      modifies this
      ensures videoSrc == SourceAfterErrors(old(videoSrc), 1)
      ensures videoSrc == FallbackVideo
      ensures isInView == old(isInView)
    {
      videoSrc := FallbackVideo;
    }

    function Target(): Variant
      reads this
    {
      ContainerTarget(isInView)
    }
  }
}
