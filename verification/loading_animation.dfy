/**
 * The loading animation's pure parts: the clamped progress bar width, the
 * emoji and dots cycles advanced by its interval timers, and when it renders
 * at all. The timers themselves and the random microcopy are left out; each
 * timer tick is one application of the step function.
 */
module LoadingAnimation {
  import opened Base

  const EmojiCount: nat := 6

  /** `Math.min(100, Math.max(0, progress))` */
  function ClampProgress(progress: int): (w: int)
    ensures 0 <= w <= 100
    ensures 0 <= progress <= 100 ==> w == progress
    ensures progress < 0 ==> w == 0
    ensures progress > 100 ==> w == 100
  {
    if progress < 0 then 0 else if progress > 100 then 100 else progress
  }

  /** Clamping a clamped width changes nothing. */
  lemma ClampIdempotent(progress: int)
    ensures ClampProgress(ClampProgress(progress)) == ClampProgress(progress)
  {
  }

  /** Clamping keeps the order of progress values. */
  lemma ClampMonotone(p: int, q: int)
    requires p <= q
    ensures ClampProgress(p) <= ClampProgress(q)
  {
  }

  /** One tick of the emoji timer: `(i + 1) % 6`. */
  function NextEmoji(i: nat): (j: nat)
    ensures j < EmojiCount
    ensures i + 1 < EmojiCount ==> j == i + 1
  {
    (i + 1) % EmojiCount
  }

  /** The emoji index after `k` ticks from `i`. */
  function EmojiAfter(i: nat, k: nat): nat
  {
    if k == 0 then i else NextEmoji(EmojiAfter(i, k - 1))
  }

  /** From the start, the index after `k` ticks is `k mod 6`, so it always names one of the six emojis. */
  lemma {:induction false} EmojiCycle(k: nat)
    ensures EmojiAfter(0, k) == k % EmojiCount
  {
    if k > 0 {
      EmojiCycle(k - 1);
    }
  }

  /** One tick of the dots timer: add a dot below three, else start over. */
  function NextDots(dots: string): (d: string)
    ensures |dots| < 3 ==> d == dots + "."
    ensures |dots| >= 3 ==> d == ""
  {
    if |dots| < 3 then dots + "." else ""
  }

  /** The dots after `k` ticks from `dots`. */
  function DotsAfter(dots: string, k: nat): string
  {
    if k == 0 then dots else NextDots(DotsAfter(dots, k - 1))
  }

  /** From the empty string the dots are `k mod 4` dots long, all of them '.', so never more than three. */
  lemma {:induction false} DotsCycle(k: nat)
    ensures |DotsAfter("", k)| == k % 4
    ensures forall i :: 0 <= i < |DotsAfter("", k)| ==> DotsAfter("", k)[i] == '.'
  {
    if k > 0 {
      DotsCycle(k - 1);
    }
  }

  /** Four ticks bring the dots back to where they were, from any reachable value. */
  lemma DotsPeriod(k: nat)
    ensures DotsAfter("", k + 4) == DotsAfter("", k)
  {
    DotsCycle(k);
    DotsCycle(k + 4);
    assert (k + 4) % 4 == k % 4;
  }

  /** What the component renders: nothing, or the animation with a bar of the given width when progress is passed. */
  datatype View = Hidden | Shown(bar: Option<int>)

  /** `null` unless loading; the bar only when progress is not null. */
  function Render(isLoading: bool, progress: Option<int>): (v: View)
    ensures v.Hidden? <==> !isLoading
    ensures v.Shown? ==> (v.bar.Some? <==> progress.Some?)
    ensures v.Shown? && v.bar.Some? ==> 0 <= v.bar.value <= 100 && v.bar.value == ClampProgress(progress.value)
  {
    if !isLoading then Hidden
    else Shown(match progress case Some(p) => Some(ClampProgress(p)) case None => None)
  }
}
