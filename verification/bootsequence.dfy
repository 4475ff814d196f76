/**
 * The boot animation (src/BootSequence.tsx) for one mount with fixed props.
 * The three timers and the progress interval become explicit events; each
 * one-shot timer is pending from the moment it is scheduled until it fires
 * or is cleared, so it fires at most once. The firing order is left free:
 * the model makes no claim about which timer fires first.
 */
module BootSequence {

  const DefaultDuration := 3000

  datatype Phase = Logo | Loading | Complete

  datatype Boot = Boot(
    progress: int,
    phase: Phase,
    ticking: bool,         // the progress interval is still registered
    logoPending: bool,     // the 500 ms logo timer
    completePending: bool, // the `duration` completion timer
    callbackPending: bool, // the nested 500 ms timer that calls onComplete
    completions: nat)      // how many times onComplete has been called

  /** Right after mount: progress 0, logo phase, interval and both outer timers scheduled. */
  const Mounted := Boot(0, Logo, true, true, true, false, 0)

  datatype Event = Tick | LogoTimer | CompleteTimer | CallbackTimer | Unmount

  /** One progress tick: at 100 or beyond, settle on 100 and stop; otherwise add 2. */
  function TickProgress(b: Boot): (r: Boot)
    requires b.ticking
    ensures b.progress >= 100 ==> r.progress == 100 && !r.ticking
    ensures b.progress < 100 ==> r.progress == b.progress + 2 && r.ticking
    ensures r.(progress := b.progress, ticking := b.ticking) == b
  {
    if b.progress >= 100 then b.(progress := 100, ticking := false) else b.(progress := b.progress + 2)
  }

  function Step(b: Boot, e: Event): (r: Boot)
    ensures e.Tick? && !b.ticking ==> r == b
    ensures e.Tick? && b.ticking ==> r == TickProgress(b)
    ensures e.LogoTimer? ==> r == if b.logoPending then b.(phase := Loading, logoPending := false) else b
    ensures e.CompleteTimer? ==> r == if b.completePending
      then b.(phase := Complete, completePending := false, callbackPending := true) else b
    ensures e.CallbackTimer? ==> r == if b.callbackPending
      then b.(callbackPending := false, completions := b.completions + 1) else b
    ensures e.Unmount? ==> r == b.(ticking := false, logoPending := false, completePending := false)
  {
    match e
    case Tick => if b.ticking then TickProgress(b) else b
    case LogoTimer => if b.logoPending then b.(phase := Loading, logoPending := false) else b
    case CompleteTimer =>
      if b.completePending then b.(phase := Complete, completePending := false, callbackPending := true) else b
    case CallbackTimer =>
      if b.callbackPending then b.(callbackPending := false, completions := b.completions + 1) else b
    case Unmount => b.(ticking := false, logoPending := false, completePending := false)
  }

  function Run(b: Boot, events: seq<Event>): Boot
    decreases |events|
  {
    if |events| == 0 then b else Run(Step(b, events[0]), events[1..])
  }

  /**
   * What every reachable state satisfies: progress is even and in [0, 100],
   * and onComplete has been called, is scheduled, or is still to be
   * scheduled — at most one of the three.
   */
  predicate Invariant(b: Boot) {
    && 0 <= b.progress <= 100
    && b.progress % 2 == 0
    && b.completions + (if b.callbackPending then 1 else 0) + (if b.completePending then 1 else 0) <= 1
  }

  /** One step keeps the invariant and never lowers progress. */
  lemma StepKeepsInvariant(b: Boot, e: Event)
    requires Invariant(b)
    ensures Invariant(Step(b, e))
    ensures Step(b, e).progress >= b.progress
  {
  }

  lemma {:induction false} RunKeepsInvariant(b: Boot, events: seq<Event>)
    requires Invariant(b)
    ensures Invariant(Run(b, events))
    ensures Run(b, events).progress >= b.progress
    decreases |events|
  {
    if |events| > 0 {
      StepKeepsInvariant(b, events[0]);
      RunKeepsInvariant(Step(b, events[0]), events[1..]);
    }
  }

  /** In any order of timer firings, onComplete is called at most once per mount. */
  lemma OnCompleteAtMostOnce(events: seq<Event>)
    ensures Run(Mounted, events).completions <= 1
    ensures 0 <= Run(Mounted, events).progress <= 100
  {
    RunKeepsInvariant(Mounted, events);
  }

  /** `k` interval ticks with no other event in between. */
  function Ticks(b: Boot, k: nat): Boot {
    if k == 0 then b else Step(Ticks(b, k - 1), Tick)
  }

  /** From mount, progress climbs by 2 per tick and reaches 100 after 50 ticks. */
  lemma {:induction false} TicksFromMount(k: nat)
    requires k <= 50
    ensures Ticks(Mounted, k) == Mounted.(progress := 2 * k)
  {
    if k > 0 {
      TicksFromMount(k - 1);
    }
  }

  /** The 51st tick finds 100 and clears the interval; later ticks change nothing. */
  lemma TickingStopsAfterFull(extra: nat)
    ensures Ticks(Mounted, 50).progress == 100
    ensures Ticks(Mounted, 51) == Mounted.(progress := 100, ticking := false)
    ensures Ticks(Ticks(Mounted, 51), extra) == Ticks(Mounted, 51)
  {
    TicksFromMount(50);
    StoppedTicksChangeNothing(Ticks(Mounted, 51), extra);
  }

  lemma {:induction false} StoppedTicksChangeNothing(b: Boot, k: nat)
    requires !b.ticking
    ensures Ticks(b, k) == b
  {
    if k > 0 {
      StoppedTicksChangeNothing(b, k - 1);
    }
  }

  /** If the completion timer fires first (a duration under 500), the logo timer sends the phase back. */
  lemma PhaseCanGoBack()
    ensures Run(Mounted, [CompleteTimer]).phase == Complete
    ensures Run(Mounted, [CompleteTimer, LogoTimer]).phase == Loading
  {
    assert [CompleteTimer, LogoTimer][1..] == [LogoTimer];
  }

  /** Unmount clears the outer timers but not the nested one, so onComplete may still be called. */
  lemma CallbackSurvivesUnmount()
    ensures Run(Mounted, [CompleteTimer, Unmount, CallbackTimer]).completions == 1
  {
    var es := [CompleteTimer, Unmount, CallbackTimer];
    assert es[1..] == [Unmount, CallbackTimer];
    assert es[1..][1..] == [CallbackTimer];
  }

  /** The progress bar is drawn only while loading. */
  function ProgressBarShown(b: Boot): (shown: bool)
    ensures shown <==> b.phase == Loading
  {
    b.phase == Loading
  }

  /** The fade-out overlay is drawn only once complete. */
  function FadeOutShown(b: Boot): (shown: bool)
    ensures shown <==> b.phase == Complete
  {
    b.phase == Complete
  }

  /**
   * The screen goes logo, then progress bar, then fade-out: nothing extra at
   * mount, the bar once the logo timer fires, the fade-out (and no bar) once
   * the completion timer fires; the bar and the fade-out never show together.
   */
  lemma ScreensFollowPhases(b: Boot)
    ensures !(ProgressBarShown(b) && FadeOutShown(b))
    ensures !ProgressBarShown(Mounted) && !FadeOutShown(Mounted)
    ensures ProgressBarShown(Run(Mounted, [LogoTimer]))
    ensures FadeOutShown(Run(Mounted, [LogoTimer, CompleteTimer]))
    ensures !ProgressBarShown(Run(Mounted, [LogoTimer, CompleteTimer]))
  {
    assert [LogoTimer, CompleteTimer][1..] == [CompleteTimer];
  }
}
