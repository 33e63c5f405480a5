/**
 * The page's stage machine (the `Index` page): which full-screen section is
 * shown, the delayed "continue" button on the hero section, and the four
 * handlers plus the hero-button timer that move it.
 *
 * `Step` is the reaction of the page state to one event, `Render` the
 * conditions the page's markup tests, and `Enabled` says which events can
 * arrive given what is rendered.  The class `Page` holds the two state fields
 * and has one method per handler; each is proved to perform `Step`.
 */
module PageFlow {

  datatype Stage = Loading | Hero | Question | Celebration | Invitation

  datatype PageState = PageState(stage: Stage, showHeroButton: bool)

  datatype Event =
    | LoadingComplete      // LoadingScreen's timer calls onComplete
    | HeroTimerElapsed     // the 2500 ms timer armed while the stage is hero
    | Continue             // the hero's continue button
    | Yes                  // the question's Yes button, or the modal's Yes button
    | CelebrationComplete  // Celebration's 4000 ms timer calls onComplete

  const Initial := PageState(Loading, false)

  /** Position of a stage in the scripted order loading, hero, question, celebration, invitation. */
  function Rank(st: Stage): nat {
    match st
    case Loading => 0
    case Hero => 1
    case Question => 2
    case Celebration => 3
    case Invitation => 4
  }

  /**
   * One event.  Every handler sets its own target stage whatever the current
   * stage is.  The hero timer only exists while the stage is hero (the effect's
   * cleanup clears it on any stage change), so elsewhere it changes nothing.
   */
  function Step(s: PageState, e: Event): (r: PageState)
    ensures e != HeroTimerElapsed ==> r.showHeroButton == s.showHeroButton
    ensures s.showHeroButton ==> r.showHeroButton
    ensures e == HeroTimerElapsed ==> r.stage == s.stage
    ensures r.showHeroButton && !s.showHeroButton ==> e == HeroTimerElapsed && s.stage == Hero
    ensures r.stage != Loading
            || (s.stage == Loading && r == s && e == HeroTimerElapsed)
  {
    match e
    case LoadingComplete => s.(stage := Hero)
    case HeroTimerElapsed => if s.stage == Hero then s.(showHeroButton := true) else s
    case Continue => s.(stage := Question)
    case Yes => s.(stage := Celebration)
    case CelebrationComplete => s.(stage := Invitation)
  }

  /** What the page renders in a state. */
  datatype View = View(
    loadingScreen: bool,
    mainContent: bool,
    landingHero: bool,
    continueButton: bool,
    question: bool,
    celebration: bool,
    invitation: bool,
    invitationConfirmed: bool)

  function Render(s: PageState): (v: View)
    ensures v.loadingScreen != v.mainContent
    ensures v.loadingScreen <==> s.stage == Loading
    ensures v.landingHero <==> s.stage == Hero || s.stage == Question
    ensures v.question <==> s.stage == Question
    ensures v.celebration <==> s.stage == Celebration
    ensures v.invitation <==> s.stage == Invitation
    ensures v.continueButton <==> s.stage == Hero && s.showHeroButton
    ensures v.continueButton ==> v.landingHero && s.stage == Hero
    ensures v.question ==> v.landingHero && !v.continueButton
    ensures (v.question ==> !v.celebration && !v.invitation) && (v.celebration ==> !v.invitation)
    ensures v.invitation ==> v.invitationConfirmed
    ensures v.mainContent || (!v.landingHero && !v.question && !v.celebration && !v.invitation)
  {
    var main := s.stage != Loading;
    View(
      loadingScreen := s.stage == Loading,
      mainContent := main,
      landingHero := main && (s.stage == Hero || s.stage == Question),
      continueButton := main && (s.stage == Hero || s.stage == Question) && s.showHeroButton && s.stage == Hero,
      question := main && s.stage == Question,
      celebration := main && s.stage == Celebration,
      invitation := main && s.stage == Invitation,
      invitationConfirmed := true)
  }

  /**
   * An event is enabled when the component that raises it is rendered (the
   * continue button, the question, the celebration, the loading screen) or,
   * for the hero timer, when its effect is armed.
   */
  predicate Enabled(s: PageState, e: Event)
    ensures Enabled(s, e) ==> s.stage != Invitation
    ensures Enabled(s, e) && e != HeroTimerElapsed ==> Rank(Step(s, e).stage) == Rank(s.stage) + 1
    ensures e == LoadingComplete ==> (Enabled(s, e) <==> s.stage == Loading)
    ensures e == Continue ==> (Enabled(s, e) <==> s.stage == Hero && s.showHeroButton)
    ensures e == Yes ==> (Enabled(s, e) <==> s.stage == Question)
    ensures e == CelebrationComplete ==> (Enabled(s, e) <==> s.stage == Celebration)
  {
    var v := Render(s);
    match e
    case LoadingComplete => v.loadingScreen
    case HeroTimerElapsed => s.stage == Hero
    case Continue => v.continueButton
    case Yes => v.question
    case CelebrationComplete => v.celebration
  }

  /** An enabled handler moves exactly one stage forward; the enabled timer stays put. */
  lemma EnabledStepAdvances(s: PageState, e: Event)
    requires Enabled(s, e)
    ensures e == HeroTimerElapsed ==> Step(s, e) == s.(showHeroButton := true)
    ensures e != HeroTimerElapsed ==> Rank(Step(s, e).stage) == Rank(s.stage) + 1
  {
  }

  /** Nothing is enabled in the invitation stage: it is terminal. */
  lemma InvitationIsTerminal(s: PageState, e: Event)
    requires s.stage == Invitation
    ensures !Enabled(s, e)
  {
  }

  /** The continue button is hidden once the question is reached, though the hero stays rendered. */
  lemma ContinueButtonVisibility(s: PageState)
    ensures Render(s).continueButton <==> s.showHeroButton && s.stage == Hero
    ensures s.stage == Question ==> Render(s).landingHero && !Render(s).continueButton
  {
  }

  /**
   * LoadingScreen never clears its timer, so a late LoadingComplete is not
   * ruled out by the page itself: arriving in the question stage it sends
   * the page back to hero, with the continue button already visible.
   */
  lemma LateLoadingCompleteRegresses()
    ensures var s := PageState(Question, true);
            var r := Step(s, LoadingComplete);
            !Enabled(s, LoadingComplete) && r.stage == Hero
            && Rank(r.stage) < Rank(s.stage) && Render(r).continueButton
  {
  }

  /** The state after a sequence of events. */
  function Run(s: PageState, es: seq<Event>): PageState
    decreases |es|
  {
    if es == [] then s else Step(Run(s, es[..|es| - 1]), es[|es| - 1])
  }

  /** Every event of the sequence is enabled in the state it arrives in. */
  predicate EnabledRun(s: PageState, es: seq<Event>)
    decreases |es|
  {
    es == [] || (EnabledRun(s, es[..|es| - 1]) && Enabled(Run(s, es[..|es| - 1]), es[|es| - 1]))
  }

  /** The number of stage-changing events (all but the hero timer). */
  function Moves(es: seq<Event>): (n: nat)
    ensures n <= |es|
    decreases |es|
  {
    if es == [] then 0
    else Moves(es[..|es| - 1]) + (if es[|es| - 1] == HeroTimerElapsed then 0 else 1)
  }

  lemma {:induction false} RunAppend(s: PageState, a: seq<Event>, b: seq<Event>)
    ensures Run(s, a + b) == Run(Run(s, a), b)
    ensures EnabledRun(s, a + b) <==> EnabledRun(s, a) && EnabledRun(Run(s, a), b)
    ensures Moves(a + b) == Moves(a) + Moves(b)
    decreases |b|
  {
    if b == [] {
      assert a + b == a;
    } else {
      var b' := b[..|b| - 1];
      assert (a + b)[..|a + b| - 1] == a + b';
      RunAppend(s, a, b');
    }
  }

  /**
   * Along enabled events the rank of the stage grows by exactly one per
   * stage-changing event: stages are visited in the scripted order.
   */
  lemma {:induction false} EnabledRunAdvances(s: PageState, es: seq<Event>)
    requires EnabledRun(s, es)
    ensures Rank(Run(s, es).stage) == Rank(s.stage) + Moves(es)
    decreases |es|
  {
    if es != [] {
      var es' := es[..|es| - 1];
      EnabledRunAdvances(s, es');
      EnabledStepAdvances(Run(s, es'), es[|es| - 1]);
    }
  }

  /** From the initial state at most four stage-changing events can ever be enabled. */
  lemma AtMostFourMoves(es: seq<Event>)
    requires EnabledRun(Initial, es)
    ensures Moves(es) <= 4
  {
    EnabledRunAdvances(Initial, es);
  }

  /**
   * No stage is revisited: if the page is in the same stage after the first
   * i and the first j enabled events, only hero-timer events came between.
   */
  lemma NoStageRevisited(es: seq<Event>, i: nat, j: nat)
    requires EnabledRun(Initial, es)
    requires i <= j <= |es|
    requires Run(Initial, es[..i]).stage == Run(Initial, es[..j]).stage
    ensures forall k :: i <= k < j ==> es[k] == HeroTimerElapsed
  {
    var a, b := es[..i], es[i..j];
    assert es[..j] == a + b;
    assert es == es[..j] + es[j..];
    RunAppend(Initial, es[..j], es[j..]);
    RunAppend(Initial, a, b);
    EnabledRunAdvances(Initial, a);
    EnabledRunAdvances(Initial, a + b);
    NoMovesAllTimers(b);
  }

  lemma {:induction false} NoMovesAllTimers(es: seq<Event>)
    requires Moves(es) == 0
    ensures forall k :: 0 <= k < |es| ==> es[k] == HeroTimerElapsed
    decreases |es|
  {
    if es != [] {
      NoMovesAllTimers(es[..|es| - 1]);
    }
  }

  /**
   * The continue button is only ever shown because the hero timer fired
   * while the stage was hero, whatever events (enabled or late) came before.
   */
  lemma {:induction false} ButtonOnlyFromTimer(es: seq<Event>)
    requires Run(Initial, es).showHeroButton
    ensures exists k :: 0 <= k < |es| && es[k] == HeroTimerElapsed && Run(Initial, es[..k]).stage == Hero
    decreases |es|
  {
    var es' := es[..|es| - 1];
    if Run(Initial, es').showHeroButton {
      ButtonOnlyFromTimer(es');
      var k :| 0 <= k < |es'| && es'[k] == HeroTimerElapsed && Run(Initial, es'[..k]).stage == Hero;
      assert es'[..k] == es[..k];
    } else {
      assert es[..|es| - 1] == es';
    }
  }

  /**
   * The page: the two state fields of the `Index` component and one method
   * per handler.
   */
  class Page {
    var stage: Stage
    var showHeroButton: bool

    function State(): PageState
      reads this
    {
      PageState(stage, showHeroButton)
    }

    constructor ()
      ensures State() == Initial
    {
      stage := Loading;
      showHeroButton := false;
    }

    /** `handleLoadingComplete`. */
    method HandleLoadingComplete()
      modifies this
      ensures stage == Hero && showHeroButton == old(showHeroButton)
      ensures State() == Step(old(State()), LoadingComplete)
    {
      stage := Hero;
    }

    /** The hero effect's 2500 ms timer; it has been cleared if the stage left hero. */
    method HeroButtonTimer()
      modifies this
      ensures stage == old(stage)
      ensures showHeroButton == (old(showHeroButton) || old(stage) == Hero)
      ensures State() == Step(old(State()), HeroTimerElapsed)
    {
      if stage == Hero {
        showHeroButton := true;
      }
    }

    /** `handleContinue` (the scroll it schedules is not modelled). */
    method HandleContinue()
      modifies this
      ensures stage == Question && showHeroButton == old(showHeroButton)
      ensures State() == Step(old(State()), Continue)
    {
      stage := Question;
    }

    /** `handleYes`, the `onYes` callback of the question. */
    method HandleYes()
      modifies this
      ensures stage == Celebration && showHeroButton == old(showHeroButton)
      ensures State() == Step(old(State()), Yes)
    {
      stage := Celebration;
    }

    /** `handleCelebrationComplete`. */
    method HandleCelebrationComplete()
      modifies this
      ensures stage == Invitation && showHeroButton == old(showHeroButton)
      ensures State() == Step(old(State()), CelebrationComplete)
    {
      stage := Invitation;
    }
  }
}
