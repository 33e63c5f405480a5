/**
 * The question section: the Yes button, the evasive No button with its
 * decline counter, and the playful modal that opens once the counter is
 * exhausted.  Randomness (`Math.random()`, values in [0, 1)) and the window
 * width are parameters.  The button scale, a float in the page, is kept in
 * hundredths; positions are exact reals.
 */
module ValentineQuestion {
  import opened Wrappers
  import PageFlow

  const PlayfulMessages: seq<string> := [
    "I can stay here all day \U{1F60F}",
    "Not taking no for an answer! \U{1F495}",
    "Nice try, but I'm persistent \U{1F618}",
    "Did you really think that would work? \U{1F49D}",
    "The 'No' button is just decoration! \U{1F604}"
  ]

  /** Declines that move the No button before it stops moving and the modal takes over. */
  const MaxMoves := 3

  datatype Offset = Offset(x: real, y: real)

  /** The five state fields; `scale` is the No button's scale in hundredths. */
  datatype QuestionState = QuestionState(
    noAttempts: int,
    position: Offset,
    scale: int,
    showModal: bool,
    modalMessage: string)

  const Initial := QuestionState(0, Offset(0.0, 0.0), 100, false, "")

  /** The random draws and window width one decline interaction reads. */
  datatype Roll = Roll(first: real, second: real, innerWidth: int)

  predicate IsRandom(r: real) {
    0.0 <= r < 1.0
  }

  predicate ValidRoll(roll: Roll) {
    IsRandom(roll.first) && IsRandom(roll.second)
  }

  /** `Math.floor(Math.random() * playfulMessages.length)`: always an index of the list. */
  function MessageIndex(r: real): (i: int)
    requires IsRandom(r)
    ensures 0 <= i < |PlayfulMessages|
    ensures i as real <= r * 5.0 < i as real + 1.0
  {
    (r * (|PlayfulMessages| as real)).Floor
  }

  /** Scale, in hundredths, after k moves of the No button: 1 - 0.15 k. */
  function ScaleAfter(k: int): int {
    100 - 15 * k
  }

  /** The new random offset: within 200 x 150 pixels on wide windows, 100 x 80 otherwise. */
  function RandomOffset(rx: real, ry: real, innerWidth: int): (o: Offset)
    requires IsRandom(rx) && IsRandom(ry)
    ensures innerWidth > 768 ==> -200.0 <= o.x < 200.0 && -150.0 <= o.y < 150.0
    ensures innerWidth <= 768 ==> -100.0 <= o.x < 100.0 && -80.0 <= o.y < 80.0
  {
    var maxX: real := if innerWidth > 768 then 200.0 else 100.0;
    var maxY: real := if innerWidth > 768 then 150.0 else 80.0;
    Offset((rx - 0.5) * maxX * 2.0, (ry - 0.5) * maxY * 2.0)
  }

  predicate InBounds(o: Offset) {
    -200.0 <= o.x < 200.0 && -150.0 <= o.y < 150.0
  }

  /** `handleNoHover` (also what a click or a touch on the No button runs). */
  function Decline(s: QuestionState, roll: Roll): (r: QuestionState)
    requires ValidRoll(roll)
    ensures s.noAttempts >= MaxMoves ==>
              r.showModal && r.modalMessage in PlayfulMessages
              && r.noAttempts == s.noAttempts && r.position == s.position && r.scale == s.scale
    ensures s.noAttempts < MaxMoves ==>
              r.noAttempts == s.noAttempts + 1 && r.scale == ScaleAfter(r.noAttempts)
              && InBounds(r.position)
              && r.showModal == s.showModal && r.modalMessage == s.modalMessage
  {
    if s.noAttempts >= MaxMoves then
      s.(modalMessage := PlayfulMessages[MessageIndex(roll.first)], showModal := true)
    else
      s.(position := RandomOffset(roll.first, roll.second, roll.innerWidth),
         scale := 100 - (s.noAttempts + 1) * 15,
         noAttempts := s.noAttempts + 1)
  }

  /**
   * The modal's close button: the modal is hidden and nothing else changes,
   * so the counter stays where it was and, once it is at 3, the next decline
   * opens the modal again.
   */
  function ModalClosed(s: QuestionState): (r: QuestionState)
    ensures !r.showModal
    ensures r.noAttempts == s.noAttempts && r.position == s.position
    ensures r.scale == s.scale && r.modalMessage == s.modalMessage
    ensures forall roll :: ValidRoll(roll) && s.noAttempts >= MaxMoves ==> Decline(r, roll).showModal
  {
    s.(showModal := false)
  }

  /**
   * What every state reached from the initial one satisfies: the counter
   * stays in 0..3, the scale matches it, the button is still at the origin
   * until it first moves, and the modal only opens, with one of the five
   * messages, once the counter is at 3.
   */
  predicate Inv(s: QuestionState) {
    && 0 <= s.noAttempts <= MaxMoves
    && s.scale == ScaleAfter(s.noAttempts)
    && InBounds(s.position)
    && (s.noAttempts == 0 ==> s.position == Offset(0.0, 0.0))
    && (s.modalMessage == "" || s.modalMessage in PlayfulMessages)
    && (s.showModal ==> s.noAttempts == MaxMoves && s.modalMessage in PlayfulMessages)
  }

  lemma InvInitial()
    ensures Inv(Initial)
  {
  }

  lemma InvDecline(s: QuestionState, roll: Roll)
    requires Inv(s) && ValidRoll(roll)
    ensures Inv(Decline(s, roll))
  {
  }

  lemma InvCloseModal(s: QuestionState)
    requires Inv(s)
    ensures Inv(ModalClosed(s)) && ModalClosed(s).noAttempts == s.noAttempts
  {
  }

  /** The scale after each move is 0.85, 0.70, 0.55: strictly decreasing and positive. */
  lemma ScaleShrinks(j: int, k: int)
    requires 0 <= j < k <= MaxMoves
    ensures 0 < ScaleAfter(k) < ScaleAfter(j) <= 100
  {
  }

  /** The hint under the buttons. */
  function HintText(noAttempts: int): (h: Option<string>)
    ensures h.Some? <==> 0 < noAttempts < MaxMoves
    ensures noAttempts == 1 ==> h == Some("Oops! The button moved \U{1F605}")
    ensures noAttempts == 2 ==> h == Some("It keeps moving! \U{1F648}")
  {
    if noAttempts > 0 && noAttempts < 3 then
      Some(if noAttempts == 1 then "Oops! The button moved \U{1F605}" else "It keeps moving! \U{1F648}")
    else None
  }

  /** The state after a sequence of declines. */
  function Declines(s: QuestionState, rolls: seq<Roll>): QuestionState
    requires forall i :: 0 <= i < |rolls| ==> ValidRoll(rolls[i])
    decreases |rolls|
  {
    if rolls == [] then s else Decline(Declines(s, rolls[..|rolls| - 1]), rolls[|rolls| - 1])
  }

  function Min(a: int, b: int): int {
    if a <= b then a else b
  }

  /**
   * After n declines from the start, the counter is min(n, 3), the scale
   * follows it, the hint shows exactly after the first and second decline,
   * and the modal is open exactly from the fourth decline on: the No
   * button never takes a fourth decline without the modal appearing.
   */
  lemma {:induction false} AfterDeclines(rolls: seq<Roll>)
    requires forall i :: 0 <= i < |rolls| ==> ValidRoll(rolls[i])
    ensures var s := Declines(Initial, rolls);
            && s.noAttempts == Min(|rolls|, MaxMoves)
            && s.scale == ScaleAfter(Min(|rolls|, MaxMoves))
            && (s.showModal <==> |rolls| > MaxMoves)
            && (HintText(s.noAttempts).Some? <==> |rolls| == 1 || |rolls| == 2)
            && Inv(s)
    decreases |rolls|
  {
    if rolls != [] {
      var rs := rolls[..|rolls| - 1];
      AfterDeclines(rs);
      InvDecline(Declines(Initial, rs), rolls[|rolls| - 1]);
    }
  }

  /** The question section's state, one field per `useState`. */
  class Question {
    var noAttempts: int
    var noButtonPosition: Offset
    var noButtonScale: int
    var showModal: bool
    var modalMessage: string

    function State(): QuestionState
      reads this
    {
      QuestionState(noAttempts, noButtonPosition, noButtonScale, showModal, modalMessage)
    }

    predicate Valid()
      reads this
    {
      Inv(State())
    }

    constructor ()
      ensures State() == Initial && Valid()
    {
      noAttempts := 0;
      noButtonPosition := Offset(0.0, 0.0);
      noButtonScale := 100;
      showModal := false;
      modalMessage := "";
    }

    /** `handleNoHover`, run on mouse-enter. */
    method HandleNoHover(roll: Roll)
      requires Valid() && ValidRoll(roll)
      modifies this
      ensures Valid()
      ensures State() == Decline(old(State()), roll)
    {
      InvDecline(State(), roll);
      if noAttempts >= 3 {
        var randomMessage := PlayfulMessages[MessageIndex(roll.first)];
        modalMessage := randomMessage;
        showModal := true;
        return;
      }
      noButtonPosition := RandomOffset(roll.first, roll.second, roll.innerWidth);
      noButtonScale := 100 - (noAttempts + 1) * 15;
      noAttempts := noAttempts + 1;
    }

    /** `handleNoClick`, run on click and touch-start: the same as a hover. */
    method HandleNoClick(roll: Roll)
      requires Valid() && ValidRoll(roll)
      modifies this
      ensures Valid()
      ensures State() == Decline(old(State()), roll)
    {
      HandleNoHover(roll);
    }

    /** The modal's close button: hides the modal, keeps the counter. */
    method CloseModal()
      requires Valid()
      modifies this
      ensures Valid()
      ensures !showModal
      ensures noAttempts == old(noAttempts) && noButtonPosition == old(noButtonPosition)
      ensures noButtonScale == old(noButtonScale) && modalMessage == old(modalMessage)
      ensures State() == ModalClosed(old(State()))
    {
      showModal := false;
    }

    /** The main Yes button: calls `onYes`, the page's `handleYes`. */
    method Yes(page: PageFlow.Page)
      modifies page
      ensures page.State() == PageFlow.Step(old(page.State()), PageFlow.Yes)
      ensures page.stage == PageFlow.Celebration
    {
      page.HandleYes();
    }

    /** The modal's Yes button: closes the modal, then calls the same `onYes`. */
    method ModalYes(page: PageFlow.Page)
      requires Valid()
      modifies this, page
      ensures Valid() && !showModal
      ensures noAttempts == old(noAttempts) && modalMessage == old(modalMessage)
      ensures noButtonPosition == old(noButtonPosition) && noButtonScale == old(noButtonScale)
      ensures page.State() == PageFlow.Step(old(page.State()), PageFlow.Yes)
      ensures page.stage == PageFlow.Celebration
    {
      showModal := false;
      page.HandleYes();
    }
  }
}
