# Valentine greeting page: a Dafny model of its logic

The page is a single-page greeting that walks through five full-screen
stages: loading, hero greeting, the "Will you be my Valentine?" question,
a confetti celebration, and an invitation card. This project models the
four pieces of real logic behind it and proves properties about them.

- **Stage machine** (`page_flow.dfy`, module `PageFlow`).
  - The `Index` page's `stage` and `showHeroButton` fields are the fields of class `Page`, with one method per handler and one for the hero-button timer.
  - `Step` is the pure reaction to one event, and each method is proved to perform it.
  - `Render` gives the page's render conditions.
  - `Enabled` says which events can arrive, given what is rendered.
  - Lemmas about runs of events show forward-only progress, no revisited stage, the invitation stage as terminal, and the continue button appearing only through the timer.
- **Decline counter** (`valentine_question.dfy`, module `ValentineQuestion`).
  - The question section's five state fields are the fields of class `Question`.
  - `Decline` specifies `handleNoHover`, and `Inv` is the invariant every reachable state keeps.
  - `AfterDeclines` gives the state after any number of declines.
  - Both Yes buttons call the page's `handleYes`.
- **Invitation card** (`invitation_card.dfy`, module `InvitationCard`).
  - The next February 14 and its `YYYYMMDD` stamp.
  - The `…T160000` and `…T200000` local DATE-TIME values (section 3.3.5 of RFC 5545).
  - TEXT escaping (section 3.3.11 of RFC 5545), with its unescaping inverse.
  - The 11 content lines joined with CRLF (section 3.1 of RFC 5545).
  - A line splitter and a property lookup that read the document back.
- **Countdown** (`countdown_timer.dfy`, module `Countdown`).
  - The target instant.
  - The floor/mod split of the remaining milliseconds, with range and reconstruction bounds and uniqueness.
  - The two-digit display.
  - The lemma that the card and the countdown disagree on the year between February 14 00:00 and 16:00.

Helper modules:

- `TextFormat` (`text_format.dfy`) holds JavaScript's `String(n)` and `padStart`, with a digit reader as their inverse.
- `CivilTime` (`civil_time.dfy`) holds local date-times, their chronological order, and the `Date` constructor. That constructor reads years 0 to 99 as 1900 to 1999.
- `Wrappers` (`wrappers.dfy`) holds `Option`.

The browser's local time zone is a parameter `zone: DateTime -> int`. It maps a civil date-time to epoch milliseconds. Where a property needs it, the zone is required to be strictly monotone. "Now" is a civil date-time, and the page's `now >= date` comparisons compare `zone` values, as `Date` comparison compares instants. `Math.random()` results and `window.innerWidth` are parameters too.

## Behaviour worth knowing

- The No button moves on the first three declines. The modal with a random message opens from the fourth decline on, because `noAttempts >= 3` is tested before the increment.
- The card moves to next year at February 14 00:00. The countdown moves at February 14 16:00.
- The calendar document has no CRLF after its last line. Section 3.1 of RFC 5545 ends every content line with one.
- The handlers assign their target stage whatever the current stage is. Forward-only progress holds only for events that the rendered components can raise (`Enabled`). LoadingScreen never clears its `onComplete` timer. If that timer fired late, it would send the page from the question back to hero, with the continue button already visible (`PageFlow.LateLoadingCompleteRegresses`).

## Model

| member | source | states |
|---|---|---|
| PageFlow.Page.constructor | src/pages/Index.tsx:14-15 | the page starts in the loading stage with the continue button hidden |
| PageFlow.Page.HandleLoadingComplete | src/pages/Index.tsx:28-30 | the stage becomes hero from any stage; the button flag is untouched; this is `Step` on LoadingComplete |
| PageFlow.Page.HeroButtonTimer | src/pages/Index.tsx:18-26 | the button flag becomes true only if the stage is still hero, because the effect's cleanup cleared the timer otherwise; the stage is unchanged |
| PageFlow.Page.HandleContinue | src/pages/Index.tsx:32-38 | the stage becomes question from any stage; the flag is untouched |
| PageFlow.Page.HandleYes | src/pages/Index.tsx:40-42 | the stage becomes celebration from any stage; the flag is untouched |
| PageFlow.Page.HandleCelebrationComplete | src/pages/Index.tsx:44-46 | the stage becomes invitation from any stage; the flag is untouched |
| PageFlow.Step | src/pages/Index.tsx:18-46 | only the hero timer, fired in hero, turns the flag on; once set, no event turns it off; the timer never changes the stage; no event leads back to loading |
| PageFlow.Render | src/pages/Index.tsx:52-94 | the loading screen shows exactly in loading, and the main content exactly otherwise; the hero shows exactly in hero and question; question, celebration and invitation each show exactly in their own stage; the continue button shows exactly in hero with the flag set; the invitation is always confirmed |
| PageFlow.Enabled | src/pages/Index.tsx:52-94 | LoadingComplete can arrive exactly in loading, Continue exactly in hero with the button shown, Yes exactly in question, CelebrationComplete exactly in celebration; nothing is enabled in invitation; every enabled handler moves one stage forward |
| PageFlow.ContinueButtonVisibility | src/pages/Index.tsx:72-76 | the continue button is visible iff the flag is set and the stage is hero; in question the hero stays rendered but the button is hidden |
| PageFlow.EnabledStepAdvances | src/pages/Index.tsx:28-46 | a handler raised by a rendered component moves exactly one stage forward; the armed timer only sets the flag |
| PageFlow.InvitationIsTerminal | src/pages/Index.tsx:92-94 | no event can be raised in the invitation stage |
| PageFlow.LateLoadingCompleteRegresses | src/components/LoadingScreen.tsx:11-13 | the uncleared loading timer, arriving in question, sends the page back to hero with the button showing |
| PageFlow.EnabledRunAdvances | src/pages/Index.tsx:28-94 | along enabled events the stage's rank grows by exactly one per stage-changing event |
| PageFlow.AtMostFourMoves | src/pages/Index.tsx:52-94 | from the initial state at most four stage changes can happen |
| PageFlow.NoStageRevisited | src/pages/Index.tsx:28-46 | the same stage at two points of an enabled run means only timer events came in between |
| PageFlow.ButtonOnlyFromTimer | src/pages/Index.tsx:18-26 | whatever events arrive, once the button flag is set some earlier hero-timer event fired while the stage was hero |
| ValentineQuestion.Question.constructor | src/components/ValentineQuestion.tsx:18-22 | no declines yet, button at (0,0), scale 1, modal closed, empty message; the invariant holds |
| ValentineQuestion.Question.HandleNoHover | src/components/ValentineQuestion.tsx:24-43 | performs `Decline` and keeps the invariant |
| ValentineQuestion.Question.HandleNoClick | src/components/ValentineQuestion.tsx:45-47 | a click or a touch is exactly a hover |
| ValentineQuestion.Question.CloseModal | src/components/ValentineQuestion.tsx:146 | closes the modal and leaves the counter, position, scale and message as they were |
| ValentineQuestion.Question.Yes | src/components/ValentineQuestion.tsx:89 | the main Yes button moves the page to celebration, by the page's `handleYes` step |
| ValentineQuestion.Question.ModalYes | src/components/ValentineQuestion.tsx:168-171 | closes the modal and moves the page exactly as the main Yes button does |
| ValentineQuestion.Decline | src/components/ValentineQuestion.tsx:24-43 | from 3 declines on: opens the modal with one of the five messages and keeps counter, position and scale; below 3: adds exactly 1 to the counter, sets the scale to match, moves the button within bounds, and leaves the modal alone |
| ValentineQuestion.MessageIndex | src/components/ValentineQuestion.tsx:27 | `floor(r * 5)` for r in [0,1) is an index 0..4 of the message list |
| ValentineQuestion.RandomOffset | src/components/ValentineQuestion.tsx:34-40 | the new offset lies within ±200 × ±150 pixels on windows wider than 768 and within ±100 × ±80 otherwise |
| ValentineQuestion.ModalClosed | src/components/ValentineQuestion.tsx:146 | the modal is hidden and the counter, position, scale and message stay; with the counter at 3 the next decline opens the modal again |
| ValentineQuestion.InvInitial | src/components/ValentineQuestion.tsx:18-22 | the initial state satisfies the invariant |
| ValentineQuestion.InvDecline | src/components/ValentineQuestion.tsx:24-43 | a decline keeps the invariant: counter in 0..3, scale `100 - 15k` hundredths, modal open only at 3 with a listed message |
| ValentineQuestion.InvCloseModal | src/components/ValentineQuestion.tsx:146 | closing the modal keeps the invariant and the counter |
| ValentineQuestion.ScaleShrinks | src/components/ValentineQuestion.tsx:41 | the scales 0.85, 0.70, 0.55 after each move strictly decrease and stay positive |
| ValentineQuestion.HintText | src/components/ValentineQuestion.tsx:118-126 | a hint shows iff 0 < counter < 3: "Oops!…" at 1, "It keeps moving!…" at 2 |
| ValentineQuestion.AfterDeclines | src/components/ValentineQuestion.tsx:24-43 | after n declines the counter is min(n,3), the scale follows it, the hint shows only after the 1st and 2nd decline, and the modal is open iff n > 3 |
| CivilTime.JsYear | src/components/InvitationCard.tsx:13 | the `Date` constructor's year: 1900 + y for y in 0..99, y otherwise |
| CivilTime.NewDate | src/components/CountdownTimer.tsx:19 | `new Date(y, monthIndex, day, hour)` has month `monthIndex + 1` and is a valid date-time for in-range arguments |
| CivilTime.InstantOrder | src/components/CountdownTimer.tsx:20 | under a monotone zone, comparing instants is comparing civil date-times |
| InvitationCard.ValentinesDate | src/components/InvitationCard.tsx:12-16 | the date is midnight of February 14 of now's year or of the next year |
| InvitationCard.ValentinesDateIsNext | src/components/InvitationCard.tsx:12-16 | the date is strictly after now; from year 100 on it is in now's year iff now is before that year's February 14, and otherwise in the next year |
| InvitationCard.GetEventDetails | src/components/InvitationCard.tsx:10-36 | the card's date is the next February 14; the start and end stamps share that day's date stamp and end in `T160000` and `T200000`; the short location is the location without its country |
| InvitationCard.IcsDateReadsBack | src/components/InvitationCard.tsx:22-25 | for any calendar month and day, the date stamp followed by a midnight time reads back as that year, month and day |
| InvitationCard.IcsDateOfFeb14 | src/components/InvitationCard.tsx:22-25 | the date stamp is the year's digits followed by `0214` |
| InvitationCard.FourDigitYearStamps | src/components/InvitationCard.tsx:22-34 | for four-digit years the date stamp is 8 characters and the start and end stamps are 15, sharing their date part |
| InvitationCard.EventStampsDenote | src/components/InvitationCard.tsx:33-34 | DTSTART reads back as February 14 16:00:00 and DTEND as 20:00:00 of the chosen year; start is before end |
| InvitationCard.CardDocumentReadsBack | src/components/InvitationCard.tsx:22-34 | the card's stamps hold no line feed, so the document lemmas apply to the card |
| InvitationCard.ReplaceAll | src/components/InvitationCard.tsx:44 | a global replace of a character that does not occur changes nothing |
| InvitationCard.ReplaceAllRemoves | src/components/InvitationCard.tsx:44 | replacing a character by text that does not contain it leaves none of that character behind |
| InvitationCard.EscapeIcsIsEscapeEach | src/components/InvitationCard.tsx:43-44 | the four chained replacements, backslash first, escape each character exactly once, as a one-pass escape would |
| InvitationCard.EscapeLength | src/components/InvitationCard.tsx:43-44 | the escaped length is the input length plus the number of backslashes, semicolons, commas and line feeds |
| InvitationCard.EscapeIcs | src/components/InvitationCard.tsx:43-44 | the escaped text has no line feed; text without backslash, semicolon, comma or line feed is unchanged |
| InvitationCard.EscapeRoundTrip | src/components/InvitationCard.tsx:43-44 | escaped text is well formed (every backslash starts an escape, no bare `;` `,` or line feed), has no line feed, and unescapes to the input |
| InvitationCard.IcsLines | src/components/InvitationCard.tsx:47-59 | the document has 11 content lines |
| InvitationCard.JoinLast | src/components/InvitationCard.tsx:59 | joining puts the separator before the last element and none after it |
| InvitationCard.IcsContent | src/components/InvitationCard.tsx:45-59 | the document starts with BEGIN:VCALENDAR and CRLF, and ends with CRLF and END:VCALENDAR with no CRLF after it |
| InvitationCard.SplitJoin | src/components/InvitationCard.tsx:45-59 | lines without line feeds, joined with CRLF, split back into the same lines |
| InvitationCard.IcsContentReadsBack | src/components/InvitationCard.tsx:45-59 | the document splits into exactly its 11 lines; DTSTART and DTEND look up the stamps; SUMMARY, DESCRIPTION and LOCATION unescape to the title, description and location |
| Countdown.Target | src/components/CountdownTimer.tsx:18-22 | the target is February 14 16:00 of now's year or of the next year (which one is chosen is stated by Countdown.TargetIsAhead) |
| Countdown.Split | src/components/CountdownTimer.tsx:24-35 | for a positive difference: days ≥ 0, hours < 24, minutes < 60, seconds < 60, and the total lies within 1000 ms below the difference; otherwise all four are 0 |
| Countdown.SplitUnique | src/components/CountdownTimer.tsx:27-32 | the split is the only in-range decomposition that matches the difference to the second |
| Countdown.CalculateTimeLeft | src/components/CountdownTimer.tsx:15-36 | the time left is always in range; when the target is ahead its total lies within 1000 ms below the milliseconds to the target |
| Countdown.TargetIsAhead | src/components/CountdownTimer.tsx:18-32 | the target is strictly after now, so the difference is positive and the zero fallback is unreachable; from year 100 on, the target is in now's year exactly when now is before that year's February 14 16:00 |
| Countdown.Display | src/components/CountdownTimer.tsx:72 | at least two characters; a non-negative value shows as digits, exactly two below 100, that read back as the value |
| Countdown.DisplayReadsBack | src/components/CountdownTimer.tsx:72 | hours, minutes and seconds display as exactly two digits; days as at least two, more from 100 days on; each reads back as its value |
| Countdown.CardAndCountdownYears | src/components/CountdownTimer.tsx:19-20 | the card's year and the countdown's year differ exactly from February 14 00:00 up to 16:00; the card is then on the next year; from year 100 on, the window is February 14 before 16:00 |
| TextFormat.IntRoundTrip | src/components/InvitationCard.tsx:22-25 | `String(y)` of any integer year reads back as that year |
| TextFormat.DigitsRoundTrip | src/components/InvitationCard.tsx:22 | the decimal digits of n read back as n |
| TextFormat.DigitsLength | src/components/CountdownTimer.tsx:72 | n has at most k digits iff n < 10^k |
| TextFormat.Pad2Properties | src/components/InvitationCard.tsx:23-24 | `String(n).padStart(2,'0')` is all digits, at least 2 long, exactly 2 iff n < 100, and reads back as n |

## Left out

- Animation and decoration: framer-motion properties, floating hearts, rose petals, and the random positions and opacities of decorations.
- Confetti (`canvas-confetti` and its particle interval). Its 4000 ms `onComplete` timer, which is cleared on unmount, is the CelebrationComplete event. That event is enabled only while the celebration is rendered.
- Timer durations (2500 ms, 4000 ms, 100 ms): timers are events, and which events can arrive is decided by what is rendered.
- The 100 ms scroll-into-view after Continue, and the countdown's one-second `setInterval` refresh together with its `{0,0,0,0}` state before the first refresh. This is timer plumbing: `CalculateTimeLeft` is what every refresh computes.
- The share sheet, clipboard, `alert`, user-agent checks, Blob/File downloads, object URLs, `window.location` redirects and the Google Calendar link built with `encodeURIComponent`. These are browser capabilities.
- `toLocaleDateString`: the card keeps the date it would format (`valentinesDate`), not the text.
- MusicToggle: a wrapper over the audio element.
- Strings are sequences of Unicode code points, where JavaScript strings are UTF-16 units. No property here depends on the difference.
- Time zones: the zone is required to be strictly monotone. Daylight-saving overlaps and gaps, where local times repeat or are skipped, are not modelled.
- CivilTime.NewDate: does not model the `Date` constructor's normalisation of out-of-range month, day or hour arguments, because the page passes only in-range constants.
- ValentineQuestion.Decline: the button scale is kept in integer hundredths and positions as exact reals, not as floating-point numbers.
- ValentineQuestion.Question.HandleNoHover: each handler runs on the state left by the previous one. React batching of two declines into one render, with a stale `noAttempts`, is not modelled.
- Countdown.Split: integer floor division and remainder stand in for `Math.floor` of floating-point division and `%`. For positive differences of the sizes the page meets, the two agree.
