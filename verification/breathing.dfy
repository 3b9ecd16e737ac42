/** The guided breathing exercise (src/components/BreathingMeditation.js): the
    countdown state machine behind the modal's four screens, the 12-second
    inhale/hold/exhale classifier, the circle style and instruction text, and
    the `m:ss` clock. Timers become explicit events: `Second` is one firing
    of every live countdown interval. */
module Breathing {
  import opened Basics
  import opened Text

  datatype Phase = Inhale | Hold | Exhale

  /** The duration buttons, in seconds. */
  const Presets: seq<int> := [60, 120, 300, 600]

  /** One inhale/hold/exhale cycle, in seconds. */
  const CycleSeconds := 12

  /** The component state. `live` says whether the countdown interval whose
      handle is kept is still running; `leaked` counts countdown intervals
      started earlier whose handle was overwritten, so that nothing can stop them. */
  datatype Session = Session(
    active: bool, duration: int, timeLeft: int, phase: Phase,
    showComplete: bool, showSelect: bool, live: bool, leaked: nat)

  /** The state when the modal mounts: one minute, not running. */
  const Initial := Session(false, 60, 60, Inhale, false, false, false, 0)

  /** The countdown intervals that fire every second. */
  function Intervals(s: Session): nat
  {
    s.leaked + (if s.live then 1 else 0)
  }

  /** The intro screen with its Start and Change Duration buttons. */
  predicate Intro(s: Session)
  {
    !s.active && !s.showComplete && !s.showSelect
  }

  /** `resetMeditation`. */
  function Reset(s: Session): (r: Session)
    ensures Intro(r) && r.duration == s.duration && r.timeLeft == s.duration && r.phase == Inhale
    ensures !r.live && r.leaked == s.leaked
    ensures Intervals(r) == s.leaked
  {
    s.(active := false, timeLeft := s.duration, phase := Inhale,
       showComplete := false, showSelect := false, live := false)
  }

  /** `startMeditation`: a fresh countdown from the full duration; a countdown
      still running keeps running, its handle lost. */
  function Start(s: Session): (r: Session)
    ensures r.active && r.live && !r.showComplete && !r.showSelect
    ensures r.timeLeft == r.duration == s.duration && r.phase == s.phase
    ensures Intervals(r) == Intervals(s) + 1
  {
    s.(active := true, timeLeft := s.duration, showComplete := false, showSelect := false,
       live := true, leaked := Intervals(s))
  }

  /** `stopMeditation`: stops the kept countdown only. */
  function Stop(s: Session): (r: Session)
    ensures !r.active && !r.live && r.leaked == s.leaked
    ensures r.timeLeft == s.timeLeft && r.duration == s.duration
    ensures r.showComplete == s.showComplete && r.showSelect == s.showSelect && r.phase == s.phase
  {
    s.(active := false, live := false)
  }

  /** `selectDuration`. */
  function SelectDuration(s: Session, d: int): (r: Session)
    ensures r.duration == d && r.timeLeft == d && !r.showSelect
    ensures r.active == s.active && r.showComplete == s.showComplete && Intervals(r) == Intervals(s)
    ensures r.phase == s.phase && r.live == s.live && r.leaked == s.leaked
  {
    s.(duration := d, timeLeft := d, showSelect := false)
  }

  /** `restartWithNewDuration`: leave the completion screen for the duration selector. */
  function ChangeAfterComplete(s: Session): (r: Session)
    ensures !r.showComplete && r.showSelect && Intervals(r) == Intervals(s)
    ensures r.active == s.active && r.timeLeft == s.timeLeft && r.duration == s.duration && r.phase == s.phase
    ensures r.live == s.live && r.leaked == s.leaked
  {
    s.(showComplete := false, showSelect := true)
  }

  /** One firing of the countdown callback as written: at one second or less
      it shows completion and stops the session, but not the interval. */
  function Tick(s: Session): (r: Session)
    ensures r.timeLeft >= 0
    ensures r.timeLeft == 0 <==> s.timeLeft <= 1
    ensures r.timeLeft == 0 ==> r.showComplete && !r.active
    ensures r.timeLeft > 0 ==> r == s.(timeLeft := s.timeLeft - 1)
    ensures r.showSelect == s.showSelect && r.duration == s.duration && r.phase == s.phase
    ensures r.live == s.live && r.leaked == s.leaked
  {
    if s.timeLeft <= 1 then s.(active := false, showComplete := true, timeLeft := 0)
    else s.(timeLeft := s.timeLeft - 1)
  }

  /** The callback with the interval cleared on completion. */
  function TickFixed(s: Session): (r: Session)
    ensures r.timeLeft >= 0
    ensures r.timeLeft == 0 <==> s.timeLeft <= 1
    ensures r.timeLeft == 0 ==> r.showComplete && !r.active && !r.live
    ensures r.timeLeft > 0 ==> r == s.(timeLeft := s.timeLeft - 1)
    ensures r.showSelect == s.showSelect && r.duration == s.duration && r.phase == s.phase
    ensures r.leaked == s.leaked
  {
    if s.timeLeft <= 1 then s.(active := false, showComplete := true, timeLeft := 0, live := false)
    else s.(timeLeft := s.timeLeft - 1)
  }

  /** The two callbacks differ only in whether the interval stays live. */
  lemma {:induction false} TickAgrees(s: Session)
    ensures TickFixed(s) == Tick(s).(live := TickFixed(s).live)
    ensures TickFixed(s).live == (s.live && s.timeLeft > 1)
  {
  }

  /** `n` firings of the callback as written. */
  function Ticks(s: Session, n: nat): Session
  {
    if n == 0 then s else Tick(Ticks(s, n - 1))
  }

  /** One second as written: every running countdown interval fires once. */
  function Second(s: Session): Session
  {
    Ticks(s, Intervals(s))
  }

  /** One second with the fix: only the kept interval can be running. */
  function SecondFixed(s: Session): Session
  {
    if s.live then TickFixed(s) else s
  }

  function Seconds(s: Session, n: nat): Session
  {
    if n == 0 then s else Second(Seconds(s, n - 1))
  }

  function SecondsFixed(s: Session, n: nat): Session
  {
    if n == 0 then s else SecondFixed(SecondsFixed(s, n - 1))
  }

  /** Started from a session with no countdown running, the countdown shows
      `d - k` after `k` seconds and completes after exactly `d` seconds. */
  lemma {:induction false} Countdown(c: Session, k: nat)
    requires !c.live && c.leaked == 0 && c.duration >= 1 && k <= c.duration
    ensures var r := Seconds(Start(c), k);
      && r.timeLeft == c.duration - k
      && r.live && r.leaked == 0
      && r.duration == c.duration
      && (k < c.duration ==> r.active && !r.showComplete)
      && (k == c.duration ==> !r.active && r.showComplete)
  {
    if k > 0 {
      Countdown(c, k - 1);
      var prev := Seconds(Start(c), k - 1);
      assert Second(prev) == Tick(Ticks(prev, 0));
    }
  }

  /** The same countdown with the fix; on completion no interval is left running. */
  lemma {:induction false} CountdownFixed(c: Session, k: nat)
    requires !c.live && c.leaked == 0 && c.duration >= 1 && k <= c.duration
    ensures var r := SecondsFixed(Start(c), k);
      && r.timeLeft == c.duration - k
      && (k < c.duration ==> r.active && r.live && !r.showComplete)
      && (k == c.duration ==> !r.active && !r.live && r.showComplete)
  {
    if k > 0 {
      CountdownFixed(c, k - 1);
    }
  }

  /** The buttons and events the modal reacts to. A button that is not on
      screen cannot be pressed. */
  datatype Event =
    | StartPressed | StopPressed | ChooseDurationPressed | DurationChosen(index: nat)
    | RepeatPressed | ChangeDurationPressed | ClosePressed | SecondElapsed

  /** The modal as written. `RepeatPressed` is `restartSameDuration` with its
      100 ms delay collapsed; `ClosePressed` stands for closing and reopening,
      which resets the state. */
  function Step(s: Session, e: Event): Session
  {
    match e
    case StartPressed => if Intro(s) then Start(s) else s
    case StopPressed => if s.active then Stop(s) else s
    case ChooseDurationPressed => if Intro(s) then s.(showSelect := true) else s
    case DurationChosen(i) => if s.showSelect && i < |Presets| then SelectDuration(s, Presets[i]) else s
    case RepeatPressed => if s.showComplete then Start(Reset(s)) else s
    case ChangeDurationPressed => if s.showComplete then ChangeAfterComplete(s) else s
    case ClosePressed => Reset(s)
    case SecondElapsed => Second(s)
  }

  /** The modal with the countdown interval cleared on completion. */
  function StepFixed(s: Session, e: Event): Session
  {
    if e == SecondElapsed then SecondFixed(s) else Step(s, e)
  }

  /** The states the fixed modal keeps: at most the kept countdown runs, and
      exactly while the session is active; the duration is a preset and the
      time left lies between 0 and it; the screens do not overlap. */
  ghost predicate Sane(s: Session)
  {
    && s.leaked == 0
    && (s.live <==> s.active)
    && s.duration in Presets
    && 0 <= s.timeLeft <= s.duration
    && (s.active ==> !s.showSelect && !s.showComplete)
    && !(s.showComplete && s.showSelect)
  }

  /** Exactly one of the four screens is shown in a sane state. */
  lemma {:induction false} OneScreen(s: Session)
    requires Sane(s)
    ensures (if Intro(s) then 1 else 0) + (if s.showSelect then 1 else 0)
      + (if s.active then 1 else 0) + (if s.showComplete then 1 else 0) == 1
  {
  }

  /** Every event of the fixed modal keeps it sane. */
  lemma {:induction false} StepFixedSane(s: Session, e: Event)
    requires Sane(s)
    ensures Sane(StepFixed(s, e))
  {
  }

  /** In a sane state every single event has the same visible effect with and
      without the fix. */
  lemma {:induction false} StepAgreesWhenSane(s: Session, e: Event)
    requires Sane(s)
    ensures Step(s, e).(live := false, leaked := 0) == StepFixed(s, e).(live := false, leaked := 0)
  {
    if e == SecondElapsed && s.live {
      assert Second(s) == Tick(Ticks(s, 0));
    }
  }

  /** The mounted modal starts sane. */
  lemma {:induction false} InitialSane()
    ensures Sane(Initial)
  {
  }

  /** As written, after a session completes and Change Duration is pressed,
      the next second brings the completion screen back on top of the
      duration selector. */
  lemma {:induction false} CompletionReappears(c: Session)
    requires !c.live && c.leaked == 0 && c.duration >= 1
    ensures var done := Seconds(Start(c), c.duration);
      var choosing := Step(done, ChangeDurationPressed);
      var after := Step(choosing, SecondElapsed);
      && done.showComplete && done.live
      && choosing.showSelect && !choosing.showComplete
      && after.showSelect && after.showComplete
      && !Sane(after)
  {
    Countdown(c, c.duration);
    var done := Seconds(Start(c), c.duration);
    var choosing := Step(done, ChangeDurationPressed);
    assert Second(choosing) == Tick(Ticks(choosing, 0));
  }

  /** As written, picking a new duration after a completed session and
      starting again leaves two countdowns running: the clock drops two
      seconds per second. */
  lemma {:induction false} DoubleSpeedAfterChange(c: Session, i: nat)
    requires !c.live && c.leaked == 0 && c.duration >= 1
    requires i < |Presets|
    ensures var done := Seconds(Start(c), c.duration);
      var restarted := Step(Step(Step(done, ChangeDurationPressed), DurationChosen(i)), StartPressed);
      && restarted.timeLeft == Presets[i] && restarted.active
      && Intervals(restarted) == 2
      && Step(restarted, SecondElapsed).timeLeft == Presets[i] - 2
  {
    Countdown(c, c.duration);
    var done := Seconds(Start(c), c.duration);
    assert Presets[i] >= 60;
    var restarted := Step(Step(Step(done, ChangeDurationPressed), DurationChosen(i)), StartPressed);
    assert Second(restarted) == Tick(Tick(Ticks(restarted, 0)));
  }

  /** With the fix the same presses leave the selector alone and count down at one second per second. */
  lemma {:induction false} FixedCompletionStays(c: Session, i: nat)
    requires !c.live && c.leaked == 0 && c.duration >= 1
    requires i < |Presets|
    ensures var done := SecondsFixed(Start(c), c.duration);
      var choosing := StepFixed(done, ChangeDurationPressed);
      var after := StepFixed(choosing, SecondElapsed);
      var restarted := StepFixed(StepFixed(after, DurationChosen(i)), StartPressed);
      && after.showSelect && !after.showComplete
      && restarted.timeLeft == Presets[i] && StepFixed(restarted, SecondElapsed).timeLeft == Presets[i] - 1
  {
    CountdownFixed(c, c.duration);
  }

  /* ---------------- The breathing cycle ---------------- */

  /** The phase `t` tenths of a second into the session: the position within
      the 12-second cycle decides, inhale for the first 4 seconds, hold for
      the next 2, exhale for the last 6. */
  function PhaseAt(t: nat): Phase
  {
    var p := t % 120;
    if p < 40 then Inhale else if p < 60 then Hold else Exhale
  }

  /** `getBreathingCircleStyle`: scale in tenths and the transition length in seconds. */
  datatype CircleStyle = CircleStyle(scaleTenths: int, seconds: int)

  function StyleOf(p: Phase): CircleStyle
  {
    match p
    case Inhale => CircleStyle(15, 4)
    case Hold => CircleStyle(15, 2)
    case Exhale => CircleStyle(10, 6)
  }

  /** Where a phase begins within the cycle, in tenths. */
  function PhaseStart(p: Phase): int
  {
    match p
    case Inhale => 0
    case Hold => 40
    case Exhale => 60
  }

  /** The classifier and the style agree: each phase lasts exactly as long as
      its transition, the three lengths fill the 12-second cycle, and the
      circle is large while breathing in or holding and small while breathing out. */
  lemma {:induction false} PhasesMatchStyles(t: nat, p: Phase)
    ensures PhaseAt(t) == p <==> PhaseStart(p) <= t % 120 < PhaseStart(p) + 10 * StyleOf(p).seconds
    ensures StyleOf(Inhale).seconds + StyleOf(Hold).seconds + StyleOf(Exhale).seconds == CycleSeconds
    ensures StyleOf(p).scaleTenths == (if p == Exhale then 10 else 15)
  {
  }

  /** The phase repeats every 12 seconds. */
  lemma {:induction false} PhasePeriodic(t: nat, k: nat)
    ensures PhaseAt(t + 120 * k) == PhaseAt(t)
  {
    assert (t + 120 * k) % 120 == t % 120;
  }

  /** Every preset is a whole number of cycles, so a session ends where a new inhale would begin. */
  lemma {:induction false} PresetsWholeCycles()
    ensures forall i :: 0 <= i < |Presets| ==> Presets[i] % CycleSeconds == 0
    ensures forall i :: 0 <= i < |Presets| ==> PhaseAt(10 * Presets[i]) == Inhale
  {
  }

  /** `getInstructionText`. */
  function Instruction(p: Phase): (r: string)
    ensures |r| > 0
  {
    match p
    case Inhale => "Breathe in slowly..."
    case Hold => "Hold your breath..."
    case Exhale => "Breathe out slowly..."
  }

  /** Each phase has its own instruction. */
  lemma {:induction false} InstructionsDistinct(p: Phase, q: Phase)
    ensures Instruction(p) == Instruction(q) <==> p == q
  {
    if p != q {
      assert Instruction(p)[8] != Instruction(q)[8];
    }
  }

  /* ---------------- The clock ---------------- */

  /** JavaScript's `%`: the remainder takes the sign of the dividend. */
  function JsRem(a: int, b: int): (r: int)
    requires b > 0
    ensures a >= 0 ==> 0 <= r < b && a == (a / b) * b + r
    ensures a < 0 ==> -b < r <= 0 && a == -((-a) / b) * b + r
  {
    if a >= 0 then a % b else -((-a) % b)
  }

  /** `formatTime`: minutes rounded down, a colon, seconds padded to two places. */
  function FormatTime(seconds: int): string
  {
    IntToString(seconds / 60) + ":" + PadStart(IntToString(JsRem(seconds, 60)), 2, '0')
  }

  /** Reading an `m:ss` clock: digits, a colon, two digits. */
  function ParseClock(t: string): Option<int>
  {
    if |t| >= 4 && t[|t| - 3] == ':' && AllDigits(t[..|t| - 3]) && AllDigits(t[|t| - 2..])
    then Some(ParseDigits(t[..|t| - 3]) * 60 + ParseDigits(t[|t| - 2..]))
    else None
  }

  /** A number below 100 has at most two digits. */
  lemma {:induction false} SmallNatDigits(n: nat)
    requires n < 100
    ensures |NatToString(n)| <= 2
  {
  }

  /** Seconds below a minute, padded to two places, read back as themselves. */
  lemma {:induction false} TwoDigits(n: nat)
    requires n < 60
    ensures var p := PadStart(NatToString(n), 2, '0');
      |p| == 2 && AllDigits(p) && ParseDigits(p) == n
  {
    var secs := NatToString(n);
    SmallNatDigits(n);
    var p := PadStart(secs, 2, '0');
    var z := p[..|p| - |secs|];
    assert p == z + secs;
    ParseLeadingZeros(z, secs);
    ParseNatToString(n);
  }

  /** A clock assembled from digit strings reads back as minutes and seconds. */
  lemma {:induction false} ParseClockParts(m: string, p: string)
    requires |m| >= 1 && AllDigits(m)
    requires |p| == 2 && AllDigits(p)
    ensures ParseClock(m + ":" + p) == Some(ParseDigits(m) * 60 + ParseDigits(p))
  {
    var t := m + ":" + p;
    assert t[|t| - 2..] == p;
    assert t[..|t| - 3] == m;
    assert t[|t| - 3] == ':';
  }

  /** For a non-negative count the clock is the minutes in decimal, a colon,
      and the seconds within the minute padded to two digits. */
  lemma {:induction false} FormatTimeParts(s: int)
    requires s >= 0
    ensures FormatTime(s) == NatToString(s / 60) + ":" + PadStart(NatToString(s % 60), 2, '0')
  {
    assert JsRem(s, 60) == s % 60;
  }

  /** A non-negative count reads back from its clock. */
  lemma {:induction false} FormatTimeRoundTrip(s: int)
    requires s >= 0
    ensures ParseClock(FormatTime(s)) == Some(s)
  {
    var mins := s / 60;
    var secs := s % 60;
    var m := NatToString(mins);
    var p := PadStart(NatToString(secs), 2, '0');
    FormatTimeParts(s);
    TwoDigits(secs);
    ParseNatToString(mins);
    ParseClockParts(m, p);
    assert ParseClock(FormatTime(s)) == Some(ParseDigits(m) * 60 + ParseDigits(p));
    assert ParseDigits(m) * 60 + ParseDigits(p) == mins * 60 + secs == s;
  }

  /** Negative counts render with a minus sign on both parts, e.g. -5 seconds shows "-1:-5". */
  lemma {:induction false} FormatTimeNegativeExample()
    ensures FormatTime(-5) == "-1:-5"
  {
  }
}
