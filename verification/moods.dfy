/** The mood logger (src/components/MoodLogger.js): the six-mood table every
    other part of the app relies on, and the form's submit and prompt logic. */
module Moods {
  import opened Basics

  /** The emoji glyphs, as opaque tokens. */
  datatype Emoji = Crying | Worried | NeutralFace | SlightSmile | Smiling | StarStruck

  /** One mood category. The icon component is presentational and not modelled. */
  datatype Mood = Mood(id: int, emoji: Emoji, name: string, value: int, colour: string)

  const Table: seq<Mood> := [
    Mood(1, Crying, "Very Sad", 1, "#6B7280"),
    Mood(2, Worried, "Sad", 2, "#9CA3AF"),
    Mood(3, NeutralFace, "Neutral", 3, "#D1D5DB"),
    Mood(4, SlightSmile, "Happy", 4, "#93C5FD"),
    Mood(5, Smiling, "Very Happy", 5, "#60A5FA"),
    Mood(6, StarStruck, "Ecstatic", 6, "#3B82F6")
  ]

  /** Six moods, listed by ascending value 1..6, `id == value`, names (labels) distinct. */
  lemma {:induction false} TableShape()
    ensures |Table| == 6
    ensures forall i :: 0 <= i < |Table| ==> Table[i].id == Table[i].value == i + 1
    ensures forall i, j :: 0 <= i < j < |Table| ==> Table[i].name != Table[j].name
  {
  }

  /** The form state: the selected mood (if any), the notes, the success banner. */
  datatype LoggerForm = LoggerForm(selected: Option<Mood>, notes: string, showSuccess: bool)

  /** What the form hands to `onAddMood`. */
  datatype Logged = Logged(mood: Mood, notes: string)

  /** Clicking a mood button. */
  function Select(f: LoggerForm, m: Mood): LoggerForm
  {
    f.(selected := Some(m))
  }

  /** The submit button's `disabled` attribute. */
  predicate SubmitDisabled(f: LoggerForm)
  {
    f.selected.None?
  }

  /** The submit handler: with a selection, report it with the notes, clear
      selection and notes and show the success banner; otherwise do nothing.
      (Hiding the banner two seconds later is a timer and is not modelled.) */
  function Submit(f: LoggerForm): (r: (LoggerForm, Option<Logged>))
    ensures r.1.Some? <==> f.selected.Some?
    ensures r.1.Some? ==> r.1.value == Logged(f.selected.value, f.notes)
    ensures r.1.Some? ==> r.0.selected.None? && r.0.notes == "" && r.0.showSuccess
    ensures r.1.None? ==> r.0 == f
  {
    match f.selected
    case None => (f, None)
    case Some(m) => (LoggerForm(None, "", true), Some(Logged(m, f.notes)))
  }

  /** The button is enabled exactly when submitting reports a mood, and a
      successful submit disables it again until the next selection. */
  lemma {:induction false} SubmitEnabledIffReported(f: LoggerForm)
    ensures !SubmitDisabled(f) <==> Submit(f).1.Some?
    ensures SubmitDisabled(Submit(f).0)
  {
  }

  /** Whether the "Pause & Breathe" prompt is shown. */
  predicate ShowBreathingPrompt(f: LoggerForm)
  {
    f.selected.Some? && f.selected.value.value < 6
  }

  /** Among the table's moods the prompt appears for every mood except Ecstatic. */
  lemma {:induction false} BreathingPromptExceptEcstatic(f: LoggerForm, i: nat)
    requires i < |Table|
    ensures ShowBreathingPrompt(Select(f, Table[i])) <==> Table[i].name != "Ecstatic"
  {
  }
}
