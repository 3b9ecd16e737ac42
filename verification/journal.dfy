/** The journal view (src/components/Journal.js): the editor form and its
    guard, the expand/collapse state, the preview truncation and the
    newest-first listing. */
module Journal {
  import opened Basics
  import opened Text
  import opened App
  import Sorting

  /** The preview length the list uses (`getPreview`'s default). */
  const PreviewLength := 150

  /** `getPreview`: the content itself if it fits, otherwise its first
      `maxLength` characters followed by an ellipsis. */
  function GetPreview(content: string, maxLength: nat): (r: string)
    ensures |content| <= maxLength ==> r == content
    ensures |content| > maxLength ==>
      |r| == maxLength + 3 && r[..maxLength] == content[..maxLength] && r[maxLength..] == "..."
  {
    if |content| <= maxLength then content
    else content[..maxLength] + "..."
  }

  /** The preview never exceeds `maxLength + 3` characters, always begins with
      a prefix of the content, and only a preview that was cut is longer than `maxLength`. */
  lemma {:induction false} PreviewShape(content: string, maxLength: nat)
    ensures var r := GetPreview(content, maxLength);
      && |r| <= maxLength + 3
      && (|r| > maxLength <==> |content| > maxLength)
      && exists k :: 0 <= k <= |content| && k <= |r| && r[..k] == content[..k] && (k == |r| || r[k..] == "...")
  {
    var r := GetPreview(content, maxLength);
    if |content| <= maxLength {
      assert r[..|r|] == content[..|content|];
    } else {
      assert r[..maxLength] == content[..maxLength];
    }
  }

  /** Whether the "Read more" button appears under a collapsed entry. */
  predicate ShowReadMore(content: string)
  {
    |content| > PreviewLength
  }

  /** "Read more" appears exactly when the preview was cut; otherwise the
      preview is the whole content. */
  lemma {:induction false} ReadMoreIffCut(content: string)
    ensures ShowReadMore(content) <==> |GetPreview(content, PreviewLength)| == PreviewLength + 3
    ensures !ShowReadMore(content) ==> GetPreview(content, PreviewLength) == content
  {
  }

  /** The editor: whether it is open, and the two fields. */
  datatype JournalForm = JournalForm(writing: bool, title: string, content: string)

  /** The closed editor with empty fields: the initial state. */
  const Closed := JournalForm(false, "", "")

  /** What the form hands to `onAddEntry`: the fields as typed, untrimmed. */
  datatype Draft = Draft(title: string, content: string)

  /** The "New Entry" button. */
  function Open(f: JournalForm): (r: JournalForm)
    ensures r.writing && r.title == f.title && r.content == f.content
  {
    f.(writing := true)
  }

  /** The Save button's `disabled` attribute. */
  predicate SaveDisabled(f: JournalForm)
  {
    Trim(f.title) == "" || Trim(f.content) == ""
  }

  /** `handleSubmit`: with a title and content that are not blank, report them
      and close and clear the editor; otherwise change nothing. */
  function Submit(f: JournalForm): (r: (JournalForm, Option<Draft>))
    ensures r.1.Some? <==> !IsBlank(f.title) && !IsBlank(f.content)
    ensures r.1.Some? ==> r.1.value == Draft(f.title, f.content) && r.0 == Closed
    ensures r.1.None? ==> r.0 == f
  {
    TrimEmptyIffBlank(f.title);
    TrimEmptyIffBlank(f.content);
    if Trim(f.title) != "" && Trim(f.content) != "" then (Closed, Some(Draft(f.title, f.content)))
    else (f, None)
  }

  /** Save is disabled exactly when submitting would be rejected. */
  lemma {:induction false} SaveDisabledIffRejected(f: JournalForm)
    ensures SaveDisabled(f) <==> Submit(f).1.None?
    ensures SaveDisabled(f) <==> IsBlank(f.title) || IsBlank(f.content)
  {
    TrimEmptyIffBlank(f.title);
    TrimEmptyIffBlank(f.content);
  }

  /** The Cancel button: close the editor and clear both fields. */
  function Cancel(f: JournalForm): (r: JournalForm)
    ensures !r.writing && r.title == "" && r.content == ""
  {
    Closed
  }

  /** A successful save leaves the editor as Cancel does, and the entry it adds
      carries the typed fields, no name, and lands at the end of the list. */
  lemma {:induction false} SaveThenAdd(f: JournalForm, entries: seq<JournalEntry>, id: int, now: int)
    requires Submit(f).1.Some?
    ensures Submit(f).0 == Cancel(f)
    ensures var d := Submit(f).1.value;
      var r := AddJournalEntry(entries, d.title, d.content, None, id, now);
      r[|entries|] == JournalEntry(id, now, f.title, f.content, None) && r[..|entries|] == entries
  {
  }

  /** `toggleEntry`: collapse the entry if it is the expanded one, otherwise expand it. */
  function ToggleEntry(expanded: Option<int>, id: int): (r: Option<int>)
    ensures r == Some(id) <==> expanded != Some(id)
    ensures r != Some(id) ==> r.None?
  {
    if expanded == Some(id) then None else Some(id)
  }

  /** Two toggles of the same entry restore its own expanded state, and leave
      no other entry expanded. */
  lemma {:induction false} ToggleTwice(expanded: Option<int>, id: int)
    ensures ToggleEntry(ToggleEntry(expanded, id), id) == if expanded == Some(id) then expanded else None
  {
  }

  /** The rank that lists the newest entry first. */
  function NewestFirstRank(): JournalEntry -> int
  {
    (e: JournalEntry) => -e.date
  }

  /** The list's `sort((a, b) => date(b) - date(a))`. */
  function NewestFirst(entries: seq<JournalEntry>): seq<JournalEntry>
  {
    Sorting.SortBy(entries, NewestFirstRank())
  }

  /** The listing shows every entry exactly once, newest first. */
  lemma {:induction false} NewestFirstSpec(entries: seq<JournalEntry>)
    ensures multiset(NewestFirst(entries)) == multiset(entries)
    ensures var r := NewestFirst(entries);
      forall i, j :: 0 <= i < j < |r| ==> r[i].date >= r[j].date
  {
    var r := NewestFirst(entries);
    Sorting.SortBySpec(entries, NewestFirstRank());
    forall i, j | 0 <= i < j < |r| ensures r[i].date >= r[j].date {
      assert NewestFirstRank()(r[i]) <= NewestFirstRank()(r[j]);
    }
  }

  /** Entries written at the same time keep their order in the list. */
  lemma {:induction false} NewestFirstStable(entries: seq<JournalEntry>, date: int)
    ensures Sorting.OfRank(NewestFirst(entries), NewestFirstRank(), -date)
      == Sorting.OfRank(entries, NewestFirstRank(), -date)
  {
    Sorting.SortByStable(entries, NewestFirstRank(), -date);
  }

  /** A list that is already newest-first is shown as it is. */
  lemma {:induction false} NewestFirstOfSorted(entries: seq<JournalEntry>)
    requires forall i, j :: 0 <= i < j < |entries| ==> entries[i].date >= entries[j].date
    ensures NewestFirst(entries) == entries
  {
    Sorting.SortBySorted(entries, NewestFirstRank());
  }
}
