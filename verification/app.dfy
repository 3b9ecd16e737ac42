/** The application state's list operations (src/App.js): logging a mood
    sample and adding, updating and deleting journal entries. The clock
    (`Date.now()`, `new Date()`) becomes the `id` and `now` parameters;
    timestamps are integers (milliseconds). */
module App {
  import opened Basics
  import opened Moods

  /** One logged mood: `{id, date, mood, notes}`. */
  datatype Sample = Sample(id: int, time: int, mood: Mood, notes: string)

  /** One journal entry: `{id, date, title, content, name}`; `name` is
      `undefined` when the caller passes none. */
  datatype JournalEntry = JournalEntry(id: int, date: int, title: string, content: string, name: Option<string>)

  /** The fields an update object carries; `None` means the key is absent. */
  datatype EntryPatch = EntryPatch(
    id: Option<int>, date: Option<int>, title: Option<string>,
    content: Option<string>, name: Option<Option<string>>)

  const NoChange := EntryPatch(None, None, None, None, None)

  /** `addMoodEntry`: append one sample stamped with `id` and `now`. */
  function AddMoodEntry(data: seq<Sample>, mood: Mood, notes: string, id: int, now: int): (r: seq<Sample>)
    ensures |r| == |data| + 1
    ensures r[..|data|] == data
    ensures r[|data|] == Sample(id, now, mood, notes)
  {
    data + [Sample(id, now, mood, notes)]
  }

  /** `addJournalEntry`: append one entry stamped with `id` and `now`. */
  function AddJournalEntry(entries: seq<JournalEntry>, title: string, content: string,
                           name: Option<string>, id: int, now: int): (r: seq<JournalEntry>)
    ensures |r| == |entries| + 1
    ensures r[..|entries|] == entries
    ensures r[|entries|] == JournalEntry(id, now, title, content, name)
  {
    entries + [JournalEntry(id, now, title, content, name)]
  }

  /** `{ ...entry, ...updatedFields }`. */
  function Patch(e: JournalEntry, p: EntryPatch): JournalEntry
  {
    JournalEntry(
      if p.id.Some? then p.id.value else e.id,
      if p.date.Some? then p.date.value else e.date,
      if p.title.Some? then p.title.value else e.title,
      if p.content.Some? then p.content.value else e.content,
      if p.name.Some? then p.name.value else e.name)
  }

  /** An empty update object changes nothing, and applying the same update twice is applying it once. */
  lemma {:induction false} PatchLaws(e: JournalEntry, p: EntryPatch)
    ensures Patch(e, NoChange) == e
    ensures Patch(Patch(e, p), p) == Patch(e, p)
  {
  }

  /** `updateJournalEntry`: merge the update into every entry with a matching id. */
  function UpdateJournalEntry(entries: seq<JournalEntry>, id: int, p: EntryPatch): (r: seq<JournalEntry>)
    ensures |r| == |entries|
    ensures forall i :: 0 <= i < |r| && entries[i].id != id ==> r[i] == entries[i]
    ensures forall i :: 0 <= i < |r| && entries[i].id == id ==> r[i] == Patch(entries[i], p)
  {
    seq(|entries|, i requires 0 <= i < |entries| =>
      if entries[i].id == id then Patch(entries[i], p) else entries[i])
  }

  /** Repeating an update changes nothing more, even one that rewrites the id. */
  lemma {:induction false} UpdateIdempotent(entries: seq<JournalEntry>, id: int, p: EntryPatch)
    ensures UpdateJournalEntry(UpdateJournalEntry(entries, id, p), id, p)
      == UpdateJournalEntry(entries, id, p)
  {
    var once := UpdateJournalEntry(entries, id, p);
    var twice := UpdateJournalEntry(once, id, p);
    forall i | 0 <= i < |entries| ensures twice[i] == once[i] {
      PatchLaws(entries[i], p);
    }
  }

  ghost predicate HasId(entries: seq<JournalEntry>, id: int)
  {
    exists i :: 0 <= i < |entries| && entries[i].id == id
  }

  /** The filter callback of `deleteJournalEntry`. */
  function KeepOthers(id: int): JournalEntry -> bool
  {
    (e: JournalEntry) => e.id != id
  }

  /** `deleteJournalEntry`: drop every entry with the given id. */
  function DeleteJournalEntry(entries: seq<JournalEntry>, id: int): (r: seq<JournalEntry>)
    ensures !HasId(r, id)
    ensures IsSubsequence(r, entries)
    ensures forall e: JournalEntry :: e.id != id ==> multiset(r)[e] == multiset(entries)[e]
  {
    FilterSpec(entries, KeepOthers(id));
    Filter(entries, KeepOthers(id))
  }

  /** Deleting an id no entry has leaves the list as it was. */
  lemma {:induction false} DeleteAbsent(entries: seq<JournalEntry>, id: int)
    requires !HasId(entries, id)
    ensures DeleteJournalEntry(entries, id) == entries
  {
    FilterKeepsAll(entries, KeepOthers(id));
  }

  /** Deleting twice is deleting once. */
  lemma {:induction false} DeleteIdempotent(entries: seq<JournalEntry>, id: int)
    ensures DeleteJournalEntry(DeleteJournalEntry(entries, id), id) == DeleteJournalEntry(entries, id)
  {
    DeleteAbsent(DeleteJournalEntry(entries, id), id);
  }

  /** Adding an entry under a fresh id and deleting that id restores the list. */
  lemma {:induction false} DeleteUndoesAdd(entries: seq<JournalEntry>, title: string, content: string,
                        name: Option<string>, id: int, now: int)
    requires !HasId(entries, id)
    ensures DeleteJournalEntry(AddJournalEntry(entries, title, content, name, id, now), id) == entries
  {
    var e := JournalEntry(id, now, title, content, name);
    FilterAppend(entries, [e], KeepOthers(id));
    DeleteAbsent(entries, id);
    assert Filter([e], KeepOthers(id)) == [];
  }
}
