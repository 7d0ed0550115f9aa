/** The note editor's debounced save (src/pages/NoteEditor.tsx). Every edit
    cancels the pending timer and schedules a new one carrying the new text, so
    there is a single pending-save slot and the latest write wins. Time is not
    modelled: the timers are events, `Fire` when the 500 ms save timer runs out
    and `HideSaved` when the 2000 ms "Saved" indicator timer does. */
module NoteEditor {
  import opened Wrappers
  import opened Storage
  import opened VaultContext

  datatype Event =
    | Change(text: string)
    /** The pending save's timer runs out; `ok` says whether `updateNote` succeeds. */
    | Fire(ok: bool)
    | HideSaved

  /** The editor state. `saves` lists, in order, the texts handed to `updateNote`. */
  datatype EditorState = EditorState(content: string, pending: Option<string>, showSaved: bool, saves: seq<string>)

  /** A route parameter is usable when it is present and not empty (`!noteId` is false). */
  predicate HasId(noteId: Option<string>) {
    noteId.Some? && noteId.value != ""
  }

  /** The editor just opened on a note: its content if the note exists, else empty. */
  function Opened(note: Option<DecryptedNote>): (s: EditorState)
    ensures s.pending.None? && !s.showSaved && s.saves == []
    ensures s.content == if note.Some? then note.value.content else ""
  {
    EditorState(if note.Some? then note.value.content else "", None, false, [])
  }

  /** One event. A change replaces the displayed text and the pending slot. A fire
      empties the slot and, with a note id, saves the slot's text, showing "Saved"
      if that succeeds; without a pending timer nothing happens. */
  function Step(noteId: Option<string>, s: EditorState, e: Event): EditorState
  {
    match e
    case Change(text) => s.(content := text, pending := Some(text))
    case Fire(ok) =>
      if s.pending.None? then s
      else if !HasId(noteId) then s.(pending := None)
      else s.(pending := None, saves := s.saves + [s.pending.value], showSaved := s.showSaved || ok)
    case HideSaved => s.(showSaved := false)
  }

  /** The state after a sequence of events, in order. */
  function Run(noteId: Option<string>, s: EditorState, events: seq<Event>): EditorState
    decreases events
  {
    if events == [] then s else Run(noteId, Step(noteId, s, events[0]), events[1..])
  }

  lemma {:induction false} RunAppend(noteId: Option<string>, s: EditorState, a: seq<Event>, b: seq<Event>)
    ensures Run(noteId, s, a + b) == Run(noteId, Run(noteId, s, a), b)
    decreases a
  {
    if a == [] {
      assert a + b == b;
    } else {
      RunAppend(noteId, Step(noteId, s, a[0]), a[1..], b);
      assert (a + b)[1..] == a[1..] + b;
    }
  }

  lemma RunSnoc(noteId: Option<string>, s: EditorState, events: seq<Event>, e: Event)
    ensures Run(noteId, s, events + [e]) == Step(noteId, Run(noteId, s, events), e)
  {
    RunAppend(noteId, s, events, [e]);
  }

  /** The text of the last change, or `initial` when there was none. */
  function LastChange(events: seq<Event>, initial: string): string
  {
    if events == [] then initial
    else if events[|events| - 1].Change? then events[|events| - 1].text
    else LastChange(events[..|events| - 1], initial)
  }

  /** The displayed text is always that of the latest change. */
  lemma {:induction false} ContentIsLastChange(noteId: Option<string>, s: EditorState, events: seq<Event>)
    ensures Run(noteId, s, events).content == LastChange(events, s.content)
  {
    if events != [] {
      var init := events[..|events| - 1];
      assert events == init + [events[|events| - 1]];
      ContentIsLastChange(noteId, s, init);
      RunSnoc(noteId, s, init, events[|events| - 1]);
    }
  }

  /** The pending slot: the text of the last change if no timer fired after it. */
  function PendingAfter(events: seq<Event>, initial: Option<string>): Option<string>
  {
    if events == [] then initial
    else if events[|events| - 1].Change? then Some(events[|events| - 1].text)
    else if events[|events| - 1].Fire? then None
    else PendingAfter(events[..|events| - 1], initial)
  }

  /** At any time the one pending save carries the latest change since the last fire. */
  lemma {:induction false} PendingIsLatest(noteId: Option<string>, s: EditorState, events: seq<Event>)
    ensures Run(noteId, s, events).pending == PendingAfter(events, s.pending)
  {
    if events != [] {
      var init := events[..|events| - 1];
      assert events == init + [events[|events| - 1]];
      PendingIsLatest(noteId, s, init);
      RunSnoc(noteId, s, init, events[|events| - 1]);
    }
  }

  /** The texts the fires save, with a note id: at each fire that finds a pending
      change, the text of that change. */
  function FiredTexts(events: seq<Event>, initial: Option<string>): seq<string>
  {
    if events == [] then []
    else
      var init := events[..|events| - 1];
      var before := FiredTexts(init, initial);
      if events[|events| - 1].Fire? && PendingAfter(init, initial).Some?
      then before + [PendingAfter(init, initial).value]
      else before
  }

  /** What is saved is exactly the fired texts; a text replaced by a later change
      before its timer fires is never saved. */
  lemma {:induction false} SavesAreFiredTexts(noteId: Option<string>, s: EditorState, events: seq<Event>)
    requires HasId(noteId)
    ensures Run(noteId, s, events).saves == s.saves + FiredTexts(events, s.pending)
  {
    if events != [] {
      var init := events[..|events| - 1];
      assert events == init + [events[|events| - 1]];
      SavesAreFiredTexts(noteId, s, init);
      PendingIsLatest(noteId, s, init);
      RunSnoc(noteId, s, init, events[|events| - 1]);
    }
  }

  /** Without a note id nothing is ever saved. */
  lemma {:induction false} NoIdNoSaves(noteId: Option<string>, s: EditorState, events: seq<Event>)
    requires !HasId(noteId)
    ensures Run(noteId, s, events).saves == s.saves
  {
    if events != [] {
      var init := events[..|events| - 1];
      assert events == init + [events[|events| - 1]];
      NoIdNoSaves(noteId, s, init);
      RunSnoc(noteId, s, init, events[|events| - 1]);
    }
  }

  /** Latest write wins: after a change, anything but another change or a fire,
      and then a fire, exactly that change's text is saved. */
  lemma LatestChangeSaved(noteId: Option<string>, s: EditorState, before: seq<Event>, text: string,
                          quiet: seq<Event>, ok: bool)
    requires HasId(noteId)
    requires forall i :: 0 <= i < |quiet| ==> quiet[i] == HideSaved
    ensures Run(noteId, s, before + [Change(text)] + quiet + [Fire(ok)]).saves
      == Run(noteId, s, before).saves + [text]
  {
    var events := before + [Change(text)] + quiet;
    QuietKeepsPending(noteId, Run(noteId, s, before + [Change(text)]), quiet);
    RunAppend(noteId, s, before + [Change(text)], quiet);
    RunSnoc(noteId, s, before, Change(text));
    RunSnoc(noteId, s, events, Fire(ok));
  }

  lemma {:induction false} QuietKeepsPending(noteId: Option<string>, s: EditorState, quiet: seq<Event>)
    requires forall i :: 0 <= i < |quiet| ==> quiet[i] == HideSaved
    ensures Run(noteId, s, quiet).pending == s.pending && Run(noteId, s, quiet).saves == s.saves
    decreases quiet
  {
    if quiet != [] {
      QuietKeepsPending(noteId, Step(noteId, s, quiet[0]), quiet[1..]);
    }
  }

  /** An illustration of `LatestChangeSaved`: of two quick edits followed by one
      fire, only the second text is saved. */
  lemma SupersededEditNotSaved(noteId: string, s: EditorState, first: string, second: string)
    requires noteId != ""
    ensures Run(Some(noteId), s, [Change(first), Change(second), Fire(true)]).saves == s.saves + [second]
  {
    assert [Change(first)] + [Change(second)] + [] + [Fire(true)] == [Change(first), Change(second), Fire(true)];
    LatestChangeSaved(Some(noteId), s, [Change(first)], second, [], true);
  }

  /** `handleDelete` deletes only with a note id and the user's confirmation. */
  function DeleteTarget(noteId: Option<string>, confirmed: bool): (r: Option<string>)
    ensures r.Some? <==> HasId(noteId) && confirmed
    ensures r.Some? ==> r == noteId
  {
    if !HasId(noteId) || !confirmed then None else noteId
  }

  /** The editor page. */
  class Editor {
    const noteId: Option<string>
    var content: string
    var pending: Option<string>
    var isSaving: bool
    var showSaved: bool
    var saves: seq<string>

    /** Between events no save is in flight: events are handled one at a time. */
    ghost predicate Valid()
      reads this
    {
      !isSaving
    }

    function State(): EditorState
      reads this
    {
      EditorState(content, pending, showSaved, saves)
    }

    /** The load effect: the editor shows the note's content when the note exists. */
    constructor (id: Option<string>, note: Option<DecryptedNote>)
      ensures noteId == id
      ensures State() == Opened(note) && Valid()
    {
      noteId := id;
      content := if note.Some? then note.value.content else "";
      pending := None;
      isSaving := false;
      showSaved := false;
      saves := [];
    }

    /** `handleContentChange`: the new text is shown, and the pending timer, if
        any, is replaced by one carrying the new text. */
    method HandleContentChange(newContent: string)
      requires Valid()
      modifies this`content, this`pending
      ensures Valid()
      ensures State() == Step(noteId, old(State()), Change(newContent))
      ensures content == newContent && pending == Some(newContent)
    {
      content := newContent;
      pending := Some(newContent);
    }

    /** The pending timer fires and calls `saveNote` with its text: nothing without a
        note id; otherwise `updateNote` is called, "Saved" shows on success, and
        `isSaving` is cleared whatever the outcome. */
    method FireSaveTimer(ok: bool)
      requires Valid()
      modifies this`pending, this`isSaving, this`showSaved, this`saves
      ensures Valid()
      ensures State() == Step(noteId, old(State()), Fire(ok))
    {
      if pending.None? {
        return;
      }
      var newContent := pending.value;
      pending := None;
      if !HasId(noteId) {
        return;
      }
      isSaving := true;
      saves := saves + [newContent];
      if ok {
        showSaved := true;
      }
      isSaving := false;
    }

    /** The indicator timer: "Saved" disappears. */
    method HideSavedIndicator()
      requires Valid()
      modifies this`showSaved
      ensures Valid()
      ensures State() == Step(noteId, old(State()), HideSaved)
    {
      showSaved := false;
    }

    /** `handleDelete`: with a note id and the user's confirmation the note is
        deleted from the store and the session; otherwise nothing happens. */
    method HandleDelete(session: VaultSession, store: NoteStore, confirmed: bool)
      requires store.Valid()
      modifies session`notes, store`notes
      ensures store.Valid()
      ensures DeleteTarget(noteId, confirmed).None? ==> unchanged(session) && unchanged(store)
      ensures DeleteTarget(noteId, confirmed).Some? ==>
        && store.notes == old(store.notes) - {noteId.value}
        && session.notes == Without(old(session.notes), noteId.value)
    {
      var target := DeleteTarget(noteId, confirmed);
      if target.None? {
        return;
      }
      session.DeleteNoteHandler(store, target.value);
    }
  }
}
