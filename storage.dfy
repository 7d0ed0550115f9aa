/** The persistence layer (src/lib/storage.ts): the IndexedDB object stores
    `notes` and `vaults`, both keyed by `id`, and the "remember me" record kept
    in localStorage. Each object store is a map from key to record; `put`
    replaces the record under the record's own id. */
module Storage {
  import opened Wrappers
  import opened Sorting

  /** A stored note: its content is an encrypted blob. */
  datatype Note = Note(id: string, vaultId: string, encryptedContent: string, createdAt: int, updatedAt: int)

  datatype VaultInfo = VaultInfo(id: string, createdAt: int)

  /** The "remember me" record: the mnemonic itself, in plaintext. */
  datatype SavedSession = SavedSession(mnemonic: seq<string>, savedAt: int)

  function NoteUpdatedAt(n: Note): int { n.updatedAt }

  /** No two notes of the list share an id. */
  ghost predicate DistinctIds(ns: seq<Note>) {
    forall i, j :: 0 <= i < j < |ns| ==> ns[i].id != ns[j].id
  }

  /** The stored notes of one vault. */
  ghost function NotesOfVault(notes: map<string, Note>, vaultId: string): set<Note>
  {
    NotesOfVaultAmong(notes, notes.Keys, vaultId)
  }

  /** The notes of one vault stored under the given keys. */
  ghost function NotesOfVaultAmong(notes: map<string, Note>, keys: set<string>, vaultId: string): set<Note>
  {
    set id | id in keys && id in notes && notes[id].vaultId == vaultId :: notes[id]
  }

  /** Adding one more key to those scanned adds that key's note, if it is of the
      vault, and it was not there yet, since records sit under their own id. */
  lemma NotesOfVaultStep(notes: map<string, Note>, keys: set<string>, id: string, vaultId: string)
    requires forall k :: k in notes ==> notes[k].id == k
    requires id in notes && id !in keys
    ensures notes[id].vaultId == vaultId ==>
      && notes[id] !in NotesOfVaultAmong(notes, keys, vaultId)
      && NotesOfVaultAmong(notes, keys + {id}, vaultId) == NotesOfVaultAmong(notes, keys, vaultId) + {notes[id]}
    ensures notes[id].vaultId != vaultId ==>
      NotesOfVaultAmong(notes, keys + {id}, vaultId) == NotesOfVaultAmong(notes, keys, vaultId)
  {
  }

  /** A list holding each note of a vault once has no two notes with the same id,
      since every stored record sits under its own id. */
  lemma ListedOnceDistinct(notes: map<string, Note>, vaultId: string, found: seq<Note>)
    requires forall k :: k in notes ==> notes[k].id == k
    requires multiset(found) == multiset(NotesOfVault(notes, vaultId))
    ensures DistinctIds(found)
  {
    forall i, j | 0 <= i < j < |found|
      ensures found[i].id != found[j].id
    {
      assert found[i] in multiset(found) && found[j] in multiset(found);
      if found[i].id == found[j].id {
        assert found[i] == notes[found[i].id] == found[j];
        RepeatedTwice(found, i, j);
        assert false;
      }
    }
  }

  /** An element at two positions occurs at least twice. */
  lemma RepeatedTwice<T>(s: seq<T>, i: int, j: int)
    requires 0 <= i < j < |s| && s[i] == s[j]
    ensures multiset(s)[s[i]] >= 2
  {
    assert s == s[..j] + s[j..];
    assert s[i] in s[..j] && s[j] in s[j..];
  }

  /** The store after `put`ting every note of `list` in order. */
  function PutAll(notes: map<string, Note>, list: seq<Note>): map<string, Note>
  {
    if list == [] then notes
    else
      var last := list[|list| - 1];
      PutAll(notes, list[..|list| - 1])[last.id := last]
  }

  /** The last note of `list` with the given id, if any. */
  function LastWithId(list: seq<Note>, id: string): (r: Option<Note>)
    ensures r.Some? ==> r.value in list && r.value.id == id
    ensures r.None? <==> forall n :: n in list ==> n.id != id
  {
    if list == [] then None
    else if list[|list| - 1].id == id then Some(list[|list| - 1])
    else LastWithId(list[..|list| - 1], id)
  }

  /** Importing puts the notes in order, so for a repeated id the last one wins;
      ids the list does not mention keep their old record. */
  lemma {:induction false} PutAllLastWins(notes: map<string, Note>, list: seq<Note>, id: string)
    ensures id in PutAll(notes, list) <==> id in notes || LastWithId(list, id).Some?
    ensures LastWithId(list, id).Some? ==> PutAll(notes, list)[id] == LastWithId(list, id).value
    ensures LastWithId(list, id).None? && id in notes ==> PutAll(notes, list)[id] == notes[id]
  {
    if list != [] {
      PutAllLastWins(notes, list[..|list| - 1], id);
    }
  }

  /** The `notes` and `vaults` object stores. */
  class NoteStore {
    var notes: map<string, Note>
    var vaults: map<string, VaultInfo>

    /** Every record sits under its own `id` (the stores' `keyPath`). */
    ghost predicate Valid()
      reads this
    {
      && (forall id :: id in notes ==> notes[id].id == id)
      && (forall id :: id in vaults ==> vaults[id].id == id)
    }

    constructor ()
      ensures Valid() && notes == map[] && vaults == map[]
    {
      notes := map[];
      vaults := map[];
    }

    /** `saveNote`: `put` replaces any record with the same id; nothing else changes. */
    method SaveNote(note: Note)
      requires Valid()
      modifies this`notes
      ensures Valid()
      ensures notes == old(notes)[note.id := note]
    {
      notes := notes[note.id := note];
    }

    /** `getNotesByVault`: the notes whose `vaultId` matches, each once, sorted by
        `updatedAt`, most recent first. */
    method GetNotesByVault(vaultId: string) returns (r: seq<Note>)
      requires Valid()
      ensures multiset(r) == multiset(NotesOfVault(notes, vaultId))
      ensures SortedDesc(r, NoteUpdatedAt)
      ensures DistinctIds(r)
    {
      var found := IndexGetAll(vaultId);
      r := SortedCopy(found, NoteUpdatedAt);
      ListedOnceDistinct(notes, vaultId, r);
    }

    /** `index('vaultId').getAll(vaultId)`: every stored note of the vault, once. */
    method IndexGetAll(vaultId: string) returns (found: seq<Note>)
      requires Valid()
      ensures multiset(found) == multiset(NotesOfVault(notes, vaultId))
    {
      var remaining := notes.Keys;
      var done: set<string> := {};
      found := [];
      while remaining != {}
        invariant remaining + done == notes.Keys && remaining !! done
        invariant multiset(found) == multiset(NotesOfVaultAmong(notes, done, vaultId))
        decreases remaining
      {
        var id :| id in remaining;
        NotesOfVaultStep(notes, done, id, vaultId);
        if notes[id].vaultId == vaultId {
          found := found + [notes[id]];
        }
        remaining := remaining - {id};
        done := done + {id};
      }
      assert done == notes.Keys;
    }

    /** `deleteNote`: removes the record with that id, and only it. */
    method DeleteNote(noteId: string)
      requires Valid()
      modifies this`notes
      ensures Valid()
      ensures notes == old(notes) - {noteId}
    {
      notes := notes - {noteId};
    }

    /** `saveVault`: `put` into the `vaults` store. */
    method SaveVault(vault: VaultInfo)
      requires Valid()
      modifies this`vaults
      ensures Valid()
      ensures vaults == old(vaults)[vault.id := vault]
      ensures GetVault(vault.id) == Some(vault)
    {
      vaults := vaults[vault.id := vault];
    }

    /** `getVault`: the record with that id, or `undefined`. */
    function GetVault(vaultId: string): (r: Option<VaultInfo>)
      requires Valid()
      reads this
      ensures r.None? <==> vaultId !in vaults
      ensures r.Some? ==> r.value.id == vaultId && r.value in vaults.Values
    {
      if vaultId in vaults then Some(vaults[vaultId]) else None
    }

    /** `exportVaultData`: the same notes as `getNotesByVault`. */
    method ExportVaultData(vaultId: string) returns (r: seq<Note>)
      requires Valid()
      ensures multiset(r) == multiset(NotesOfVault(notes, vaultId))
      ensures SortedDesc(r, NoteUpdatedAt)
      ensures DistinctIds(r)
    {
      r := GetNotesByVault(vaultId);
    }

    /** `importVaultData`: `saveNote` for each note, in order. */
    method ImportVaultData(list: seq<Note>)
      requires Valid()
      modifies this`notes
      ensures Valid()
      ensures notes == PutAll(old(notes), list)
    {
      for i := 0 to |list|
        invariant Valid()
        invariant notes == PutAll(old(notes), list[..i])
      {
        assert list[..i + 1][..i] == list[..i];
        SaveNote(list[i]);
      }
      assert list[..|list|] == list;
    }
  }

  /** `JSON.stringify` and `JSON.parse` of the session record; parsing may throw. */
  datatype SessionCodec = SessionCodec(stringify: SavedSession -> string, parse: string -> Option<SavedSession>)

  /** What the session round trip needs of JSON: a stringified record parses
      back to itself and is never the empty (falsy) string. */
  ghost predicate Faithful(codec: SessionCodec) {
    forall s :: codec.parse(codec.stringify(s)) == Some(s) && codec.stringify(s) != ""
  }

  /** `getSession` on the stored text: nothing stored, an empty text, or a text
      that does not parse all give `null`. */
  function ReadSession(item: Option<string>, codec: SessionCodec): (r: Option<SavedSession>)
    ensures item.None? || item == Some("") ==> r.None?
    ensures item.Some? && item.value != "" ==> r == codec.parse(item.value)
  {
    if item.None? || item.value == "" then None else codec.parse(item.value)
  }

  /** The localStorage entry `leafvault_session`. */
  class SessionStorage {
    var item: Option<string>

    constructor ()
      ensures item.None?
    {
      item := None;
    }

    /** `saveSession`: stores the mnemonic and the time; `getSession` then returns them. */
    method SaveSession(codec: SessionCodec, mnemonic: seq<string>, now: int)
      modifies this
      ensures item == Some(codec.stringify(SavedSession(mnemonic, now)))
      ensures Faithful(codec) ==> GetSession(codec) == Some(SavedSession(mnemonic, now))
    {
      item := Some(codec.stringify(SavedSession(mnemonic, now)));
    }

    /** `getSession`: `null` when nothing usable is stored; a stored record
        written by a faithful `JSON.stringify` reads back as itself. */
    function GetSession(codec: SessionCodec): (r: Option<SavedSession>)
      reads this
      ensures item.None? || item == Some("") ==> r.None?
      ensures r.Some? ==> item.Some? && codec.parse(item.value) == r
      ensures Faithful(codec) ==> forall s :: item == Some(codec.stringify(s)) ==> r == Some(s)
    {
      ReadSession(item, codec)
    }

    /** `clearSession`: afterwards `getSession` returns `null`. */
    method ClearSession()
      modifies this
      ensures item.None?
      ensures forall codec :: GetSession(codec).None?
    {
      item := None;
    }
  }
}
