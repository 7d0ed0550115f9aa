/** The in-memory vault session (src/contexts/VaultContext.tsx): who is signed
    in (`vaultId`, `vaultKey`, `mnemonic`) and the decrypted note list that the
    pages display, kept in step with the note store. */
module VaultContext {
  import opened Wrappers
  import opened Base64Url
  import opened Crypto
  import opened Sorting
  import opened Storage

  /** A note as the pages see it: the content in plaintext. */
  datatype DecryptedNote = DecryptedNote(id: string, content: string, createdAt: int, updatedAt: int)

  /** The failures the session reports: the two `Error`s it throws itself and
      a failure of the encryption it calls. */
  datatype VaultError = NotSignedIn | NoteNotFound | InvalidMnemonic | EncryptionFailed(cause: CryptoError)

  /** `mnemonicToVaultId` and `mnemonicToVaultKey`: deterministic, and allowed to
      reject a mnemonic. */
  datatype MnemonicKeys = MnemonicKeys(toVaultId: seq<string> -> Option<string>, toVaultKey: seq<string> -> Option<string>)

  function DecryptedUpdatedAt(n: DecryptedNote): int { n.updatedAt }

  /** One iteration of the load loop: the stored note decrypted, keeping its id
      and timestamps, or nothing when decryption fails. */
  function Loaded(p: Primitives, n: Note, vaultKey: string): (r: Option<DecryptedNote>)
    ensures r.None? <==> DecryptResult(p, n.encryptedContent, vaultKey).Failure?
    ensures r.Some? ==>
      && r.value.id == n.id && r.value.createdAt == n.createdAt && r.value.updatedAt == n.updatedAt
      && Success(r.value.content) == DecryptResult(p, n.encryptedContent, vaultKey)
  {
    match DecryptResult(p, n.encryptedContent, vaultKey)
    case Success(content) => Some(DecryptedNote(n.id, content, n.createdAt, n.updatedAt))
    case Failure(_) => None
  }

  /** The values of `f` along `xs`, in order, the `None`s dropped. */
  function FilterMap<A, B>(f: A -> Option<B>, xs: seq<A>): (r: seq<B>)
    ensures |r| <= |xs|
  {
    if xs == [] then []
    else
      var rest := FilterMap(f, xs[..|xs| - 1]);
      match f(xs[|xs| - 1])
      case Some(y) => rest + [y]
      case None => rest
  }

  /** A value is kept exactly when `f` yields it for some element. */
  lemma {:induction false} FilterMapMembers<A, B>(f: A -> Option<B>, xs: seq<A>, y: B)
    ensures y in FilterMap(f, xs) <==> exists x :: x in xs && f(x) == Some(y)
  {
    if xs != [] {
      var init := xs[..|xs| - 1];
      var last := xs[|xs| - 1];
      FilterMapMembers(f, init, y);
      assert xs == init + [last];
      if y in FilterMap(f, init) {
        var x :| x in init && f(x) == Some(y);
        assert x in xs;
      }
    }
  }

  /** When `f` keeps the key `g` of each element as the key `h` of its image, and
      the keys along `xs` are distinct, the kept values have distinct keys. */
  lemma {:induction false} FilterMapKeepsDistinct<A, B>(f: A -> Option<B>, xs: seq<A>, g: A -> string, h: B -> string)
    requires forall x :: x in xs && f(x).Some? ==> h(f(x).value) == g(x)
    requires forall i, j :: 0 <= i < j < |xs| ==> g(xs[i]) != g(xs[j])
    ensures forall i, j :: 0 <= i < j < |FilterMap(f, xs)| ==> h(FilterMap(f, xs)[i]) != h(FilterMap(f, xs)[j])
  {
    if xs != [] {
      var init, last := xs[..|xs| - 1], xs[|xs| - 1];
      assert forall x :: x in init ==> x in xs;
      FilterMapKeepsDistinct(f, init, g, h);
      var rest := FilterMap(f, init);
      if f(last).Some? {
        forall i | 0 <= i < |rest|
          ensures h(rest[i]) != h(f(last).value)
        {
          FilterMapMembers(f, init, rest[i]);
          var x :| x in init && f(x) == Some(rest[i]);
          var k :| 0 <= k < |init| && init[k] == x;
          assert xs[k] == x;
        }
      }
    }
  }

  /** No two notes of the list share an id. */
  ghost predicate UniqueIds(ns: seq<DecryptedNote>) {
    forall i, j :: 0 <= i < j < |ns| ==> ns[i].id != ns[j].id
  }

  /** The decrypted notes of `ns` in order, the failing ones dropped: the load loop. */
  function DecryptAll(p: Primitives, ns: seq<Note>, vaultKey: string): (r: seq<DecryptedNote>)
    ensures |r| <= |ns|
  {
    FilterMap(n => Loaded(p, n, vaultKey), ns)
  }

  /** The loop of `loadNotes`: each stored note is decrypted in turn, and those
      that fail are skipped. */
  method DecryptEach(p: Primitives, encryptedNotes: seq<Note>, vkey: string) returns (decryptedNotes: seq<DecryptedNote>)
    ensures decryptedNotes == DecryptAll(p, encryptedNotes, vkey)
  {
    decryptedNotes := [];
    for i := 0 to |encryptedNotes|
      invariant decryptedNotes == DecryptAll(p, encryptedNotes[..i], vkey)
    {
      var note := encryptedNotes[i];
      var content := Decrypt(p, note.encryptedContent, vkey);
      assert encryptedNotes[..i + 1][..i] == encryptedNotes[..i];
      if content.Success? {
        decryptedNotes := decryptedNotes + [DecryptedNote(note.id, content.value, note.createdAt, note.updatedAt)];
      }
    }
    assert encryptedNotes[..|encryptedNotes|] == encryptedNotes;
  }

  /** A decrypted note is loaded exactly when some stored note decrypts to it. */
  lemma DecryptAllMembers(p: Primitives, ns: seq<Note>, vaultKey: string, d: DecryptedNote)
    ensures d in DecryptAll(p, ns, vaultKey) <==> exists n :: n in ns && Loaded(p, n, vaultKey) == Some(d)
  {
    FilterMapMembers(n => Loaded(p, n, vaultKey), ns, d);
  }

  /** Decrypting keeps the ids, so distinct stored ids give distinct loaded ids. */
  lemma DecryptAllUnique(p: Primitives, ns: seq<Note>, vaultKey: string)
    requires DistinctIds(ns)
    ensures UniqueIds(DecryptAll(p, ns, vaultKey))
  {
    FilterMapKeepsDistinct(n => Loaded(p, n, vaultKey), ns, (n: Note) => n.id, (d: DecryptedNote) => d.id);
  }

  /** A stable sort of the loaded notes keeps their ids distinct. */
  lemma SortedLoadUnique(p: Primitives, ns: seq<Note>, vaultKey: string, sorted: seq<DecryptedNote>)
    requires DistinctIds(ns)
    requires Stable(sorted, DecryptAll(p, ns, vaultKey), DecryptedUpdatedAt)
    ensures UniqueIds(sorted)
  {
    DecryptAllUnique(p, ns, vaultKey);
    StableKeepsDistinct(sorted, DecryptAll(p, ns, vaultKey), DecryptedUpdatedAt, (d: DecryptedNote) => d.id);
  }

  /** Every note of the vault in the store that decrypts under the key, decrypted. */
  ghost function LoadedFrom(p: Primitives, stored: map<string, Note>, vaultId: string, vaultKey: string): set<DecryptedNote>
  {
    set n | n in NotesOfVault(stored, vaultId) && Loaded(p, n, vaultKey).Some? :: Loaded(p, n, vaultKey).value
  }

  /** Any rearrangement of the decrypted list of a vault's notes holds exactly
      the vault's notes that decrypt. */
  lemma LoadedAreFrom(p: Primitives, stored: map<string, Note>, vaultId: string, vaultKey: string,
                      ns: seq<Note>, loaded: seq<DecryptedNote>)
    requires multiset(ns) == multiset(NotesOfVault(stored, vaultId))
    requires multiset(loaded) == multiset(DecryptAll(p, ns, vaultKey))
    ensures forall d :: d in loaded <==> d in LoadedFrom(p, stored, vaultId, vaultKey)
  {
    forall d
      ensures d in loaded <==> d in LoadedFrom(p, stored, vaultId, vaultKey)
    {
      assert d in loaded <==> d in multiset(DecryptAll(p, ns, vaultKey));
      DecryptAllMembers(p, ns, vaultKey, d);
      assert forall n :: n in ns <==> n in multiset(NotesOfVault(stored, vaultId));
    }
  }

  /** The first note of `ns` with that id (`Array.prototype.find`). */
  function FindNote(ns: seq<DecryptedNote>, id: string): (r: Option<DecryptedNote>)
    ensures r.None? <==> forall d :: d in ns ==> d.id != id
    ensures r.Some? ==>
      exists i :: 0 <= i < |ns| && ns[i] == r.value && r.value.id == id && forall j :: 0 <= j < i ==> ns[j].id != id
  {
    if ns == [] then None
    else if ns[0].id == id then Some(ns[0])
    else
      var r := FindNote(ns[1..], id);
      assert forall d :: d in ns[1..] ==> d in ns;
      if r.Some? then
        var i :| 0 <= i < |ns[1..]| && ns[1..][i] == r.value && r.value.id == id
          && forall j :: 0 <= j < i ==> ns[1..][j].id != id;
        assert ns[i + 1] == r.value;
        r
      else r
  }

  /** The list `updateNote` maps: every note with the id gets the new content and
      time, keeping its `createdAt`; every other note is unchanged. */
  function Updated(ns: seq<DecryptedNote>, id: string, content: string, now: int): (r: seq<DecryptedNote>)
    ensures |r| == |ns|
    ensures forall i :: 0 <= i < |ns| && ns[i].id == id ==>
      r[i] == DecryptedNote(id, content, ns[i].createdAt, now)
    ensures forall i :: 0 <= i < |ns| && ns[i].id != id ==> r[i] == ns[i]
  {
    seq(|ns|, i requires 0 <= i < |ns| => if ns[i].id == id then ns[i].(content := content, updatedAt := now) else ns[i])
  }

  /** After the update, `getNote` finds the updated note: the same id and creation
      time, the new content and time. */
  lemma UpdatedIsFound(ns: seq<DecryptedNote>, id: string, content: string, now: int)
    requires FindNote(ns, id).Some?
    ensures FindNote(Updated(ns, id, content, now), id)
      == Some(DecryptedNote(id, content, FindNote(ns, id).value.createdAt, now))
  {
    var i :| 0 <= i < |ns| && ns[i] == FindNote(ns, id).value && ns[i].id == id
      && forall j :: 0 <= j < i ==> ns[j].id != id;
    FindAt(Updated(ns, id, content, now), id, i);
  }

  /** `find` returns the element at the first index whose id matches. */
  lemma {:induction false} FindAt(ns: seq<DecryptedNote>, id: string, i: nat)
    requires i < |ns| && ns[i].id == id
    requires forall j :: 0 <= j < i ==> ns[j].id != id
    ensures FindNote(ns, id) == Some(ns[i])
  {
    if i > 0 {
      FindAt(ns[1..], id, i - 1);
    }
  }

  /** `prev.filter(n => n.id !== noteId)`. */
  function Without(ns: seq<DecryptedNote>, id: string): (r: seq<DecryptedNote>)
    ensures forall d :: d in r <==> d in ns && d.id != id
    ensures |r| <= |ns|
  {
    if ns == [] then []
    else if ns[0].id == id then Without(ns[1..], id)
    else [ns[0]] + Without(ns[1..], id)
  }

  /** Filtering keeps the relative order of the rest: it distributes over concatenation. */
  lemma {:induction false} WithoutAppend(a: seq<DecryptedNote>, b: seq<DecryptedNote>, id: string)
    ensures Without(a + b, id) == Without(a, id) + Without(b, id)
  {
    if a == [] {
      assert a + b == b;
    } else {
      var ab := a + b;
      assert ab[0] == a[0];
      assert ab[1..] == a[1..] + b;
      WithoutAppend(a[1..], b, id);
      if a[0].id == id {
        assert Without(ab, id) == Without(a[1..] + b, id);
      } else {
        assert Without(ab, id) == [a[0]] + Without(a[1..] + b, id);
        assert Without(a, id) == [a[0]] + Without(a[1..], id);
      }
    }
  }

  /** A list with no note of that id comes through the filter unchanged. */
  lemma {:induction false} WithoutAbsent(ns: seq<DecryptedNote>, id: string)
    requires forall d :: d in ns ==> d.id != id
    ensures Without(ns, id) == ns
  {
    if ns != [] {
      WithoutAbsent(ns[1..], id);
      assert [ns[0]] + ns[1..] == ns;
    }
  }

  /** What `updateNote` saves is what a later `loadNotes` reads back: the note with
      its id, creation time, new time and new content, less a leading byte-order
      mark, which the decoder drops. */
  lemma SavedNoteLoadsBack(p: Primitives, id: string, vaultId: string, vaultKey: string, content: string,
                           createdAt: int, now: int, salt: seq<byte>, iv: seq<byte>)
    requires Sound(p)
    requires |salt| == SaltLength && |iv| == IvLength
    requires EncryptResult(p, content, vaultKey, salt, iv).Success?
    ensures Loaded(p, Note(id, vaultId, EncryptResult(p, content, vaultKey, salt, iv).value, createdAt, now), vaultKey)
      == Some(DecryptedNote(id, StripBom(content), createdAt, now))
  {
    VaultKeyRoundTrip(p, content, vaultKey, salt, iv);
  }

  /** The vault provider's state. */
  class VaultSession {
    var vaultId: Option<string>
    var vaultKey: Option<string>
    var mnemonic: Option<seq<string>>
    var notes: seq<DecryptedNote>
    var isLoading: bool

    constructor ()
      ensures vaultId.None? && vaultKey.None? && mnemonic.None? && notes == [] && !isLoading
    {
      vaultId := None;
      vaultKey := None;
      mnemonic := None;
      notes := [];
      isLoading := false;
    }

    /** `!vaultId || !vaultKey` is false: both are set and neither is the empty string. */
    predicate SignedIn()
      reads this
    {
      vaultId.Some? && vaultId.value != "" && vaultKey.Some? && vaultKey.value != ""
    }

    /** `loadNotes`: the vault's stored notes that decrypt under the key, each with
        its stored id and timestamps, most recently updated first. */
    method LoadNotes(p: Primitives, store: NoteStore, vid: string, vkey: string)
      requires store.Valid()
      modifies this`notes, this`isLoading
      ensures forall d :: d in notes <==> d in LoadedFrom(p, store.notes, vid, vkey)
      ensures UniqueIds(notes)
      ensures SortedDesc(notes, DecryptedUpdatedAt)
      ensures !isLoading
    {
      isLoading := true;
      var encryptedNotes := store.GetNotesByVault(vid);
      var decryptedNotes := DecryptEach(p, encryptedNotes, vkey);
      notes := SortedCopy(decryptedNotes, DecryptedUpdatedAt);
      SortedLoadUnique(p, encryptedNotes, vkey, notes);
      LoadedAreFrom(p, store.notes, vid, vkey, encryptedNotes, notes);
      isLoading := false;
    }

    /** `createVaultWithMnemonic`: the given mnemonic if there is one (an empty
        array counts), otherwise the generated one; the vault is recorded in the
        store and the session starts with no notes. */
    method CreateVaultWithMnemonic(keys: MnemonicKeys, store: NoteStore, provided: Option<seq<string>>,
                                   generated: seq<string>, now: int)
      returns (r: Result<(string, string, seq<string>), VaultError>)
      requires store.Valid()
      modifies this`vaultId, this`vaultKey, this`mnemonic, this`notes, store`vaults
      ensures store.Valid()
      ensures var words := if provided.Some? then provided.value else generated;
        if keys.toVaultId(words).None? || keys.toVaultKey(words).None? then
          && r == Failure(InvalidMnemonic)
          && unchanged(this) && unchanged(store)
        else
          var vid := keys.toVaultId(words).value;
          var vkey := keys.toVaultKey(words).value;
          && r == Success((vid, vkey, words))
          && store.vaults == old(store.vaults)[vid := VaultInfo(vid, now)]
          && vaultId == Some(vid) && vaultKey == Some(vkey) && mnemonic == Some(words)
          && notes == []
    {
      var newMnemonic := if provided.Some? then provided.value else generated;
      var newVaultId := keys.toVaultId(newMnemonic);
      if newVaultId.None? {
        return Failure(InvalidMnemonic);
      }
      var newVaultKey := keys.toVaultKey(newMnemonic);
      if newVaultKey.None? {
        return Failure(InvalidMnemonic);
      }
      store.SaveVault(VaultInfo(newVaultId.value, now));
      vaultId := Some(newVaultId.value);
      vaultKey := Some(newVaultKey.value);
      mnemonic := Some(newMnemonic);
      notes := [];
      r := Success((newVaultId.value, newVaultKey.value, newMnemonic));
    }

    /** `signInWithMnemonic`: `false` and no change when the mnemonic is rejected;
        otherwise the session holds the derived id and key and the loaded notes. */
    method SignInWithMnemonic(p: Primitives, keys: MnemonicKeys, store: NoteStore, words: seq<string>)
      returns (ok: bool)
      requires store.Valid()
      modifies this
      ensures ok <==> keys.toVaultId(words).Some? && keys.toVaultKey(words).Some?
      ensures !ok ==> unchanged(this)
      ensures ok ==>
        var vid := keys.toVaultId(words).value;
        var vkey := keys.toVaultKey(words).value;
        && vaultId == Some(vid) && vaultKey == Some(vkey) && mnemonic == Some(words)
        && (forall d :: d in notes <==> d in LoadedFrom(p, store.notes, vid, vkey))
        && UniqueIds(notes)
        && SortedDesc(notes, DecryptedUpdatedAt)
        && !isLoading
    {
      var vid := keys.toVaultId(words);
      var vkey := keys.toVaultKey(words);
      if vid.None? || vkey.None? {
        return false;
      }
      vaultId := Some(vid.value);
      vaultKey := Some(vkey.value);
      mnemonic := Some(words);
      LoadNotes(p, store, vid.value, vkey.value);
      ok := true;
    }

    /** `signOut`: everything cleared. */
    method SignOut()
      modifies this`vaultId, this`vaultKey, this`mnemonic, this`notes
      ensures vaultId.None? && vaultKey.None? && mnemonic.None? && notes == []
      ensures !SignedIn()
    {
      vaultId := None;
      vaultKey := None;
      mnemonic := None;
      notes := [];
    }

    /** `createNote`: refuses when not signed in; otherwise stores an empty note,
        encrypted under the vault key, and puts it first in the list. */
    method CreateNote(p: Primitives, store: NoteStore, noteId: string, now: int, salt: seq<byte>, iv: seq<byte>)
      returns (r: Result<string, VaultError>)
      requires store.Valid()
      requires |salt| == SaltLength && |iv| == IvLength
      modifies this`notes, store`notes
      ensures store.Valid()
      ensures !old(SignedIn()) ==> r == Failure(NotSignedIn) && unchanged(this) && unchanged(store)
      ensures old(SignedIn()) && EncryptResult(p, "", vaultKey.value, salt, iv).Failure? ==>
        r == Failure(EncryptionFailed(EncryptResult(p, "", vaultKey.value, salt, iv).error))
        && unchanged(this) && unchanged(store)
      ensures old(SignedIn()) && EncryptResult(p, "", vaultKey.value, salt, iv).Success? ==>
        && r == Success(noteId)
        && store.notes == old(store.notes)[noteId :=
             Note(noteId, vaultId.value, EncryptResult(p, "", vaultKey.value, salt, iv).value, now, now)]
        && notes == [DecryptedNote(noteId, "", now, now)] + old(notes)
        && GetNote(noteId) == Some(DecryptedNote(noteId, "", now, now))
    {
      if !SignedIn() {
        return Failure(NotSignedIn);
      }
      var content := "";
      var encryptedContent := Encrypt(p, content, vaultKey.value, salt, iv);
      if encryptedContent.Failure? {
        return Failure(EncryptionFailed(encryptedContent.error));
      }
      store.SaveNote(Note(noteId, vaultId.value, encryptedContent.value, now, now));
      notes := [DecryptedNote(noteId, content, now, now)] + notes;
      r := Success(noteId);
    }

    /** `updateNote`: refuses when not signed in, fails if encryption fails, then
        fails with nothing saved when no note has the id; otherwise saves the new
        content with the note's creation time, and the list becomes the mapped
        list re-sorted, most recently updated first. */
    method UpdateNote(p: Primitives, store: NoteStore, noteId: string, content: string, now: int,
                      salt: seq<byte>, iv: seq<byte>)
      returns (r: Result<(), VaultError>)
      requires store.Valid()
      requires |salt| == SaltLength && |iv| == IvLength
      modifies this`notes, store`notes
      ensures store.Valid()
      ensures !old(SignedIn()) ==> r == Failure(NotSignedIn) && unchanged(this) && unchanged(store)
      ensures old(SignedIn()) && EncryptResult(p, content, vaultKey.value, salt, iv).Failure? ==>
        r == Failure(EncryptionFailed(EncryptResult(p, content, vaultKey.value, salt, iv).error))
        && unchanged(this) && unchanged(store)
      ensures (old(SignedIn()) && EncryptResult(p, content, vaultKey.value, salt, iv).Success?
        && FindNote(old(notes), noteId).None?) ==>
        r == Failure(NoteNotFound) && unchanged(this) && unchanged(store)
      ensures (old(SignedIn()) && EncryptResult(p, content, vaultKey.value, salt, iv).Success?
        && FindNote(old(notes), noteId).Some?) ==>
        && r == Success(())
        && store.notes == old(store.notes)[noteId :=
             Note(noteId, vaultId.value, EncryptResult(p, content, vaultKey.value, salt, iv).value,
                  FindNote(old(notes), noteId).value.createdAt, now)]
        && multiset(notes) == multiset(Updated(old(notes), noteId, content, now))
        && SortedDesc(notes, DecryptedUpdatedAt)
        && Stable(notes, Updated(old(notes), noteId, content, now), DecryptedUpdatedAt)
    {
      if !SignedIn() {
        return Failure(NotSignedIn);
      }
      var encryptedContent := Encrypt(p, content, vaultKey.value, salt, iv);
      if encryptedContent.Failure? {
        return Failure(EncryptionFailed(encryptedContent.error));
      }
      var existingNote := FindNote(notes, noteId);
      if existingNote.None? {
        return Failure(NoteNotFound);
      }
      store.SaveNote(Note(noteId, vaultId.value, encryptedContent.value, existingNote.value.createdAt, now));
      notes := SortedCopy(Updated(notes, noteId, content, now), DecryptedUpdatedAt);
      r := Success(());
    }

    /** `deleteNote`: removes the record from the store and every note with that id
        from the list, keeping the others in order. */
    method DeleteNoteHandler(store: NoteStore, noteId: string)
      requires store.Valid()
      modifies this`notes, store`notes
      ensures store.Valid()
      ensures store.notes == old(store.notes) - {noteId}
      ensures notes == Without(old(notes), noteId)
      ensures GetNote(noteId).None?
    {
      store.DeleteNote(noteId);
      notes := Without(notes, noteId);
    }

    /** `getNote`: the first note in the list with that id, `undefined` when none has it. */
    function GetNote(noteId: string): (r: Option<DecryptedNote>)
      reads this
      ensures r.None? <==> forall d :: d in notes ==> d.id != noteId
      ensures r.Some? ==>
        exists i :: 0 <= i < |notes| && notes[i] == r.value && r.value.id == noteId
          && forall j :: 0 <= j < i ==> notes[j].id != noteId
    {
      FindNote(notes, noteId)
    }
  }
}
