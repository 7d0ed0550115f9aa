# LeafVault encrypted notes: a verified Dafny model

LeafVault is a browser notebook that keeps every note encrypted. A vault is
named by a vault id and unlocked by a vault key; both are derived from a
recovery mnemonic. Each note is sealed with AES-GCM under a key that PBKDF2
derives from the vault key and a fresh salt. The blob `salt || iv || ciphertext`
is stored as unpadded base64url text in IndexedDB. The pages see a decrypted,
most-recently-updated-first list held by the vault context.

This project models that data path and the small state machines around it:

- the base64url codec and the blob framing of `src/lib/crypto.ts`, with the
  WebCrypto primitives abstract (module `Base64Url`, module `Crypto`);
- the note and vault stores and the saved session of `src/lib/storage.ts`
  (module `Storage`, with the in-place sort in module `Sorting`);
- the vault session of `src/contexts/VaultContext.tsx` (module `VaultContext`);
- the import and export dialogs (modules `ImportDialog`, `ExportDialog`);
- the debounced save of the note editor (module `NoteEditor`);
- the vault-key backup file (module `VaultUtils`) and the note preview of the
  vault page (module `VaultPage`).

Modules `Wrappers` (`Option`, `Result`) and `Text` (replace, repeat, decimal
numerals, `padStart`, `split` and `join`) are shared helpers.

Objects whose fields the source updates are classes:
- `NoteStore` and `SessionStorage`;
- `VaultSession`;
- `ImportState` and `ExportState`;
- `Editor`.

Their methods state the whole new state. The loops of the source are `for` or
`while` loops with invariants, and each is proved against a specification
function:
- the encoder loop and the decoder's copy loop;
- the buffer fill of `encrypt`;
- the load-and-decrypt loop;
- the import loop and the in-place sort.

The following are parameters, as are the random salt, IV, key and id bytes and
the clock values:
- the cryptographic primitives: a `Primitives` value of functions, with the one
  hypothesis `Sound`. It has two halves. AES-GCM decryption under the same key
  and IV inverts encryption. `TextDecoder` applied to `TextEncoder`'s bytes
  gives the text back less one leading byte-order mark (U+FEFF), which a default
  `TextDecoder` strips;
- the mnemonic derivations (`MnemonicKeys`);
- `JSON.parse` and `JSON.stringify`;
- `importNotes`.

## Model

| member | source | states |
|---|---|---|
| Base64Url.Encode | src/lib/crypto.ts:79-85 | The reference encoding of n bytes has ceil(4n/3) characters, all from `A-Z a-z 0-9 - _`. |
| Base64Url.SextetsRoundTrip | src/lib/crypto.ts:79-96 | Regrouping the digits of any byte sequence back into bytes restores the sequence. |
| Base64Url.SextetsLength | src/lib/crypto.ts:84 | Three bytes become four digits; a trailing one or two bytes become two or three: ceil(4n/3) digits. |
| Base64Url.FromSextetsLength | src/lib/crypto.ts:90 | n digits decode to floor(3n/4) bytes. |
| Base64Url.EncoderPipelineIsBase64Url | src/lib/crypto.ts:80-84 | `btoa` of the binary string, then the `+`→`-` and `/`→`_` replacements and the strip of trailing `=`, equals the unpadded base64url encoding. |
| Base64Url.DecodeEncode | src/lib/crypto.ts:79-96 | Decoding the encoding of any byte sequence gives back that sequence. |
| Base64Url.DecodeRejectsDanglingDigit | src/lib/crypto.ts:88-90 | A text of length 1 mod 4 never decodes: after re-padding, `atob` throws. |
| Base64Url.PadCount | src/lib/crypto.ts:89 | The decoder appends at most 3 `=` and the padded length is a multiple of 4. |
| Base64Url.PadLengthOfLength | src/lib/crypto.ts:84-89 | The `=` that the encoder strips are exactly the ones the decoder puts back. |
| Base64Url.Atob | src/lib/crypto.ts:90 | A successful `atob` returns a binary string, with every character code below 256. |
| Base64Url.StripTrailingPadding | src/lib/crypto.ts:84 | The result is a prefix of the input that does not end in `=`, and everything removed after it is `=`: exactly the trailing run of `=` goes. |
| Base64Url.ArrayBufferToBase64Url | src/lib/crypto.ts:79-85 | The loop builds the binary string of the buffer, and the result is `Encode` of the buffer's bytes. |
| Base64Url.Base64UrlToArrayBuffer | src/lib/crypto.ts:87-96 | It fails exactly when `Decode` fails; otherwise the buffer holds `Decode`'s bytes. |
| Base64Url.CopyCodes | src/lib/crypto.ts:91-94 | The filled buffer holds the character codes of the binary string, in order. |
| Crypto.Frame | src/lib/crypto.ts:52-55 | The combined buffer has length 28 + the ciphertext length, with the salt at 0, the IV at 16 and the ciphertext at 28. |
| Crypto.Unframe | src/lib/crypto.ts:64-66 | The three slices concatenate back to the buffer; from 28 bytes on, salt and IV have lengths 16 and 12; a shorter buffer leaves the ciphertext empty. |
| Crypto.FramingRoundTrip | src/lib/crypto.ts:52-55 | Splitting `salt‖iv‖ct` at offsets 16 and 28 gives back exactly (salt, iv, ct). |
| Crypto.Combine | src/lib/crypto.ts:52-55 | The three `set` calls leave the fresh buffer equal to `Frame(salt, iv, ciphertext)`. |
| Crypto.SetAt | src/lib/crypto.ts:53-55 | `set(src, offset)` overwrites exactly the positions `offset` to `offset + |src|` and keeps the rest. |
| Crypto.DeriveKey | src/lib/crypto.ts:15-37 | Deriving a key fails, with a malformed-key error, exactly when the vault key is not valid base64url. |
| Crypto.DeriveKeyFromPassword | src/lib/crypto.ts:99-121 | It never fails. The password's UTF-8 bytes go through the same PBKDF2 derivation as `deriveKey` applies to a decoded vault key. |
| Crypto.SealBlob | src/lib/crypto.ts:50-57 | The blob decodes to the framed salt, IV and sealed plaintext, and its length is fixed by the ciphertext length. |
| Crypto.EncryptResult | src/lib/crypto.ts:39-58 | `encrypt` fails exactly when the vault key does not decode. |
| Crypto.DecryptResult | src/lib/crypto.ts:60-77 | A blob that does not decode fails first; a decodable blob with an undecodable key fails second. |
| Crypto.DecryptWithPasswordResult | src/lib/crypto.ts:144-161 | An undecodable blob fails, and a password never causes a malformed-key failure. |
| Crypto.OpenSealed | src/lib/crypto.ts:60-77 | Under `Sound`, a sealed blob decodes, and its salt slice is the salt. Opening its parts gives back the plaintext less a leading byte-order mark. |
| Crypto.VaultKeyRoundTrip | src/lib/crypto.ts:39-77 | Under `Sound`, whenever `encrypt` succeeds, `decrypt(encrypt(p, k), k)` is `p` less a leading byte-order mark, so exactly `p` when `p` does not start with U+FEFF. |
| Crypto.BomLostOnRoundTrip | src/lib/crypto.ts:39-77 | A plaintext U+FEFF followed by r decrypts to r, which differs from what was encrypted. |
| Crypto.PasswordRoundTrip | src/lib/crypto.ts:123-161 | Under `Sound`, `decryptWithPassword(encryptWithPassword(p, pw), pw)` is `p` less a leading byte-order mark. |
| Crypto.Encrypt | src/lib/crypto.ts:39-58 | The method returns `EncryptResult`. |
| Crypto.Decrypt | src/lib/crypto.ts:60-77 | The method returns `DecryptResult`. |
| Crypto.EncryptWithPassword | src/lib/crypto.ts:123-142 | The method returns `EncryptWithPasswordResult`. |
| Crypto.DecryptWithPassword | src/lib/crypto.ts:144-161 | The method returns `DecryptWithPasswordResult`. |
| Crypto.SealWithKey | src/lib/crypto.ts:50-57 | The shared tail of both encryptions returns `SealBlob`. |
| Crypto.OpenWithKey | src/lib/crypto.ts:68-76 | The shared tail of both decryptions returns `OpenParts`. |
| Crypto.DecodeParts | src/lib/crypto.ts:62-66 | It fails exactly when the blob does not decode; otherwise it returns the three slices. |
| Crypto.RandomBuffer | src/lib/crypto.ts:4 | The buffer holds the random bytes. |
| Crypto.GenerateVaultKey | src/lib/crypto.ts:3-7 | 32 random bytes give a 43-character base64url key that decodes back to those bytes. |
| Crypto.GenerateVaultId | src/lib/crypto.ts:9-13 | 16 random bytes give a 22-character base64url id that decodes back to those bytes. |
| Crypto.GeneratedKeyEncrypts | src/lib/crypto.ts:3-58 | A generated vault key is always accepted by `encrypt`. |
| Sorting.SortDescending | src/lib/storage.ts:64 | After the in-place sort the array is ordered by descending key and is a permutation of the input. The sort is also stable: elements with equal keys keep their input order, as `Array.prototype.sort` guarantees. |
| Sorting.Insert | src/lib/storage.ts:64 | One insertion pass makes the prefix up to `i` sorted and keeps the multiset. It tracks where each element came from, so ties in the grown prefix stay in input order. |
| Sorting.InsertStep | src/lib/storage.ts:64 | Swapping the inserted element past a strictly smaller key keeps the pass's invariant, because it never passes an equal key. |
| Sorting.SortDone | src/lib/storage.ts:64 | Once every pass is done, the array is sorted and a stable rearrangement of the input. |
| Sorting.StableKeepsDistinct | src/contexts/VaultContext.tsx:57 | A stable rearrangement of a list whose ids are distinct still has distinct ids. |
| Sorting.Swap | src/lib/storage.ts:64 | An exchange of two elements keeps the multiset. |
| Sorting.SortedCopy | src/contexts/VaultContext.tsx:57 | The returned sequence is sorted by descending key, is a permutation of the input, and keeps ties in input order. |
| Storage.NoteStore.constructor | src/lib/storage.ts:21-42 | A new database has empty note and vault stores, and each record is keyed by its own id. |
| Storage.NoteStore.SaveNote | src/lib/storage.ts:44-53 | `put` maps the note's id to the note, replacing any earlier record, and changes nothing else. |
| Storage.NoteStore.GetNotesByVault | src/lib/storage.ts:55-68 | The result holds exactly the stored notes of that vault, each once, sorted by `updatedAt` descending. No two of them share an id. |
| Storage.NoteStore.IndexGetAll | src/lib/storage.ts:60-61 | The `vaultId` index lookup returns every stored note of the vault exactly once, as a multiset. |
| Storage.ListedOnceDistinct | src/lib/storage.ts:32-33 | A list holding each note of a vault once has distinct ids, because the `notes` store is keyed by `id`. |
| Storage.NoteStore.DeleteNote | src/lib/storage.ts:70-79 | Only the record with that id is removed. |
| Storage.NoteStore.SaveVault | src/lib/storage.ts:81-90 | After the save, `getVault` of the same id returns the vault. |
| Storage.NoteStore.GetVault | src/lib/storage.ts:92-101 | An unknown id gives nothing; a known id gives the record with that id. |
| Storage.NoteStore.ExportVaultData | src/lib/storage.ts:103-105 | The export is the vault's notes with the same contract as `getNotesByVault`: exactly once each, sorted, with distinct ids. |
| Storage.NoteStore.ImportVaultData | src/lib/storage.ts:107-111 | The store after the loop is the old store with every note put in list order. |
| Storage.PutAllLastWins | src/lib/storage.ts:107-111 | After the puts, an id is present iff it was present before or is in the list; a listed id holds its last occurrence; other ids keep their record. |
| Storage.LastWithId | src/lib/storage.ts:107-111 | It finds nothing iff no listed note has the id; otherwise the note it finds is listed and has the id. |
| Storage.NotesOfVaultStep | src/lib/storage.ts:60-61 | The set of one vault's notes grows by a record exactly when that record belongs to the vault. |
| Storage.ReadSession | src/lib/storage.ts:129-137 | No stored item, or an empty one, gives no session; otherwise the result is whatever the parse gives, which may be a failure. |
| Storage.SessionStorage.constructor | src/lib/storage.ts:114-119 | Nothing is stored at first. |
| Storage.SessionStorage.SaveSession | src/lib/storage.ts:121-127 | The stringified record is stored. With a faithful codec, `getSession` then returns the saved mnemonic and time. |
| Storage.SessionStorage.GetSession | src/lib/storage.ts:129-137 | Nothing stored, or an empty text, gives `null`. A session returned is what the stored text parses to. With a faithful codec, a stringified record reads back as itself. |
| Storage.SessionStorage.ClearSession | src/lib/storage.ts:139-141 | After the clear, `getSession` returns none whatever the codec. |
| VaultContext.Loaded | src/contexts/VaultContext.tsx:44-54 | A note loads exactly when its decryption succeeds, keeping the stored id and both timestamps. |
| VaultContext.FilterMapMembers | src/contexts/VaultContext.tsx:43-55 | A value is collected iff some element maps to it. |
| VaultContext.DecryptAllMembers | src/contexts/VaultContext.tsx:43-55 | A decrypted note is in the loop's result iff some stored note decrypts to it. |
| VaultContext.FilterMapKeepsDistinct | src/contexts/VaultContext.tsx:43-55 | If each kept value carries its source's key and the sources' keys are distinct, the kept values' keys are distinct. |
| VaultContext.DecryptEach | src/contexts/VaultContext.tsx:43-55 | The loop returns the notes that decrypt, in stored order, with the failures dropped. |
| VaultContext.DecryptAllUnique | src/contexts/VaultContext.tsx:43-55 | Decryption keeps each note's id, so stored notes with distinct ids load with distinct ids. |
| VaultContext.SortedLoadUnique | src/contexts/VaultContext.tsx:57 | The sorted list of loaded notes still has distinct ids. |
| VaultContext.LoadedAreFrom | src/contexts/VaultContext.tsx:40-57 | Any rearrangement of the decrypted list of a vault's notes holds exactly the vault's notes that decrypt. |
| VaultContext.FindNote | src/contexts/VaultContext.tsx:127 | It returns nothing iff no note has the id; otherwise it returns the note at the first index with that id. |
| VaultContext.FindAt | src/contexts/VaultContext.tsx:150 | The note at the first matching index is the one `find` returns. |
| VaultContext.Updated | src/contexts/VaultContext.tsx:139 | Every note with the id gets the new content and time and keeps its `createdAt`; every other note is unchanged. |
| VaultContext.UpdatedIsFound | src/contexts/VaultContext.tsx:139-150 | After the update, `getNote` finds the note with the new content and time and its original creation time. |
| VaultContext.Without | src/contexts/VaultContext.tsx:146 | A note remains iff it was present and has another id. |
| VaultContext.WithoutAppend | src/contexts/VaultContext.tsx:146 | The filter distributes over concatenation: the rest keep their relative order. |
| VaultContext.WithoutAbsent | src/contexts/VaultContext.tsx:146 | A list with no note of that id is left unchanged. |
| VaultContext.SavedNoteLoadsBack | src/contexts/VaultContext.tsx:125-136 | Under `Sound`, the record `updateNote` stores decrypts back to the note with its id, creation time and new time. The content comes back as the new content less a leading byte-order mark. |
| VaultContext.VaultSession.constructor | src/contexts/VaultContext.tsx:31-35 | The session starts signed out, with no notes and not loading. |
| VaultContext.VaultSession.LoadNotes | src/contexts/VaultContext.tsx:37-61 | Afterwards the list holds exactly the vault's stored notes that decrypt, each once (no two share an id), sorted by `updatedAt` descending, and loading is over. |
| VaultContext.VaultSession.CreateVaultWithMnemonic | src/contexts/VaultContext.tsx:63-76 | The provided mnemonic is used if given, even when empty; an underivable mnemonic changes nothing; otherwise the vault is recorded and the session holds the id, the key, the words and no notes. |
| VaultContext.VaultSession.SignInWithMnemonic | src/contexts/VaultContext.tsx:78-91 | It returns false and changes nothing iff derivation fails; otherwise the session holds the id, key and words and the loaded notes, each once and sorted. |
| VaultContext.VaultSession.SignOut | src/contexts/VaultContext.tsx:93-98 | The id, key and mnemonic are cleared and the list is emptied. |
| VaultContext.VaultSession.CreateNote | src/contexts/VaultContext.tsx:100-119 | It fails with "Not signed in", changing nothing, when not signed in; an encryption failure also changes nothing; otherwise the empty note is stored and prepended, with `createdAt == updatedAt == now`. |
| VaultContext.VaultSession.UpdateNote | src/contexts/VaultContext.tsx:121-142 | The checks run in order: signed in, encryption, note found; a failure changes nothing. On success the record keeps `createdAt`, and the list is the mapped list re-sorted descending by a stable sort, so ties keep their mapped order. |
| VaultContext.VaultSession.DeleteNoteHandler | src/contexts/VaultContext.tsx:144-147 | The record is deleted, every note with the id leaves the list, the rest keep their order, and `getNote` then finds nothing. |
| VaultContext.VaultSession.GetNote | src/contexts/VaultContext.tsx:149-151 | It finds nothing iff no note in the list has the id; otherwise it returns the note at the first index with that id. |
| ImportDialog.Accepted | src/components/ImportDialog.tsx:54-56 | The structure is accepted iff it is an object whose `version` is truthy (so 0 is refused) and whose `notes` is an array. |
| ImportDialog.ResultMessage | src/components/ImportDialog.tsx:199-207 | With N > 0 imported, the message is "N note imported" for N = 1 or "N notes imported" otherwise, followed by ", K skipped" when K > 0 were skipped. With none imported and K > 0 skipped it is "All K notes already exist"; with neither it is "No notes to import". |
| ImportDialog.LeadingDigit | src/components/ImportDialog.tsx:201 | The message for an import that brought notes in starts with a digit. |
| ImportDialog.ResultMessageInjective | src/components/ImportDialog.tsx:199-207 | Different import results give different messages. |
| ImportDialog.SkippedNoteInjective | src/components/ImportDialog.tsx:203 | The ", K skipped" suffix determines K. |
| ImportDialog.NatToStringPrefix | src/components/ImportDialog.tsx:201 | A decimal count followed by a space can be read back unambiguously. |
| ImportDialog.NatToStringFramed | src/components/ImportDialog.tsx:205 | A count framed by the same text on both sides is determined by the text. |
| ImportDialog.DigitRunLength | src/components/ImportDialog.tsx:201 | The leading digits of "count + space + rest" are exactly the count's digits. |
| ImportDialog.ImportState.constructor | src/components/ImportDialog.tsx:22-24 | The dialog starts idle, with no result and no message. |
| ImportDialog.ImportState.ResetState | src/components/ImportDialog.tsx:28-32 | Back to idle, with no result and no message. |
| ImportDialog.ImportState.HandleOpenChange | src/components/ImportDialog.tsx:34-39 | Closing resets the dialog; opening changes nothing. |
| ImportDialog.ImportState.BeginImport | src/components/ImportDialog.tsx:42-48 | A name not ending in `.json` gives `error` with "Please select a JSON file" and stops; otherwise the status is `processing`. |
| ImportDialog.ImportState.FinishImport | src/components/ImportDialog.tsx:49-69 | `importNotes` gets the parsed value iff it parses and passes the check; its result then gives `success`; every failure gives `error` with the fixed message and keeps the old result. |
| ImportDialog.ImportState.ProcessImportFile | src/components/ImportDialog.tsx:41-70 | `importNotes` is called iff the name ends in `.json` and the text parses to an accepted structure. A wrong name gives `error` with "Please select a JSON file". A text that fails to parse or check, or a failing `importNotes`, gives `error` with the invalid-format message. Both failures keep the old result. On success the status is `success`, the result is `importNotes`'s, and the message is unchanged. |
| ImportDialog.ImportState.HandleClick | src/components/ImportDialog.tsx:72-77 | From `success` or `error` the dialog resets; otherwise nothing changes. |
| ImportDialog.ImportState.HandleFileChange | src/components/ImportDialog.tsx:79-86 | Without a file nothing changes. With one, the file is processed with every outcome of `processImportFile`: both error messages, the kept result on failure, the unchanged message on success. |
| ImportDialog.ImportState.HandleDragEnter | src/components/ImportDialog.tsx:88-94 | The status becomes `dragging` unless it is `processing`. |
| ImportDialog.ImportState.HandleDragLeave | src/components/ImportDialog.tsx:96-104 | The status returns to `idle` only when the pointer leaves the zone from `dragging`. |
| ImportDialog.ImportState.HandleDrop | src/components/ImportDialog.tsx:111-119 | No file changes nothing. Otherwise the first file is processed with every outcome of `processImportFile`: both error messages, the kept result on failure, the unchanged message on success. |
| ExportDialog.PasswordCheck | src/components/ExportDialog.tsx:72-84 | The checks run in order (empty, shorter than 6, mismatch), the first failing one is reported, and all pass iff the password has 6 or more characters and matches. |
| ExportDialog.Validate | src/components/ExportDialog.tsx:65-85 | A missing vault is refused first; plaintext mode skips the password checks; the validation passes iff there is a vault and `canExport` holds. |
| ExportDialog.ExportState.ButtonEnabled | src/components/ExportDialog.tsx:120-121 | The button (its `disabled` condition, line 268) is enabled iff no export is running and `handleExport`'s checks pass for a present vault. |
| ExportDialog.FileDate | src/components/ExportDialog.tsx:89 | The result is the prefix of the timestamp up to its first `T`, or the whole timestamp when it has none; it contains no `T`. |
| ExportDialog.EncryptedEnvelope | src/components/ExportDialog.tsx:93-101 | The envelope has version 1, is marked encrypted, carries the timestamp, and its data decodes to a blob framed with the salt. |
| ExportDialog.EnvelopeOpens | src/components/ExportDialog.tsx:93-101 | Under `Sound`, decrypting the envelope's data with the password gives back the bundle's JSON text less a leading byte-order mark; exactly that text when it does not start with U+FEFF. |
| ExportDialog.ExportFile | src/components/ExportDialog.tsx:89-108 | Encrypted mode downloads the pretty envelope as `vault-notes-encrypted-<date>.json`; plaintext mode downloads the pretty bundle as `vault-notes-<date>.json`. |
| ExportDialog.ExportState.constructor | src/components/ExportDialog.tsx:30-35 | The dialog starts in encrypted mode, with empty passwords and every flag false. |
| ExportDialog.ExportState.ResetState | src/components/ExportDialog.tsx:37-44 | Back to encrypted mode, with both passwords empty and every flag false. |
| ExportDialog.ExportState.HandleOpenChange | src/components/ExportDialog.tsx:46-51 | Closing resets the dialog; opening changes nothing. |
| ExportDialog.ExportState.HandleExport | src/components/ExportDialog.tsx:65-118 | A refused export reports the first failing check and changes nothing. Otherwise `isExporting` ends false, `exported` is set only by a successful download, and the file is `ExportFile`. |
| NoteEditor.Opened | src/pages/NoteEditor.tsx:21-33 | The editor opens showing the note's content, or empty text when there is no note; nothing is pending or saved. |
| NoteEditor.RunAppend | src/pages/NoteEditor.tsx:61-71 | Running two event sequences one after the other is running their concatenation. |
| NoteEditor.RunSnoc | src/pages/NoteEditor.tsx:61-71 | Running one more event applies one more step. |
| NoteEditor.ContentIsLastChange | src/pages/NoteEditor.tsx:62-63 | The displayed content always equals the latest change. |
| NoteEditor.PendingIsLatest | src/pages/NoteEditor.tsx:65-70 | The single pending slot holds the latest change since the last fire, or nothing. |
| NoteEditor.SavesAreFiredTexts | src/pages/NoteEditor.tsx:46-70 | With a note id, the saved texts are exactly, in order, the pending texts at the fires that found one. |
| NoteEditor.NoIdNoSaves | src/pages/NoteEditor.tsx:47 | Without a note id nothing is ever saved. |
| NoteEditor.LatestChangeSaved | src/pages/NoteEditor.tsx:65-70 | After a change, indicator events only, and a fire, exactly that change's text is saved. |
| NoteEditor.QuietKeepsPending | src/pages/NoteEditor.tsx:53 | Hiding the "Saved" indicator touches neither the pending slot nor the saves. |
| NoteEditor.DeleteTarget | src/pages/NoteEditor.tsx:73-76 | A deletion happens iff there is a note id and the user confirms, and it targets that id. |
| NoteEditor.Editor.constructor | src/pages/NoteEditor.tsx:13-33 | The editor starts in the `Opened` state for the note. |
| NoteEditor.Editor.HandleContentChange | src/pages/NoteEditor.tsx:61-71 | The new text is shown and replaces the pending save: the state is one `Change` step. |
| NoteEditor.Editor.FireSaveTimer | src/pages/NoteEditor.tsx:46-59 | The timer's save is one `Fire` step, and `isSaving` is false again afterwards. |
| NoteEditor.Editor.HideSavedIndicator | src/pages/NoteEditor.tsx:53 | The indicator timer is one `HideSaved` step. |
| NoteEditor.Editor.HandleDelete | src/pages/NoteEditor.tsx:73-85 | Without an id or a confirmation nothing changes; otherwise the note leaves both the store and the list. |
| VaultUtils.NumberedLine | src/lib/vault-utils.ts:30 | Words 1 to 9 get a space and one digit; words 10 to 99 get two digits; then ". " and the word. |
| VaultUtils.NumberedWords | src/lib/vault-utils.ts:30 | There is one numbered line per word, in order. |
| VaultUtils.GenerateVaultKeyFileContent | src/lib/vault-utils.ts:12-39 | The three `+=` steps build `FileContent`: the header, the phrase section only for a non-empty mnemonic, and the footer. |
| VaultUtils.FileReadsAsLines | src/lib/vault-utils.ts:15-36 | When no argument contains a line break, splitting the file at `\n` gives exactly the template's lines. |
| VaultUtils.FileContentIsLines | src/lib/vault-utils.ts:15-36 | The file text is the template's lines joined by `\n`. |
| VaultUtils.FileLinesLayout | src/lib/vault-utils.ts:15-36 | The lines are `Vault ID: <id>` and `Vault Key: <key>` at 8 and 9, then the title and numbered words iff there is a non-empty phrase, and last `Generated: <timestamp>` and the rule. |
| VaultUtils.FileLinesHaveNoBreaks | src/lib/vault-utils.ts:15-36 | No line of the template contains a line break when no argument does. |
| VaultUtils.HeaderHasNoBreaks | src/lib/vault-utils.ts:15-24 | The header lines contain no line break when the id and key contain none. |
| VaultUtils.NumberedWordsHaveNoBreaks | src/lib/vault-utils.ts:30 | The numbered lines contain no line break when the words contain none. |
| VaultUtils.GenerateVaultKeyFilename | src/lib/vault-utils.ts:46-49 | The name is "vault-key-", then the first min(8, length) characters of the id, then ".txt". |
| VaultPage.FirstLine | src/pages/Vault.tsx:43 | The line is never empty and has no line break; an empty first line becomes "Untitled"; otherwise it is the text up to the first line break. |
| VaultPage.NotePreview | src/pages/Vault.tsx:42-45 | The preview is non-empty, has no line break and has at most 53 characters. A first line of 50 or fewer is returned unchanged; a longer one gives its first 50 characters and "...". |
| VaultPage.ShownPreview | src/pages/Vault.tsx:93 | The preview is never empty, so the "Empty note" fallback is never shown. |
| VaultPage.ShortFirstLineShown | src/pages/Vault.tsx:42-45 | A note starting with a short line is previewed by exactly that line. |
| VaultPage.BlankFirstLineUntitled | src/pages/Vault.tsx:43 | An empty note, or one starting with a blank line, is previewed as "Untitled". |
| Text.NatToStringReadsBack | src/components/ImportDialog.tsx:201 | The decimal numeral of n reads back as n. |
| Text.SplitHead | src/pages/Vault.tsx:43 | The first piece of a split is a prefix of the text followed by the separator or by the end (used for the first line and the export date). |
| Text.JoinSplit | src/lib/vault-utils.ts:30 | Joining the pieces of a split restores the text. |
| Text.SplitJoin | src/pages/Vault.tsx:43 | Splitting a join of separator-free pieces gives back the pieces. |
| Text.PadStart | src/lib/vault-utils.ts:30 | `padStart` gives length max(width, length), ends with the text, and fills the front with the pad character. |

## Left out

- WebCrypto internals are not modelled: AES-GCM, PBKDF2 with SHA-256 and 100000 iterations, `TextEncoder`/`TextDecoder`. They are abstract functions with one hypothesis, `Sound`, in two halves. The AES-GCM half is an exact round trip. The text half is a round trip up to a leading byte-order mark.
- Byte-order mark loss: `decrypt` and `decryptWithPassword` decode with a default `TextDecoder`, which drops a leading U+FEFF. A note or export whose text starts with U+FEFF comes back without it. The round-trip lemmas state this (`Crypto.BomLostOnRoundTrip`). The other `TextDecoder` behaviours, such as replacement characters for invalid UTF-8, do not arise on `TextEncoder`'s output. Lone surrogates cannot occur, because a Dafny `char` is a Unicode scalar value; `TextEncoder` would replace one with U+FFFD.
- `crypto.getRandomValues`, `crypto.randomUUID`, `Date.now` and `new Date().toISOString()` are not modelled; their values are parameters.
- `Crypto.DecryptResult`: a blob shorter than 28 bytes is sliced as the source does. Any rejection of it comes from the abstract AES-GCM call, so no early failure is stated.
- `Base64Url.Atob`: the forgiving-base64 decode of `atob` is modelled without its first step, the stripping of ASCII whitespace. The decoder's input comes from the alphabet mapping, and a whitespace character there is rejected rather than skipped.
- The lenient decoder is modelled as written. It also accepts `+` and `/`, because `atob` reads the standard alphabet after the mapping. It also accepts non-zero left-over bits.
- `Storage.NoteStore.GetNotesByVault`: the order among notes with equal `updatedAt` is not stated. The sort is proved stable, but its input order is the IndexedDB key order, and that is not modelled. Sortedness, the exact multiset and distinct ids are proved.
- `VaultContext.VaultSession.LoadNotes`: the order among loaded notes with equal `updatedAt` is not stated. It is inherited from `getNotesByVault`, though the sort that follows the loop is proved stable.
- IndexedDB transport is not modelled: opening the database, upgrades, transactions and request callbacks. The stores are maps that cannot fail, so the source's rejected promises (`request.onerror`) are not modelled.
- `localStorage` is not modelled as a browser store. It is one optional string, and `JSON.stringify`/`JSON.parse` are a codec given as a parameter; a stored text that fails to parse gives no session.
- Mnemonic generation and mnemonic-to-key derivation are not modelled; `src/lib/mnemonic` is not part of this model. The derivations are deterministic functions given as a parameter, allowed to reject a mnemonic.
- `importNotes` and `exportVault` are not modelled, because their merge and skip rules are not part of this model. `importNotes` is a parameter returning the counts or a failure, and the export bundle's two JSON texts are a parameter.
- An encrypted export is not detected on import. The importer never reads `encrypted` and never calls `decryptWithPassword`, so the model does not either.
- `VaultContext.VaultSession.UpdateNote`: the source maps over the `prev` list of the state setter but looks the note up in the closure's `notes`. With operations run one at a time the two are the same list, and the model uses one.
- `VaultContext.VaultSession.CreateNote` and `UpdateNote`: the list changes are whole-list assignments of the functional-update results. React's batching of `setNotes` is not modelled.
- Async interleaving, promises and the timers' real durations (500 ms save, 2000 ms "Saved") are not modelled. Operations run one at a time, and the two timers are the events `Fire` and `HideSaved`.
- `NoteEditor.Editor.FireSaveTimer`: saves never overlap, because a save finishes before the next event. A save still in flight when another timer fires is not modelled.
- The editor's load effect, which re-runs when `getNote` changes after a save, is not modelled. The editor state starts from `Opened` only.
- The redirect when signed out, the toasts, the outside-click menu and the `console.error` calls are not modelled; toasts appear as error values.
- DOM downloads, `downloadFile`/`downloadTextFile`, the clipboard and `file.text()` reading are not modelled. The file's text is a parameter, and whether the download succeeds is a boolean.
- `ExportDialog.ExportState.HandleExport`: the two `new Date().toISOString()` calls of one export are not modelled separately; both are one timestamp parameter. A failure of `encryptWithPassword` itself is not modelled, since key derivation from a password cannot fail in the model.
- `ExportDialog.PasswordCheck`, `VaultPage.NotePreview` and `VaultUtils.GenerateVaultKeyFilename`: string lengths count Dafny characters, not the UTF-16 code units that `length` and `slice` count in JavaScript. The two agree outside the astral planes.
- Locale date formatting (`formatDate`) and the UI components not named above are not modelled. That covers the account dialog, the create-vault and sign-in pages, the Tiptap editor and routing.
