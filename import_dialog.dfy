/** The import dialog (src/components/ImportDialog.tsx): a status machine over
    `idle`, `dragging`, `processing`, `success` and `error`, the structural
    check of an uploaded export file, and the message shown after an import. */
module ImportDialog {
  import opened Wrappers
  import opened Text

  /** A parsed JSON value. Numbers are reals; JSON has no NaN. */
  datatype Json =
    | JNull
    | JBool(b: bool)
    | JNum(n: real)
    | JStr(s: string)
    | JArr(items: seq<Json>)
    | JObj(fields: map<string, Json>)

  /** JavaScript truthiness of a JSON value: `null`, `false`, `0` and `""` are falsy. */
  predicate Truthy(v: Json) {
    match v
    case JNull => false
    case JBool(b) => b
    case JNum(n) => n != 0.0
    case JStr(s) => s != ""
    case JArr(_) => true
    case JObj(_) => true
  }

  /** Property access `data.key` on a non-null value: `None` is `undefined`. Arrays,
      strings, numbers and booleans have no `version` or `notes` property. */
  function Member(data: Json, key: string): Option<Json>
    requires !data.JNull?
  {
    if data.JObj? && key in data.fields then Some(data.fields[key]) else None
  }

  predicate FalsyMember(v: Option<Json>) {
    v.None? || !Truthy(v.value)
  }

  /** The structure check: reading a property of `null` throws, and
      `!data.version || !data.notes || !Array.isArray(data.notes)` rejects. It
      accepts exactly the objects whose `version` is truthy (so `0` is refused)
      and whose `notes` is an array. */
  predicate Accepted(data: Json)
    ensures Accepted(data) <==>
      && data.JObj?
      && "version" in data.fields && Truthy(data.fields["version"])
      && "notes" in data.fields && data.fields["notes"].JArr?
  {
    && !data.JNull?
    && !(FalsyMember(Member(data, "version"))
         || FalsyMember(Member(data, "notes"))
         || !Member(data, "notes").value.JArr?)
  }

  /** What `importNotes` reports. */
  datatype ImportResult = ImportResult(imported: nat, skipped: nat)

  datatype Status = Idle | Dragging | Processing | Succeeded | Failed

  /** A picked or dropped file: its name and its text. */
  datatype ImportFile = ImportFile(name: string, text: string)

  predicate EndsWithJson(name: string) {
    |name| >= 5 && name[|name| - 5..] == ".json"
  }

  const WrongTypeMessage := "Please select a JSON file"
  const InvalidFormatMessage := "Invalid file format. Please use a valid export file."

  /** The summary line under "Import complete!". */
  function ResultMessage(r: ImportResult): (m: string)
    ensures r.imported == 1 && r.skipped == 0 ==> m == "1 note imported"
    ensures r.imported > 0 ==>
      m == NatToString(r.imported) + (if r.imported == 1 then " note" else " notes") + " imported"
           + (if r.skipped > 0 then ", " + NatToString(r.skipped) + " skipped" else "")
    ensures r.imported == 0 && r.skipped > 0 ==> m == "All " + NatToString(r.skipped) + " notes already exist"
    ensures r.imported == 0 && r.skipped == 0 ==> m == "No notes to import"
  {
    if r.imported > 0 then NatToString(r.imported) + " " + ImportedTail(r)
    else if r.skipped > 0 then "All " + NatToString(r.skipped) + " notes already exist"
    else "No notes to import"
  }

  /** After the count: "note" or "notes", " imported", and the skipped count if any. */
  function ImportedTail(r: ImportResult): string {
    "note" + (if r.imported != 1 then "s" else "") + " imported" + SkippedNote(r.skipped)
  }

  function SkippedNote(skipped: nat): string {
    if skipped > 0 then ", " + NatToString(skipped) + " skipped" else ""
  }

  /** The number of leading decimal digits of `s`. */
  function DigitRun(s: string): nat {
    if s != [] && IsDigit(s[0]) then 1 + DigitRun(s[1..]) else 0
  }

  lemma {:induction false} DigitRunLength(d: string, x: string)
    requires forall i :: 0 <= i < |d| ==> IsDigit(d[i])
    ensures DigitRun(d + " " + x) == |d|
  {
    if d != [] {
      DigitRunLength(d[1..], x);
      assert (d + " " + x)[1..] == d[1..] + " " + x;
    }
  }

  /** Two numbers are equal when their decimal texts are, even followed by different text. */
  lemma NatToStringPrefix(a: nat, b: nat, x: string, y: string)
    requires NatToString(a) + " " + x == NatToString(b) + " " + y
    ensures a == b && x == y
  {
    var sa, sb := NatToString(a), NatToString(b);
    DigitRunLength(sa, x);
    DigitRunLength(sb, y);
    assert sa == (sa + " " + x)[..|sa|];
    assert sb == (sb + " " + y)[..|sb|];
    NatToStringReadsBack(a);
    NatToStringReadsBack(b);
    assert x == (sa + " " + x)[|sa| + 1..];
    assert y == (sb + " " + y)[|sb| + 1..];
  }

  /** Two numbers are equal when their decimal texts are, between the same texts. */
  lemma NatToStringFramed(p: string, a: nat, b: nat, q: string)
    requires p + NatToString(a) + q == p + NatToString(b) + q
    ensures a == b
  {
    var m := p + NatToString(a) + q;
    assert NatToString(a) == m[|p|..|p| + |NatToString(a)|];
    assert NatToString(b) == (p + NatToString(b) + q)[|p|..|p| + |NatToString(b)|];
    NatToStringReadsBack(a);
    NatToStringReadsBack(b);
  }

  lemma SkippedNoteInjective(k1: nat, k2: nat)
    requires SkippedNote(k1) == SkippedNote(k2)
    ensures k1 == k2
  {
    if k1 > 0 && k2 > 0 {
      NatToStringFramed(", ", k1, k2, " skipped");
    }
  }

  /** A summary of an import that brought in notes starts with their count. */
  lemma LeadingDigit(r: ImportResult)
    requires r.imported > 0
    ensures IsDigit(ResultMessage(r)[0])
  {
    assert ResultMessage(r)[0] == NatToString(r.imported)[0];
  }

  /** The summary is unambiguous: different import results give different lines. */
  lemma ResultMessageInjective(r1: ImportResult, r2: ImportResult)
    requires ResultMessage(r1) == ResultMessage(r2)
    ensures r1 == r2
  {
    var m := ResultMessage(r1);
    if r1.imported > 0 && r2.imported > 0 {
      NatToStringPrefix(r1.imported, r2.imported, ImportedTail(r1), ImportedTail(r2));
      var head := "note" + (if r1.imported != 1 then "s" else "") + " imported";
      assert ImportedTail(r1) == head + SkippedNote(r1.skipped);
      assert ImportedTail(r2) == head + SkippedNote(r2.skipped);
      assert SkippedNote(r1.skipped) == ImportedTail(r1)[|head|..];
      assert SkippedNote(r2.skipped) == ImportedTail(r2)[|head|..];
      SkippedNoteInjective(r1.skipped, r2.skipped);
    } else if r1.imported == 0 && r2.imported == 0 && r1.skipped > 0 && r2.skipped > 0 {
      NatToStringFramed("All ", r1.skipped, r2.skipped, " notes already exist");
    } else if r1.imported > 0 || r2.imported > 0 {
      // only a message with something imported starts with a digit
      LeadingDigit(if r1.imported > 0 then r1 else r2);
      assert false;
    }
  }

  /** The dialog's state. */
  class ImportState {
    var status: Status
    var result: Option<ImportResult>
    var errorMessage: string

    /** The success panel always has a result to show, and the error panel a message. */
    ghost predicate Valid()
      reads this
    {
      && (status == Succeeded ==> result.Some?)
      && (status == Failed ==> errorMessage != "")
    }

    constructor ()
      ensures Valid() && status == Idle && result.None? && errorMessage == ""
    {
      status := Idle;
      result := None;
      errorMessage := "";
    }

    /** `resetState`. */
    method ResetState()
      modifies this
      ensures Valid() && status == Idle && result.None? && errorMessage == ""
    {
      status := Idle;
      result := None;
      errorMessage := "";
    }

    /** `handleOpenChange`: closing the dialog resets it; opening changes nothing here. */
    method HandleOpenChange(isOpen: bool)
      requires Valid()
      modifies this
      ensures Valid()
      ensures !isOpen ==> status == Idle && result.None? && errorMessage == ""
      ensures isOpen ==> unchanged(this)
    {
      if !isOpen {
        ResetState();
      }
    }

    /** The first half of `processImportFile`: a name without `.json` is refused
        before anything is read; otherwise the dialog shows `processing`. */
    method BeginImport(file: ImportFile) returns (proceed: bool)
      requires Valid()
      modifies this`status, this`errorMessage
      ensures Valid()
      ensures proceed <==> EndsWithJson(file.name)
      ensures !proceed ==> status == Failed && errorMessage == WrongTypeMessage
      ensures proceed ==> status == Processing && errorMessage == old(errorMessage)
    {
      if !EndsWithJson(file.name) {
        status := Failed;
        errorMessage := WrongTypeMessage;
        return false;
      }
      status := Processing;
      proceed := true;
    }

    /** The second half: the text is parsed and checked and handed to `importNotes`;
        its result is kept and the status becomes `success`. A parse failure, a
        rejected structure or a failing `importNotes` all end in `error` with the
        one fixed message, leaving any earlier result in place. Returns the value
        handed to `importNotes`, if it was called. */
    method FinishImport(file: ImportFile, parse: string -> Option<Json>, importNotes: Json -> Option<ImportResult>)
      returns (submitted: Option<Json>)
      requires Valid()
      modifies this
      ensures Valid()
      ensures submitted.Some? <==> parse(file.text).Some? && Accepted(parse(file.text).value)
      ensures submitted.Some? ==> submitted == parse(file.text)
      ensures submitted.Some? && importNotes(submitted.value).Some? ==>
        && status == Succeeded && result == importNotes(submitted.value) && errorMessage == old(errorMessage)
      ensures submitted.None? || importNotes(submitted.value).None? ==>
        && status == Failed && result == old(result) && errorMessage == InvalidFormatMessage
    {
      var data := parse(file.text);
      if data.None? || !Accepted(data.value) {
        status := Failed;
        errorMessage := InvalidFormatMessage;
        return None;
      }
      submitted := data;
      var importResult := importNotes(data.value);
      if importResult.None? {
        status := Failed;
        errorMessage := InvalidFormatMessage;
        return;
      }
      result := importResult;
      status := Succeeded;
    }

    /** What processing `file` leads to, from the state before:
        - `importNotes` receives the parsed value exactly when the name ends in
          `.json` and the text parses to an accepted structure;
        - a wrong name ends in `error` with the file-type message;
        - a parse failure, a rejected structure or a failing `importNotes` end in
          `error` with the invalid-format message;
        - a successful `importNotes` ends in `success` with its result and leaves
          the message alone;
        - a failure leaves the earlier result in place. */
    twostate predicate Processed(file: ImportFile, parse: string -> Option<Json>,
                                 importNotes: Json -> Option<ImportResult>, new submitted: Option<Json>)
      reads this
    {
      && (submitted.Some? <==> EndsWithJson(file.name) && parse(file.text).Some? && Accepted(parse(file.text).value))
      && (submitted.Some? ==> submitted == parse(file.text))
      && (!EndsWithJson(file.name) ==>
            status == Failed && errorMessage == WrongTypeMessage && result == old(result))
      && (EndsWithJson(file.name) && (submitted.None? || importNotes(submitted.value).None?) ==>
            status == Failed && errorMessage == InvalidFormatMessage && result == old(result))
      && (submitted.Some? && importNotes(submitted.value).Some? ==>
            status == Succeeded && result == importNotes(submitted.value) && errorMessage == old(errorMessage))
    }

    /** `processImportFile`: `importNotes` is called only for a `.json` file whose
        text parses to an accepted structure. */
    method ProcessImportFile(file: ImportFile, parse: string -> Option<Json>, importNotes: Json -> Option<ImportResult>)
      returns (submitted: Option<Json>)
      requires Valid()
      modifies this
      ensures Valid()
      ensures Processed(file, parse, importNotes, submitted)
      ensures status == Succeeded <==> submitted.Some? && importNotes(submitted.value).Some?
    {
      var proceed := BeginImport(file);
      if !proceed {
        return None;
      }
      submitted := FinishImport(file, parse, importNotes);
    }

    /** `handleClick`: a finished import (success or error) is cleared before the
        file picker opens. */
    method HandleClick()
      requires Valid()
      modifies this
      ensures Valid()
      ensures old(status) == Succeeded || old(status) == Failed ==>
        status == Idle && result.None? && errorMessage == ""
      ensures old(status) != Succeeded && old(status) != Failed ==> unchanged(this)
    {
      if status == Succeeded || status == Failed {
        ResetState();
      }
    }

    /** `handleFileChange`: nothing when no file was picked, otherwise the picked
        file is processed. */
    method HandleFileChange(file: Option<ImportFile>, parse: string -> Option<Json>,
                            importNotes: Json -> Option<ImportResult>)
      returns (submitted: Option<Json>)
      requires Valid()
      modifies this
      ensures Valid()
      ensures file.None? ==> unchanged(this) && submitted.None?
      ensures file.Some? ==> Processed(file.value, parse, importNotes, submitted)
    {
      if file.None? {
        return None;
      }
      submitted := ProcessImportFile(file.value, parse, importNotes);
    }

    /** `handleDragEnter`: shows `dragging` unless an import is in progress. */
    method HandleDragEnter()
      requires Valid()
      modifies this`status
      ensures Valid()
      ensures status == if old(status) == Processing then Processing else Dragging
    {
      if status != Processing {
        status := Dragging;
      }
    }

    /** `handleDragLeave`: back to `idle` only when the pointer left the drop zone
        and the status was `dragging`. */
    method HandleDragLeave(leftZone: bool)
      requires Valid()
      modifies this`status
      ensures Valid()
      ensures status == if leftZone && old(status) == Dragging then Idle else old(status)
    {
      if leftZone && status == Dragging {
        status := Idle;
      }
    }

    /** `handleDrop`: the first dropped file is processed; no file, no change. */
    method HandleDrop(files: seq<ImportFile>, parse: string -> Option<Json>, importNotes: Json -> Option<ImportResult>)
      returns (submitted: Option<Json>)
      requires Valid()
      modifies this
      ensures Valid()
      ensures files == [] ==> unchanged(this) && submitted.None?
      ensures files != [] ==> Processed(files[0], parse, importNotes, submitted)
    {
      if |files| == 0 {
        return None;
      }
      submitted := ProcessImportFile(files[0], parse, importNotes);
    }
  }
}
