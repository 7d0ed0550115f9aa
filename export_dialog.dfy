/** The export dialog (src/components/ExportDialog.tsx): the choice between an
    encrypted and a plaintext backup, the password checks and their order, the
    `canExport` rule that enables the button, and the file `handleExport`
    downloads. */
module ExportDialog {
  import opened Wrappers
  import opened Text
  import opened Base64Url
  import opened Crypto

  datatype Mode = Encrypted | Plaintext

  /** Why `handleExport` stops before exporting, each with its own toast. */
  datatype Refusal = NoVault | EmptyPassword | PasswordTooShort | PasswordMismatch

  const MinPasswordLength: nat := 6

  /** The two texts of the vault bundle `exportVault()` returns:
      `JSON.stringify(data)` and `JSON.stringify(data, null, 2)`. */
  datatype BundleText = BundleText(compact: string, pretty: string)

  /** The `EncryptedExport` record. */
  datatype Envelope = Envelope(version: int, encrypted: bool, exportedAt: string, data: string)

  /** A downloaded file. */
  datatype Download = Download(content: string, filename: string)

  datatype ExportOutcome = Refused(reason: Refusal) | ExportFailed | Exported(file: Download)

  /** The password checks of the encrypted mode, in `handleExport`'s order: the first
      failing one is reported. */
  function PasswordCheck(password: string, confirm: string): (r: Option<Refusal>)
    ensures password == "" ==> r == Some(EmptyPassword)
    ensures password != "" && |password| < MinPasswordLength ==> r == Some(PasswordTooShort)
    ensures |password| >= MinPasswordLength && password != confirm ==> r == Some(PasswordMismatch)
    ensures r.None? <==> |password| >= MinPasswordLength && password == confirm
  {
    if password == "" then Some(EmptyPassword)
    else if |password| < MinPasswordLength then Some(PasswordTooShort)
    else if password != confirm then Some(PasswordMismatch)
    else None
  }

  /** `canExport`: what enables the export button (with `!isExporting`). */
  predicate CanExport(mode: Mode, password: string, confirm: string)
  {
    mode == Plaintext || (|password| >= MinPasswordLength && password == confirm)
  }

  /** All of `handleExport`'s checks: a missing vault first, then, in encrypted
      mode only, the password checks. They pass exactly when there is a vault and
      `canExport` holds. */
  function Validate(mode: Mode, password: string, confirm: string, hasData: bool): (r: Option<Refusal>)
    ensures !hasData ==> r == Some(NoVault)
    ensures hasData && mode == Plaintext ==> r.None?
    ensures hasData && mode == Encrypted ==> r == PasswordCheck(password, confirm)
    ensures r.None? <==> hasData && CanExport(mode, password, confirm)
  {
    if !hasData then Some(NoVault)
    else if mode == Encrypted then PasswordCheck(password, confirm)
    else None
  }

  /** `new Date().toISOString().split('T')[0]`: the date part of the timestamp,
      everything before its first `T` (all of it when there is none). */
  function FileDate(isoNow: string): (d: string)
    ensures forall i :: 0 <= i < |d| ==> d[i] != 'T'
    ensures d <= isoNow && (|d| == |isoNow| || isoNow[|d|] == 'T')
  {
    SplitHead(isoNow, 'T');
    Split(isoNow, 'T')[0]
  }

  /** The encrypted envelope: version 1, marked encrypted, stamped with the time,
      holding the bundle encrypted under the password. */
  function EncryptedEnvelope(p: Primitives, bundle: BundleText, password: string, isoNow: string,
                             salt: seq<byte>, iv: seq<byte>): (e: Envelope)
    requires |salt| == SaltLength && |iv| == IvLength
    ensures e.version == 1 && e.encrypted && e.exportedAt == isoNow
    ensures Decode(e.data).Some? && Unframe(Decode(e.data).value).salt == salt
  {
    var data := EncryptWithPasswordResult(p, bundle.compact, password, salt, iv);
    FramingRoundTrip(salt, iv, p.seal(DeriveKeyFromPassword(p, password, salt), iv, p.textEncode(bundle.compact)));
    Envelope(1, true, isoNow, data)
  }

  /** Whoever knows the password recovers the exported bundle from the envelope:
      exactly, unless its text starts with a byte-order mark, which is lost. */
  lemma EnvelopeOpens(p: Primitives, bundle: BundleText, password: string, isoNow: string,
                      salt: seq<byte>, iv: seq<byte>)
    requires Sound(p)
    requires |salt| == SaltLength && |iv| == IvLength
    ensures DecryptWithPasswordResult(p, EncryptedEnvelope(p, bundle, password, isoNow, salt, iv).data, password)
      == Success(StripBom(bundle.compact))
    ensures bundle.compact == [] || bundle.compact[0] != Bom ==>
      DecryptWithPasswordResult(p, EncryptedEnvelope(p, bundle, password, isoNow, salt, iv).data, password)
      == Success(bundle.compact)
  {
    PasswordRoundTrip(p, bundle.compact, password, salt, iv);
  }

  /** The file `handleExport` downloads in each mode. */
  function ExportFile(p: Primitives, mode: Mode, bundle: BundleText, password: string, isoNow: string,
                      salt: seq<byte>, iv: seq<byte>, prettyEnvelope: Envelope -> string): (f: Download)
    requires |salt| == SaltLength && |iv| == IvLength
    ensures mode == Encrypted ==>
      && f.filename == "vault-notes-encrypted-" + FileDate(isoNow) + ".json"
      && f.content == prettyEnvelope(EncryptedEnvelope(p, bundle, password, isoNow, salt, iv))
    ensures mode == Plaintext ==>
      && f.filename == "vault-notes-" + FileDate(isoNow) + ".json"
      && f.content == bundle.pretty
  {
    var dateStr := FileDate(isoNow);
    if mode == Encrypted then
      Download(prettyEnvelope(EncryptedEnvelope(p, bundle, password, isoNow, salt, iv)),
               "vault-notes-encrypted-" + dateStr + ".json")
    else
      Download(bundle.pretty, "vault-notes-" + dateStr + ".json")
  }

  /** The dialog's state. */
  class ExportState {
    var mode: Mode
    var password: string
    var confirmPassword: string
    var showPassword: bool
    var isExporting: bool
    var exported: bool

    constructor ()
      ensures mode == Encrypted && password == "" && confirmPassword == ""
      ensures !showPassword && !isExporting && !exported
    {
      mode := Encrypted;
      password := "";
      confirmPassword := "";
      showPassword := false;
      isExporting := false;
      exported := false;
    }

    /** The export button is enabled: `!(isExporting || !canExport)`. */
    predicate ButtonEnabled(): (b: bool)
      reads this
      ensures b ==> !isExporting
      ensures b <==> !isExporting && Validate(mode, password, confirmPassword, true).None?
    {
      !isExporting && CanExport(mode, password, confirmPassword)
    }

    /** `resetState`: back to the encrypted mode with both passwords empty and
        every flag cleared. */
    method ResetState()
      modifies this
      ensures mode == Encrypted && password == "" && confirmPassword == ""
      ensures !showPassword && !isExporting && !exported
    {
      mode := Encrypted;
      password := "";
      confirmPassword := "";
      showPassword := false;
      isExporting := false;
      exported := false;
    }

    /** `handleOpenChange`: closing resets the dialog; opening changes nothing here. */
    method HandleOpenChange(isOpen: bool)
      modifies this
      ensures !isOpen ==> mode == Encrypted && password == "" && confirmPassword == ""
      ensures !isOpen ==> !showPassword && !isExporting && !exported
      ensures isOpen ==> unchanged(this)
    {
      if !isOpen {
        ResetState();
      }
    }

    /** `handleExport`. A refused export changes nothing. Otherwise the file is
        built and downloaded; `exported` is set only when the download succeeds,
        and `isExporting` is cleared at the end either way. */
    method HandleExport(p: Primitives, bundle: Option<BundleText>, isoNow: string, salt: seq<byte>, iv: seq<byte>,
                        prettyEnvelope: Envelope -> string, downloadOk: bool)
      returns (outcome: ExportOutcome)
      requires |salt| == SaltLength && |iv| == IvLength
      modifies this`isExporting, this`exported
      ensures Validate(mode, password, confirmPassword, bundle.Some?).Some? ==>
        outcome == Refused(Validate(mode, password, confirmPassword, bundle.Some?).value) && unchanged(this)
      ensures Validate(mode, password, confirmPassword, bundle.Some?).None? ==>
        && !isExporting
        && exported == (old(exported) || downloadOk)
        && outcome == if downloadOk
                      then Exported(ExportFile(p, mode, bundle.value, password, isoNow, salt, iv, prettyEnvelope))
                      else ExportFailed
    {
      if bundle.None? {
        return Refused(NoVault);
      }
      if mode == Encrypted {
        var refusal := PasswordCheck(password, confirmPassword);
        if refusal.Some? {
          return Refused(refusal.value);
        }
      }
      isExporting := true;
      var dateStr := FileDate(isoNow);
      var file: Download;
      if mode == Encrypted {
        var encryptedData := EncryptWithPassword(p, bundle.value.compact, password, salt, iv);
        var envelope := Envelope(1, true, isoNow, encryptedData);
        file := Download(prettyEnvelope(envelope), "vault-notes-encrypted-" + dateStr + ".json");
      } else {
        file := Download(bundle.value.pretty, "vault-notes-" + dateStr + ".json");
      }
      if downloadOk {
        exported := true;
        outcome := Exported(file);
      } else {
        outcome := ExportFailed;
      }
      isExporting := false;
    }
  }
}
