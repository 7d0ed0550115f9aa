/** The vault-key backup file (src/lib/vault-utils.ts): its text and its name.
    The creation time is a parameter. */
module VaultUtils {
  import opened Wrappers
  import opened Text

  /** The rule line at the top and the bottom of the file: 37 `=`. */
  const Rule: string := Repeat('=', 37)

  /** The lines of the template up to the vault key. The longer lines are written
      as concatenations of shorter literals: the same text, but a fact about each
      piece (no line break) is cheap for the verifier, one about a long literal is not. */
  function HeaderLines(vaultId: string, vaultKey: string): seq<string> {
    [Rule, "LEAFVAULT - " + "VAULT CREDENTIALS", Rule, "",
     "\U{26A0}\U{FE0F} WARNING: " + "Keep this file secure!",
     "These credentials are " + "the ONLY way to access " + "your encrypted notes.",
     "If you lose them, " + "your notes " + "cannot be recovered.", "",
     "Vault ID: " + vaultId, "Vault Key: " + vaultKey]
  }

  /** Line `i` of the phrase: the 1-based number right-aligned in two columns, ". ", the word. */
  function NumberedLine(i: nat, word: string): (line: string)
    ensures i < 9 ==> line == [' ', DigitChar(i + 1)] + ". " + word
    ensures 9 <= i < 99 ==> line == NatToString(i + 1) + ". " + word
  {
    PadStart(NatToString(i + 1), 2, ' ') + ". " + word
  }

  /** `mnemonic.map((w, i) => ...)`: one numbered line per word. */
  function NumberedWords(words: seq<string>): (lines: seq<string>)
    ensures |lines| == |words|
    ensures forall i :: 0 <= i < |words| ==> lines[i] == NumberedLine(i, words[i])
  {
    seq(|words|, i requires 0 <= i < |words| => NumberedLine(i, words[i]))
  }

  const PhraseTitle := "Recovery Phrase (12 words):"

  /** The recovery phrase section, appended only for a non-empty mnemonic. */
  function PhraseSection(words: seq<string>): string {
    "\n" + "\n" + PhraseTitle + "\n" + Join(NumberedWords(words), '\n')
  }

  function Footer(timestamp: string): string {
    "\n" + "\n" + "Generated: " + timestamp + "\n" + Rule
  }

  predicate HasPhrase(mnemonic: Option<seq<string>>) {
    mnemonic.Some? && |mnemonic.value| > 0
  }

  /** The file text, piece by piece as it is built. */
  function FileContent(vaultId: string, vaultKey: string, mnemonic: Option<seq<string>>, timestamp: string): string {
    Join(HeaderLines(vaultId, vaultKey), '\n')
      + (if HasPhrase(mnemonic) then PhraseSection(mnemonic.value) else "")
      + Footer(timestamp)
  }

  /** `generateVaultKeyFileContent`: the header, the phrase section when a
      non-empty mnemonic is given, and the footer. */
  method GenerateVaultKeyFileContent(vaultId: string, vaultKey: string, mnemonic: Option<seq<string>>,
                                     timestamp: string)
    returns (content: string)
    ensures content == FileContent(vaultId, vaultKey, mnemonic, timestamp)
  {
    content := Join(HeaderLines(vaultId, vaultKey), '\n');
    if mnemonic.Some? && |mnemonic.value| > 0 {
      content := content + PhraseSection(mnemonic.value);
    }
    content := content + Footer(timestamp);
  }

  /** The file's lines, one string each. */
  function FileLines(vaultId: string, vaultKey: string, mnemonic: Option<seq<string>>, timestamp: string)
    : seq<string>
  {
    HeaderLines(vaultId, vaultKey)
      + (if HasPhrase(mnemonic) then ["", PhraseTitle] + NumberedWords(mnemonic.value) else [])
      + ["", "Generated: " + timestamp, Rule]
  }

  /** Where the credentials, the phrase and the footer sit among the lines. */
  lemma FileLinesLayout(vaultId: string, vaultKey: string, mnemonic: Option<seq<string>>, timestamp: string)
    ensures var lines := FileLines(vaultId, vaultKey, mnemonic, timestamp);
      && |lines| == 13 + (if HasPhrase(mnemonic) then 2 + |mnemonic.value| else 0)
      && lines[8] == "Vault ID: " + vaultId && lines[9] == "Vault Key: " + vaultKey
      && lines[|lines| - 2] == "Generated: " + timestamp && lines[|lines| - 1] == Rule
      && (HasPhrase(mnemonic) ==>
            lines[11] == PhraseTitle && lines[12..12 + |mnemonic.value|] == NumberedWords(mnemonic.value))
      && (!HasPhrase(mnemonic) ==> lines[10..] == ["", "Generated: " + timestamp, Rule])
  {
    var head := HeaderLines(vaultId, vaultKey);
    var foot := ["", "Generated: " + timestamp, Rule];
    if HasPhrase(mnemonic) {
      var words := NumberedWords(mnemonic.value);
      var lines := head + (["", PhraseTitle] + words) + foot;
      assert FileLines(vaultId, vaultKey, mnemonic, timestamp) == lines;
      assert lines[12..12 + |words|] == words;
    } else {
      assert FileLines(vaultId, vaultKey, mnemonic, timestamp) == head + foot;
    }
  }

  predicate NoNewline(s: string) {
    forall i :: 0 <= i < |s| ==> s[i] != '\n'
  }

  predicate AllLines(ls: seq<string>) {
    forall k :: 0 <= k < |ls| ==> NoNewline(ls[k])
  }

  lemma NoNewlineAppend(a: string, b: string)
    requires NoNewline(a) && NoNewline(b)
    ensures NoNewline(a + b)
  {
    forall i | 0 <= i < |a + b|
      ensures (a + b)[i] != '\n'
    {
      if i >= |a| {
        assert (a + b)[i] == b[i - |a|];
      }
    }
  }

  lemma {:induction false} JoinAppend(a: seq<string>, b: seq<string>, sep: char)
    requires |a| >= 1 && |b| >= 1
    ensures Join(a + b, sep) == Join(a, sep) + [sep] + Join(b, sep)
  {
    if |a| == 1 {
      assert (a + b)[1..] == b;
    } else {
      JoinAppend(a[1..], b, sep);
      assert (a + b)[1..] == a[1..] + b;
    }
  }

  lemma JoinPair(a: string, rest: seq<string>, sep: char)
    requires |rest| >= 1
    ensures Join([a] + rest, sep) == a + [sep] + Join(rest, sep)
  {
    assert ([a] + rest)[1..] == rest;
  }

  lemma FooterIsLines(timestamp: string)
    ensures Footer(timestamp) == "\n" + Join(["", "Generated: " + timestamp, Rule], '\n')
  {
    var g := "Generated: " + timestamp;
    JoinPair("", [g, Rule], '\n');
    JoinPair(g, [Rule], '\n');
    assert Join(["", g, Rule], '\n') == "" + "\n" + (g + "\n" + Rule);
    assert "" + "\n" + (g + "\n" + Rule) == "\n" + g + "\n" + Rule;
  }

  lemma PhraseSectionIsLines(words: seq<string>)
    requires |words| > 0
    ensures PhraseSection(words) == "\n" + Join(["", PhraseTitle] + NumberedWords(words), '\n')
  {
    var lines := NumberedWords(words);
    var body := Join(lines, '\n');
    JoinPair("", [PhraseTitle] + lines, '\n');
    JoinPair(PhraseTitle, lines, '\n');
    assert ["", PhraseTitle] + lines == [""] + ([PhraseTitle] + lines);
    assert Join(["", PhraseTitle] + lines, '\n') == "" + "\n" + (PhraseTitle + "\n" + body);
    assert "\n" + ("" + "\n" + (PhraseTitle + "\n" + body)) == "\n" + "\n" + PhraseTitle + "\n" + body;
  }

  lemma JoinThree(a: seq<string>, b: seq<string>, c: seq<string>, sep: char)
    requires |a| >= 1 && |b| >= 1 && |c| >= 1
    ensures Join(a + b + c, sep) == Join(a, sep) + ([sep] + Join(b, sep)) + ([sep] + Join(c, sep))
  {
    JoinAppend(a, b, sep);
    JoinAppend(a + b, c, sep);
    Regroup(Join(a, sep), Join(b, sep), Join(c, sep), sep);
  }

  lemma Regroup(x: string, y: string, z: string, sep: char)
    ensures (x + [sep] + y) + [sep] + z == x + ([sep] + y) + ([sep] + z)
  {
  }

  lemma JoinTwo(a: seq<string>, c: seq<string>, sep: char)
    requires |a| >= 1 && |c| >= 1
    ensures Join(a + c, sep) == Join(a, sep) + ([sep] + Join(c, sep))
  {
    JoinAppend(a, c, sep);
  }

  /** The file is its lines joined by line breaks. */
  lemma FileContentIsLines(vaultId: string, vaultKey: string, mnemonic: Option<seq<string>>, timestamp: string)
    ensures FileContent(vaultId, vaultKey, mnemonic, timestamp) == Join(FileLines(vaultId, vaultKey, mnemonic, timestamp), '\n')
  {
    var head := HeaderLines(vaultId, vaultKey);
    var foot := ["", "Generated: " + timestamp, Rule];
    FooterIsLines(timestamp);
    if HasPhrase(mnemonic) {
      var phrase := ["", PhraseTitle] + NumberedWords(mnemonic.value);
      PhraseSectionIsLines(mnemonic.value);
      JoinThree(head, phrase, foot, '\n');
      assert FileLines(vaultId, vaultKey, mnemonic, timestamp) == head + phrase + foot;
    } else {
      JoinTwo(head, foot, '\n');
      assert FileLines(vaultId, vaultKey, mnemonic, timestamp) == head + foot;
    }
  }

  lemma HeaderHasNoBreaks(vaultId: string, vaultKey: string)
    requires NoNewline(vaultId) && NoNewline(vaultKey)
    ensures AllLines(HeaderLines(vaultId, vaultKey))
  {
    NoNewlineAppend("LEAFVAULT - ", "VAULT CREDENTIALS");
    NoNewlineAppend("\U{26A0}\U{FE0F} WARNING: ", "Keep this file secure!");
    NoNewlineAppend("These credentials are ", "the ONLY way to access ");
    NoNewlineAppend("These credentials are " + "the ONLY way to access ", "your encrypted notes.");
    NoNewlineAppend("If you lose them, ", "your notes ");
    NoNewlineAppend("If you lose them, " + "your notes ", "cannot be recovered.");
    NoNewlineAppend("Vault ID: ", vaultId);
    NoNewlineAppend("Vault Key: ", vaultKey);
  }

  lemma NumberedLineHasNoBreak(i: nat, word: string)
    requires NoNewline(word)
    ensures NoNewline(NumberedLine(i, word))
  {
    var digits := NatToString(i + 1);
    var n := PadStart(digits, 2, ' ');
    forall j | 0 <= j < |n|
      ensures n[j] != '\n'
    {
      if j >= |n| - |digits| {
        assert n[j] == digits[j - (|n| - |digits|)];
      }
    }
    NoNewlineAppend(n, ". ");
    NoNewlineAppend(n + ". ", word);
  }

  lemma NumberedWordsHaveNoBreaks(words: seq<string>)
    requires forall i :: 0 <= i < |words| ==> NoNewline(words[i])
    ensures AllLines(NumberedWords(words))
  {
    forall k | 0 <= k < |words|
      ensures NoNewline(NumberedWords(words)[k])
    {
      NumberedLineHasNoBreak(k, words[k]);
    }
  }

  lemma AllLinesAppend(a: seq<string>, b: seq<string>)
    requires AllLines(a) && AllLines(b)
    ensures AllLines(a + b)
  {
    forall k | 0 <= k < |a + b|
      ensures NoNewline((a + b)[k])
    {
      if k >= |a| {
        assert (a + b)[k] == b[k - |a|];
      }
    }
  }

  /** Reading the file line by line gives the lines back, so it has the lines
      `Vault ID: <id>` and `Vault Key: <key>`, the numbered phrase exactly when a
      non-empty mnemonic is given, and `Generated: <timestamp>` then the rule as
      its last two lines. */
  lemma FileReadsAsLines(vaultId: string, vaultKey: string, mnemonic: Option<seq<string>>, timestamp: string)
    requires NoNewline(vaultId) && NoNewline(vaultKey) && NoNewline(timestamp)
    requires mnemonic.Some? ==> forall i :: 0 <= i < |mnemonic.value| ==> NoNewline(mnemonic.value[i])
    ensures Split(FileContent(vaultId, vaultKey, mnemonic, timestamp), '\n') == FileLines(vaultId, vaultKey, mnemonic, timestamp)
  {
    var lines := FileLines(vaultId, vaultKey, mnemonic, timestamp);
    FileContentIsLines(vaultId, vaultKey, mnemonic, timestamp);
    FileLinesHaveNoBreaks(vaultId, vaultKey, mnemonic, timestamp);
    SplitLines(lines);
  }

  lemma SplitLines(lines: seq<string>)
    requires |lines| >= 1 && AllLines(lines)
    ensures Split(Join(lines, '\n'), '\n') == lines
  {
    assert forall k, i :: 0 <= k < |lines| && 0 <= i < |lines[k]| ==> lines[k][i] != '\n' by {
      forall k, i | 0 <= k < |lines| && 0 <= i < |lines[k]|
        ensures lines[k][i] != '\n'
      {
        assert NoNewline(lines[k]);
      }
    }
    SplitJoin(lines, '\n');
  }

  lemma FileLinesHaveNoBreaks(vaultId: string, vaultKey: string, mnemonic: Option<seq<string>>, timestamp: string)
    requires NoNewline(vaultId) && NoNewline(vaultKey) && NoNewline(timestamp)
    requires mnemonic.Some? ==> forall i :: 0 <= i < |mnemonic.value| ==> NoNewline(mnemonic.value[i])
    ensures AllLines(FileLines(vaultId, vaultKey, mnemonic, timestamp))
  {
    var head := HeaderLines(vaultId, vaultKey);
    var foot := ["", "Generated: " + timestamp, Rule];
    HeaderHasNoBreaks(vaultId, vaultKey);
    NoNewlineAppend("Generated: ", timestamp);
    assert AllLines(foot);
    if HasPhrase(mnemonic) {
      var phrase := ["", PhraseTitle] + NumberedWords(mnemonic.value);
      NumberedWordsHaveNoBreaks(mnemonic.value);
      AllLinesAppend(["", PhraseTitle], NumberedWords(mnemonic.value));
      AllLinesAppend(head, phrase);
      AllLinesAppend(head + phrase, foot);
      assert FileLines(vaultId, vaultKey, mnemonic, timestamp) == head + phrase + foot;
    } else {
      AllLinesAppend(head, foot);
      assert FileLines(vaultId, vaultKey, mnemonic, timestamp) == head + foot;
    }
  }

  /** `generateVaultKeyFilename`: "vault-key-", the first eight characters of the
      id (all of a shorter id), ".txt". */
  function GenerateVaultKeyFilename(vaultId: string): (name: string)
    ensures |name| == 14 + (if |vaultId| < 8 then |vaultId| else 8)
    ensures name[..10] == "vault-key-" && name[|name| - 4..] == ".txt"
    ensures name[10..|name| - 4] <= vaultId
  {
    var prefix := if |vaultId| < 8 then vaultId else vaultId[..8];
    "vault-key-" + prefix + ".txt"
  }
}
