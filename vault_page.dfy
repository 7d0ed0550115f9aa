/** The note list of the vault page (src/pages/Vault.tsx): each note is shown by
    a one-line preview of its content. */
module VaultPage {
  import opened Text

  const PreviewLength: nat := 50
  const Untitled: string := "Untitled"

  /** `content.split('\n')[0] || 'Untitled'`: the first line, or "Untitled" when
      that line is empty. */
  function FirstLine(content: string): (line: string)
    ensures line != ""
    ensures forall i :: 0 <= i < |line| ==> line[i] != '\n'
    ensures Split(content, '\n')[0] == "" ==> line == Untitled
    ensures Split(content, '\n')[0] != "" ==>
      && line <= content
      && (|line| == |content| || content[|line|] == '\n')
  {
    SplitHead(content, '\n');
    var first := Split(content, '\n')[0];
    if first == "" then Untitled else first
  }

  /** `getNotePreview`: the first line cut to its first fifty characters, with an
      ellipsis when something was cut. */
  function NotePreview(content: string): (r: string)
    ensures r != ""
    ensures |r| <= PreviewLength + 3
    ensures forall i :: 0 <= i < |r| ==> r[i] != '\n'
    ensures |FirstLine(content)| <= PreviewLength ==> r == FirstLine(content)
    ensures |FirstLine(content)| > PreviewLength ==>
      r == FirstLine(content)[..PreviewLength] + "..."
  {
    var line := FirstLine(content);
    if |line| > PreviewLength then line[..PreviewLength] + "..." else line
  }

  /** The shown text is `getNotePreview(note.content) || 'Empty note'`. */
  function ShownPreview(content: string): (r: string)
    ensures r == NotePreview(content)
  {
    var preview := NotePreview(content);
    if preview == "" then "Empty note" else preview
  }

  /** A note whose content starts with a short line is previewed by that line. */
  lemma ShortFirstLineShown(line: string, rest: string)
    requires 0 < |line| <= PreviewLength
    requires forall i :: 0 <= i < |line| ==> line[i] != '\n'
    ensures NotePreview(line + "\n" + rest) == line
  {
    SplitPrefix(line, rest, '\n');
  }

  /** An empty note, or one starting with a blank line, is "Untitled". */
  lemma BlankFirstLineUntitled(rest: string)
    ensures NotePreview("") == Untitled
    ensures NotePreview("\n" + rest) == Untitled
  {
    assert "\n" + rest == [] + ['\n'] + rest;
    SplitPrefix([], rest, '\n');
  }
}
