/**
 * The two paste commands and the content provider of the extension, over
 * the single process-wide snapshot slot (`lastOriginalText`,
 * `lastDocUri`). The editor host is reduced to its inputs: the active
 * editor (if any) with its document and selected texts, the clipboard
 * text, the `minPasteSize` setting, and the document text after the
 * host's paste. What the host is asked to do is the returned `Outcome`.
 */
module DiffPaste {
  import opened Wrappers
  import opened Classifier
  import opened PasteGate

  /** A document identifier, as the host hands it out. */
  datatype Uri = Uri(value: string)

  datatype Document = Document(uri: Uri, text: string)

  /** The active editor: its document and the text under each of its selections. */
  datatype Editor = Editor(document: Document, selections: seq<string>)

  /** What a command ends with on the host side. */
  datatype Outcome =
    | PlainPaste        // the editor's own paste action, nothing captured
    | ShowDiff          // a diff between the snapshot and the live document
    | WhitespaceNotice  // "only whitespace/indentation changed"

  class Session {
    /** The document text captured before the last diff paste. */
    var lastOriginalText: string
    /** The document it was captured from. */
    var lastDocUri: Option<Uri>

    /** An empty slot holds no text: both are set together and cleared together. */
    ghost predicate Valid()
      reads this
    {
      lastDocUri == None ==> lastOriginalText == ""
    }

    /** The slot after a capture of `doc` followed by a paste that left `textAfterPaste`. */
    ghost predicate Classified(doc: Document, textAfterPaste: string, outcome: Outcome)
      reads this
    {
      if Meaningful(doc.text, textAfterPaste) then
        outcome == ShowDiff && lastOriginalText == doc.text && lastDocUri == Some(doc.uri)
      else
        outcome == WhitespaceNotice && lastOriginalText == "" && lastDocUri == None
    }

    /** The module-level initial state: no text, no URI. */
    constructor ()
      ensures Valid()
      ensures lastOriginalText == "" && lastDocUri == None
    {
      lastOriginalText := "";
      lastDocUri := None;
    }

    /** `provideTextDocumentContent`: the snapshot text, whatever URI is asked for. */
    function Provide(uri: Uri): (content: string)
      reads this
      ensures content == lastOriginalText
    {
      lastOriginalText
    }

    /**
     * The `forceDiffPaste` command. Without an editor it only pastes.
     * Otherwise it captures the document, lets the host paste, and
     * classifies the change: a meaningful one keeps the snapshot for the
     * diff view, any other clears the slot.
     */
    method ForceDiffPaste(editor: Option<Editor>, textAfterPaste: string) returns (outcome: Outcome)
      requires Valid()
      modifies this
      ensures Valid()
      ensures editor == None ==>
        outcome == PlainPaste && lastOriginalText == old(lastOriginalText) && lastDocUri == old(lastDocUri)
      ensures editor != None ==> Classified(editor.value.document, textAfterPaste, outcome)
    {
      if editor == None {
        return PlainPaste;
      }
      var doc := editor.value.document;
      lastOriginalText := doc.text;
      lastDocUri := Some(doc.uri);
      ghost var compared;
      var changed;
      changed, compared := TextChangedMeaningfully(lastOriginalText, textAfterPaste);
      if changed {
        outcome := ShowDiff;
      } else {
        lastOriginalText := "";
        lastDocUri := None;
        outcome := WhitespaceNotice;
      }
    }

    /**
     * The `autoDiffPaste` command: without an editor, or when the paste is
     * small, the plain paste and nothing else; otherwise the forced diff
     * paste on the same editor.
     */
    method AutoDiffPaste(editor: Option<Editor>, clipText: string, minPasteSetting: Option<int>, textAfterPaste: string)
      returns (outcome: Outcome)
      requires Valid()
      modifies this
      ensures Valid()
      ensures (editor == None || PlainPasteSuffices(clipText, editor.value.selections, MinPasteSize(minPasteSetting))) ==>
        outcome == PlainPaste && lastOriginalText == old(lastOriginalText) && lastDocUri == old(lastDocUri)
      ensures editor != None && !PlainPasteSuffices(clipText, editor.value.selections, MinPasteSize(minPasteSetting)) ==>
        Classified(editor.value.document, textAfterPaste, outcome)
    {
      if editor == None {
        return PlainPaste;
      }
      var minSize := MinPasteSize(minPasteSetting);
      var replacedLen := ReplacedLength(editor.value.selections);
      if |clipText| < minSize && replacedLen < minSize {
        return PlainPaste;
      }
      outcome := ForceDiffPaste(editor, textAfterPaste);
    }

    /** `deactivate`: the slot is cleared unconditionally. */
    method Deactivate()
      modifies this
      ensures Valid()
      ensures lastOriginalText == "" && lastDocUri == None
    {
      lastOriginalText := "";
      lastDocUri := None;
    }
  }

  /**
   * After a meaningful forced paste, the provider serves the text the
   * document had before the paste, whatever was pasted before.
   */
  method ProviderAfterMeaningfulPaste(earlier: Editor, earlierAfter: string, editor: Editor, textAfterPaste: string, asked: Uri)
    returns (outcome: Outcome, content: string)
    requires Meaningful(editor.document.text, textAfterPaste)
    ensures outcome == ShowDiff
    ensures content == editor.document.text
  {
    var session := new Session();
    var _ := session.ForceDiffPaste(Some(earlier), earlierAfter);
    outcome := session.ForceDiffPaste(Some(editor), textAfterPaste);
    content := session.Provide(asked);
  }

  /**
   * After a paste that changed only white space, the provider serves the
   * empty text, even if an earlier paste had filled the slot.
   */
  method ProviderAfterWhitespaceOnlyPaste(earlier: Editor, earlierAfter: string, editor: Editor, textAfterPaste: string, asked: Uri)
    returns (outcome: Outcome, content: string)
    requires !Meaningful(editor.document.text, textAfterPaste)
    ensures outcome == WhitespaceNotice
    ensures content == ""
  {
    var session := new Session();
    var _ := session.ForceDiffPaste(Some(earlier), earlierAfter);
    outcome := session.ForceDiffPaste(Some(editor), textAfterPaste);
    content := session.Provide(asked);
  }

  /** After `deactivate`, the provider serves the empty text. */
  method ProviderAfterDeactivate(earlier: Editor, earlierAfter: string, asked: Uri) returns (content: string)
    ensures content == ""
  {
    var session := new Session();
    var _ := session.ForceDiffPaste(Some(earlier), earlierAfter);
    session.Deactivate();
    content := session.Provide(asked);
  }

  /**
   * A forced paste with an editor always captures and classifies, however
   * short the clipboard text: it never falls back to the plain paste.
   */
  method ForcedPasteNeverPlain(editor: Editor, textAfterPaste: string) returns (outcome: Outcome)
    ensures outcome != PlainPaste
    ensures outcome == ShowDiff <==> Meaningful(editor.document.text, textAfterPaste)
  {
    var session := new Session();
    outcome := session.ForceDiffPaste(Some(editor), textAfterPaste);
  }

  /**
   * Whatever an automatic paste and a forced paste did, when the provider
   * serves a non-empty text the slot also records the document it came from.
   */
  method ServedTextHasOrigin(first: Option<Editor>, clipText: string, minPasteSetting: Option<int>, firstAfter: string,
                             second: Option<Editor>, secondAfter: string, asked: Uri)
    returns (content: string, origin: Option<Uri>)
    ensures content != "" ==> origin != None
  {
    var session := new Session();
    var _ := session.AutoDiffPaste(first, clipText, minPasteSetting, firstAfter);
    var _ := session.ForceDiffPaste(second, secondAfter);
    content := session.Provide(asked);
    origin := session.lastDocUri;
  }
}
