/**
 * The text block printed for one entry (the inner `render*` functions of
 * `format`): a title with the error or warning glyph and the rule, the editor
 * link, the description, the file reference and the code frame, joined by
 * `createLine`. In by-issue mode the title and link appear only when the
 * block starts a new rule (`header`), and the description never does.
 */
module Render {
  import opened Wrappers
  import opened Strings
  import opened Lint
  import opened Helpers

  /** `message.line || 0`. */
  function LineOrZero(e: Entry): nat {
    e.line.GetOr(0)
  }

  /** `message.column || 0`. */
  function ColumnOrZero(e: Entry): nat {
    e.column.GetOr(0)
  }

  /** `filePath + ':' + line + ':' + column`. */
  function FileName(e: Entry): string {
    e.filePath + ":" + NatToString(LineOrZero(e)) + ":" + NatToString(ColumnOrZero(e))
  }

  /** The message type: a cross for an error, a warning sign otherwise. */
  function Glyph(e: Entry): string {
    if IsError(e) then "\U{2718}" else "\U{26A0}"
  }

  /** `renderTitle()`. */
  function Title(cfg: Config, docs: DocsUrls, e: Entry): string {
    "\n  " + Glyph(e) + "  " + RuleLabel(e.ruleId)
    + (if cfg.noLinkRules then "" else " - " + KeyLink(cfg, docs, e.ruleId.GetOr("")))
  }

  /** `renderLink()`: nothing without an editor scheme. */
  function LinkPiece(cfg: Config, host: Host, e: Entry): string {
    match GetFileLink(cfg.editorScheme, host.encodeUri, e.filePath, LineOrZero(e), ColumnOrZero(e))
    case None => ""
    case Some(link) => "     " + link
  }

  /** `renderDescription()`. */
  function Description(e: Entry): string {
    "\n     " + StripTrailingPeriod(e.message) + "\n"
  }

  /** `renderFileLink()`: a blank line above it only when the code frame is shown. */
  function FileRef(cfg: Config, e: Entry): string {
    (if cfg.noSource then "" else "\n") + "     " + FileName(e)
  }

  /** `renderSourceCode()`: the indented code frame, or nothing when frames are off. */
  function SourceFrame(cfg: Config, host: Host, e: Entry): string {
    if cfg.noSource then "" else IndentFrame(host.codeFrame(e.fileSource, e.line, e.column))
  }

  /** The pieces handed to `createLine` for one entry. */
  function Pieces(cfg: Config, docs: DocsUrls, host: Host, e: Entry, header: bool): seq<string> {
    if cfg.byIssue then
      [ if header then Title(cfg, docs, e) else "",
        if header then LinkPiece(cfg, host, e) else "",
        FileRef(cfg, e),
        SourceFrame(cfg, host, e) ]
    else
      [ Title(cfg, docs, e), LinkPiece(cfg, host, e), Description(e), FileRef(cfg, e), SourceFrame(cfg, host, e) ]
  }

  /** The block pushed for one entry. */
  function Block(cfg: Config, docs: DocsUrls, host: Host, e: Entry, header: bool): string {
    CreateLine(Pieces(cfg, docs, host, e, header))
  }

  lemma FileRefNotBlank(cfg: Config, e: Entry)
    ensures !IsBlank(FileRef(cfg, e))
  {
    var f := FileRef(cfg, e);
    var k := |f| - |FileName(e)| + |e.filePath|;
    assert f[k] == ':';
  }

  lemma TitleNotBlank(cfg: Config, docs: DocsUrls, e: Entry)
    ensures !IsBlank(Title(cfg, docs, e))
  {
    assert Title(cfg, docs, e)[3] == Glyph(e)[0];
  }

  /** Every entry's block holds at least its file reference, so no block is empty. */
  lemma BlockNotEmpty(cfg: Config, docs: DocsUrls, host: Host, e: Entry, header: bool)
    ensures Block(cfg, docs, host, e, header) != ""
  {
    var pieces := Pieces(cfg, docs, host, e, header);
    var k := if cfg.byIssue then 2 else 3;
    assert pieces[k] == FileRef(cfg, e);
    FileRefNotBlank(cfg, e);
    CreateLineEmpty(pieces);
  }

  /** Without a header, a by-issue block is just the file reference and the code frame. */
  lemma HeaderlessBlock(cfg: Config, docs: DocsUrls, host: Host, e: Entry)
    requires cfg.byIssue
    ensures Block(cfg, docs, host, e, false) == CreateLine([FileRef(cfg, e), SourceFrame(cfg, host, e)])
  {
    var rest := [FileRef(cfg, e), SourceFrame(cfg, host, e)];
    CreateLineDropsBlank([], "", [""] + rest);
    CreateLineDropsBlank([], "", rest);
    assert [] + [""] + ([""] + rest) == Pieces(cfg, docs, host, e, false);
    assert [] + ([""] + rest) == [] + [""] + rest;
    assert [] + rest == rest;
  }

  /**
   * With a header, a by-issue block is the title (and link, when there is
   * one) on the lines above the headerless block.
   */
  lemma HeaderBlock(cfg: Config, docs: DocsUrls, host: Host, e: Entry)
    requires cfg.byIssue
    ensures Block(cfg, docs, host, e, true)
         == CreateLine([Title(cfg, docs, e), LinkPiece(cfg, host, e)]) + "\n" + Block(cfg, docs, host, e, false)
  {
    var head := [Title(cfg, docs, e), LinkPiece(cfg, host, e)];
    var rest := [FileRef(cfg, e), SourceFrame(cfg, host, e)];
    HeaderlessBlock(cfg, docs, host, e);
    TitleNotBlank(cfg, docs, e);
    FileRefNotBlank(cfg, e);
    KeptAppend(head, rest);
    assert head + rest == Pieces(cfg, docs, host, e, true);
    KeptStartsWith(head);
    KeptStartsWith(rest);
    JoinAppend(Kept(head), Kept(rest), "\n");
  }

  lemma KeptStartsWith(pieces: seq<string>)
    requires |pieces| > 0 && !IsBlank(pieces[0])
    ensures Kept(pieces) != []
  {
    TrimEmptyIffBlank(pieces[0]);
  }

  lemma {:induction false} JoinAppend(x: seq<string>, y: seq<string>, sep: string)
    requires x != [] && y != []
    ensures Join(x + y, sep) == Join(x, sep) + sep + Join(y, sep)
  {
    if |x| == 1 {
      assert (x + y)[1..] == y;
    } else {
      assert (x + y)[1..] == x[1..] + y;
      JoinAppend(x[1..], y, sep);
    }
  }
}
