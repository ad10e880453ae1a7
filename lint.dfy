/**
 * The formatter's inputs: per-file lint results, the entries they flatten
 * into, the configuration that the original reads from environment
 * variables, and the host services (file system, path resolution, URI
 * encoding, code frames, table layout) that the formatter calls but that are
 * outside this model.
 */
module Lint {
  import opened Wrappers

  /**
   * One lint message. An absent rule id is ESLint's `null` (a fatal parsing
   * error has no rule); an absent line or column is `undefined`.
   */
  datatype Message = Message(
    severity: int,
    fatal: bool,
    ruleId: Option<string>,
    message: string,
    line: Option<nat>,
    column: Option<nat>)

  /** The findings for one file; `messages` may be missing altogether. */
  datatype LintResult = LintResult(
    filePath: string,
    source: Option<string>,
    messages: Option<seq<Message>>)

  /** A message together with its file's displayed path and source text. */
  datatype Entry = Entry(
    severity: int,
    fatal: bool,
    ruleId: Option<string>,
    message: string,
    line: Option<nat>,
    column: Option<nat>,
    filePath: string,
    fileSource: string)

  /**
   * The environment switches. A boolean is true exactly when its variable
   * reads "true"; a textual setting that is absent or empty counts as unset.
   *   absolutePaths  EFF_ABSOLUTE_PATHS    byIssue        EFF_BY_ISSUE
   *   filter         EFF_FILTER            noSource       EFF_NO_SOURCE
   *   noLinkRules    EFF_NO_LINK_RULES     editorScheme   EFF_EDITOR_SCHEME
   *   ruleSearchLink EFF_RULE_SEARCH_LINK
   */
  datatype Config = Config(
    absolutePaths: bool,
    byIssue: bool,
    filter: Option<string>,
    noSource: bool,
    noLinkRules: bool,
    editorScheme: Option<string>,
    ruleSearchLink: Option<string>)

  /** `fs.readFileSync` fails on an unreadable file. */
  datatype ReadError = ReadFailed(path: string)

  /**
   * Services the formatter calls and this model treats as given functions:
   * `path.resolve`, `path.relative('.', _)`, `fs.readFileSync` (None when it
   * throws), `encodeURIComponent`, `codeFrameColumns` for a source and a
   * location, and `text-table` for the summary rows.
   */
  datatype Host = Host(
    resolve: string -> string,
    relative: string -> string,
    readFile: string -> Option<string>,
    encodeUri: string -> string,
    codeFrame: (string, Option<nat>, Option<nat>) -> string,
    table: seq<seq<string>> -> string)

  /** `resultsMeta.rulesMeta[rule].docs.url`, for the rules that have one. */
  type DocsUrls = map<string, string>

  /** Whether `Config.filter` is set (a non-empty string). */
  predicate FilterActive(cfg: Config) {
    cfg.filter.Some? && cfg.filter.value != ""
  }

  /** An entry survives the filter when none is set, or when its rule id is exactly the filter. */
  predicate Passes(cfg: Config, e: Entry) {
    !FilterActive(cfg) || e.ruleId == Some(cfg.filter.value)
  }

  /** Fatal messages and severity-2 messages are errors; everything else is a warning. */
  predicate IsError(e: Entry) {
    e.fatal || e.severity == 2
  }
}
