/**
 * Flattening per-file results into entries: results with no messages are
 * skipped without touching the disk; the others take their source text from
 * the result or, failing that, from the file, and give every message the
 * file's displayed path and source. A file that cannot be read aborts the
 * whole call.
 */
module Flatten {
  import opened Wrappers
  import opened Lint

  predicate HasMessages(r: LintResult) {
    r.messages.Some? && |r.messages.value| > 0
  }

  /** The number of entries a result contributes. */
  function MessageCount(r: LintResult): nat {
    if HasMessages(r) then |r.messages.value| else 0
  }

  /** The number of entries the first results contribute, summed left to right. */
  function TotalMessages(results: seq<LintResult>): nat {
    if results == [] then 0
    else TotalMessages(results[..|results| - 1]) + MessageCount(results[|results| - 1])
  }

  /** `result.source || fs.readFileSync(result.filePath, 'utf8')`. */
  function SourceOf(r: LintResult, host: Host): Option<string> {
    if r.source.Some? && r.source.value != "" then r.source else host.readFile(r.filePath)
  }

  /** The path shown for a result's entries. */
  function DisplayPath(r: LintResult, cfg: Config, host: Host): string {
    if cfg.absolutePaths then host.resolve(r.filePath) else host.relative(r.filePath)
  }

  /** `extend({filePath}, message, {fileSource})`. */
  function MakeEntry(m: Message, path: string, source: string): Entry {
    Entry(m.severity, m.fatal, m.ruleId, m.message, m.line, m.column, path, source)
  }

  /** The entries of one result, or the read failure of its file. */
  function EntriesOf(r: LintResult, cfg: Config, host: Host): Result<seq<Entry>, ReadError> {
    if !HasMessages(r) then Ok([])
    else match SourceOf(r, host)
      case None => Err(ReadFailed(r.filePath))
      case Some(src) =>
        var msgs, path := r.messages.value, DisplayPath(r, cfg, host);
        Ok(seq(|msgs|, i requires 0 <= i < |msgs| => MakeEntry(msgs[i], path, src)))
  }

  /** The entries of all results in order; the first read failure wins. */
  function Collect(results: seq<LintResult>, cfg: Config, host: Host): Result<seq<Entry>, ReadError> {
    if results == [] then Ok([])
    else match Collect(results[..|results| - 1], cfg, host)
      case Err(e) => Err(e)
      case Ok(es) =>
        match EntriesOf(results[|results| - 1], cfg, host)
        case Err(e) => Err(e)
        case Ok(more) => Ok(es + more)
  }

  /** `results.forEach(...)` building `entries` by concatenation; `results || []` first. */
  method FlattenResults(results: Option<seq<LintResult>>, cfg: Config, host: Host)
    returns (r: Result<seq<Entry>, ReadError>)
    ensures r == Collect(results.GetOr([]), cfg, host)
  {
    var rs := results.GetOr([]);
    var entries: seq<Entry> := [];
    var i := 0;
    while i < |rs|
      invariant 0 <= i <= |rs|
      invariant Collect(rs[..i], cfg, host) == Ok(entries)
    {
      var result := rs[i];
      assert rs[..i + 1][..i] == rs[..i];
      if result.messages.Some? && |result.messages.value| > 0 {
        var fileSource: string;
        if result.source.Some? && result.source.value != "" {
          fileSource := result.source.value;
        } else {
          var read := host.readFile(result.filePath);
          if read.None? {
            CollectErrSticky(rs[..i + 1], rs[i + 1..], cfg, host);
            assert rs[..i + 1] + rs[i + 1..] == rs;
            return Err(ReadFailed(result.filePath));
          }
          fileSource := read.value;
        }
        var msgs := result.messages.value;
        var filePath := if cfg.absolutePaths then host.resolve(result.filePath) else host.relative(result.filePath);
        var added := seq(|msgs|, j requires 0 <= j < |msgs| => MakeEntry(msgs[j], filePath, fileSource));
        assert SourceOf(result, host) == Some(fileSource);
        assert EntriesOf(result, cfg, host) == Ok(added);
        entries := entries + added;
      } else {
        assert EntriesOf(result, cfg, host) == Ok([]);
        assert entries + [] == entries;
      }
      assert rs[..i + 1][i] == result;
      i := i + 1;
    }
    assert rs[..i] == rs;
    r := Ok(entries);
  }

  lemma {:induction false} CollectErrSticky(a: seq<LintResult>, b: seq<LintResult>, cfg: Config, host: Host)
    requires Collect(a, cfg, host).Err?
    ensures Collect(a + b, cfg, host) == Collect(a, cfg, host)
    decreases |b|
  {
    if b == [] {
      assert a + b == a;
    } else {
      var init := b[..|b| - 1];
      CollectErrSticky(a, init, cfg, host);
      assert (a + b)[..|a + b| - 1] == a + init;
    }
  }

  /** Flattening succeeds exactly when every result with messages has its source or a readable file. */
  lemma {:induction false} CollectOkIff(results: seq<LintResult>, cfg: Config, host: Host)
    ensures Collect(results, cfg, host).Ok?
        <==> forall j :: 0 <= j < |results| && HasMessages(results[j]) ==> SourceOf(results[j], host).Some?
  {
    if results != [] {
      var init := results[..|results| - 1];
      CollectOkIff(init, cfg, host);
      assert forall j :: 0 <= j < |init| ==> init[j] == results[j];
    }
  }

  /** Every message of every result becomes exactly one entry. */
  lemma {:induction false} CollectCount(results: seq<LintResult>, cfg: Config, host: Host)
    requires Collect(results, cfg, host).Ok?
    ensures |Collect(results, cfg, host).value| == TotalMessages(results)
  {
    if results != [] {
      CollectCount(results[..|results| - 1], cfg, host);
    }
  }

  lemma {:induction false} TotalMessagesPrefix(results: seq<LintResult>, j: nat)
    requires j < |results|
    ensures TotalMessages(results[..j]) + MessageCount(results[j]) <= TotalMessages(results)
    decreases |results|
  {
    assert results[..j + 1][..j] == results[..j];
    if j + 1 < |results| {
      var init := results[..|results| - 1];
      TotalMessagesPrefix(init, j);
      assert init[..j] == results[..j];
    }
  }

  /**
   * Result order, then message order: message k of result j is entry number
   * (messages of the results before j) + k, with that result's path and source.
   */
  lemma {:induction false} CollectIndex(results: seq<LintResult>, cfg: Config, host: Host, j: nat, k: nat)
    requires Collect(results, cfg, host).Ok?
    requires j < |results| && HasMessages(results[j]) && k < |results[j].messages.value|
    ensures TotalMessages(results[..j]) + k < |Collect(results, cfg, host).value|
    ensures SourceOf(results[j], host).Some?
    ensures Collect(results, cfg, host).value[TotalMessages(results[..j]) + k]
         == MakeEntry(results[j].messages.value[k], DisplayPath(results[j], cfg, host),
                      SourceOf(results[j], host).value)
    decreases |results|
  {
    CollectCount(results, cfg, host);
    TotalMessagesPrefix(results, j);
    var init := results[..|results| - 1];
    var es := Collect(init, cfg, host).value;
    CollectCount(init, cfg, host);
    if j < |results| - 1 {
      assert init[j] == results[j];
      assert init[..j] == results[..j];
      CollectIndex(init, cfg, host, j, k);
      TotalMessagesPrefix(init, j);
    } else {
      assert init == results[..j];
    }
  }

  /** A result with no messages changes nothing, even when its file cannot be read. */
  lemma {:induction false} CollectSkipsEmpty(a: seq<LintResult>, r: LintResult, b: seq<LintResult>, cfg: Config, host: Host)
    requires !HasMessages(r)
    ensures Collect(a + [r] + b, cfg, host) == Collect(a + b, cfg, host)
    decreases |b|
  {
    if b == [] {
      assert (a + [r])[..|a|] == a;
      assert a + [r] + b == a + [r];
      assert a + b == a;
      match Collect(a, cfg, host)
      case Err(_) =>
      case Ok(es) => assert es + [] == es;
    } else {
      var init := b[..|b| - 1];
      CollectSkipsEmpty(a, r, init, cfg, host);
      assert (a + [r] + b)[..|a + [r] + b| - 1] == a + [r] + init;
      assert (a + b)[..|a + b| - 1] == a + init;
      assert (a + [r] + b)[|a + [r] + b| - 1] == b[|b| - 1] == (a + b)[|a + b| - 1];
    }
  }
}
