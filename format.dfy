/**
 * `format(results, resultsMeta)`: flatten, sort, render and count, then the
 * summary. The output is empty exactly when there are no messages at all,
 * even if the rule filter rejected every one of them.
 */
module Formatter {
  import opened Wrappers
  import opened Strings
  import opened Lint
  import opened RuleCounts
  import opened Flatten
  import opened EntryOrder
  import opened Fold
  import opened Summary
  import StableSort
  import Seqs

  /** `printSummary` for one kind and a line break, when that kind was counted at least once. */
  function KindSection(cfg: Config, docs: DocsUrls, host: Host, kind: seq<Entry>, title: string): string {
    if |kind| > 0 then Section(cfg, docs, host, CountRules(RuleIds(kind)), title) + "\n" else ""
  }

  /**
   * The text `format` returns for the flattened entries: nothing without
   * entries; otherwise a line break, the blocks of the sorted entries that
   * pass the filter, a blank line, the summary line over all entries, and
   * the rule tables.
   */
  function Report(cfg: Config, docs: DocsUrls, host: Host, entries: seq<Entry>): string {
    var p := Passing(cfg, SortEntries(entries, cfg.byIssue));
    if |entries| == 0 then ""
    else
      "\n" + (Join(Blocks(cfg, docs, host, p), "\n") + "\n\n")
      + (SummaryLine(|entries|, |ErrorEntries(p)|, |WarningEntries(p)|) + "\n")
      + KindSection(cfg, docs, host, ErrorEntries(p), "Errors")
      + KindSection(cfg, docs, host, WarningEntries(p), "Warnings")
  }

  /** The report in terms of what the pass over the sorted entries returned. */
  lemma ReportFromPass(cfg: Config, docs: DocsUrls, host: Host, entries: seq<Entry>, blocks: seq<string>,
                       errors: nat, warnings: nat, errorsHash: Counts, warningsHash: Counts, summaryColor: Color)
    requires |entries| > 0
    requires blocks == Blocks(cfg, docs, host, Passing(cfg, SortEntries(entries, cfg.byIssue)))
    requires Tallies(Passing(cfg, SortEntries(entries, cfg.byIssue)), errors, warnings, errorsHash, warningsHash, summaryColor)
    ensures Report(cfg, docs, host, entries)
         == "\n" + (Join(blocks, "\n") + "\n\n") + (SummaryLine(|entries|, errors, warnings) + "\n")
            + (if errors > 0 then Section(cfg, docs, host, errorsHash, "Errors") + "\n" else "")
            + (if warnings > 0 then Section(cfg, docs, host, warningsHash, "Warnings") + "\n" else "")
  {
  }

  /**
   * `format`: a file that cannot be read fails the call; otherwise the
   * output is the report of the flattened entries, and it is empty exactly
   * when no result carries a message.
   */
  method Format(results: Option<seq<LintResult>>, docs: DocsUrls, cfg: Config, host: Host)
    returns (r: Result<string, ReadError>)
    ensures r.Err? <==> Collect(results.GetOr([]), cfg, host).Err?
    ensures r.Err? ==> r.error == Collect(results.GetOr([]), cfg, host).error
    ensures r.Ok? ==> r.value == Report(cfg, docs, host, Collect(results.GetOr([]), cfg, host).value)
    ensures r.Ok? ==> (r.value == "" <==> TotalMessages(results.GetOr([])) == 0)
  {
    var output := "\n";
    var flattened := FlattenResults(results, cfg, host);
    if flattened.Err? {
      return Err(flattened.error);
    }
    ghost var collected := flattened.value;
    var entries := SortEntries(flattened.value, cfg.byIssue);
    assert |entries| == |collected| by {
      StableSort.SortPerm(collected, EntryLe(cfg.byIssue));
      assert |multiset(entries)| == |multiset(collected)|;
    }
    var blocks, errors, warnings, errorsHash, warningsHash, summaryColor := RenderEntries(cfg, docs, host, entries);
    output := output + (Join(blocks, "\n") + "\n\n");
    var total := |entries|;
    if total > 0 {
      ReportFromPass(cfg, docs, host, collected, blocks, errors, warnings, errorsHash, warningsHash, summaryColor);
      output := output + (SummaryLine(total, errors, warnings) + "\n");
      if errors > 0 {
        output := output + (Section(cfg, docs, host, errorsHash, "Errors") + "\n");
      } else {
        assert output + "" == output;
      }
      if warnings > 0 {
        output := output + (Section(cfg, docs, host, warningsHash, "Warnings") + "\n");
      } else {
        assert output + "" == output;
      }
    }
    CollectCount(results.GetOr([]), cfg, host);
    r := Ok(if total > 0 then output else "");
  }

  // ---------------------------------------------------------------------------
  // What the report says
  // ---------------------------------------------------------------------------

  /** The report is empty exactly when there are no entries, and otherwise starts with a line break. */
  lemma ReportEmptyIff(cfg: Config, docs: DocsUrls, host: Host, entries: seq<Entry>)
    ensures Report(cfg, docs, host, entries) == "" <==> |entries| == 0
    ensures |entries| > 0 ==> Report(cfg, docs, host, entries)[0] == '\n'
  {
  }

  lemma SortEntriesLength(entries: seq<Entry>, byIssue: bool)
    ensures |SortEntries(entries, byIssue)| == |entries|
  {
    StableSort.SortPerm(entries, EntryLe(byIssue));
    assert |multiset(SortEntries(entries, byIssue))| == |multiset(entries)|;
  }

  /**
   * The summary line counts every entry as a problem, while its error and
   * warning counts cover only the entries that pass the filter: together
   * they are at most the total, and exactly the total without a filter.
   */
  lemma SummaryCounts(cfg: Config, entries: seq<Entry>)
    ensures var p := Passing(cfg, SortEntries(entries, cfg.byIssue));
            |ErrorEntries(p)| + |WarningEntries(p)| <= |entries|
    ensures var p := Passing(cfg, SortEntries(entries, cfg.byIssue));
            !FilterActive(cfg) ==> |ErrorEntries(p)| + |WarningEntries(p)| == |entries|
  {
    SortEntriesLength(entries, cfg.byIssue);
    CountsAddUp(cfg, SortEntries(entries, cfg.byIssue));
  }

  lemma {:induction false} PassingNone(cfg: Config, es: seq<Entry>)
    requires forall i :: 0 <= i < |es| ==> !Passes(cfg, es[i])
    ensures Passing(cfg, es) == []
  {
    if es != [] {
      PassingNone(cfg, es[..|es| - 1]);
    }
  }

  /**
   * When the filter rejects every entry, the output is not empty: no blocks,
   * and a summary line that still counts every entry as a problem, with no
   * errors and no warnings and no rule tables.
   */
  lemma FilterRejectsAll(cfg: Config, docs: DocsUrls, host: Host, entries: seq<Entry>)
    requires |entries| > 0
    requires forall i :: 0 <= i < |entries| ==> !Passes(cfg, entries[i])
    ensures Report(cfg, docs, host, entries) == "\n\n\n" + SummaryLine(|entries|, 0, 0) + "\n"
  {
    SortedPassingNone(cfg, entries);
    var p := Passing(cfg, SortEntries(entries, cfg.byIssue));
    var line := SummaryLine(|entries|, 0, 0) + "\n";
    assert Join(Blocks(cfg, docs, host, p), "\n") == "";
    assert ErrorEntries(p) == [] && WarningEntries(p) == [];
    assert Report(cfg, docs, host, entries) == "\n" + ("" + "\n\n") + line + "" + "";
    assert "\n" + ("" + "\n\n") == "\n\n\n";
    Seqs.AppendAssoc("\n\n\n", SummaryLine(|entries|, 0, 0), "\n");
  }

  lemma SortedPassingNone(cfg: Config, entries: seq<Entry>)
    requires forall i :: 0 <= i < |entries| ==> !Passes(cfg, entries[i])
    ensures Passing(cfg, SortEntries(entries, cfg.byIssue)) == []
  {
    var sorted := SortEntries(entries, cfg.byIssue);
    StableSort.SortPerm(entries, EntryLe(cfg.byIssue));
    forall i | 0 <= i < |sorted| ensures !Passes(cfg, sorted[i]) {
      assert sorted[i] in multiset(entries);
    }
    PassingNone(cfg, sorted);
  }
}
