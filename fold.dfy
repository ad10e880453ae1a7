/**
 * The pass over the sorted entries (the `reduce` in `format`): entries that
 * the rule filter rejects are skipped; each other entry is counted once, as
 * an error or as a warning, in a counter and in a rule-keyed table, and adds
 * one block to the output. In by-issue mode a block carries its title and
 * link only when its rule differs from that of the previous counted entry.
 */
module Fold {
  import opened Wrappers
  import opened Lint
  import opened RuleCounts
  import opened Render

  /** The colour of the summary line. */
  datatype Color = Yellow | Red

  /** `lastRuleId`: still `undefined` (no entry counted yet, unequal to every rule id including `null`), or the rule id of the last counted entry. */
  datatype Tracker = Start | After(ruleId: Option<string>)

  /** The entries that survive the rule filter, in order. */
  function Passing(cfg: Config, es: seq<Entry>): seq<Entry>
  {
    if es == [] then []
    else Passing(cfg, es[..|es| - 1]) + (if Passes(cfg, es[|es| - 1]) then [es[|es| - 1]] else [])
  }

  function ErrorEntries(es: seq<Entry>): seq<Entry>
  {
    if es == [] then []
    else ErrorEntries(es[..|es| - 1]) + (if IsError(es[|es| - 1]) then [es[|es| - 1]] else [])
  }

  function WarningEntries(es: seq<Entry>): seq<Entry>
  {
    if es == [] then []
    else WarningEntries(es[..|es| - 1]) + (if IsError(es[|es| - 1]) then [] else [es[|es| - 1]])
  }

  function RuleIds(es: seq<Entry>): (r: seq<Option<string>>)
    ensures |r| == |es| && forall i :: 0 <= i < |es| ==> r[i] == es[i].ruleId
  {
    seq(|es|, i requires 0 <= i < |es| => es[i].ruleId)
  }

  /** A counted entry starts a new group when it is the first one or its rule differs from its predecessor's. */
  predicate Header(p: seq<Entry>, i: nat)
    requires i < |p|
  {
    i == 0 || p[i - 1].ruleId != p[i].ruleId
  }

  /** The blocks for the counted entries. */
  function Blocks(cfg: Config, docs: DocsUrls, host: Host, p: seq<Entry>): (r: seq<string>)
    ensures |r| == |p|
  {
    BlocksWith((e: Entry, header: bool) => Block(cfg, docs, host, e, header), p)
  }

  /** One rendering per counted entry, told whether it starts a group. */
  function BlocksWith(render: (Entry, bool) -> string, p: seq<Entry>): (r: seq<string>)
    ensures |r| == |p|
  {
    seq(|p|, i requires 0 <= i < |p| => render(p[i], Header(p, i)))
  }

  lemma BlocksWithSnoc(render: (Entry, bool) -> string, p: seq<Entry>, e: Entry)
    ensures BlocksWith(render, p + [e]) == BlocksWith(render, p) + [render(e, p == [] || p[|p| - 1].ruleId != e.ruleId)]
  {
    var q := p + [e];
    var left := BlocksWith(render, q);
    var right := BlocksWith(render, p) + [render(e, p == [] || p[|p| - 1].ruleId != e.ruleId)];
    forall i | 0 <= i < |q| ensures left[i] == right[i] {
      assert left[i] == render(q[i], Header(q, i));
      if i < |p| {
        assert right[i] == render(p[i], Header(p, i));
        assert q[i] == p[i];
        assert Header(q, i) == Header(p, i) by {
          if i > 0 { assert q[i - 1] == p[i - 1]; }
        }
      } else {
        assert q[i] == e;
        if i > 0 { assert q[i - 1] == p[i - 1]; }
      }
    }
    assert left == right;
  }

  lemma BlocksSnoc(cfg: Config, docs: DocsUrls, host: Host, p: seq<Entry>, e: Entry)
    ensures Blocks(cfg, docs, host, p + [e])
         == Blocks(cfg, docs, host, p) + [Block(cfg, docs, host, e, p == [] || p[|p| - 1].ruleId != e.ruleId)]
  {
    BlocksWithSnoc((e: Entry, header: bool) => Block(cfg, docs, host, e, header), p, e);
  }

  lemma PassingSnoc(cfg: Config, es: seq<Entry>, e: Entry)
    ensures Passing(cfg, es + [e]) == Passing(cfg, es) + (if Passes(cfg, e) then [e] else [])
  {
    assert (es + [e])[..|es|] == es;
  }

  /** One more source entry: the passing entries grow by it exactly when it passes. */
  lemma PassingStep(cfg: Config, entries: seq<Entry>, i: nat)
    requires i < |entries|
    ensures Passing(cfg, entries[..i + 1]) == Passing(cfg, entries[..i]) + (if Passes(cfg, entries[i]) then [entries[i]] else [])
  {
    assert entries[..i + 1] == entries[..i] + [entries[i]];
    PassingSnoc(cfg, entries[..i], entries[i]);
  }

  lemma ClassifySnoc(p: seq<Entry>, e: Entry)
    ensures IsError(e) ==> ErrorEntries(p + [e]) == ErrorEntries(p) + [e] && WarningEntries(p + [e]) == WarningEntries(p)
    ensures !IsError(e) ==> ErrorEntries(p + [e]) == ErrorEntries(p) && WarningEntries(p + [e]) == WarningEntries(p) + [e]
  {
    assert (p + [e])[..|p|] == p;
    assert ErrorEntries(p) + [] == ErrorEntries(p);
    assert WarningEntries(p) + [] == WarningEntries(p);
  }

  lemma RuleIdsSnoc(kind: seq<Entry>, e: Entry)
    ensures RuleIds(kind + [e]) == RuleIds(kind) + [e.ruleId]
  {
  }

  /** The counters, the rule tables and the colour after counting the entries `p`. */
  ghost predicate Tallies(p: seq<Entry>, errors: nat, warnings: nat, errorsHash: Counts, warningsHash: Counts, summaryColor: Color)
  {
    && errors == |ErrorEntries(p)|
    && warnings == |WarningEntries(p)|
    && errorsHash == CountRules(RuleIds(ErrorEntries(p)))
    && warningsHash == CountRules(RuleIds(WarningEntries(p)))
    && summaryColor == if errors > 0 then Red else Yellow
  }

  /** The blocks and the by-issue tracker after rendering the counted entries `p`. */
  ghost predicate Rendered(cfg: Config, docs: DocsUrls, host: Host, p: seq<Entry>, blocks: seq<string>, lastRuleId: Tracker)
  {
    && blocks == Blocks(cfg, docs, host, p)
    && (cfg.byIssue ==> lastRuleId == if p == [] then Start else After(p[|p| - 1].ruleId))
  }

  /** Counting one more entry: an error bumps the error side and turns the colour red, a warning bumps the warning side. */
  lemma CountsStep(p: seq<Entry>, e: Entry, errors: nat, warnings: nat, errorsHash: Counts, warningsHash: Counts, summaryColor: Color)
    requires Tallies(p, errors, warnings, errorsHash, warningsHash, summaryColor)
    ensures IsError(e) ==> Tallies(p + [e], errors + 1, warnings, Bump(errorsHash, e.ruleId), warningsHash, Red)
    ensures !IsError(e) ==> Tallies(p + [e], errors, warnings + 1, errorsHash, Bump(warningsHash, e.ruleId), summaryColor)
  {
    ClassifySnoc(p, e);
    if IsError(e) {
      RuleIdsSnoc(ErrorEntries(p), e);
      CountRulesSnoc(RuleIds(ErrorEntries(p)), e.ruleId);
    } else {
      RuleIdsSnoc(WarningEntries(p), e);
      CountRulesSnoc(RuleIds(WarningEntries(p)), e.ruleId);
    }
  }

  /** Rendering one more entry: its block carries a header unless the tracker already holds its rule id. */
  lemma BlocksStep(cfg: Config, docs: DocsUrls, host: Host, p: seq<Entry>, e: Entry, blocks: seq<string>, lastRuleId: Tracker)
    requires Rendered(cfg, docs, host, p, blocks, lastRuleId)
    ensures Rendered(cfg, docs, host, p + [e],
                      blocks + [Block(cfg, docs, host, e, !cfg.byIssue || lastRuleId != After(e.ruleId))],
                      if cfg.byIssue then After(e.ruleId) else lastRuleId)
  {
    BlocksSnoc(cfg, docs, host, p, e);
  }

  /**
   * The counting half of one step of the `reduce`: an error turns the summary
   * colour red and bumps the error counter and table, anything else bumps the
   * warning counter and table.
   */
  method CountEntry(ghost p: seq<Entry>, message: Entry,
                    errors: nat, warnings: nat, errorsHash: Counts, warningsHash: Counts, summaryColor: Color)
    returns (errors': nat, warnings': nat, errorsHash': Counts, warningsHash': Counts, summaryColor': Color)
    requires Tallies(p, errors, warnings, errorsHash, warningsHash, summaryColor)
    ensures Tallies(p + [message], errors', warnings', errorsHash', warningsHash', summaryColor')
  {
    errors', warnings', errorsHash', warningsHash', summaryColor' := errors, warnings, errorsHash, warningsHash, summaryColor;
    CountsStep(p, message, errors, warnings, errorsHash, warningsHash, summaryColor);
    if message.fatal || message.severity == 2 {
      summaryColor' := Red;
      errorsHash' := Bump(errorsHash, message.ruleId);
      errors' := errors + 1;
    } else {
      warningsHash' := Bump(warningsHash, message.ruleId);
      warnings' := warnings + 1;
    }
  }

  /**
   * The rendering half of one step: in by-issue mode the entry is compared
   * with the tracker, which then moves to its rule id; the block carries a
   * header unless the rule id repeats.
   */
  method RenderEntry(cfg: Config, docs: DocsUrls, host: Host, ghost p: seq<Entry>, message: Entry,
                     blocks: seq<string>, lastRuleId: Tracker)
    returns (blocks': seq<string>, lastRuleId': Tracker)
    requires Rendered(cfg, docs, host, p, blocks, lastRuleId)
    ensures Rendered(cfg, docs, host, p + [message], blocks', lastRuleId')
  {
    BlocksStep(cfg, docs, host, p, message, blocks, lastRuleId);
    var header := true;
    lastRuleId' := lastRuleId;
    if cfg.byIssue {
      var isSameIssueAsLastOne := lastRuleId == After(message.ruleId);
      lastRuleId' := After(message.ruleId);
      header := !isSameIssueAsLastOne;
    }
    blocks' := blocks + [Block(cfg, docs, host, message, header)];
  }

  /**
   * The `reduce` over the sorted entries. Returns the blocks, the two counters,
   * the two rule tables and the summary colour; each is stated in terms of the
   * entries that pass the filter.
   */
  method RenderEntries(cfg: Config, docs: DocsUrls, host: Host, entries: seq<Entry>)
    returns (blocks: seq<string>, errors: nat, warnings: nat, errorsHash: Counts, warningsHash: Counts, summaryColor: Color)
    ensures blocks == Blocks(cfg, docs, host, Passing(cfg, entries))
    ensures Tallies(Passing(cfg, entries), errors, warnings, errorsHash, warningsHash, summaryColor)
  {
    blocks, errors, warnings, errorsHash, warningsHash, summaryColor := [], 0, 0, [], [], Yellow;
    var lastRuleId := Start;
    ghost var p: seq<Entry> := [];
    var i := 0;
    while i < |entries|
      invariant 0 <= i <= |entries|
      invariant p == Passing(cfg, entries[..i])
      invariant Tallies(p, errors, warnings, errorsHash, warningsHash, summaryColor)
      invariant Rendered(cfg, docs, host, p, blocks, lastRuleId)
    {
      var message := entries[i];
      PassingStep(cfg, entries, i);
      if FilterActive(cfg) && message.ruleId != Some(cfg.filter.value) {
        i := i + 1;
        continue;
      }
      errors, warnings, errorsHash, warningsHash, summaryColor :=
        CountEntry(p, message, errors, warnings, errorsHash, warningsHash, summaryColor);
      blocks, lastRuleId := RenderEntry(cfg, docs, host, p, message, blocks, lastRuleId);
      p := p + [message];
      i := i + 1;
    }
    assert entries[..i] == entries;
  }

  // ---------------------------------------------------------------------------
  // What the pass computes
  // ---------------------------------------------------------------------------

  lemma {:induction false} ClassifyPartition(p: seq<Entry>)
    ensures |ErrorEntries(p)| + |WarningEntries(p)| == |p|
  {
    if p != [] {
      ClassifyPartition(p[..|p| - 1]);
    }
  }

  /**
   * The filter only drops entries: what it keeps comes from the input, every
   * kept entry passes, and every entry of the input that passes is kept.
   */
  lemma {:induction false} PassingKeeps(cfg: Config, es: seq<Entry>)
    ensures |Passing(cfg, es)| <= |es|
    ensures multiset(Passing(cfg, es)) <= multiset(es)
    ensures forall i :: 0 <= i < |Passing(cfg, es)| ==> Passes(cfg, Passing(cfg, es)[i])
    ensures forall e :: e in es && Passes(cfg, e) ==> e in Passing(cfg, es)
  {
    if es != [] {
      var init, last := es[..|es| - 1], es[|es| - 1];
      PassingKeeps(cfg, init);
      assert es == init + [last];
      assert multiset(es) == multiset(init) + multiset{last};
      forall e | e in es && Passes(cfg, e) ensures e in Passing(cfg, es) {
        if e != last {
          assert e in init;
        }
      }
    }
  }

  /**
   * The error side holds only errors and the warning side only non-errors,
   * and together they hold every counted entry: each fatal or severity-2
   * entry is counted as an error, each other entry as a warning.
   */
  lemma {:induction false} ClassifyKinds(p: seq<Entry>)
    ensures forall i :: 0 <= i < |ErrorEntries(p)| ==> IsError(ErrorEntries(p)[i])
    ensures forall i :: 0 <= i < |WarningEntries(p)| ==> !IsError(WarningEntries(p)[i])
    ensures multiset(ErrorEntries(p)) + multiset(WarningEntries(p)) == multiset(p)
  {
    ClassifySides(p);
    ClassifyCovers(p);
  }

  lemma {:induction false} ClassifySides(p: seq<Entry>)
    ensures forall i :: 0 <= i < |ErrorEntries(p)| ==> IsError(ErrorEntries(p)[i])
    ensures forall i :: 0 <= i < |WarningEntries(p)| ==> !IsError(WarningEntries(p)[i])
  {
    if p != [] {
      ClassifySides(p[..|p| - 1]);
    }
  }

  lemma {:induction false} ClassifyCovers(p: seq<Entry>)
    ensures multiset(ErrorEntries(p)) + multiset(WarningEntries(p)) == multiset(p)
  {
    if p != [] {
      var init, last := p[..|p| - 1], p[|p| - 1];
      ClassifyCovers(init);
      assert p == init + [last];
      ClassifySnoc(init, last);
      assert multiset(p) == multiset(init) + multiset{last};
    }
  }

  lemma {:induction false} PassingAll(cfg: Config, es: seq<Entry>)
    requires !FilterActive(cfg)
    ensures Passing(cfg, es) == es
  {
    if es != [] {
      PassingAll(cfg, es[..|es| - 1]);
      assert es == es[..|es| - 1] + [es[|es| - 1]];
    }
  }

  /**
   * Every counted entry is counted exactly once: errors and warnings add up
   * to the entries that pass the filter, which are at most all entries and
   * all of them when no filter is set; with a filter, every counted entry has
   * exactly the filtered rule id.
   */
  lemma CountsAddUp(cfg: Config, es: seq<Entry>)
    ensures |ErrorEntries(Passing(cfg, es))| + |WarningEntries(Passing(cfg, es))| == |Passing(cfg, es)| <= |es|
    ensures !FilterActive(cfg) ==> |Passing(cfg, es)| == |es|
    ensures FilterActive(cfg) ==> forall i :: 0 <= i < |Passing(cfg, es)| ==> Passing(cfg, es)[i].ruleId == cfg.filter
  {
    ClassifyPartition(Passing(cfg, es));
    PassingKeeps(cfg, es);
    if !FilterActive(cfg) {
      PassingAll(cfg, es);
    }
  }

  /**
   * The rule tables agree with the counters: the error table's counts sum to
   * the error count and the warning table's to the warning count, each rule
   * appears once with a count of at least one, and a rule's count is the
   * number of counted entries of that kind with that rule.
   */
  lemma TablesAgree(cfg: Config, es: seq<Entry>)
    ensures Sum(CountRules(RuleIds(ErrorEntries(Passing(cfg, es))))) == |ErrorEntries(Passing(cfg, es))|
    ensures Sum(CountRules(RuleIds(WarningEntries(Passing(cfg, es))))) == |WarningEntries(Passing(cfg, es))|
    ensures Valid(CountRules(RuleIds(ErrorEntries(Passing(cfg, es)))))
    ensures Valid(CountRules(RuleIds(WarningEntries(Passing(cfg, es)))))
    ensures forall k :: Lookup(CountRules(RuleIds(ErrorEntries(Passing(cfg, es)))), k)
                     == Occurrences(RuleIds(ErrorEntries(Passing(cfg, es))), k)
    ensures forall k :: Lookup(CountRules(RuleIds(WarningEntries(Passing(cfg, es)))), k)
                     == Occurrences(RuleIds(WarningEntries(Passing(cfg, es))), k)
  {
    var errs, warns := RuleIds(ErrorEntries(Passing(cfg, es))), RuleIds(WarningEntries(Passing(cfg, es)));
    CountRulesCounts(errs);
    CountRulesCounts(warns);
    CountRulesKeys(errs);
    CountRulesKeys(warns);
  }

  /** In by-issue mode a block shows its title and link exactly when it starts a run of its rule. */
  lemma GroupedBlocks(cfg: Config, docs: DocsUrls, host: Host, p: seq<Entry>, i: nat)
    requires cfg.byIssue && i < |p|
    ensures Header(p, i) ==>
      Blocks(cfg, docs, host, p)[i]
        == Helpers.CreateLine([Title(cfg, docs, p[i]), LinkPiece(cfg, host, p[i])]) + "\n"
           + Helpers.CreateLine([FileRef(cfg, p[i]), SourceFrame(cfg, host, p[i])])
    ensures !Header(p, i) ==>
      Blocks(cfg, docs, host, p)[i] == Helpers.CreateLine([FileRef(cfg, p[i]), SourceFrame(cfg, host, p[i])])
  {
    HeaderBlock(cfg, docs, host, p[i]);
    HeaderlessBlock(cfg, docs, host, p[i]);
  }
}
