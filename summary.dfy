/**
 * The summary printed after the blocks: the line counting problems, errors
 * and warnings, and per kind a table of rules (`printSummary`) ordered by
 * how often each rule fired, two rows per rule.
 */
module Summary {
  import opened Wrappers
  import opened Strings
  import opened Lint
  import opened Helpers
  import opened RuleCounts
  import StableSort
  import Seqs

  /** A number followed by its noun, pluralized for that number. */
  function Counted(n: nat, noun: string): string {
    NatToString(n) + Pluralize(noun, n)
  }

  /** The joined pieces of the summary line, e.g. "✘ 3 problems (1 error, 2 warnings)". */
  function SummaryLine(total: nat, errors: nat, warnings: nat): string {
    "\U{2718} " + Counted(total, " problem") + " (" + Breakdown(errors, warnings) + ")"
  }

  /** The part in parentheses: errors, then warnings. */
  function Breakdown(errors: nat, warnings: nat): string {
    Counted(errors, " error") + ", " + Counted(warnings, " warning")
  }

  /** One of a kind reads in the singular, any other count in the plural. */
  lemma CountedSample()
    ensures Counted(1, " problem") == "1 problem"
    ensures Counted(1, " error") == "1 error"
    ensures Counted(0, " warning") == "0 warnings"
  {
    assert NatToString(1) == "1";
    assert NatToString(0) == "0";
  }

  /** A counted noun followed by text that does not start with a digit can be read back. */
  lemma CountedPrefix(a: nat, b: nat, noun: string, s: string, t: string)
    requires noun != [] && !IsDigit(noun[0])
    requires Counted(a, noun) + s == Counted(b, noun) + t
    ensures a == b && s == t
  {
    var pa, pb := Pluralize(noun, a) + s, Pluralize(noun, b) + t;
    Seqs.AppendAssoc(NatToString(a), Pluralize(noun, a), s);
    Seqs.AppendAssoc(NatToString(b), Pluralize(noun, b), t);
    assert pa[0] == noun[0] && pb[0] == noun[0];
    NumberPrefix(a, b, pa, pb);
    assert s == pa[|Pluralize(noun, a)|..];
  }

  /** The summary line determines the three counts it was made from. */
  lemma SummaryLineInjective(total: nat, errors: nat, warnings: nat, total': nat, errors': nat, warnings': nat)
    requires SummaryLine(total, errors, warnings) == SummaryLine(total', errors', warnings')
    ensures total == total' && errors == errors' && warnings == warnings'
  {
    var b, b' := Breakdown(errors, warnings), Breakdown(errors', warnings');
    Regroup("\U{2718} ", Counted(total, " problem"), " (", b, ")");
    Regroup("\U{2718} ", Counted(total', " problem"), " (", b', ")");
    CancelLeft("\U{2718} ", Counted(total, " problem") + (" (" + (b + ")")), Counted(total', " problem") + (" (" + (b' + ")")));
    CountedPrefix(total, total', " problem", " (" + (b + ")"), " (" + (b' + ")"));
    CancelLeft(" (", b + ")", b' + ")");
    CancelRight(b, b', ")");
    BreakdownInjective(errors, warnings, errors', warnings');
  }

  lemma BreakdownInjective(errors: nat, warnings: nat, errors': nat, warnings': nat)
    requires Breakdown(errors, warnings) == Breakdown(errors', warnings')
    ensures errors == errors' && warnings == warnings'
  {
    var w, w' := Counted(warnings, " warning"), Counted(warnings', " warning");
    Seqs.AppendAssoc(Counted(errors, " error"), ", ", w);
    Seqs.AppendAssoc(Counted(errors', " error"), ", ", w');
    CountedPrefix(errors, errors', " error", ", " + w, ", " + w');
    CancelLeft(", ", w, w');
    assert w + "" == w && w' + "" == w';
    CountedPrefix(warnings, warnings', " warning", "", "");
  }

  /** Regroups the summary line's five parts to the right, so that they can be cancelled from the left. */
  lemma Regroup(a: string, b: string, c: string, d: string, e: string)
    ensures a + b + c + d + e == a + (b + (c + (d + e)))
  {
  }

  lemma CancelLeft(a: string, x: string, y: string)
    requires a + x == a + y
    ensures x == y
  {
    assert x == (a + x)[|a|..];
    assert y == (a + y)[|a|..];
  }

  lemma CancelRight(x: string, y: string, b: string)
    requires x + b == y + b
    ensures x == y
  {
    assert x == (x + b)[..|x|];
    assert y == (y + b)[..|y|];
  }

  // ---------------------------------------------------------------------------
  // The rule tables
  // ---------------------------------------------------------------------------

  /** `hash[a] > hash[b] ? -1 : 1`, read as the preorder "a's count is at least b's". */
  function CountLe(): (le: (RuleCount, RuleCount) -> bool) {
    (a: RuleCount, b: RuleCount) => a.count >= b.count
  }

  lemma CountLeIsTotalPreorder()
    ensures StableSort.TotalPreorder(CountLe())
  {
  }

  /** `Object.keys(hash).sort(...)`: the table by non-increasing count, ties in insertion order. */
  function OrderByCount(h: Counts): Counts {
    StableSort.Sort(h, CountLe())
  }

  /**
   * The ordered table holds the same rule/count pairs, by non-increasing
   * count; rules with equal counts keep their insertion order; and a table
   * listing each rule once with a positive count still does.
   */
  lemma OrderByCountCorrect(h: Counts)
    ensures multiset(OrderByCount(h)) == multiset(h)
    ensures forall i, j :: 0 <= i < j < |OrderByCount(h)| ==> OrderByCount(h)[i].count >= OrderByCount(h)[j].count
    ensures forall x :: StableSort.Peers(OrderByCount(h), x, CountLe()) == StableSort.Peers(h, x, CountLe())
    ensures Valid(h) ==> Valid(OrderByCount(h))
  {
    CountLeIsTotalPreorder();
    var r := OrderByCount(h);
    StableSort.SortPerm(h, CountLe());
    StableSort.SortSorted(h, CountLe());
    forall x ensures StableSort.Peers(r, x, CountLe()) == StableSort.Peers(h, x, CountLe()) {
      StableSort.SortStable(h, x, CountLe());
    }
    if Valid(h) {
      var key := (c: RuleCount) => c.rule;
      assert StableSort.DistinctBy(h, key);
      StableSort.SortDistinct(h, key, CountLe());
      forall i | 0 <= i < |r| ensures r[i].count >= 1 {
        assert r[i] in multiset(h);
      }
    }
  }

  /** `['', hash[key], key]`. */
  function CountRow(c: RuleCount): seq<string> {
    ["", NatToString(c.count), RuleLabel(c.rule)]
  }

  /** `['', '', '  ' + getKeyLink(key)]`. */
  function LinkRow(cfg: Config, docs: DocsUrls, c: RuleCount): seq<string> {
    ["", "", "  " + KeyLink(cfg, docs, RuleLabel(c.rule))]
  }

  /** Two rows per table entry, in the table's order (`map` then `flat`). */
  function Rows(cfg: Config, docs: DocsUrls, h: Counts): (rows: seq<seq<string>>)
    ensures |rows| == 2 * |h|
  {
    if h == [] then []
    else [CountRow(h[0]), LinkRow(cfg, docs, h[0])] + Rows(cfg, docs, h[1..])
  }

  /** Row `2i` is the count row and row `2i + 1` the link row of the `i`-th table entry. */
  lemma {:induction false} RowsIndex(cfg: Config, docs: DocsUrls, h: Counts, i: nat)
    requires i < |h|
    ensures Rows(cfg, docs, h)[2 * i] == CountRow(h[i])
    ensures Rows(cfg, docs, h)[2 * i + 1] == LinkRow(cfg, docs, h[i])
  {
    if i > 0 {
      RowsIndex(cfg, docs, h[1..], i - 1);
    }
  }

  /** The rows handed to `text-table`. */
  function SummaryRows(cfg: Config, docs: DocsUrls, h: Counts): seq<seq<string>> {
    Rows(cfg, docs, OrderByCount(h))
  }

  /**
   * The rows come in pairs, one pair per rule/count pair of the table in its
   * sorted order: the count row, then the link row.
   */
  lemma SummaryRowsCorrect(cfg: Config, docs: DocsUrls, h: Counts, i: nat)
    requires i < |h|
    ensures |SummaryRows(cfg, docs, h)| == 2 * |h|
    ensures OrderByCount(h)[i] in h
    ensures SummaryRows(cfg, docs, h)[2 * i] == CountRow(OrderByCount(h)[i])
    ensures SummaryRows(cfg, docs, h)[2 * i + 1] == LinkRow(cfg, docs, OrderByCount(h)[i])
  {
    OrderByCountCorrect(h);
    var r := OrderByCount(h);
    assert |r| == |multiset(r)| == |multiset(h)| == |h|;
    assert r[i] in multiset(h);
    RowsIndex(cfg, docs, r, i);
  }

  /** `printSummary(hash, title, ...)`: two line breaks, the title, and the table. */
  function Section(cfg: Config, docs: DocsUrls, host: Host, h: Counts, title: string): string {
    "\n\n" + title + ":" + "\n" + host.table(SummaryRows(cfg, docs, h))
  }
}
