/**
 * The small helpers of the formatter: `pluralize`, the editor deep link
 * (`getFileLink`), the rule documentation link (`getKeyLink`), the
 * description's trailing-period removal, the code-frame indentation and
 * `createLine`, which joins the non-blank pieces of an entry block.
 * Colouring is the identity throughout.
 */
module Helpers {
  import opened Wrappers
  import opened Strings
  import opened Lint

  /** `pluralize(word, count)`: the word gets an "s" exactly when the count is not one. */
  function Pluralize(word: string, count: nat): (r: string)
    ensures count == 1 <==> r == word
    ensures count != 1 <==> r == word + "s"
  {
    if count == 1 then word else word + "s"
  }

  /** A rule id as a template literal or an object key prints it; a `null` one prints as "null". */
  function RuleLabel(ruleId: Option<string>): string {
    match ruleId
    case None => "null"
    case Some(r) => r
  }

  /**
   * `getFileLink(path, line, column)`: no link without a (non-empty) editor
   * scheme; otherwise the scheme with its first `{file}`, then first `{line}`,
   * then first `{column}` filled in.
   */
  function GetFileLink(scheme: Option<string>, encode: string -> string, path: string, line: nat, column: nat): (r: Option<string>)
    ensures r.None? <==> scheme.None? || scheme.value == ""
  {
    if scheme.None? || scheme.value == "" then None
    else
      Some(ReplaceFirst(ReplaceFirst(ReplaceFirst(scheme.value, "{file}", encode(path)),
                                     "{line}", NatToString(line)),
                        "{column}", NatToString(column)))
  }

  /**
   * For a scheme holding the three placeholders in order, the link is the
   * scheme with each placeholder replaced and every other character kept.
   */
  lemma GetFileLinkFills(a: string, b: string, c: string, d: string,
                         encode: string -> string, path: string, line: nat, column: nat)
    requires '{' !in a && '{' !in b && '{' !in c && '{' !in encode(path)
    ensures GetFileLink(Some(a + "{file}" + b + "{line}" + c + "{column}" + d), encode, path, line, column)
         == Some(a + encode(path) + b + NatToString(line) + c + NatToString(column) + d)
  {
    var p, l, k := encode(path), NatToString(line), NatToString(column);
    assert '{' !in l by { assert forall i :: 0 <= i < |l| ==> IsDigit(l[i]); }
    var scheme := a + "{file}" + b + "{line}" + c + "{column}" + d;
    assert scheme == a + "{file}" + b + "{line}" + (c + "{column}" + d);
    var r1 := FillFile(a, b, c + "{column}" + d, p);
    var r2 := FillLine(a + p + b, c, d, l);
    var r3 := FillFirst(a + p + b + l + c, "{column}", d, k);
    assert GetFileLink(Some(scheme), encode, path, line, column) == Some(r3) by {
      assert scheme != "" by { assert |scheme| >= 6; }
    }
  }

  /** The first substitution: `{file}` before the rest of the scheme. */
  lemma FillFile(a: string, b: string, t: string, p: string) returns (r: string)
    requires '{' !in a && '{' !in b && '{' !in p
    ensures r == (a + p + b) + "{line}" + t && '{' !in a + p + b
    ensures ReplaceFirst(a + "{file}" + b + "{line}" + t, "{file}", p) == r
  {
    assert a + "{file}" + b + "{line}" + t == a + "{file}" + (b + "{line}" + t);
    var r0 := FillFirst(a, "{file}", b + "{line}" + t, p);
    r := (a + p + b) + "{line}" + t;
    assert r0 == r;
  }

  /** The second substitution: `{line}` before the `{column}` placeholder. */
  lemma FillLine(q: string, c: string, d: string, l: string) returns (r: string)
    requires '{' !in q && '{' !in c && '{' !in l
    ensures r == (q + l + c) + "{column}" + d && '{' !in q + l + c
    ensures ReplaceFirst(q + "{line}" + (c + "{column}" + d), "{line}", l) == r
  {
    var r0 := FillFirst(q, "{line}", c + "{column}" + d, l);
    r := (q + l + c) + "{column}" + d;
    assert r0 == r;
  }

  /** One placeholder substitution, with the string regrouped around the placeholder. */
  lemma FillFirst(pre: string, pat: string, post: string, rep: string) returns (r: string)
    requires |pat| > 0 && pat[0] == '{' && '{' !in pre
    ensures r == pre + rep + post
    ensures ReplaceFirst(pre + pat + post, pat, rep) == r
  {
    ReplaceFirstAt(pre, pat, post, rep);
    r := pre + rep + post;
  }

  /** The search-engine prefix used when a rule has no documentation URL. */
  function SearchPrefix(cfg: Config): string {
    if cfg.ruleSearchLink.Some? && cfg.ruleSearchLink.value != "" then cfg.ruleSearchLink.value
    else "https://google.com/search?q="
  }

  /** `getKeyLink(key, resultsMeta)`: the rule's documentation URL if it has one, else a search for the key. */
  function KeyLink(cfg: Config, docs: DocsUrls, key: string): (r: string)
    ensures key in docs && docs[key] != "" ==> r == docs[key]
    ensures !(key in docs && docs[key] != "") ==> r == SearchPrefix(cfg) + key
  {
    if key in docs && docs[key] != "" then docs[key] else SearchPrefix(cfg) + key
  }

  /** `message.replace(/\.$/, '')`: one final period is removed, nothing else changes. */
  function StripTrailingPeriod(s: string): (r: string)
    ensures s == r + "." || s == r
    ensures s == r <==> (s == [] || s[|s| - 1] != '.')
  {
    if s != [] && s[|s| - 1] == '.' then s[..|s| - 1] else s
  }

  /** Exactly one period goes, even when the message ends with several. */
  lemma StripOnePeriod(m: string)
    ensures StripTrailingPeriod(m + ".") == m
  {
    assert (m + ".")[..|m|] == m;
  }

  function Prefixed(lines: seq<string>, prefix: string): (r: seq<string>)
    ensures |r| == |lines| && forall i :: 0 <= i < |lines| ==> r[i] == prefix + lines[i]
  {
    seq(|lines|, i requires 0 <= i < |lines| => prefix + lines[i])
  }

  /** `frame.split('\n').map(l => '   ' + l).join('\n')`. */
  function IndentFrame(frame: string): string {
    Join(Prefixed(Split(frame, '\n'), "   "), "\n")
  }

  /** The indented frame has the frame's lines, each behind three spaces. */
  lemma IndentFrameLines(frame: string)
    ensures Split(IndentFrame(frame), '\n') == Prefixed(Split(frame, '\n'), "   ")
  {
    var lines := Prefixed(Split(frame, '\n'), "   ");
    forall i | 0 <= i < |lines| ensures '\n' !in lines[i] {
      assert lines[i] == "   " + Split(frame, '\n')[i];
    }
    SplitJoin(lines, '\n');
  }

  /** The pieces that are not empty after trimming, in order. */
  function Kept(pieces: seq<string>): (r: seq<string>)
    ensures forall i :: 0 <= i < |r| ==> !IsBlank(r[i])
  {
    if pieces == [] then []
    else
      TrimEmptyIffBlank(pieces[0]);
      (if Trim(pieces[0]) != "" then [pieces[0]] else []) + Kept(pieces[1..])
  }

  /** `createLine(arr)`: the non-blank pieces joined with single newlines. */
  function CreateLine(pieces: seq<string>): string {
    Join(Kept(pieces), "\n")
  }

  lemma {:induction false} KeptAppend(a: seq<string>, b: seq<string>)
    ensures Kept(a + b) == Kept(a) + Kept(b)
  {
    if a == [] {
      assert a + b == b;
    } else {
      assert (a + b)[1..] == a[1..] + b;
      KeptAppend(a[1..], b);
    }
  }

  /** A blank piece leaves no trace: no empty line is produced for it. */
  lemma CreateLineDropsBlank(a: seq<string>, x: string, b: seq<string>)
    requires IsBlank(x)
    ensures CreateLine(a + [x] + b) == CreateLine(a + b)
  {
    KeptAppend(a + [x], b);
    KeptAppend(a, [x]);
    KeptAppend(a, b);
    TrimEmptyIffBlank(x);
    assert [x][1..] == [];
    assert Kept([x]) == [];
    assert Kept(a + [x]) == Kept(a);
  }

  /** Pieces that are all non-blank are joined as they are. */
  lemma {:induction false} CreateLineKeepsAll(pieces: seq<string>)
    requires forall i :: 0 <= i < |pieces| ==> !IsBlank(pieces[i])
    ensures CreateLine(pieces) == Join(pieces, "\n")
  {
    KeptAll(pieces);
  }

  lemma {:induction false} KeptAll(pieces: seq<string>)
    requires forall i :: 0 <= i < |pieces| ==> !IsBlank(pieces[i])
    ensures Kept(pieces) == pieces
  {
    if pieces != [] {
      TrimEmptyIffBlank(pieces[0]);
      KeptAll(pieces[1..]);
    }
  }

  /** A line is empty exactly when every piece is blank. */
  lemma {:induction false} CreateLineEmpty(pieces: seq<string>)
    ensures CreateLine(pieces) == "" <==> forall i :: 0 <= i < |pieces| ==> IsBlank(pieces[i])
  {
    KeptEmpty(pieces);
    var k := Kept(pieces);
    if k != [] {
      assert k[0] != [];
      assert |Join(k, "\n")| >= |k[0]|;
    }
  }

  lemma {:induction false} KeptEmpty(pieces: seq<string>)
    ensures Kept(pieces) == [] <==> forall i :: 0 <= i < |pieces| ==> IsBlank(pieces[i])
  {
    if pieces != [] {
      TrimEmptyIffBlank(pieces[0]);
      KeptEmpty(pieces[1..]);
      if Kept(pieces[1..]) == [] && IsBlank(pieces[0]) {
        forall i | 0 <= i < |pieces| ensures IsBlank(pieces[i]) {
          if i > 0 { assert pieces[i] == pieces[1..][i - 1]; }
        }
      }
    }
  }
}
