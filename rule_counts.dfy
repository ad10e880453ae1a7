/**
 * `errorsHash` and `warningsHash`: plain objects mapping a rule id to the
 * number of messages counted for it. A JavaScript object remembers the
 * order in which its keys were first added (`Object.keys`), so the table is
 * an association list in that order.
 */
module RuleCounts {
  import opened Wrappers

  datatype RuleCount = RuleCount(rule: Option<string>, count: nat)

  type Counts = seq<RuleCount>

  /** `hash[rule] || 0`. */
  function Lookup(h: Counts, rule: Option<string>): nat {
    if h == [] then 0
    else if h[0].rule == rule then h[0].count
    else Lookup(h[1..], rule)
  }

  function Sum(h: Counts): nat {
    if h == [] then 0 else h[0].count + Sum(h[1..])
  }

  function Rules(h: Counts): seq<Option<string>> {
    if h == [] then [] else [h[0].rule] + Rules(h[1..])
  }

  /** Every rule appears at most once and every count is at least one. */
  ghost predicate Valid(h: Counts) {
    && (forall i, j :: 0 <= i < j < |h| ==> h[i].rule != h[j].rule)
    && (forall i :: 0 <= i < |h| ==> h[i].count >= 1)
  }

  /** `hash[rule] = (hash[rule] || 0) + 1`: an existing key keeps its place, a new one goes last. */
  function Bump(h: Counts, rule: Option<string>): (r: Counts)
    ensures forall k :: Lookup(r, k) == Lookup(h, k) + (if k == rule then 1 else 0)
    ensures Sum(r) == Sum(h) + 1
  {
    if h == [] then [RuleCount(rule, 1)]
    else if h[0].rule == rule then [RuleCount(rule, h[0].count + 1)] + h[1..]
    else
      var r := [h[0]] + Bump(h[1..], rule);
      assert r[1..] == Bump(h[1..], rule);
      r
  }

  /** An existing rule keeps its place; a new one is appended (`Object.keys` insertion order). */
  lemma {:induction false} BumpRules(h: Counts, rule: Option<string>)
    ensures Rules(Bump(h, rule)) == if rule in Rules(h) then Rules(h) else Rules(h) + [rule]
  {
    if h != [] && h[0].rule != rule {
      BumpRules(h[1..], rule);
      assert Bump(h, rule)[1..] == Bump(h[1..], rule);
    }
  }

  lemma {:induction false} RulesIndex(h: Counts)
    ensures |Rules(h)| == |h|
    ensures forall i :: 0 <= i < |h| ==> Rules(h)[i] == h[i].rule
  {
    if h != [] {
      RulesIndex(h[1..]);
    }
  }

  lemma {:induction false} BumpValid(h: Counts, rule: Option<string>)
    requires Valid(h)
    ensures Valid(Bump(h, rule))
  {
    if h != [] && h[0].rule != rule {
      BumpValid(h[1..], rule);
      BumpRules(h[1..], rule);
      var t := Bump(h[1..], rule);
      RulesIndex(h[1..]);
      RulesIndex(t);
      forall j | 0 <= j < |t| ensures t[j].rule != h[0].rule {
        assert t[j].rule in Rules(t);
      }
      ConsValid(h[0], t);
    }
  }

  lemma ConsValid(x: RuleCount, t: Counts)
    requires Valid(t) && x.count >= 1
    requires forall j :: 0 <= j < |t| ==> t[j].rule != x.rule
    ensures Valid([x] + t)
  {
    var r := [x] + t;
    forall i, j | 0 <= i < j < |r| ensures r[i].rule != r[j].rule {
      if i > 0 { assert r[i] == t[i - 1]; }
      assert r[j] == t[j - 1];
    }
  }

  /** The table you get by counting a sequence of rule ids, first to last. */
  function CountRules(rules: seq<Option<string>>): Counts {
    if rules == [] then [] else Bump(CountRules(rules[..|rules| - 1]), rules[|rules| - 1])
  }

  lemma CountRulesSnoc(rules: seq<Option<string>>, rule: Option<string>)
    ensures CountRules(rules + [rule]) == Bump(CountRules(rules), rule)
  {
    assert (rules + [rule])[..|rules|] == rules;
  }

  function Occurrences(rules: seq<Option<string>>, rule: Option<string>): nat {
    if rules == [] then 0
    else Occurrences(rules[..|rules| - 1], rule) + (if rules[|rules| - 1] == rule then 1 else 0)
  }

  /** Each rule's count is its number of occurrences; the counts add up to the length. */
  lemma {:induction false} CountRulesCounts(rules: seq<Option<string>>)
    ensures forall k :: Lookup(CountRules(rules), k) == Occurrences(rules, k)
    ensures Sum(CountRules(rules)) == |rules|
  {
    if rules != [] {
      CountRulesCounts(rules[..|rules| - 1]);
    }
  }

  /** Each counted rule appears once, with a count of at least one, and exactly the rules that occur are listed. */
  lemma {:induction false} CountRulesKeys(rules: seq<Option<string>>)
    ensures Valid(CountRules(rules))
    ensures forall k :: k in Rules(CountRules(rules)) <==> k in rules
  {
    if rules != [] {
      var init, last := rules[..|rules| - 1], rules[|rules| - 1];
      CountRulesKeys(init);
      BumpValid(CountRules(init), last);
      BumpRules(CountRules(init), last);
      assert rules == init + [last];
      var h := CountRules(init);
      assert forall k :: k in Rules(Bump(h, last)) <==> k in Rules(h) || k == last;
    }
  }
}
