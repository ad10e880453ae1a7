/**
 * The order in which entries are printed: ascending by severity, then rule
 * id (only in by-issue mode), file path, line and column, ties keeping their
 * input order.
 */
module EntryOrder {
  import opened Wrappers
  import opened Order
  import opened Lint
  import StableSort

  /** The compared fields; outside by-issue mode the rule id is left out (held at None for every entry). */
  datatype SortKey = SortKey(
    severity: int,
    ruleId: Option<string>,
    filePath: string,
    line: Option<nat>,
    column: Option<nat>)

  function KeyOf(e: Entry, byIssue: bool): SortKey {
    SortKey(e.severity, if byIssue then e.ruleId else None, e.filePath, e.line, e.column)
  }

  function CompareKeys(a: SortKey, b: SortKey): (c: Cmp)
    ensures c == Eq <==> a == b
  {
    Then(CompareInt(a.severity, b.severity),
    Then(CompareOptString(a.ruleId, b.ruleId),
    Then(CompareString(a.filePath, b.filePath),
    Then(CompareOptNat(a.line, b.line),
         CompareOptNat(a.column, b.column)))))
  }

  lemma CompareKeysFlip(a: SortKey, b: SortKey)
    ensures CompareKeys(b, a) == Flip(CompareKeys(a, b))
  {
    CompareOptStringFlip(a.ruleId, b.ruleId);
    CompareStringFlip(a.filePath, b.filePath);
    CompareOptNatFlip(a.line, b.line);
    CompareOptNatFlip(a.column, b.column);
  }

  lemma CompareKeysLtTrans(a: SortKey, b: SortKey, c: SortKey)
    requires CompareKeys(a, b) == Lt && CompareKeys(b, c) == Lt
    ensures CompareKeys(a, c) == Lt
  {
    if a.severity == b.severity == c.severity {
      if a.ruleId == b.ruleId == c.ruleId {
        if a.filePath == b.filePath == c.filePath {
          if a.line == b.line == c.line {
            CompareOptNatLtTrans(a.column, b.column, c.column);
          } else if a.line != b.line && b.line != c.line {
            CompareOptNatLtTrans(a.line, b.line, c.line);
          }
        } else if a.filePath != b.filePath && b.filePath != c.filePath {
          CompareStringLtTrans(a.filePath, b.filePath, c.filePath);
        }
      } else if a.ruleId != b.ruleId && b.ruleId != c.ruleId {
        CompareOptStringLtTrans(a.ruleId, b.ruleId, c.ruleId);
      }
    }
  }

  /** `a` may precede `b`: its key is not greater. */
  function EntryLe(byIssue: bool): (T: (Entry, Entry) -> bool) {
    (a: Entry, b: Entry) => CompareKeys(KeyOf(a, byIssue), KeyOf(b, byIssue)) != Gt
  }

  /** The entry order is total and transitive, so sorting by it is well defined. */
  lemma EntryLeIsTotalPreorder(byIssue: bool)
    ensures StableSort.TotalPreorder(EntryLe(byIssue))
  {
    var le := EntryLe(byIssue);
    forall a, b ensures le(a, b) || le(b, a) {
      CompareKeysFlip(KeyOf(a, byIssue), KeyOf(b, byIssue));
    }
    forall a, b, c | le(a, b) && le(b, c) ensures le(a, c) {
      var ka, kb, kc := KeyOf(a, byIssue), KeyOf(b, byIssue), KeyOf(c, byIssue);
      if CompareKeys(ka, kb) == Lt && CompareKeys(kb, kc) == Lt {
        CompareKeysLtTrans(ka, kb, kc);
      }
    }
  }

  /** Two entries compare equal exactly when their keys coincide. */
  lemma PeersShareKey(byIssue: bool, a: Entry, b: Entry)
    ensures EntryLe(byIssue)(a, b) && EntryLe(byIssue)(b, a) <==> KeyOf(a, byIssue) == KeyOf(b, byIssue)
  {
    CompareKeysFlip(KeyOf(a, byIssue), KeyOf(b, byIssue));
  }

  /** lodash `sortBy(entries, ['severity', byIssue && 'ruleId', 'filePath', 'line', 'column'])`. */
  function SortEntries(entries: seq<Entry>, byIssue: bool): seq<Entry> {
    StableSort.Sort(entries, EntryLe(byIssue))
  }

  /**
   * The sorted entries are a permutation of the input, in ascending key order,
   * and entries with equal keys keep their relative input order.
   */
  lemma SortEntriesCorrect(entries: seq<Entry>, byIssue: bool)
    ensures multiset(SortEntries(entries, byIssue)) == multiset(entries)
    ensures forall i, j :: 0 <= i < j < |SortEntries(entries, byIssue)| ==>
      CompareKeys(KeyOf(SortEntries(entries, byIssue)[i], byIssue),
                  KeyOf(SortEntries(entries, byIssue)[j], byIssue)) != Gt
    ensures forall x :: StableSort.Peers(SortEntries(entries, byIssue), x, EntryLe(byIssue))
                     == StableSort.Peers(entries, x, EntryLe(byIssue))
  {
    EntryLeIsTotalPreorder(byIssue);
    var r := SortEntries(entries, byIssue);
    StableSort.SortPerm(entries, EntryLe(byIssue));
    StableSort.SortSorted(entries, EntryLe(byIssue));
    forall x ensures StableSort.Peers(r, x, EntryLe(byIssue)) == StableSort.Peers(entries, x, EntryLe(byIssue)) {
      StableSort.SortStable(entries, x, EntryLe(byIssue));
    }
  }
}
