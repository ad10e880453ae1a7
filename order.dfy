/**
 * Three-way comparison of the values the formatter sorts by: numbers,
 * strings (character by character, as JavaScript's `<` on strings), and
 * possibly-absent values, which sort after every present one (lodash's
 * `sortBy` places `null` and `undefined` after every other value).
 */
module Order {
  import opened Wrappers

  datatype Cmp = Lt | Eq | Gt

  function Flip(c: Cmp): Cmp {
    match c
    case Lt => Gt
    case Eq => Eq
    case Gt => Lt
  }

  /** Lexicographic combination: the first comparison decides unless it is a tie. */
  function Then(first: Cmp, next: Cmp): Cmp {
    if first == Eq then next else first
  }

  function CompareInt(a: int, b: int): (c: Cmp)
    ensures c == Eq <==> a == b
    ensures c == Lt <==> a < b
  {
    if a < b then Lt else if a == b then Eq else Gt
  }

  /** Lexicographic order on strings; a proper prefix sorts first. */
  function CompareString(a: string, b: string): (c: Cmp)
    ensures c == Eq <==> a == b
  {
    if a == [] && b == [] then Eq
    else if a == [] then Lt
    else if b == [] then Gt
    else if a[0] < b[0] then Lt
    else if b[0] < a[0] then Gt
    else
      assert a == [a[0]] + a[1..] && b == [b[0]] + b[1..];
      CompareString(a[1..], b[1..])
  }

  lemma {:induction false} CompareStringFlip(a: string, b: string)
    ensures CompareString(b, a) == Flip(CompareString(a, b))
  {
    if a != [] && b != [] && a[0] == b[0] {
      CompareStringFlip(a[1..], b[1..]);
    }
  }

  lemma {:induction false} CompareStringLtTrans(a: string, b: string, c: string)
    requires CompareString(a, b) == Lt && CompareString(b, c) == Lt
    ensures CompareString(a, c) == Lt
  {
    if a != [] && b != [] && c != [] && a[0] == b[0] == c[0] {
      CompareStringLtTrans(a[1..], b[1..], c[1..]);
    }
  }

  /** Absent values sort after every present string. */
  function CompareOptString(a: Option<string>, b: Option<string>): (c: Cmp)
    ensures c == Eq <==> a == b
  {
    match (a, b)
    case (None, None) => Eq
    case (None, Some(_)) => Gt
    case (Some(_), None) => Lt
    case (Some(x), Some(y)) => CompareString(x, y)
  }

  lemma CompareOptStringFlip(a: Option<string>, b: Option<string>)
    ensures CompareOptString(b, a) == Flip(CompareOptString(a, b))
  {
    if a.Some? && b.Some? {
      CompareStringFlip(a.value, b.value);
    }
  }

  lemma CompareOptStringLtTrans(a: Option<string>, b: Option<string>, c: Option<string>)
    requires CompareOptString(a, b) == Lt && CompareOptString(b, c) == Lt
    ensures CompareOptString(a, c) == Lt
  {
    if a.Some? && b.Some? && c.Some? {
      CompareStringLtTrans(a.value, b.value, c.value);
    }
  }

  /** Absent values sort after every present number. */
  function CompareOptNat(a: Option<nat>, b: Option<nat>): (c: Cmp)
    ensures c == Eq <==> a == b
    ensures c == Lt ==> a.Some?
  {
    match (a, b)
    case (None, None) => Eq
    case (None, Some(_)) => Gt
    case (Some(_), None) => Lt
    case (Some(x), Some(y)) => CompareInt(x, y)
  }

  lemma CompareOptNatFlip(a: Option<nat>, b: Option<nat>)
    ensures CompareOptNat(b, a) == Flip(CompareOptNat(a, b))
  {
  }

  lemma CompareOptNatLtTrans(a: Option<nat>, b: Option<nat>, c: Option<nat>)
    requires CompareOptNat(a, b) == Lt && CompareOptNat(b, c) == Lt
    ensures CompareOptNat(a, c) == Lt
  {
  }
}
