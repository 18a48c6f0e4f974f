/** Shared value types: optional values, results, and the handful of dynamically
    typed Python values that the attendance system passes around (device SDK
    attributes, request parameters, JSON items). */
module Common {

  datatype Option<+T> = None | Some(value: T) {
    function GetOr(default: T): T {
      match this
      case Some(v) => v
      case None => default
    }
  }

  datatype Result<+T, +E> = Ok(value: T) | Err(error: E)

  /** A Python value as it comes out of a device SDK object, a request or a
      JSON document. Only the shapes the core actually inspects are kept. */
  datatype PyValue = PNone | PBool(b: bool) | PInt(i: int) | PStr(s: string)

  /** Python truthiness: None, False, 0 and "" are falsy. */
  predicate Truthy(v: PyValue) {
    match v
    case PNone => false
    case PBool(b) => b
    case PInt(i) => i != 0
    case PStr(s) => s != ""
  }

  /** Decimal digits of a natural number, most significant first. */
  function NatToStr(n: nat): (r: string)
    decreases n
  {
    if n < 10 then [DigitChar(n)] else NatToStr(n / 10) + [DigitChar(n % 10)]
  }

  function DigitChar(d: nat): char
    requires d < 10
  {
    (48 + d) as char
  }

  predicate IsDigit(c: char) {
    '0' <= c <= '9'
  }

  function DigitValue(c: char): nat
    requires IsDigit(c)
  {
    (c as int - 48) as nat
  }

  /** Python's `str(i)` on an int. */
  function IntToStr(i: int): string {
    if i < 0 then "-" + NatToStr(-i) else NatToStr(i)
  }

  /** Python's `str(v)`. */
  function PyStr(v: PyValue): string {
    match v
    case PNone => "None"
    case PBool(b) => if b then "True" else "False"
    case PInt(i) => IntToStr(i)
    case PStr(s) => s
  }

  /** Python's `v or default` when the result is turned into a string. */
  function PyStrOr(v: PyValue, default: string): string {
    if Truthy(v) then PyStr(v) else default
  }

  /** Removing a subset removes exactly its elements from the count. */
  lemma SubsetDiffCard<T>(a: set<T>, b: set<T>)
    requires b <= a
    ensures |a - b| == |a| - |b|
  {
    assert a == (a - b) + b;
    assert (a - b) !! b;
  }

  /** A prefix one element longer is the prefix and that element. */
  lemma TakeSnoc<T>(s: seq<T>, i: nat)
    requires i < |s|
    ensures s[..i] + [s[i]] == s[..i + 1]
  {
  }

  /** A subset is no larger than its superset. */
  lemma SubsetCard<T>(a: set<T>, b: set<T>)
    requires a <= b
    ensures |a| <= |b|
  {
    assert b == a + (b - a);
  }
}
