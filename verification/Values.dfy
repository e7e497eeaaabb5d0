/** DynamoDB attribute values and items (attribute.go). */
module Values {
  import opened Base

  /** One constructor per AttributeType; bytes are one-byte characters. */
  datatype AttributeValue =
    | S(s: string)
    | N(n: string)
    | B(b: string)
    | BOOL(flag: bool)
    | NULL
    | L(l: seq<AttributeValue>)
    | M(m: map<string, AttributeValue>)
    | SS(ss: seq<string>)
    | NS(ns: seq<string>)
    | BS(bs: seq<string>)
  {
    predicate SameType(other: AttributeValue) {
      (S? && other.S?) || (N? && other.N?) || (B? && other.B?) || (BOOL? && other.BOOL?)
      || (NULL? && other.NULL?) || (L? && other.L?) || (M? && other.M?)
      || (SS? && other.SS?) || (NS? && other.NS?) || (BS? && other.BS?)
    }
  }

  type Item = map<string, AttributeValue>

  // ---- Numbers: an integer numeral read into a float64 ----

  const TWO_53: int := 0x20_0000_0000_0000

  /** The spacing of float64 values around n: the least power of two p >= base
      with n <= 2^53 * p. */
  function Spacing(n: nat, base: nat): (p: nat)
    requires base > 0
    ensures p >= base
    decreases n - TWO_53 * base
  {
    if n <= TWO_53 * base then base else Spacing(n, 2 * base)
  }

  /** Round half to even at the given spacing. */
  function RoundTo(n: nat, p: nat): nat
    requires p > 0
  {
    var q, r := n / p, n % p;
    if 2 * r < p || (2 * r == p && q % 2 == 0) then q * p else (q + 1) * p
  }

  /** The float64 nearest to an integer (overflow to infinity is not modelled). */
  function Float64(i: int): int {
    if i < 0 then -(RoundTo(-i, Spacing(-i, 1)) as int) else RoundTo(i, Spacing(i, 1))
  }

  function ParseFloat(s: string): Option<int> {
    match ParseInt(s)
    case Some(i) => Some(Float64(i))
    case None => None
  }

  lemma Float64Exact(i: int)
    requires -TWO_53 <= i <= TWO_53
    ensures Float64(i) == i
  {
  }

  lemma ParsePrintedFloat(i: int)
    ensures ParseFloat(IntToString(i)) == Some(Float64(i))
  {
    IntRoundTrip(i);
  }

  // ---- Path resolution (resolvePathValue, in both copies) ----

  function Resolve(parts: seq<string>, item: Item): Option<AttributeValue> {
    if |parts| == 0 || parts[0] !in item then None
    else if |parts| == 1 then Some(item[parts[0]])
    else
      match item[parts[0]]
      case M(m) => Resolve(parts[1..], m)
      case _ => None
  }
}
