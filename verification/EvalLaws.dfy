/** Laws that tie the evaluator (internal/expr/eval.go) and the order of keys
    (memdb/memdb.go) to what they are meant to be. */
module EvalLaws {
  import opened Base
  import opened Values
  import opened Ast
  import opened Evaluation
  import Store

  // ---- Values are ordered ----

  /** Comparing the other way round flips the sign, for strings, numbers, bytes and
      bools; an error stays an error. */
  lemma CompareValuesFlips(a: AttributeValue, b: AttributeValue)
    ensures CompareValues(b, a) == match CompareValues(a, b) case Ok(c) => Ok(-c) case Err => Err
  {
    match (a, b)
    case (S(x), S(y)) => CompareFlips(x, y);
    case (B(x), B(y)) => CompareFlips(x, y);
    case _ =>
  }

  lemma CompareTransitive(a: string, b: string, c: string)
    requires Compare(a, b) <= 0 && Compare(b, c) <= 0
    ensures Compare(a, c) <= 0
  {
    if a != b && b != c {
      LessTransitive(a, b, c);
    }
  }

  lemma CompareValuesTransitive(a: AttributeValue, b: AttributeValue, c: AttributeValue)
    requires CompareValues(a, b).Ok? && CompareValues(a, b).value <= 0
    requires CompareValues(b, c).Ok? && CompareValues(b, c).value <= 0
    ensures CompareValues(a, c).Ok? && CompareValues(a, c).value <= 0
  {
    hide Compare;
    match (a, b, c)
    case (S(x), S(y), S(z)) => CompareTransitive(x, y, z);
    case (B(x), B(y), B(z)) => CompareTransitive(x, y, z);
    case _ =>
  }

  function Opposite(op: CompareOp): CompareOp {
    match op case EQ => NE case NE => EQ case LT => GE case GE => LT case LE => GT case GT => LE
  }

  function Flipped(op: CompareOp): CompareOp {
    match op case LT => GT case GT => LT case LE => GE case GE => LE case other => other
  }

  /** Both operands are there and have one type. */
  predicate Comparable(l: Node, r: Node, item: Item) {
    match (ResolveNode(l, item), ResolveNode(r, item))
    case (Ok(Some(a)), Ok(Some(b))) => a.SameType(b)
    case _ => false
  }

  /** An operator is the negation of its opposite exactly on comparable operands or
      errors: with a missing operand, or operands of different types, both are false. */
  lemma OppositeIff(l: Node, op: CompareOp, r: Node, item: Item)
    ensures EvalCompare(l, Opposite(op), r, item) == Eval(NotNode(CompareNode(l, op, r)), item)
       <==> Comparable(l, r, item) || EvalCompare(l, op, r, item).Err?
  {
    hide CompareValues, ResolveNode;
  }

  lemma HoldsFlipped(op: CompareOp, c: int)
    ensures Holds(op, c) == Holds(Flipped(op), -c)
  {
  }

  /** Swapping the operands swaps the direction of the operator. */
  lemma SwapOperands(l: Node, op: CompareOp, r: Node, item: Item)
    ensures EvalCompare(l, op, r, item) == EvalCompare(r, Flipped(op), l, item)
  {
    hide CompareValues, ResolveNode, Holds, Flipped;
    var a, b := ResolveNode(l, item), ResolveNode(r, item);
    if a.Ok? && b.Ok? && a.value.Some? && b.value.Some? {
      var x, y := a.value.value, b.value.value;
      CompareValuesFlips(x, y);
      assert x.SameType(y) == y.SameType(x);
      if CompareValues(x, y).Ok? {
        HoldsFlipped(op, CompareValues(x, y).value);
      }
    }
  }

  // ---- Logic ----

  /** De Morgan, errors and short circuits included. */
  lemma DeMorgan(a: Node, b: Node, item: Item)
    ensures Eval(NotNode(AndNode(a, b)), item) == Eval(OrNode(NotNode(a), NotNode(b)), item)
    ensures Eval(NotNode(OrNode(a, b)), item) == Eval(AndNode(NotNode(a), NotNode(b)), item)
  {
    hide EvalCompare, EvalFunc;
    assert Eval(NotNode(a), item) == match Eval(a, item) case Ok(x) => Ok(!x) case Err => Err;
    assert Eval(NotNode(b), item) == match Eval(b, item) case Ok(x) => Ok(!x) case Err => Err;
    match (Eval(a, item), Eval(b, item))
    case (Ok(true), _) =>
    case (Ok(false), _) =>
    case (Err, _) =>
  }

  lemma AndIsAssociative(a: Node, b: Node, c: Node, item: Item)
    ensures Eval(AndNode(AndNode(a, b), c), item) == Eval(AndNode(a, AndNode(b, c)), item)
    ensures Eval(OrNode(OrNode(a, b), c), item) == Eval(OrNode(a, OrNode(b, c)), item)
  {
    hide EvalCompare, EvalFunc;
    match (Eval(a, item), Eval(b, item))
    case (Ok(_), _) =>
    case (Err, _) =>
  }

  // ---- Strings ----

  /** contains on strings is: occurs somewhere. */
  lemma {:induction false} ContainsIff(s: string, sub: string)
    ensures Contains(s, sub) <==> exists i :: Occurs(s, sub, i)
  {
    if HasPrefix(s, sub) {
      assert Occurs(s, sub, 0);
    }
    if s != "" {
      ContainsIff(s[1..], sub);
      if i :| Occurs(s[1..], sub, i) {
        assert s[i + 1..i + 1 + |sub|] == s[1..][i..i + |sub|];
        assert Occurs(s, sub, i + 1);
      }
      if i :| Occurs(s, sub, i) {
        if i == 0 {
          assert s[0..|sub|] == s[..|sub|];
        } else {
          assert s[i..i + |sub|] == s[1..][i - 1..i - 1 + |sub|];
          assert Occurs(s[1..], sub, i - 1);
        }
      }
    } else if i :| Occurs(s, sub, i) {
      assert sub == "";
    }
  }

  predicate Occurs(s: string, sub: string, i: int) { 0 <= i && i + |sub| <= |s| && s[i..i + |sub|] == sub }

  // ---- Keys are strings ----

  /** Items come back in the order of their key strings. For string and binary keys
      this is the order of the values. */
  lemma StringKeysInOrder(x: string, y: string)
    ensures Less(Store.KeyString(S(x)), Store.KeyString(S(y))) <==> Compare(x, y) < 0
    ensures Less(Store.KeyString(B(x)), Store.KeyString(B(y))) <==> Compare(x, y) < 0
  {
    SamePrefix('S', x, y);
    SamePrefix('B', x, y);
  }

  lemma SamePrefix(c: char, x: string, y: string)
    ensures Compare([c, ':'] + x, [c, ':'] + y) == Compare(x, y)
  {
    var a, b := [c, ':'] + x, [c, ':'] + y;
    assert a[1..] == [':'] + x && b[1..] == [':'] + y;
    assert a[1..][1..] == x && b[1..][1..] == y;
  }

  // ---- Number keys are strings too ----

  function Pow10(k: nat): nat { if k == 0 then 1 else 10 * Pow10(k - 1) }

  function Digits(n: nat): nat { |NatToString(n)| }

  lemma {:induction false} CompareSnoc(a: string, c: char, b: string, d: char)
    requires |a| == |b|
    ensures Less(a + [c], b + [d]) <==> Less(a, b) || (a == b && c < d)
  {
    if a != "" {
      assert (a + [c])[1..] == a[1..] + [c] && (b + [d])[1..] == b[1..] + [d];
      CompareSnoc(a[1..], c, b[1..], d);
      assert a == [a[0]] + a[1..] && b == [b[0]] + b[1..];
    } else {
      assert a + [c] == [c] && b + [d] == [d];
    }
  }

  lemma {:induction false} CompareLonger(a: string, b: string, d: char)
    requires |a| <= |b|
    ensures Less(a, b + [d]) <==> Less(a, b) || a == b
  {
    if a != "" {
      assert (b + [d])[1..] == b[1..] + [d];
      CompareLonger(a[1..], b[1..], d);
      assert a == [a[0]] + a[1..] && b == [b[0]] + b[1..];
    }
  }

  /** Numerals of one length are ordered as their numbers are. */
  lemma {:induction false} SameLengthOrder(m: nat, n: nat)
    requires Digits(m) == Digits(n)
    ensures Less(NatToString(m), NatToString(n)) <==> m < n
  {
    hide Compare, Less;
    if m >= 10 {
      SameLengthOrder(m / 10, n / 10);
      CompareSnoc(NatToString(m / 10), DigitChar(m % 10), NatToString(n / 10), DigitChar(n % 10));
      if NatToString(m / 10) == NatToString(n / 10) {
        NatToStringInjective(m / 10, n / 10);
      }
    } else {
      CompareSnoc("", DigitChar(m), "", DigitChar(n));
      assert "" + NatToString(m) == NatToString(m) && "" + NatToString(n) == NatToString(n);
      Irreflexive("");
    }
  }

  lemma Irreflexive(s: string)
    ensures !Less(s, s)
  {
  }

  /** A numeral is not above a longer one exactly when its number is not, once it is
      filled up with zeros. */
  lemma {:induction false} NumeralOrder(m: nat, n: nat)
    requires Digits(m) <= Digits(n)
    ensures Less(NatToString(m), NatToString(n)) || m == n <==> m * Pow10(Digits(n) - Digits(m)) <= n
    decreases n
  {
    hide Compare, Less;
    if Digits(m) == Digits(n) {
      SameLengthOrder(m, n);
    } else {
      NumeralOrder(m, n / 10);
      CompareLonger(NatToString(m), NatToString(n / 10), DigitChar(n % 10));
      if NatToString(m) == NatToString(n / 10) {
        NatToStringInjective(m, n / 10);
      }
      Scale(m, Pow10(Digits(n / 10) - Digits(m)), n);
    }
  }

  lemma Scale(m: nat, p: nat, n: nat)
    ensures m * p <= n / 10 <==> m * (10 * p) <= n
  {
    assert m * (10 * p) == 10 * (m * p);
  }

  lemma {:induction false} DigitsMonotone(m: nat, n: nat)
    requires m <= n
    ensures Digits(m) <= Digits(n)
  {
    if m >= 10 {
      DigitsMonotone(m / 10, n / 10);
    }
  }

  /** When a smaller number key comes first: negative ones before the others; two of
      the others when the smaller one is still no greater after it has been filled up
      with zeros; and two negative ones in the remaining cases. */
  predicate InKeyOrder(i: int, j: int)
    requires i < j
  {
    if i >= 0 then i * Pow10(Pad(i, j)) <= j
    else j >= 0 || -j * Pow10(Pad(-j, -i)) > -i
  }

  function Pad(m: nat, n: nat): nat
    requires m <= n
  {
    DigitsMonotone(m, n);
    Digits(n) - Digits(m)
  }

  /** Results are ordered by the values of number keys exactly on such pairs: at equal
      numbers of digits always for numbers from 0 up, never for negative ones. */
  lemma NumberKeysIff(i: int, j: int)
    requires i < j
    ensures Less(Store.KeyString(N(IntToString(i))), Store.KeyString(N(IntToString(j)))) <==> InKeyOrder(i, j)
    ensures -TWO_53 <= i && j <= TWO_53 ==> CompareValues(N(IntToString(i)), N(IntToString(j))) == Ok(-1)
    ensures Digits(if i < 0 then -i else i) == Digits(if j < 0 then -j else j) ==> (InKeyOrder(i, j) <==> j >= 0)
  {
    var x, y := IntToString(i), IntToString(j);
    SamePrefix('N', x, y);
    assert Store.KeyString(N(x)) == ['N', ':'] + x && Store.KeyString(N(y)) == ['N', ':'] + y;
    NumbersInOrder(i, j);
    IntegerOrder(i, j);
  }

  lemma NumbersInOrder(i: int, j: int)
    requires i < j
    ensures -TWO_53 <= i && j <= TWO_53 ==> CompareValues(N(IntToString(i)), N(IntToString(j))) == Ok(-1)
  {
    ParsePrintedFloat(i);
    ParsePrintedFloat(j);
    if -TWO_53 <= i && j <= TWO_53 {
      Float64Exact(i);
      Float64Exact(j);
    }
  }

  lemma IntegerOrder(i: int, j: int)
    requires i < j
    ensures Less(IntToString(i), IntToString(j)) <==> InKeyOrder(i, j)
  {
    if i >= 0 {
      DigitsMonotone(i, j);
      NumeralOrder(i, j);
    } else if j < 0 {
      var a, b := NatToString(-i), NatToString(-j);
      DigitsMonotone(-j, -i);
      NumeralOrder(-j, -i);
      assert ("-" + a)[1..] == a && ("-" + b)[1..] == b;
      CompareFlips(a, b);
      if a == b {
        NatToStringInjective(-i, -j);
      }
    } else {
      assert ("-" + NatToString(-i))[0] == '-' && IsDigit(NatToString(j)[0]);
    }
  }

  /** So 10 comes before 9. */
  lemma NumberKeysOutOfOrder()
    ensures Less(Store.KeyString(N("10")), Store.KeyString(N("9"))) && !InKeyOrder(9, 10)
  {
    assert NatToString(10) == "10" && NatToString(9) == "9";
    assert Digits(9) == 1 && Digits(10) == 2 && Pow10(1) == 10;
    NumberKeysIff(9, 10);
    CompareFlips(Store.KeyString(N("10")), Store.KeyString(N("9")));
    assert Store.KeyString(N("10"))[2] == '1' && Store.KeyString(N("9"))[2] == '9';
  }
}
