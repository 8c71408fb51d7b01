/** The index value "first_count": two decimal numbers around an underscore. */
module Decimal {
  import opened Wrappers

  const UNDERSCORE: bv8 := 95

  function Digit(d: nat): bv8
    requires d < 10
  {
    match d
    case 0 => 48 case 1 => 49 case 2 => 50 case 3 => 51 case 4 => 52
    case 5 => 53 case 6 => 54 case 7 => 55 case 8 => 56 case _ => 57
  }

  function DigitValue(c: bv8): Option<nat> {
    match c
    case 48 => Some(0) case 49 => Some(1) case 50 => Some(2) case 51 => Some(3) case 52 => Some(4)
    case 53 => Some(5) case 54 => Some(6) case 55 => Some(7) case 56 => Some(8) case 57 => Some(9)
    case _ => None
  }

  /** std::to_string of an unsigned number. */
  function ToString(n: nat): (r: Bytes)
    ensures r != []
  {
    if n < 10 then [Digit(n)] else ToString(n / 10) + [Digit(n % 10)]
  }

  /** std::stoul of a string of digits. */
  function Parse(s: Bytes): Option<nat> {
    if s == [] then None
    else
      match DigitValue(s[|s| - 1])
      case None => None
      case Some(d) =>
        if |s| == 1 then Some(d)
        else
          match Parse(s[..|s| - 1])
          case None => None
          case Some(n) => Some(10 * n + d)
  }

  /** The pieces between underscores. */
  function Split(s: Bytes): (r: seq<Bytes>)
    ensures r != []
  {
    if s == [] then [[]]
    else
      var rest := Split(s[1..]);
      if s[0] == UNDERSCORE then [[]] + rest else [[s[0]] + rest[0]] + rest[1..]
  }

  function IndexValue(first: nat, count: nat): Bytes {
    ToString(first) + [UNDERSCORE] + ToString(count)
  }

  lemma {:induction false} ParseToString(n: nat)
    ensures Parse(ToString(n)) == Some(n)
    ensures UNDERSCORE !in ToString(n)
  {
    if n >= 10 {
      ParseToString(n / 10);
      var s := ToString(n);
      assert s[..|s| - 1] == ToString(n / 10);
      assert n == 10 * (n / 10) + n % 10;
    }
  }

  /** The number that digits spell. */
  function Spelled(s: Bytes): int {
    if s == [] then 0 else 10 * Spelled(s[..|s| - 1]) + (s[|s| - 1] as int - 48)
  }

  lemma DigitIs(d: nat)
    requires d < 10
    ensures Digit(d) as int == 48 + d
  {
  }

  /** Digits only, none of them a leading zero, spelling the number. */
  lemma {:induction false} DecimalText(n: nat)
    ensures forall c :: c in ToString(n) ==> 48 <= c <= 57
    ensures Spelled(ToString(n)) == n
    ensures n > 0 ==> ToString(n)[0] != 48
  {
    DigitIs(n % 10);
    var s := ToString(n);
    if n < 10 {
      DigitIs(n);
      assert s[..0] == [];
    } else {
      DecimalText(n / 10);
      assert s[..|s| - 1] == ToString(n / 10);
    }
  }

  /** The index value is the two numbers in decimal with an underscore between them. */
  lemma IndexValueIs(first: nat, count: nat)
    ensures var s := IndexValue(first, count);
            exists k :: 0 <= k < |s| && s[k] as char == '_' && Spelled(s[..k]) == first && Spelled(s[k + 1..]) == count
  {
    var a, b := ToString(first), ToString(count);
    DecimalText(first);
    DecimalText(count);
    var s := IndexValue(first, count);
    assert s[..|a|] == a && s[|a| + 1..] == b && s[|a|] as char == '_';
  }

  lemma {:induction false} SplitNone(s: Bytes)
    requires UNDERSCORE !in s
    ensures Split(s) == [s]
  {
    if s != [] {
      SplitNone(s[1..]);
      assert [s[0]] + s[1..] == s;
    }
  }

  lemma {:induction false} SplitFirst(a: Bytes, b: Bytes)
    requires UNDERSCORE !in a
    ensures Split(a + [UNDERSCORE] + b) == [a] + Split(b)
  {
    var s := a + [UNDERSCORE] + b;
    if a == [] {
      assert s[1..] == b;
    } else {
      SplitFirst(a[1..], b);
      assert s[1..] == a[1..] + [UNDERSCORE] + b;
      assert [a[0]] + a[1..] == a;
    }
  }

  /** What search reads back is what was stored. */
  lemma IndexValueRoundTrip(first: nat, count: nat)
    ensures var res := Split(IndexValue(first, count));
            |res| == 2 && Parse(res[0]) == Some(first) && Parse(res[1]) == Some(count)
  {
    ParseToString(first);
    ParseToString(count);
    SplitFirst(ToString(first), ToString(count));
    SplitNone(ToString(count));
  }
}
