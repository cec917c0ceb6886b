/** Money as text: integer paise in Indian digit grouping, in both of the system's implementations, and reading it
    back. */
module Formatting {
  import opened Common
  import opened Numerals

  const RUPEE: char := '\U{20B9}'

  /** Python's `str` of an integer. */
  function StrOf(value: int): string {
    if value < 0 then "-" + Str(-value) else Str(value)
  }

  // ---- grouping -----------------------------------------------------------------------

  function Glue(head: string, tail: string): string {
    head + "," + tail
  }

  /** Pairs, from the right. */
  function Pairs(head: string): string {
    if |head| <= 2 then head else Glue(Pairs(head[..|head| - 2]), head[|head| - 2..])
  }

  function Grouped(digits: string): string {
    if |digits| <= 3 then digits else Glue(Pairs(digits[..|digits| - 3]), digits[|digits| - 3..])
  }

  function JoinWithCommas(parts: seq<string>): string
    requires parts != []
  {
    if |parts| == 1 then parts[0] else Glue(parts[0], JoinWithCommas(parts[1..]))
  }

  method GroupIndian(value: int) returns (text: string)
    ensures text == Grouped(StrOf(value))
  {
    var digits := StrOf(value);
    if |digits| <= 3 {
      return digits;
    }
    text := GroupDigits(digits);
  }

  /** The loop both implementations share: shrink the head by pairs, then join. */
  method GroupDigits(digits: string) returns (text: string)
    requires |digits| > 3
    ensures text == Grouped(digits)
  {
    var head, tail := digits[..|digits| - 3], digits[|digits| - 3..];
    var parts: seq<string> := [];
    while |head| > 2
      invariant head != []
      invariant Glue(Pairs(head), JoinWithCommas(parts + [tail])) == Grouped(digits)
    {
      InsertPart(head[|head| - 2..], parts + [tail]);
      assert Glue(Glue(Pairs(head[..|head| - 2]), head[|head| - 2..]), JoinWithCommas(parts + [tail]))
          == Glue(Pairs(head[..|head| - 2]), Glue(head[|head| - 2..], JoinWithCommas(parts + [tail])));
      assert [head[|head| - 2..]] + (parts + [tail]) == ([head[|head| - 2..]] + parts) + [tail];
      parts := [head[|head| - 2..]] + parts;
      head := head[..|head| - 2];
    }
    if head != [] {
      InsertPart(head, parts + [tail]);
      assert [head] + (parts + [tail]) == ([head] + parts) + [tail];
      parts := [head] + parts;
    }
    text := JoinWithCommas(parts + [tail]);
  }

  lemma InsertPart(part: string, parts: seq<string>)
    requires parts != []
    ensures JoinWithCommas([part] + parts) == Glue(part, JoinWithCommas(parts))
  {
    assert ([part] + parts)[1..] == parts;
  }

  // ---- what grouping means ---------------------------------------------------------------

  function WithoutCommas(s: string): string {
    if s == [] then []
    else WithoutCommas(s[..|s| - 1]) + (if s[|s| - 1] == ',' then [] else [s[|s| - 1]])
  }

  /** A comma before the last three characters, and before every pair in front of them: counted from the right,
      at every third place. */
  ghost predicate CommasInPlace(s: string) {
    && s != [] && s[0] != ','
    && forall i :: 0 <= i < |s| ==> (s[i] == ',' <==> CommaPlace(|s| - 1 - i))
  }

  predicate CommaPlace(fromRight: nat) {
    fromRight >= 3 && fromRight % 3 == 0
  }

  lemma {:induction false} WithoutCommasOfConcat(a: string, b: string)
    ensures WithoutCommas(a + b) == WithoutCommas(a) + WithoutCommas(b)
  {
    if b == [] {
      assert a + b == a;
    } else {
      WithoutCommasOfConcat(a, b[..|b| - 1]);
      assert (a + b)[..|a + b| - 1] == a + b[..|b| - 1];
    }
  }

  lemma {:induction false} NoCommas(s: string)
    requires ',' !in s
    ensures WithoutCommas(s) == s
  {
    if s != [] {
      NoCommas(s[..|s| - 1]);
    }
  }

  lemma Glued(head: string, tail: string)
    ensures var s := Glue(head, tail);
            && |s| == |head| + 1 + |tail| && s[|head|] == ','
            && s[..|head|] == head && s[|head| + 1..] == tail
  {
  }

  lemma GluedWithoutCommas(head: string, tail: string)
    requires ',' !in tail
    ensures WithoutCommas(Glue(head, tail)) == WithoutCommas(head) + tail
  {
    hide WithoutCommas;
    NoCommas(tail);
    WithoutCommasOfConcat(head, ",");
    WithoutCommasOfConcat(head + ",", tail);
    CommasVanish();
  }

  lemma CommasVanish()
    ensures WithoutCommas(",") == []
  {
  }

  /** Glueing on a comma-free tail adds one comma and moves the others back. */
  lemma GluedPlaces(head: string, tail: string)
    requires CommasBetweenPairs(head) && head != [] && ',' !in tail
    ensures var s := Glue(head, tail);
            && s[0] != ','
            && forall i :: 0 <= i < |s| ==> (s[i] == ',' <==> i == |head| || (i < |head| && (|head| - 1 - i) % 3 == 2))
  {
    Glued(head, tail);
    hide Glue;
    var s := Glue(head, tail);
    forall i | 0 <= i < |s| ensures s[i] == ',' <==> i == |head| || (i < |head| && (|head| - 1 - i) % 3 == 2) {
      if i < |head| {
        assert s[i] == s[..|head|][i];
      } else if i > |head| {
        assert s[i] == s[|head| + 1..][i - |head| - 1];
      }
    }
    assert s[0] == s[..|head|][0];
  }

  lemma Unglued(s: string, k: nat)
    requires k < |s| && s[|s| - 1 - k] == ','
    ensures s == Glue(s[..|s| - 1 - k], s[|s| - k..])
  {
  }

  /** The same shape for the part in front of the last comma. */
  ghost predicate CommasBetweenPairs(s: string) {
    && (s != [] ==> s[0] != ',')
    && forall i :: 0 <= i < |s| ==> (s[i] == ',' <==> (|s| - 1 - i) % 3 == 2)
  }

  lemma AnotherPair(p: string, pair: string)
    requires CommasBetweenPairs(p) && p != [] && |pair| == 2 && ',' !in pair
    ensures CommasBetweenPairs(Glue(p, pair))
  {
    GluedPlaces(p, pair);
    Glued(p, pair);
    hide Glue;
    var s := Glue(p, pair);
    forall i | 0 <= i < |s| ensures s[i] == ',' <==> (|s| - 1 - i) % 3 == 2 {
      assert |s| - 1 - i == (|p| - 1 - i) + 3;
    }
  }

  lemma TheLastThree(p: string, tail: string)
    requires CommasBetweenPairs(p) && p != [] && |tail| == 3 && ',' !in tail
    ensures CommasInPlace(Glue(p, tail))
  {
    GluedPlaces(p, tail);
    Glued(p, tail);
    hide Glue;
    var s := Glue(p, tail);
    forall i | 0 <= i < |s| ensures s[i] == ',' <==> CommaPlace(|s| - 1 - i) {
      assert |s| - 1 - i == (|p| - 1 - i) + 4;
    }
  }

  lemma {:induction false} PairsShape(head: string)
    requires ',' !in head
    ensures CommasBetweenPairs(Pairs(head)) && WithoutCommas(Pairs(head)) == head
    ensures head != [] ==> Pairs(head) != []
  {
    if |head| <= 2 {
      NoCommas(head);
    } else {
      hide WithoutCommas, Glue, CommasBetweenPairs;
      var front, pair := head[..|head| - 2], head[|head| - 2..];
      var p := Pairs(front);
      PairsShape(front);
      assert Pairs(head) == Glue(p, pair);
      hide Pairs;
      assert head == front + pair;
      GluedWithoutCommas(p, pair);
      AnotherPair(p, pair);
      Glued(p, pair);
    }
  }

  lemma GroupedShape(digits: string)
    requires digits != [] && ',' !in digits
    ensures CommasInPlace(Grouped(digits)) && WithoutCommas(Grouped(digits)) == digits
  {
    hide WithoutCommas, Glue, Pairs, CommasBetweenPairs, CommasInPlace;
    if |digits| <= 3 {
      NoCommas(digits);
      ShortShape(digits);
    } else {
      var head, tail := digits[..|digits| - 3], digits[|digits| - 3..];
      PairsShape(head);
      assert digits == head + tail;
      GluedWithoutCommas(Pairs(head), tail);
      TheLastThree(Pairs(head), tail);
    }
  }

  lemma ShortShape(s: string)
    requires 0 < |s| <= 3 && ',' !in s
    ensures CommasInPlace(s)
  {
  }

  lemma {:induction false} PairsAreForced(s: string)
    requires CommasBetweenPairs(s)
    ensures s == Pairs(WithoutCommas(s))
  {
    if |s| <= 2 {
      NoCommas(s);
    } else {
      LastIsPair(s);
      hide Glue, Pairs, WithoutCommas, CommasBetweenPairs;
      var front, pair := s[..|s| - 3], s[|s| - 2..];
      PairsAreForced(front);
      GluedWithoutCommas(front, pair);
      NonEmptyWithoutCommas(front);
      PairsStep(WithoutCommas(front), pair);
    }
  }

  lemma LastIsPair(s: string)
    requires CommasBetweenPairs(s) && |s| > 2
    ensures |s| > 3 && s[0] != ',' && ',' !in s[|s| - 2..]
    ensures CommasBetweenPairs(s[..|s| - 3]) && s == Glue(s[..|s| - 3], s[|s| - 2..])
  {
    assert s[|s| - 3] == ',';
    assert |s| != 3;
    Unglued(s, 2);
    var front := s[..|s| - 3];
    forall i | 0 <= i < |front| ensures front[i] == ',' <==> (|front| - 1 - i) % 3 == 2 {
      assert |s| - 1 - i == (|front| - 1 - i) + 3;
    }
  }

  lemma PairsStep(front: string, pair: string)
    requires |pair| == 2 && front != []
    ensures Pairs(front + pair) == Glue(Pairs(front), pair)
  {
    assert (front + pair)[..|front|] == front && (front + pair)[|front|..] == pair;
  }

  lemma NonEmptyWithoutCommas(s: string)
    requires s != [] && s[0] != ','
    ensures WithoutCommas(s) != []
  {
    WithoutCommasOfConcat([s[0]], s[1..]);
    assert s == [s[0]] + s[1..];
    NoCommas([s[0]]);
  }

  /** Commas in those places and nowhere else is the format: no other string carries the same digits that way. */
  lemma GroupingIsForced(s: string, digits: string)
    requires digits != [] && ',' !in digits
    ensures s == Grouped(digits) <==> CommasInPlace(s) && WithoutCommas(s) == digits
  {
    GroupedShape(digits);
    if CommasInPlace(s) {
      GroupedIsForced(s);
    }
  }

  lemma GroupedIsForced(s: string)
    requires CommasInPlace(s)
    ensures s == Grouped(WithoutCommas(s))
  {
    if |s| <= 3 {
      NoCommas(s);
    } else {
      HeadIsPairs(s);
      hide Glue, Pairs, WithoutCommas, CommasInPlace, CommasBetweenPairs;
      var head, tail := s[..|s| - 4], s[|s| - 3..];
      PairsAreForced(head);
      GluedWithoutCommas(head, tail);
      NonEmptyWithoutCommas(head);
      GroupedStep(WithoutCommas(head), tail);
    }
  }

  lemma HeadIsPairs(s: string)
    requires CommasInPlace(s) && |s| > 3
    ensures |s| > 4 && s[0] != ',' && ',' !in s[|s| - 3..]
    ensures CommasBetweenPairs(s[..|s| - 4]) && s == Glue(s[..|s| - 4], s[|s| - 3..])
  {
    assert s[|s| - 4] == ',';
    assert |s| != 4;
    Unglued(s, 3);
    var head := s[..|s| - 4];
    forall i | 0 <= i < |head| ensures head[i] == ',' <==> (|head| - 1 - i) % 3 == 2 {
      assert CommaPlace(|s| - 1 - i) <==> (|head| - 1 - i) % 3 == 2;
    }
  }

  lemma GroupedStep(head: string, tail: string)
    requires |tail| == 3 && head != []
    ensures Grouped(head + tail) == Glue(Pairs(head), tail)
  {
    hide Glue, Pairs;
    assert (head + tail)[..|head|] == head && (head + tail)[|head|..] == tail;
  }

  // ---- negative numbers ------------------------------------------------------------------

  lemma {:induction false} PairsAfterSign(h: string)
    ensures Pairs("-" + h) == if |h| % 2 == 1 || h == [] then "-" + Pairs(h) else Glue("-", Pairs(h))
  {
    hide Pairs, Glue;
    PairsOfShort("-");
    if |h| <= 1 {
      PairsOfShort(h);
      PairsOfShort("-" + h);
    } else if |h| == 2 {
      PairsOfShort(h);
      PairsStep("-", h);
    } else {
      var front, pair := h[..|h| - 2], h[|h| - 2..];
      PairsAfterSign(front);
      assert h == front + pair;
      SignMoves(front, pair);
      PairsStep(front, pair);
      PairsStep("-" + front, pair);
      SignOfGlued(Pairs(front), pair);
    }
  }

  lemma SignMoves(front: string, pair: string)
    ensures "-" + (front + pair) == ("-" + front) + pair
  {
  }

  lemma PairsOfShort(s: string)
    requires |s| <= 2
    ensures Pairs(s) == s
  {
  }

  lemma SignOfGlued(a: string, b: string)
    ensures Glue("-" + a, b) == "-" + Glue(a, b)
    ensures Glue(Glue("-", a), b) == Glue("-", Glue(a, b))
  {
    assert Glue("-" + a, b) == "-" + Glue(a, b);
    assert Glue(Glue("-", a), b) == Glue("-", Glue(a, b));
  }

  /** The Python version counts the sign as a digit: grouped on their own, negative numbers come out with a
      comma after the sign exactly when they have an odd number of digits, three or more. */
  lemma NegativeGroupingIff(value: int)
    requires value < 0
    ensures var digits := Str(-value);
            Grouped(StrOf(value)) == "-" + Grouped(digits) <==> |digits| < 3 || |digits| % 2 == 0
  {
    var digits := Str(-value);
    StrHasNoComma(-value);
    if |digits| >= 3 {
      GroupedAfterSign(digits);
    }
  }

  lemma GroupedAfterSign(digits: string)
    requires |digits| >= 3 && ',' !in digits
    ensures Grouped("-" + digits) == "-" + Grouped(digits) <==> |digits| % 2 == 0
  {
    hide Pairs, Glue, CommasInPlace;
    var head, tail := digits[..|digits| - 3], digits[|digits| - 3..];
    assert ("-" + digits)[..|digits| - 2] == "-" + head && ("-" + digits)[|digits| - 2..] == tail;
    PairsAfterSign(head);
    SignOfGlued(Pairs(head), tail);
    StartsWithoutComma(digits);
    if |digits| == 3 {
      PairsOfShort([]);
      assert "-" + Pairs(head) == "-";
      SecondIsComma("-", tail, digits);
    } else if |digits| % 2 == 1 {
      SecondIsComma("-", Glue(Pairs(head), tail), Grouped(digits));
    }
  }

  lemma StartsWithoutComma(digits: string)
    requires digits != [] && ',' !in digits
    ensures Grouped(digits) != [] && Grouped(digits)[0] != ','
  {
    GroupedShape(digits);
  }

  lemma SecondIsComma(sign: string, rest: string, other: string)
    requires |sign| == 1 && other != [] && other[0] != ','
    ensures Glue(sign, rest) != sign + other
  {
    assert Glue(sign, rest)[1] == ',';
    assert (sign + other)[1] == other[0];
  }

  // ---- amounts ------------------------------------------------------------------------------

  function Abs(x: int): nat {
    if x < 0 then -x else x
  }

  function Sign(paise: int): string {
    if paise < 0 then "-" else ""
  }

  function TwoDigits(r: nat): string
    requires r < 100
  {
    [CharOf(r / 10), CharOf(r % 10)]
  }

  /** `-₹12,34,567.89`. */
  function Money(paise: int): string {
    Sign(paise) + [RUPEE] + Grouped(Str(Abs(paise) / 100)) + "." + TwoDigits(Abs(paise) % 100)
  }

  method FormatPaiseInr(paise: int) returns (text: string)
    ensures text == Money(paise)
  {
    var sign := if paise < 0 then "-" else "";
    var magnitude := Abs(paise);
    var rupees, remainder := magnitude / 100, magnitude % 100;
    var grouped := GroupIndian(rupees);
    text := sign + [RUPEE] + grouped + "." + TwoDigits(remainder);
  }

  // ---- the console's version ------------------------------------------------------------------

  function PadStart(s: string, width: nat): string {
    if |s| >= width then s else Repeat('0', width - |s|) + s
  }

  /** `(abs - remainder) / 100`, where JavaScript divides without truncating. */
  method SplitPaise(paise: int) returns (sign: string, rupees: nat, remainder: nat)
    ensures sign == Sign(paise) && remainder < 100 && 100 * rupees + remainder == Abs(paise)
  {
    sign := if paise < 0 then "-" else "";
    var abs := Abs(paise);
    remainder := abs % 100;
    var quotient := (abs - remainder) as real / 100.0;
    assert quotient == (abs / 100) as real;
    rupees := quotient.Floor;
  }

  lemma QuotientAndRemainder(n: nat, q: nat, r: nat)
    requires r < 100 && 100 * q + r == n
    ensures n / 100 == q && n % 100 == r
  {
  }

  method ConsoleGroupIndian(value: int) returns (text: string)
    ensures text == Grouped(Str(Abs(value)))
  {
    var digits := Str(Abs(value));
    if |digits| <= 3 {
      return digits;
    }
    text := GroupDigits(digits);
  }

  method ConsoleFormatPaise(paise: int) returns (text: string)
    ensures text == Money(paise)
  {
    hide Str, TwoDigits, PadStart, Grouped;
    var sign, rupees, remainder := SplitPaise(paise);
    QuotientAndRemainder(Abs(paise), rupees, remainder);
    var grouped := ConsoleGroupIndian(rupees);
    PaddedIsTwoDigits(remainder);
    text := sign + [RUPEE] + grouped + "." + PadStart(Str(remainder), 2);
  }

  lemma PaddedIsTwoDigits(r: nat)
    requires r < 100
    ensures PadStart(Str(r), 2) == TwoDigits(r)
  {
    if r >= 10 {
      assert Str(r / 10) == [CharOf(r / 10)];
    } else {
      assert Repeat('0', 1) == "0";
      assert CharOf(0) == '0';
    }
  }

  /** Whole rupees are the same text, cut before the point: truncation towards zero, keeping the sign. */
  method FormatRupeesWhole(paise: int) returns (text: string)
    ensures text + "." + TwoDigits(Abs(paise) % 100) == Money(paise)
  {
    hide Str, TwoDigits, Grouped;
    var sign, rupees, remainder := SplitPaise(paise);
    QuotientAndRemainder(Abs(paise), rupees, remainder);
    var grouped := ConsoleGroupIndian(rupees);
    text := sign + [RUPEE] + grouped;
  }

  // ---- reading an amount back -----------------------------------------------------------------

  function ParseMagnitude(s: string): Option<nat> {
    if |s| < 4 || s[|s| - 3] != '.' || !AllDigits(s[|s| - 2..]) then None
    else
      var rupees := WithoutCommas(s[..|s| - 3]);
      if rupees == [] || !AllDigits(rupees) then None
      else Some(100 * Value(rupees) + Value(s[|s| - 2..]))
  }

  function Parse(s: string): Option<int> {
    if s != [] && s[0] == RUPEE then
      match ParseMagnitude(s[1..])
      case None => None
      case Some(m) => Some(m)
    else if |s| > 1 && s[0] == '-' && s[1] == RUPEE then
      match ParseMagnitude(s[2..])
      case None => None
      case Some(m) => Some(0 - m)
    else None
  }

  function Body(rupees: nat, r: nat): string
    requires r < 100
  {
    Grouped(Str(rupees)) + "." + TwoDigits(r)
  }

  lemma BodyRoundTrips(rupees: nat, r: nat)
    requires r < 100
    ensures ParseMagnitude(Body(rupees, r)) == Some(100 * rupees + r)
  {
    hide Grouped, Str, Value, TwoDigits, WithoutCommas, CommasInPlace;
    var digits, cents := Str(rupees), TwoDigits(r);
    StrHasNoComma(rupees);
    GroupedShape(digits);
    ValueOfStr(rupees);
    TwoDigitsValue(r);
    StartsWithoutComma(digits);
    PointSplits(Grouped(digits), cents);
  }

  lemma StrHasNoComma(n: nat)
    ensures ',' !in Str(n)
  {
  }

  lemma PointSplits(whole: string, cents: string)
    requires |cents| == 2
    ensures var s := whole + "." + cents; s[|s| - 3] == '.' && s[..|s| - 3] == whole && s[|s| - 2..] == cents
  {
  }

  lemma TwoDigitsValue(r: nat)
    requires r < 100
    ensures |TwoDigits(r)| == 2 && AllDigits(TwoDigits(r)) && Value(TwoDigits(r)) == r
  {
    var s := TwoDigits(r);
    assert s[..1] == [CharOf(r / 10)] && s[..1][..0] == [];
    assert Value(s[..1]) == r / 10;
  }

  /** Every amount, of either sign and any size, survives being formatted and read back. */
  lemma FormatRoundTrips(paise: int)
    ensures Parse(Money(paise)) == Some(paise)
  {
    var rupees, r := Abs(paise) / 100, Abs(paise) % 100;
    BodyRoundTrips(rupees, r);
    hide ParseMagnitude, Body, Grouped, TwoDigits, Str;
    assert Money(paise) == Sign(paise) + [RUPEE] + Body(rupees, r) by {
      MoneyIsSignAndBody(paise);
    }
    if paise < 0 {
      assert Money(paise)[2..] == Body(rupees, r);
    } else {
      assert Money(paise)[1..] == Body(rupees, r);
    }
  }

  lemma MoneyIsSignAndBody(paise: int)
    ensures Money(paise) == Sign(paise) + [RUPEE] + Body(Abs(paise) / 100, Abs(paise) % 100)
  {
  }

  /** So two amounts never read the same. */
  lemma MoneyIsInjective(a: int, b: int)
    ensures Money(a) == Money(b) <==> a == b
  {
    FormatRoundTrips(a);
    FormatRoundTrips(b);
  }
}
