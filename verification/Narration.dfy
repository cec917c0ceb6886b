/** The number check on generated narrations: no figure that the facts did not contain. */
module Narration {
  import opened Common
  import opened Numerals
  import opened Formatting

  // ---- scanning for numbers ---------------------------------------------------------------

  predicate InRun(c: char) {
    IsDigit(c) || c == ','
  }

  function EndOfRun(text: string, i: nat): (j: nat)
    requires i <= |text|
    ensures i <= j <= |text|
    ensures forall k :: i <= k < j ==> InRun(text[k])
    ensures j < |text| ==> !InRun(text[j])
    decreases |text| - i
  {
    if i < |text| && InRun(text[i]) then EndOfRun(text, i + 1) else i
  }

  function EndOfDigits(text: string, i: nat): (j: nat)
    requires i <= |text|
    ensures i <= j <= |text|
    ensures forall k :: i <= k < j ==> IsDigit(text[k])
    ensures j < |text| ==> !IsDigit(text[j])
    decreases |text| - i
  {
    if i < |text| && IsDigit(text[i]) then EndOfDigits(text, i + 1) else i
  }

  /** A digit, then digits and commas, then a point if digits follow it. */
  function TokenEnd(text: string, i: nat): (j: nat)
    requires i < |text| && IsDigit(text[i])
    ensures i < j <= |text|
  {
    var whole := EndOfRun(text, i);
    if whole + 1 < |text| && text[whole] == '.' && IsDigit(text[whole + 1]) then EndOfDigits(text, whole + 1) else whole
  }

  /** What the number pattern matches: a digit, then digits and commas, then perhaps a point and digits. */
  ghost predicate Matches(s: string) {
    exists k: nat :: MatchesAt(s, k)
  }

  ghost predicate MatchesAt(s: string, k: nat) {
    && 0 < k <= |s| && IsDigit(s[0]) && (forall i :: 0 <= i < k ==> InRun(s[i]))
    && (k < |s| ==> s[k] == '.' && k + 1 < |s| && forall i :: k < i < |s| ==> IsDigit(s[i]))
  }

  /** A token is the longest match where it begins. */
  lemma TokenIsLongestMatch(text: string, i: nat)
    requires i < |text| && IsDigit(text[i])
    ensures Matches(text[i..TokenEnd(text, i)])
    ensures forall j :: i <= j <= |text| && Matches(text[i..j]) ==> j <= TokenEnd(text, i)
  {
    hide IsDigit;
    var whole, end := EndOfRun(text, i), TokenEnd(text, i);
    DigitsRun();
    assert MatchesAt(text[i..end], whole - i);
    forall j | i <= j <= |text| && Matches(text[i..j]) ensures j <= end {
      var s := text[i..j];
      var k: nat :| MatchesAt(s, k);
      assert forall m :: 0 <= m < k ==> text[i + m] == s[m];
      assert i + k <= whole;
      if k < |s| {
        assert text[i + k] == s[k] == '.' && text[i + k + 1] == s[k + 1];
        assert i + k == whole;
        assert forall m :: k < m < |s| ==> text[i + m] == s[m];
      }
    }
  }

  lemma DigitsRun()
    ensures !InRun('.')
  {
  }

  datatype Span = Span(start: nat, end: nat)

  function Spans(text: string, from: nat): seq<Span>
    requires from <= |text|
    decreases |text| - from
  {
    if from == |text| then []
    else if IsDigit(text[from]) then
      var end := TokenEnd(text, from);
      [Span(from, end)] + Spans(text, end)
    else Spans(text, from + 1)
  }

  function TokensFrom(text: string, from: nat): seq<string>
    requires from <= |text|
    decreases |text| - from
  {
    if from == |text| then []
    else if IsDigit(text[from]) then [text[from..TokenEnd(text, from)]] + TokensFrom(text, TokenEnd(text, from))
    else TokensFrom(text, from + 1)
  }

  function Tokens(text: string): seq<string> {
    TokensFrom(text, 0)
  }

  predicate SpansLie(spans: seq<Span>, from: nat, until: nat) {
    && (forall k :: 0 <= k < |spans| ==> from <= spans[k].start < spans[k].end <= until)
    && (forall k, l :: 0 <= k < l < |spans| ==> spans[k].end <= spans[l].start)
  }

  lemma {:induction false} SpansAreApart(text: string, from: nat)
    requires from <= |text|
    ensures SpansLie(Spans(text, from), from, |text|)
    decreases |text| - from
  {
    hide TokenEnd;
    if from < |text| {
      if IsDigit(text[from]) {
        SpansAreApart(text, TokenEnd(text, from));
        var rest, spans := Spans(text, TokenEnd(text, from)), Spans(text, from);
        assert forall k :: 0 < k < |spans| ==> spans[k] == rest[k - 1];
      } else {
        SpansAreApart(text, from + 1);
      }
    }
  }

  lemma {:induction false} TokensAreTheirTexts(text: string, from: nat)
    requires from <= |text|
    ensures |TokensFrom(text, from)| == |Spans(text, from)|
    ensures forall k :: 0 <= k < |Spans(text, from)| ==>
              var span := Spans(text, from)[k];
              span.start <= span.end <= |text| && TokensFrom(text, from)[k] == text[span.start..span.end]
    decreases |text| - from
  {
    hide TokenEnd;
    if from < |text| {
      TokensAreTheirTexts(text, if IsDigit(text[from]) then TokenEnd(text, from) else from + 1);
    }
  }

  predicate Covers(spans: seq<Span>, i: nat) {
    exists k :: 0 <= k < |spans| && spans[k].start <= i < spans[k].end
  }

  lemma CoversMore(first: Span, spans: seq<Span>, i: nat)
    requires first.start <= i < first.end || Covers(spans, i)
    ensures Covers([first] + spans, i)
  {
    var more := [first] + spans;
    if first.start <= i < first.end {
      assert more[0] == first;
    } else {
      var k :| 0 <= k < |spans| && spans[k].start <= i < spans[k].end;
      assert more[k + 1] == spans[k];
    }
  }

  /** No digit escapes the scan. */
  lemma {:induction false} SpansCoverDigits(text: string, from: nat, i: nat)
    requires from <= i < |text| && IsDigit(text[i])
    ensures Covers(Spans(text, from), i)
    decreases |text| - from
  {
    hide TokenEnd, Covers;
    if IsDigit(text[from]) {
      var end := TokenEnd(text, from);
      if end <= i {
        SpansCoverDigits(text, end, i);
      }
      CoversMore(Span(from, end), Spans(text, end), i);
    } else {
      SpansCoverDigits(text, from + 1, i);
    }
  }

  // ---- what a token is ------------------------------------------------------------------------

  function PointAt(s: string): (at: nat)
    ensures at <= |s| && (at < |s| ==> s[at] == '.')
    ensures forall i :: 0 <= i < at ==> s[i] != '.'
  {
    if s == [] || s[0] == '.' then 0
    else
      var later := PointAt(s[1..]);
      assert forall i :: 0 < i < later + 1 ==> s[i] == s[1..][i - 1];
      later + 1
  }

  ghost predicate IsToken(s: string) {
    var at := PointAt(s);
    && s != [] && IsDigit(s[0])
    && (forall i :: 0 <= i < at ==> InRun(s[i]))
    && (at < |s| ==> at + 1 < |s| && AllDigits(s[at + 1..]))
  }

  function Whole(s: string): string {
    WithoutCommas(s[..PointAt(s)])
  }

  function Fraction(s: string): string {
    if PointAt(s) == |s| then [] else s[PointAt(s) + 1..]
  }

  /** What the figure says, however it is written. */
  ghost function Amount(s: string): real
    requires IsToken(s)
  {
    WholeIsDigits(s);
    Value(Whole(s) + Fraction(s)) as real / Pow10(|Fraction(s)|) as real
  }

  lemma {:induction false} RunIsDigits(s: string)
    requires forall i :: 0 <= i < |s| ==> InRun(s[i])
    ensures AllDigits(WithoutCommas(s))
    ensures s != [] && IsDigit(s[0]) ==> WithoutCommas(s) != []
  {
    if s != [] {
      RunIsDigits(s[..|s| - 1]);
    }
  }

  lemma WholeIsDigits(s: string)
    requires IsToken(s)
    ensures Whole(s) != [] && AllDigits(Whole(s)) && AllDigits(Fraction(s)) && AllDigits(Whole(s) + Fraction(s))
  {
    RunIsDigits(s[..PointAt(s)]);
  }

  lemma PointOf(s: string, at: nat)
    requires at <= |s| && (at < |s| ==> s[at] == '.') && '.' !in s[..at]
    ensures PointAt(s) == at
  {
    forall i | 0 <= i < at ensures s[i] != '.' {
      assert s[..at][i] == s[i];
    }
  }

  lemma TokenIsToken(text: string, i: nat)
    requires i < |text| && IsDigit(text[i])
    ensures IsToken(text[i..TokenEnd(text, i)])
  {
    var whole, end := EndOfRun(text, i), TokenEnd(text, i);
    var s := text[i..end];
    PointOf(s, whole - i);
  }

  lemma {:induction false} TokensAreTokens(text: string, from: nat)
    requires from <= |text|
    ensures forall t :: t in TokensFrom(text, from) ==> IsToken(t)
    decreases |text| - from
  {
    hide IsToken, TokenEnd;
    if from < |text| {
      if IsDigit(text[from]) {
        TokenIsToken(text, from);
        TokensAreTokens(text, TokenEnd(text, from));
      } else {
        TokensAreTokens(text, from + 1);
      }
    }
  }

  // ---- the canonical form ------------------------------------------------------------------------

  function StripRight(s: string, c: char): string {
    if s != [] && s[|s| - 1] == c then StripRight(s[..|s| - 1], c) else s
  }

  function Canonical(token: string): string {
    var value := WithoutCommas(token);
    var stripped := if '.' in value then StripRight(StripRight(value, '0'), '.') else value;
    if stripped == [] then "0" else stripped
  }

  function Compose(whole: string, fraction: string): string {
    if fraction == [] then whole else whole + "." + fraction
  }

  function Trimmed(fraction: string): string {
    StripRight(fraction, '0')
  }

  lemma {:induction false} StripRightSplits(s: string, c: char)
    ensures var t := StripRight(s, c);
            && |t| <= |s| && s == t + Repeat(c, |s| - |t|) && (t != [] ==> t[|t| - 1] != c)
  {
    if s != [] && s[|s| - 1] == c {
      StripRightSplits(s[..|s| - 1], c);
    }
  }

  lemma {:induction false} StripAfterPoint(whole: string, fraction: string)
    ensures StripRight(whole + "." + fraction, '0') == whole + "." + Trimmed(fraction)
  {
    if fraction == [] {
      assert whole + "." + fraction == whole + ".";
    } else {
      var s := whole + "." + fraction;
      assert s[|s| - 1] == fraction[|fraction| - 1];
      assert s[..|s| - 1] == whole + "." + fraction[..|fraction| - 1];
      StripAfterPoint(whole, fraction[..|fraction| - 1]);
    }
  }

  lemma TrimmedIsDigits(fraction: string)
    requires AllDigits(fraction)
    ensures AllDigits(Trimmed(fraction))
  {
    StripRightSplits(fraction, '0');
    forall i | 0 <= i < |Trimmed(fraction)| ensures IsDigit(Trimmed(fraction)[i]) {
      assert Trimmed(fraction)[i] == fraction[i];
    }
  }

  lemma {:induction false} TokenWithoutCommas(s: string)
    requires IsToken(s)
    ensures WithoutCommas(s) == if PointAt(s) == |s| then Whole(s) else Whole(s) + "." + Fraction(s)
  {
    hide WithoutCommas;
    var at := PointAt(s);
    if at == |s| {
      assert s[..at] == s;
    } else {
      var fraction := s[at + 1..];
      SplitAtPoint(s, at);
      PointIsKept();
      WithoutCommasOfConcat(s[..at], ".");
      WithoutCommasOfConcat(s[..at] + ".", fraction);
      assert ',' !in fraction;
      NoCommas(fraction);
    }
  }

  lemma SplitAtPoint(s: string, at: nat)
    requires at < |s| && s[at] == '.'
    ensures s == s[..at] + "." + s[at + 1..]
  {
  }

  lemma PointIsKept()
    ensures WithoutCommas(".") == "."
  {
  }

  lemma PointsAreStripped(whole: string, fraction: string)
    requires whole != [] && AllDigits(whole) && AllDigits(fraction)
    ensures StripRight(whole + "." + fraction, '.') == Compose(whole, fraction)
  {
    var s := whole + "." + fraction;
    if fraction == [] {
      assert s == whole + "." && s[..|s| - 1] == whole;
      assert IsDigit(whole[|whole| - 1]);
    } else {
      assert IsDigit(fraction[|fraction| - 1]) && s[|s| - 1] == fraction[|fraction| - 1];
    }
  }

  /** Commas go, and so do the zeros that end the fraction; nothing else does. */
  lemma CanonicalShape(s: string)
    requires IsToken(s)
    ensures Canonical(s) == Compose(Whole(s), Trimmed(Fraction(s)))
  {
    WholeIsDigits(s);
    TokenWithoutCommas(s);
    hide StripRight, WithoutCommas, Whole, Fraction, IsToken;
    var whole, fraction := Whole(s), Fraction(s);
    if PointAt(s) == |s| {
      assert '.' !in whole;
      NothingToTrim(s);
    } else {
      StripAfterPoint(whole, fraction);
      TrimmedIsDigits(fraction);
      hide Trimmed;
      PointsAreStripped(whole, Trimmed(fraction));
      assert (whole + "." + fraction)[|whole|] == '.';
      assert Compose(whole, Trimmed(fraction)) != [];
    }
  }

  lemma NothingToTrim(s: string)
    requires PointAt(s) == |s|
    ensures Fraction(s) == [] && Trimmed(Fraction(s)) == []
  {
  }

  lemma ComposedToken(whole: string, fraction: string)
    requires whole != [] && AllDigits(whole) && AllDigits(fraction)
    ensures var s := Compose(whole, fraction); IsToken(s) && Whole(s) == whole && Fraction(s) == fraction
  {
    var s := Compose(whole, fraction);
    assert s[..|whole|] == whole;
    assert '.' !in whole && ',' !in whole;
    PointOf(s, |whole|);
    NoCommas(whole);
    if fraction != [] {
      assert s[|whole| + 1..] == fraction;
    }
  }

  /** Canonical forms are tokens with the same whole part and a trimmed fraction. */
  lemma CanonicalParts(s: string)
    requires IsToken(s)
    ensures IsToken(Canonical(s)) && Whole(Canonical(s)) == Whole(s) && Fraction(Canonical(s)) == Trimmed(Fraction(s))
  {
    CanonicalShape(s);
    WholeIsDigits(s);
    TrimmedIsDigits(Fraction(s));
    ComposedToken(Whole(s), Trimmed(Fraction(s)));
  }

  lemma CanonicalIsIdempotent(s: string)
    requires IsToken(s)
    ensures Canonical(Canonical(s)) == Canonical(s)
  {
    hide Canonical, IsToken, Whole, Fraction, Trimmed;
    CanonicalShape(s);
    CanonicalParts(s);
    CanonicalShape(Canonical(s));
    TrimmedTwice(Fraction(s));
  }

  lemma TrimmedTwice(fraction: string)
    ensures Trimmed(Trimmed(fraction)) == Trimmed(fraction)
  {
    StripRightSplits(fraction, '0');
  }

  // ---- canonical forms and amounts -------------------------------------------------------------

  /** Padding the fraction changes no amount. */
  lemma PaddedValue(digits: string, k: nat)
    requires AllDigits(digits)
    ensures AllDigits(digits + Repeat('0', k)) && Value(digits + Repeat('0', k)) == Value(digits) * Pow10(k)
  {
    ZerosAreWorthNothing(k);
    ValueOfConcat(digits, Repeat('0', k));
  }

  lemma {:induction false} PowersAdd(a: nat, b: nat)
    ensures Pow10(a + b) == Pow10(a) * Pow10(b)
  {
    if a > 0 {
      PowersAdd(a - 1, b);
    }
  }

  lemma CanonicalKeepsAmount(s: string)
    requires IsToken(s)
    ensures IsToken(Canonical(s)) && Amount(Canonical(s)) == Amount(s)
  {
    hide IsToken, Whole, Fraction, Canonical;
    CanonicalParts(s);
    WholeIsDigits(s);
    WholeIsDigits(Canonical(s));
    var whole, fraction, short := Whole(s), Fraction(s), Trimmed(Fraction(s));
    StripRightSplits(fraction, '0');
    var k := |fraction| - |short|;
    assert whole + fraction == (whole + short) + Repeat('0', k);
    PaddedValue(whole + short, k);
    PowersAdd(|short|, k);
    SameQuotient(Value(whole + short), Pow10(|short|), Pow10(k));
  }

  lemma SameQuotient(v: nat, p: nat, k: nat)
    requires p > 0 && k > 0
    ensures p * k > 0 && (v * k) as real / (p * k) as real == v as real / p as real
  {
    var q := v as real / p as real;
    assert q * p as real == v as real;
    assert (v * k) as real == v as real * k as real && (p * k) as real == p as real * k as real;
    assert q * (p as real * k as real) == v as real * k as real;
  }

  lemma CrossMultiply(a: nat, p: nat, b: nat, q: nat)
    requires p > 0 && q > 0 && a as real / p as real == b as real / q as real
    ensures a * q == b * p
  {
    var r := a as real / p as real;
    assert r * p as real == a as real && r * q as real == b as real;
    assert a as real * q as real == b as real * p as real;
    assert (a * q) as real == (b * p) as real;
  }

  /** Two figures read as one exactly when they are the same amount written with equally many whole digits. */
  lemma SameCanonicalIff(s: string, t: string)
    requires IsToken(s) && IsToken(t)
    ensures Canonical(s) == Canonical(t) <==> Amount(s) == Amount(t) && |Whole(s)| == |Whole(t)|
  {
    hide IsToken, Whole, Fraction, Canonical, Amount;
    CanonicalKeepsAmount(s);
    CanonicalKeepsAmount(t);
    CanonicalParts(s);
    CanonicalParts(t);
    if Amount(s) == Amount(t) && |Whole(s)| == |Whole(t)| {
      StripRightSplits(Fraction(s), '0');
      StripRightSplits(Fraction(t), '0');
      SameAmountSameParts(Canonical(s), Canonical(t));
      CanonicalShape(s);
      CanonicalShape(t);
    }
  }

  lemma SameAmountSameParts(s: string, t: string)
    requires IsToken(s) && IsToken(t) && Amount(s) == Amount(t) && |Whole(s)| == |Whole(t)|
    requires Fraction(s) != [] ==> Fraction(s)[|Fraction(s)| - 1] != '0'
    requires Fraction(t) != [] ==> Fraction(t)[|Fraction(t)| - 1] != '0'
    ensures Whole(s) == Whole(t) && Fraction(s) == Fraction(t)
  {
    if |Fraction(s)| <= |Fraction(t)| {
      ShorterFraction(s, t);
    } else {
      ShorterFraction(t, s);
    }
  }

  lemma ShorterFraction(s: string, t: string)
    requires IsToken(s) && IsToken(t) && Amount(s) == Amount(t) && |Whole(s)| == |Whole(t)|
    requires |Fraction(s)| <= |Fraction(t)|
    requires Fraction(t) != [] ==> Fraction(t)[|Fraction(t)| - 1] != '0'
    ensures Whole(s) == Whole(t) && Fraction(s) == Fraction(t)
  {
    hide IsToken, Whole, Fraction;
    WholeIsDigits(s);
    WholeIsDigits(t);
    var a, f, b, g := Whole(s), Fraction(s), Whole(t), Fraction(t);
    var k := |g| - |f|;
    CrossMultiply(Value(a + f), Pow10(|f|), Value(b + g), Pow10(|g|));
    PowersAdd(|f|, k);
    CancelPower(Value(a + f), Value(b + g), Pow10(|f|), Pow10(k));
    PaddedValue(a + f, k);
    var padded := (a + f) + Repeat('0', k);
    assert k > 0 ==> padded[|padded| - 1] == '0';
    assert g != [] ==> (b + g)[|b + g| - 1] == g[|g| - 1];
    SameLengthSameValue(padded, b + g);
    assert a == padded[..|a|] && b == (b + g)[..|a|];
    assert f == padded[|a|..] && g == (b + g)[|a|..];
  }

  lemma CancelPower(x: nat, y: nat, p: nat, k: nat)
    requires p > 0 && x * (p * k) == y * p
    ensures x * k == y
  {
    assert (x * k - y) * p == 0;
  }

  /** Without superfluous zeros in front, canonical equality is equality of amounts. */
  lemma TidySameCanonicalIff(s: string, t: string)
    requires IsToken(s) && IsToken(t) && Tidy(Whole(s)) && Tidy(Whole(t))
    ensures Canonical(s) == Canonical(t) <==> Amount(s) == Amount(t)
  {
    SameCanonicalIff(s, t);
    if Amount(s) == Amount(t) {
      WholeOfAmount(s);
      WholeOfAmount(t);
      WholeIsDigits(s);
      WholeIsDigits(t);
      TidyNumeralsAreUnique(Whole(s), Whole(t));
    }
  }

  lemma WholeOfAmount(s: string)
    requires IsToken(s)
    ensures AllDigits(Whole(s)) && Amount(s).Floor == Value(Whole(s))
  {
    hide IsToken, Whole, Fraction;
    WholeIsDigits(s);
    var w, f, p := Value(Whole(s)), Value(Fraction(s)), Pow10(|Fraction(s)|);
    ValueOfConcat(Whole(s), Fraction(s));
    ValueBelow(Fraction(s));
    FloorOf(w, f, p);
  }

  lemma FloorOf(w: nat, f: nat, p: nat)
    requires f < p
    ensures ((w * p + f) as real / p as real).Floor == w
  {
    var q := (w * p + f) as real / p as real;
    var d := q - w as real;
    assert q * p as real == (w * p + f) as real;
    assert (w * p) as real == w as real * p as real;
    assert d * p as real == f as real;
    ProperFraction(d, f as real, p as real);
  }

  lemma ProperFraction(d: real, f: real, p: real)
    requires 0.0 <= f < p && d * p == f
    ensures 0.0 <= d < 1.0
  {
    assert d < 0.0 ==> -d * p > 0.0;
    assert d >= 1.0 ==> (d - 1.0) * p >= 0.0;
  }

  // ---- accepting a narration -----------------------------------------------------------------------

  predicate IsSpace(c: char) {
    || c == ' ' || '\t' <= c <= '\r' || '\U{1C}' <= c <= '\U{1F}' || c == '\U{85}' || c == '\U{A0}'
    || c == '\U{1680}' || '\U{2000}' <= c <= '\U{200A}' || c == '\U{2028}' || c == '\U{2029}'
    || c == '\U{202F}' || c == '\U{205F}' || c == '\U{3000}'
  }

  /** White space is what the language calls so: 29 characters. */
  lemma SpacesAre(c: char)
    ensures IsSpace(c) <==>
            c in ['\U{09}', '\U{0A}', '\U{0B}', '\U{0C}', '\U{0D}', '\U{1C}', '\U{1D}', '\U{1E}', '\U{1F}', '\U{20}',
                  '\U{85}', '\U{A0}', '\U{1680}', '\U{2000}', '\U{2001}', '\U{2002}', '\U{2003}', '\U{2004}',
                  '\U{2005}', '\U{2006}', '\U{2007}', '\U{2008}', '\U{2009}', '\U{200A}', '\U{2028}', '\U{2029}',
                  '\U{202F}', '\U{205F}', '\U{3000}']
  {
  }

  function Strip(s: string): string {
    if s == [] then []
    else if IsSpace(s[0]) then Strip(s[1..])
    else if IsSpace(s[|s| - 1]) then Strip(s[..|s| - 1])
    else s
  }

  /** The one string is the other without what is junk at its ends. */
  ghost predicate Trims(s: string, t: string, junk: char -> bool) {
    exists i: nat, j: nat :: TrimsAt(s, t, junk, i, j)
  }

  ghost predicate TrimsAt(s: string, t: string, junk: char -> bool, i: nat, j: nat) {
    && i <= j <= |s| && s[i..j] == t
    && (forall k :: 0 <= k < i || j <= k < |s| ==> junk(s[k]))
    && (t != [] ==> !junk(s[i]) && !junk(s[j - 1]))
  }

  lemma TrimsOnce(s: string, t: string, u: string, junk: char -> bool)
    requires Trims(s, t, junk) && Trims(s, u, junk)
    ensures t == u
  {
    var i: nat, j: nat :| TrimsAt(s, t, junk, i, j);
    var k: nat, l: nat :| TrimsAt(s, u, junk, k, l);
    if t != [] && u != [] {
      assert i == k && j == l;
    }
  }

  lemma TrimFirst(s: string, t: string, junk: char -> bool)
    requires s != [] && junk(s[0]) && Trims(s[1..], t, junk)
    ensures Trims(s, t, junk)
  {
    var i: nat, j: nat :| TrimsAt(s[1..], t, junk, i, j);
    forall k | 0 <= k < i + 1 || j + 1 <= k < |s| ensures junk(s[k]) {
      assert k > 0 ==> s[k] == s[1..][k - 1];
    }
    assert TrimsAt(s, t, junk, i + 1, j + 1);
  }

  lemma TrimLast(s: string, t: string, junk: char -> bool)
    requires s != [] && junk(s[|s| - 1]) && Trims(s[..|s| - 1], t, junk)
    ensures Trims(s, t, junk)
  {
    var i: nat, j: nat :| TrimsAt(s[..|s| - 1], t, junk, i, j);
    forall k | 0 <= k < i || j <= k < |s| ensures junk(s[k]) {
      assert k < |s| - 1 ==> s[k] == s[..|s| - 1][k];
    }
    assert TrimsAt(s, t, junk, i, j);
  }

  lemma TrimNothing(s: string, junk: char -> bool)
    requires s != [] ==> !junk(s[0]) && !junk(s[|s| - 1])
    ensures Trims(s, s, junk)
  {
    assert TrimsAt(s, s, junk, 0, |s|);
  }

  /** Stripping takes the white space off both ends, and nothing else. */
  lemma {:induction false} StripTrims(s: string)
    ensures Trims(s, Strip(s), IsSpace)
  {
    if s == [] {
      TrimNothing(s, IsSpace);
    } else if IsSpace(s[0]) {
      StripTrims(s[1..]);
      TrimFirst(s, Strip(s), IsSpace);
    } else if IsSpace(s[|s| - 1]) {
      StripTrims(s[..|s| - 1]);
      TrimLast(s, Strip(s), IsSpace);
    } else {
      TrimNothing(s, IsSpace);
    }
  }

  function NumericTokens(text: string): set<string> {
    set t | t in Tokens(text) :: Canonical(t)
  }

  datatype Rejection = EmptyNarration | InventedNumbers(tokens: set<string>)

  function ValidateNarration(text: string, prompt: string): Result<string, Rejection> {
    var narration := Strip(text);
    if narration == [] then Err(EmptyNarration)
    else
      var invented := NumericTokens(narration) - NumericTokens(prompt);
      if invented != {} then Err(InventedNumbers(invented)) else Ok(narration)
  }

  /** The same amount, written with equally many whole digits. */
  ghost predicate SameFigure(s: string, t: string) {
    IsToken(s) && IsToken(t) && Amount(s) == Amount(t) && |Whole(s)| == |Whole(t)|
  }

  /** Accepted exactly when something is left after stripping and each of its figures is a figure of the prompt. */
  lemma AcceptedIff(text: string, prompt: string)
    ensures ValidateNarration(text, prompt).Ok? <==>
              Strip(text) != [] && forall t :: t in Tokens(Strip(text)) ==>
                    exists u :: u in Tokens(prompt) && SameFigure(t, u)
    ensures ValidateNarration(text, prompt).Ok? ==> ValidateNarration(text, prompt).value == Strip(text)
  {
    hide Canonical, IsToken, Amount, Whole, Strip;
    var narration := Strip(text);
    TokensAreTokens(narration, 0);
    TokensAreTokens(prompt, 0);
    forall t, u | t in Tokens(narration) && u in Tokens(prompt)
      ensures Canonical(t) == Canonical(u) <==> SameFigure(t, u)
    {
      SameCanonicalIff(t, u);
    }
    var said, known := NumericTokens(narration), NumericTokens(prompt);
    if forall t :: t in Tokens(narration) ==> exists u :: u in Tokens(prompt) && SameFigure(t, u) {
      forall c | c in said ensures c in known {
        var t :| t in Tokens(narration) && c == Canonical(t);
        var u :| u in Tokens(prompt) && SameFigure(t, u);
      }
      assert said - known == {};
    } else {
      var t :| t in Tokens(narration) && !exists u :: u in Tokens(prompt) && SameFigure(t, u);
      assert Canonical(t) in said - known;
    }
  }

  ghost predicate Grounded(narration: string, span: Span, prompt: string)
    requires span.start <= span.end <= |narration|
  {
    exists u :: u in Tokens(prompt) && IsToken(u) && IsToken(narration[span.start..span.end]) &&
        Amount(u) == Amount(narration[span.start..span.end])
  }

  /** In an accepted narration every digit belongs to a figure whose amount the prompt states. */
  lemma EveryDigitIsGrounded(text: string, prompt: string, i: nat)
    requires ValidateNarration(text, prompt).Ok?
    requires i < |Strip(text)| && IsDigit(Strip(text)[i])
    ensures exists k :: 0 <= k < |Spans(Strip(text), 0)| && HoldsDigit(Strip(text), Spans(Strip(text), 0)[k], prompt, i)
  {
    hide IsToken, Amount, Whole, Strip;
    var narration := Strip(text);
    var spans := Spans(narration, 0);
    AcceptedIff(text, prompt);
    SpansCoverDigits(narration, 0, i);
    SpansAreApart(narration, 0);
    TokensAreTheirTexts(narration, 0);
    var k :| 0 <= k < |spans| && spans[k].start <= i < spans[k].end;
    var t := Tokens(narration)[k];
    assert t in Tokens(narration);
    var u :| u in Tokens(prompt) && SameFigure(t, u);
    assert HoldsDigit(narration, spans[k], prompt, i);
  }

  ghost predicate HoldsDigit(narration: string, span: Span, prompt: string, i: nat) {
    span.start <= i < span.end <= |narration| && Grounded(narration, span, prompt)
  }

  /** The check errs on the side of refusing: a figure written with superfluous zeros is not recognised. */
  lemma SuperfluousZerosAreRefused()
    ensures IsToken("007") && IsToken("7") && Amount("007") == Amount("7")
    ensures Canonical("007") != Canonical("7")
  {
    hide IsToken, Whole, Fraction, Canonical, Value, WithoutCommas;
    ComposedToken("007", "");
    ComposedToken("7", "");
    SevenWithZeros();
    assert "007" + [] == "007" && "7" + [] == "7";
    SameCanonicalIff("007", "7");
  }

  lemma SevenWithZeros()
    ensures Value("007") == Value("7") == 7
  {
    assert "007"[..2] == "00" && "00"[..1] == "0" && "0"[..0] == "" && "7"[..0] == "";
    assert Value("0") == 0 && Value("00") == 0;
  }

  // ---- the money this system writes ---------------------------------------------------------------------

  lemma {:induction false} KeptUnlessComma(s: string, i: nat)
    requires i < |s| && s[i] != ','
    ensures s[i] in WithoutCommas(s)
  {
    if i < |s| - 1 {
      KeptUnlessComma(s[..|s| - 1], i);
    }
  }

  lemma GroupedIsRun(digits: string)
    requires digits != [] && AllDigits(digits)
    ensures var s := Grouped(digits); s != [] && IsDigit(s[0]) && forall i :: 0 <= i < |s| ==> InRun(s[i])
  {
    hide Grouped, WithoutCommas;
    var s := Grouped(digits);
    GroupedShape(digits);
    forall i | 0 <= i < |s| && s[i] != ',' ensures IsDigit(s[i]) {
      KeptUnlessComma(s, i);
    }
  }

  /** Grouping is undone by the canonical form. */
  lemma CanonicalOfGrouped(n: nat)
    ensures Canonical(Grouped(Str(n))) == Str(n)
  {
    hide Grouped, Str, StripRight;
    var digits := Str(n);
    StrHasNoComma(n);
    GroupedShape(digits);
    assert '.' !in digits;
  }

  /** An amount is one figure to the scanner, and the figure is the amount: no part of it can be quoted alone. */
  lemma MoneyIsOneFigure(paise: int)
    ensures var body := Body(Abs(paise) / 100, Abs(paise) % 100);
            Tokens(Money(paise)) == [body] && IsToken(body) && Amount(body) == Abs(paise) as real / 100.0
  {
    var rupees, r := Abs(paise) / 100, Abs(paise) % 100;
    var lead := Sign(paise) + [RUPEE];
    BodyIsFigure(rupees, r);
    MoneyIsSignAndBody(paise);
    assert Money(paise) == lead + Body(rupees, r);
    hide IsToken, Amount, Body, Money;
    OneTokenAfter(lead, Body(rupees, r), 0);
    assert 100 * rupees + r == Abs(paise);
  }

  lemma BodyIsFigure(rupees: nat, r: nat)
    requires r < 100
    ensures var body := Body(rupees, r);
            IsToken(body) && TokenEnd(body, 0) == |body| && Amount(body) == (100 * rupees + r) as real / 100.0
  {
    hide Grouped, Str, TwoDigits, Value, WithoutCommas;
    var digits, cents := Str(rupees), TwoDigits(r);
    var whole, body := Grouped(digits), Body(rupees, r);
    StrHasNoComma(rupees);
    GroupedIsRun(digits);
    GroupedShape(digits);
    TwoDigitsValue(r);
    assert body == whole + "." + cents && body[..|whole|] == whole && body[|whole| + 1..] == cents;
    assert '.' !in whole;
    PointOf(body, |whole|);
    assert IsToken(body) && Whole(body) == digits && Fraction(body) == cents;
    assert EndOfRun(body, 0) == |whole|;
    assert IsDigit(body[|whole| + 1]);
    ValueOfStr(rupees);
    ValueOfConcat(digits, cents);
    assert Pow10(2) == 100;
  }

  lemma {:induction false} OneTokenAfter(lead: string, body: string, from: nat)
    requires from <= |lead| && forall i :: 0 <= i < |lead| ==> !IsDigit(lead[i])
    requires body != [] && IsDigit(body[0]) && TokenEnd(body, 0) == |body|
    ensures TokensFrom(lead + body, from) == [body]
    decreases |lead| - from
  {
    hide TokenEnd;
    var text := lead + body;
    if from < |lead| {
      assert text[from] == lead[from];
      OneTokenAfter(lead, body, from + 1);
    } else {
      TokenEndShifts(lead, body);
      assert text[from] == body[0] && text[from..|text|] == body;
      assert TokensFrom(text, |text|) == [];
    }
  }

  lemma {:induction false} RunShifts(lead: string, body: string, i: nat)
    requires i <= |body|
    ensures EndOfRun(lead + body, |lead| + i) == |lead| + EndOfRun(body, i)
    ensures EndOfDigits(lead + body, |lead| + i) == |lead| + EndOfDigits(body, i)
    decreases |body| - i
  {
    if i < |body| {
      assert (lead + body)[|lead| + i] == body[i];
      RunShifts(lead, body, i + 1);
    }
  }

  lemma TokenEndShifts(lead: string, body: string)
    requires body != [] && IsDigit(body[0])
    ensures (lead + body)[|lead|] == body[0]
    ensures TokenEnd(lead + body, |lead|) == |lead| + TokenEnd(body, 0)
  {
    var text, run := lead + body, EndOfRun(body, 0);
    RunShifts(lead, body, 0);
    hide EndOfRun, EndOfDigits;
    assert forall i :: 0 <= i < |body| ==> text[|lead| + i] == body[i];
    if run + 1 < |body| {
      RunShifts(lead, body, run + 1);
      assert text[|lead| + run] == body[run] && text[|lead| + (run + 1)] == body[run + 1];
    }
  }
}
