/** Checking a generated template and filling its slots. */
module Nudge {
  import opened Common
  import opened Numerals
  import opened Formatting
  import opened Narration

  const MERCHANT := "{merchant}"
  const AMOUNT := "{amount}"
  const LINK := "{link}"

  predicate IsSlot(s: string) {
    s == MERCHANT || s == AMOUNT || s == LINK
  }

  lemma SlotShape(s: string)
    requires IsSlot(s)
    ensures |s| >= 6 && s[0] == '{' && s[|s| - 1] == '}'
    ensures forall i :: 0 < i < |s| ==> s[i] != '{'
    ensures forall i :: 0 <= i < |s| - 1 ==> s[i] != '}'
  {
  }

  lemma SlotInitials(a: string, b: string)
    requires IsSlot(a) && IsSlot(b) && a != b
    ensures |a| > 1 && |b| > 1 && a[1] != b[1]
  {
  }

  // ---- scanning for placeholders ----------------------------------------------------

  /** The first closing brace from `i` on, or the end. */
  function CloseAfter(text: string, i: nat): (j: nat)
    requires i <= |text|
    ensures i <= j <= |text| && (j < |text| ==> text[j] == '}')
    ensures forall k :: i <= k < j ==> text[k] != '}'
    decreases |text| - i
  {
    if i == |text| || text[i] == '}' then i else CloseAfter(text, i + 1)
  }

  predicate Opens(text: string, i: nat) {
    i < |text| && text[i] == '{' && CloseAfter(text, i) < |text|
  }

  /** Every brace pair, left to right; what is inside one may contain an opening brace. */
  function FoundFrom(text: string, from: nat): seq<string>
    requires from <= |text|
    decreases |text| - from
  {
    if from == |text| then []
    else if Opens(text, from) then
      var close := CloseAfter(text, from);
      [text[from..close + 1]] + FoundFrom(text, close + 1)
    else FoundFrom(text, from + 1)
  }

  function Found(text: string): seq<string> {
    FoundFrom(text, 0)
  }

  function Count(found: seq<string>, slot: string): nat {
    if found == [] then 0 else (if found[0] == slot then 1 else 0) + Count(found[1..], slot)
  }

  // ---- checking a template -------------------------------------------------------------

  datatype Request = Request(merchantName: string, amountPaise: int, includeLink: bool, cap: nat)

  /** What the two text heuristics say, which the check only consults. */
  datatype Heuristics = Heuristics(urlish: string -> bool, credential: string -> bool)

  datatype Refusal = EmptyMessage | ContainsDigit | SlotNotOnce(slot: string) | UnexpectedPlaceholder
                   | ContainsUrl | MentionsCredential | LinkMissing | TooLong

  function RequiredPlaceholders(includeLink: bool): seq<string> {
    [MERCHANT, AMOUNT] + if includeLink then [LINK] else []
  }

  function StripQuotes(s: string): string {
    if s != [] && s[0] == '"' then StripQuotes(s[1..])
    else if s != [] && s[|s| - 1] == '"' then StripQuotes(s[..|s| - 1])
    else s
  }

  function NotOnce(expected: seq<string>, found: seq<string>): (slot: Option<string>)
    ensures slot.None? <==> forall i :: 0 <= i < |expected| ==> Count(found, expected[i]) == 1
    ensures slot.Some? ==> slot.value in expected && Count(found, slot.value) != 1
  {
    if expected == [] then None
    else if Count(found, expected[0]) != 1 then Some(expected[0])
    else
      assert forall i :: 0 < i < |expected| ==> expected[i] == expected[1..][i - 1];
      NotOnce(expected[1..], found)
  }

  function ValidateTemplate(template: string, includeLink: bool, h: Heuristics): Result<string, Refusal> {
    var text := Strip(StripQuotes(Strip(template)));
    var found, expected := Found(text), RequiredPlaceholders(includeLink);
    if text == [] then Err(EmptyMessage)
    else if exists i :: 0 <= i < |text| && IsDigit(text[i]) then Err(ContainsDigit)
    else if NotOnce(expected, found).Some? then Err(SlotNotOnce(NotOnce(expected, found).value))
    else if exists i :: 0 <= i < |found| && found[i] !in expected then Err(UnexpectedPlaceholder)
    else if h.urlish(text) then Err(ContainsUrl)
    else if h.credential(text) then Err(MentionsCredential)
    else Ok(text)
  }

  /** What acceptance tells the renderer. */
  ghost predicate WellFormed(text: string, includeLink: bool) {
    && text != []
    && (forall i :: 0 <= i < |text| ==> !IsDigit(text[i]))
    && (forall s :: s in RequiredPlaceholders(includeLink) ==> Count(Found(text), s) == 1)
    && (forall s :: s in Found(text) ==> s in RequiredPlaceholders(includeLink))
  }

  lemma AcceptedIsWellFormed(template: string, includeLink: bool, h: Heuristics)
    requires ValidateTemplate(template, includeLink, h).Ok?
    ensures WellFormed(ValidateTemplate(template, includeLink, h).value, includeLink)
  {
  }

  predicate IsQuote(c: char) {
    c == '"'
  }

  lemma {:induction false} QuotesTrim(s: string)
    ensures Trims(s, StripQuotes(s), IsQuote)
  {
    if s == [] {
      TrimNothing(s, IsQuote);
    } else if s[0] == '"' {
      QuotesTrim(s[1..]);
      TrimFirst(s, StripQuotes(s), IsQuote);
    } else if s[|s| - 1] == '"' {
      QuotesTrim(s[..|s| - 1]);
      TrimLast(s, StripQuotes(s), IsQuote);
    } else {
      TrimNothing(s, IsQuote);
    }
  }

  /** A template is accepted exactly when what is left of it, without white space, then quotes, then white space, is
      well formed and neither heuristic objects; and that is what is returned. */
  lemma TemplateAcceptedIff(template: string, includeLink: bool, h: Heuristics, bare: string, unquoted: string,
                            text: string)
    requires Trims(template, bare, IsSpace) && Trims(bare, unquoted, IsQuote) && Trims(unquoted, text, IsSpace)
    ensures ValidateTemplate(template, includeLink, h).Ok? <==>
            WellFormed(text, includeLink) && !h.urlish(text) && !h.credential(text)
    ensures ValidateTemplate(template, includeLink, h).Ok? ==> ValidateTemplate(template, includeLink, h).value == text
  {
    hide Strip, StripQuotes, Found, FoundFrom, Count, IsDigit, Trims;
    StripTrims(template);
    TrimsOnce(template, bare, Strip(template), IsSpace);
    QuotesTrim(bare);
    TrimsOnce(bare, unquoted, StripQuotes(bare), IsQuote);
    StripTrims(unquoted);
    TrimsOnce(unquoted, text, Strip(unquoted), IsSpace);
    var found, expected := Found(text), RequiredPlaceholders(includeLink);
    assert (forall i :: 0 <= i < |expected| ==> Count(found, expected[i]) == 1) <==>
           forall s :: s in expected ==> Count(found, s) == 1;
    assert (exists i :: 0 <= i < |found| && found[i] !in expected) <==> exists s :: s in found && s !in expected;
  }

  /** A refusal names a fault that is there. */
  lemma RefusalIsTrue(template: string, includeLink: bool, h: Heuristics, bare: string, unquoted: string, text: string)
    requires Trims(template, bare, IsSpace) && Trims(bare, unquoted, IsQuote) && Trims(unquoted, text, IsSpace)
    requires ValidateTemplate(template, includeLink, h).Err?
    ensures match ValidateTemplate(template, includeLink, h).error
            case EmptyMessage => text == []
            case ContainsDigit => exists i :: 0 <= i < |text| && IsDigit(text[i])
            case SlotNotOnce(slot) => slot in RequiredPlaceholders(includeLink) && Count(Found(text), slot) != 1
            case UnexpectedPlaceholder => exists s :: s in Found(text) && s !in RequiredPlaceholders(includeLink)
            case ContainsUrl => h.urlish(text)
            case MentionsCredential => h.credential(text)
            case _ => false
  {
    hide Strip, StripQuotes, Found, FoundFrom, Count, IsDigit, Trims;
    StripTrims(template);
    TrimsOnce(template, bare, Strip(template), IsSpace);
    QuotesTrim(bare);
    TrimsOnce(bare, unquoted, StripQuotes(bare), IsQuote);
    StripTrims(unquoted);
    TrimsOnce(unquoted, text, Strip(unquoted), IsSpace);
  }

  // ---- substitution ------------------------------------------------------------------------

  /** Python's `replace`: left to right, never looking at what it has put in. */
  function ReplaceAll(s: string, slot: string, put: string): string
    requires slot != []
  {
    if |s| < |slot| then s
    else if slot <= s then put + ReplaceAll(s[|slot|..], slot, put)
    else [s[0]] + ReplaceAll(s[1..], slot, put)
  }

  /** The replacements, in the order they are made. */
  function Substituted(text: string, name: string, amountPaise: int, link: Option<string>): string {
    var priced := ReplaceAll(ReplaceAll(text, MERCHANT, name), AMOUNT, Money(amountPaise));
    if link.Some? then ReplaceAll(priced, LINK, link.value) else priced
  }

  function Render(text: string, request: Request, link: Option<string>): Result<string, Refusal> {
    if request.includeLink && (link.None? || link.value == []) then Err(LinkMissing)
    else
      var used := if request.includeLink then link else None;
      var rendered := Substituted(text, request.merchantName, request.amountPaise, used);
      if |rendered| > request.cap then Err(TooLong) else Ok(rendered)
  }

  /** What goes into each slot. */
  datatype Filling = Filling(merchant: string, amount: string, link: string) {
    function Of(slot: string): string {
      if slot == MERCHANT then merchant
      else if slot == AMOUNT then amount
      else if slot == LINK then link
      else slot
    }

    function With(slot: string, value: string): Filling {
      if slot == MERCHANT then this.(merchant := value)
      else if slot == AMOUNT then this.(amount := value)
      else this.(link := value)
    }
  }

  /** The meaning of a template: every placeholder filled at once, in one pass over the template. */
  function FillFrom(text: string, from: nat, v: Filling): string
    requires from <= |text|
    decreases |text| - from
  {
    if from == |text| then []
    else if Opens(text, from) then
      var close := CloseAfter(text, from);
      v.Of(text[from..close + 1]) + FillFrom(text, close + 1, v)
    else [text[from]] + FillFrom(text, from + 1, v)
  }

  lemma ScanHole(text: string, from: nat, v: Filling)
    requires Opens(text, from)
    ensures from < |text| && text[from] == '{' && from <= CloseAfter(text, from) < |text|
    ensures FoundFrom(text, from) ==
            [text[from..CloseAfter(text, from) + 1]] + FoundFrom(text, CloseAfter(text, from) + 1)
    ensures FillFrom(text, from, v) ==
            v.Of(text[from..CloseAfter(text, from) + 1]) + FillFrom(text, CloseAfter(text, from) + 1, v)
  {
  }

  lemma ScanCharacter(text: string, from: nat, v: Filling)
    requires from < |text| && !Opens(text, from)
    ensures FoundFrom(text, from) == FoundFrom(text, from + 1)
    ensures FillFrom(text, from, v) == [text[from]] + FillFrom(text, from + 1, v)
  {
  }

  lemma ScanEnd(text: string, v: Filling)
    ensures FoundFrom(text, |text|) == [] && FillFrom(text, |text|, v) == []
  {
  }

  /** Somewhere `value` contains the slot, or ends with the beginning of one. */
  ghost predicate Clashes(value: string, slot: string) {
    exists k :: 0 <= k < |value| && (slot <= value[k..] || value[k..] <= slot)
  }

  lemma BraceFreeNeverClashes(value: string, slot: string)
    requires '{' !in value && IsSlot(slot)
    ensures !Clashes(value, slot)
  {
    SlotShape(slot);
    forall k | 0 <= k < |value| ensures !(slot <= value[k..] || value[k..] <= slot) {
      assert value[k..][0] == value[k];
    }
  }

  lemma SlotsNeverClash(value: string, slot: string)
    requires IsSlot(value) && IsSlot(slot) && value != slot
    ensures !Clashes(value, slot)
  {
    hide IsSlot;
    SlotShape(value);
    SlotShape(slot);
    SlotInitials(value, slot);
    forall k | 0 <= k < |value| ensures !(slot <= value[k..] || value[k..] <= slot) {
      assert value[k..][0] == value[k];
      assert k == 0 ==> value[k..] == value;
    }
  }

  lemma {:induction false} ReplaceSkips(value: string, rest: string, slot: string, put: string)
    requires slot != [] && !Clashes(value, slot)
    ensures ReplaceAll(value + rest, slot, put) == value + ReplaceAll(rest, slot, put)
  {
    hide ReplaceAll;
    if value == [] {
      assert value + rest == rest;
    } else {
      var s, tail := value + rest, value[1..];
      assert value[0..] == value;
      if slot <= s {
        PrefixOfConcat(slot, value, rest);
        assert false;
      }
      assert s[1..] == tail + rest;
      TailNeverClashes(value, slot);
      ReplaceSkips(tail, rest, slot, put);
      TooShortToReplace(s, slot, put);
      assert [value[0]] + (tail + ReplaceAll(rest, slot, put)) == value + ReplaceAll(rest, slot, put);
    }
  }

  lemma TailNeverClashes(value: string, slot: string)
    requires value != [] && !Clashes(value, slot)
    ensures !Clashes(value[1..], slot)
  {
    var tail := value[1..];
    forall k | 0 <= k < |tail| ensures !(slot <= tail[k..] || tail[k..] <= slot) {
      assert tail[k..] == value[k + 1..];
    }
  }

  lemma PrefixOfConcat(slot: string, value: string, rest: string)
    requires slot <= value + rest
    ensures slot <= value || value <= slot
  {
    if |slot| <= |value| {
      assert slot == (value + rest)[..|slot|] == value[..|slot|];
    } else {
      assert value == (value + rest)[..|value|] == slot[..|value|];
    }
  }

  lemma TooShortToReplace(s: string, slot: string, put: string)
    requires slot != [] && s != [] && !(slot <= s)
    ensures ReplaceAll(s, slot, put) == [s[0]] + ReplaceAll(s[1..], slot, put)
  {
    if |s| < |slot| {
      assert s == [s[0]] + s[1..];
    }
  }

  lemma {:induction false} NothingToFill(text: string, from: nat, v: Filling)
    requires from <= |text| && CloseAfter(text, from) == |text|
    ensures FillFrom(text, from, v) == text[from..]
    decreases |text| - from
  {
    if from < |text| {
      assert CloseAfter(text, from + 1) == |text|;
      NothingToFill(text, from + 1, v);
      assert text[from..] == [text[from]] + text[from + 1..];
    }
  }

  ghost predicate SafeFor(v: Filling, slot: string) {
    forall other :: IsSlot(other) && other != slot ==> !Clashes(v.Of(other), slot)
  }

  /** One replacement fills one kind of slot, wherever the scan found it and nowhere else. */
  lemma {:induction false} ReplaceFills(text: string, from: nat, v: Filling, slot: string, value: string)
    requires from <= |text| && IsSlot(slot) && v.Of(slot) == slot && SafeFor(v, slot)
    requires forall s :: s in FoundFrom(text, from) ==> IsSlot(s)
    ensures ReplaceAll(FillFrom(text, from, v), slot, value) == FillFrom(text, from, v.With(slot, value))
    decreases |text| - from
  {
    hide CloseAfter, Clashes, Opens, FoundFrom, FillFrom, ReplaceAll, IsSlot, Filling.Of, Filling.With;
    var w := v.With(slot, value);
    SlotShape(slot);
    if from == |text| {
      ScanEnd(text, v);
      ScanEnd(text, w);
      NothingToReplace(slot, value);
    } else if Opens(text, from) {
      ScanHole(text, from, v);
      ScanHole(text, from, w);
      var close := CloseAfter(text, from);
      var hole, rest := text[from..close + 1], FillFrom(text, close + 1, v);
      assert hole in FoundFrom(text, from);
      ReplaceFills(text, close + 1, v, slot, value);
      WithOf(v, slot, value, hole);
      if hole == slot {
        ReplaceHere(slot, rest, value);
      } else {
        ReplaceSkips(v.Of(hole), rest, slot, value);
      }
    } else {
      ScanCharacter(text, from, v);
      ScanCharacter(text, from, w);
      var rest := FillFrom(text, from + 1, v);
      ReplaceFills(text, from + 1, v, slot, value);
      LoneCharacter(text, from, v, slot);
      TooShortToReplace([text[from]] + rest, slot, value);
      assert ([text[from]] + rest)[1..] == rest;
    }
  }

  lemma NothingToReplace(slot: string, put: string)
    requires IsSlot(slot)
    ensures slot != [] && ReplaceAll([], slot, put) == []
  {
  }

  lemma ReplaceHere(slot: string, rest: string, put: string)
    requires IsSlot(slot)
    ensures ReplaceAll(slot + rest, slot, put) == put + ReplaceAll(rest, slot, put)
  {
    assert slot <= slot + rest && (slot + rest)[|slot|..] == rest;
  }

  lemma WithOf(v: Filling, slot: string, value: string, hole: string)
    requires IsSlot(slot) && IsSlot(hole)
    ensures v.With(slot, value).Of(hole) == if hole == slot then value else v.Of(hole)
  {
  }

  lemma LoneCharacter(text: string, from: nat, v: Filling, slot: string)
    requires from < |text| && !Opens(text, from) && IsSlot(slot)
    ensures !(slot <= [text[from]] + FillFrom(text, from + 1, v))
  {
    var rest := FillFrom(text, from + 1, v);
    var s := [text[from]] + rest;
    SlotShape(slot);
    if slot <= s {
      assert s[0] == slot[0] && s[|slot| - 1] == slot[|slot| - 1];
      assert CloseAfter(text, from) == CloseAfter(text, from + 1) == |text|;
      NothingToFill(text, from + 1, v);
      assert false;
    }
  }

  lemma OwnText(slot: string)
    ensures Filling(MERCHANT, AMOUNT, LINK).Of(slot) == slot
  {
  }

  lemma {:induction false} FillWithThemselves(text: string, from: nat)
    requires from <= |text|
    ensures FillFrom(text, from, Filling(MERCHANT, AMOUNT, LINK)) == text[from..]
    decreases |text| - from
  {
    hide Filling.Of, CloseAfter, Opens, FoundFrom, FillFrom;
    var plain := Filling(MERCHANT, AMOUNT, LINK);
    if from == |text| {
      ScanEnd(text, plain);
    } else if Opens(text, from) {
      ScanHole(text, from, plain);
      var close := CloseAfter(text, from);
      OwnText(text[from..close + 1]);
      FillWithThemselves(text, close + 1);
      assert text[from..] == text[from..close + 1] + text[close + 1..];
    } else {
      ScanCharacter(text, from, plain);
      FillWithThemselves(text, from + 1);
      assert text[from..] == [text[from]] + text[from + 1..];
    }
  }

  // ---- replacing in turn is filling at once ------------------------------------------------

  function Meant(name: string, amountPaise: int, link: Option<string>): Filling {
    Filling(name, Money(amountPaise), if link.Some? then link.value else LINK)
  }

  lemma MoneyIsBraceFree(paise: int)
    ensures '{' !in Money(paise)
  {
    hide Grouped, Str;
    var digits := Str(Abs(paise) / 100);
    GroupedIsRun(digits);
  }

  /** In turn or at once comes to the same, as long as the name brings no slot, whole or begun. */
  lemma SubstitutionFills(text: string, name: string, amountPaise: int, link: Option<string>)
    requires forall s :: s in Found(text) ==> IsSlot(s)
    requires !Clashes(name, AMOUNT) && (link.Some? ==> !Clashes(name, LINK))
    ensures Substituted(text, name, amountPaise, link) == FillFrom(text, 0, Meant(name, amountPaise, link))
  {
    hide ReplaceAll, FillFrom, Clashes, Money;
    var plain := Filling(MERCHANT, AMOUNT, LINK);
    FillWithThemselves(text, 0);
    assert text[0..] == text;
    AllSlotsApart();
    ReplaceFills(text, 0, plain, MERCHANT, name);
    var named := plain.(merchant := name);
    ReplaceFills(text, 0, named, AMOUNT, Money(amountPaise));
    if link.Some? {
      MoneyIsBraceFree(amountPaise);
      BraceFreeNeverClashes(Money(amountPaise), LINK);
      ReplaceFills(text, 0, named.(amount := Money(amountPaise)), LINK, link.value);
    }
  }

  lemma AllSlotsApart()
    ensures forall a, b :: IsSlot(a) && IsSlot(b) && a != b ==> !Clashes(a, b)
  {
    forall a, b | IsSlot(a) && IsSlot(b) && a != b ensures !Clashes(a, b) {
      SlotsNeverClash(a, b);
    }
  }

  /** What `render` returns for any template the check accepts and any such name. */
  lemma RenderFills(text: string, request: Request, link: Option<string>)
    requires WellFormed(text, request.includeLink)
    requires !Clashes(request.merchantName, AMOUNT) && (request.includeLink ==> !Clashes(request.merchantName, LINK))
    ensures var used := if request.includeLink then link else None;
            var filled := FillFrom(text, 0, Meant(request.merchantName, request.amountPaise, used));
            Render(text, request, link) ==
            if request.includeLink && (link.None? || link.value == []) then Err(LinkMissing)
            else if |filled| > request.cap then Err(TooLong)
            else Ok(filled)
  {
    hide FillFrom, ReplaceAll, Substituted, Money;
    SubstitutionFills(text, request.merchantName, request.amountPaise, if request.includeLink then link else None);
  }

  // ---- every slot is there exactly once, as text ---------------------------------------------

  predicate OccursAt(text: string, p: nat, slot: string) {
    p + |slot| <= |text| && text[p..p + |slot|] == slot
  }

  lemma HoleHere(text: string, p: nat, slot: string, v: Filling)
    requires IsSlot(slot) && OccursAt(text, p, slot)
    ensures Opens(text, p) && CloseAfter(text, p) == p + |slot| - 1
    ensures FoundFrom(text, p) == [slot] + FoundFrom(text, p + |slot|)
    ensures FillFrom(text, p, v) == v.Of(slot) + FillFrom(text, p + |slot|, v)
  {
    hide FoundFrom, FillFrom;
    ClosesThere(text, p, slot);
    ScanHole(text, p, v);
  }

  lemma ClosesThere(text: string, p: nat, slot: string)
    requires IsSlot(slot) && OccursAt(text, p, slot)
    ensures Opens(text, p) && CloseAfter(text, p) == p + |slot| - 1
  {
    hide IsSlot;
    SlotShape(slot);
    forall k | p <= k < p + |slot| ensures text[k] == slot[k - p] {
      assert text[p..p + |slot|][k - p] == text[k];
    }
  }

  lemma HiddenBrace(text: string, p: nat, slot: string, q: nat)
    requires IsSlot(slot) && OccursAt(text, p, slot) && p < q < p + |slot|
    ensures text[q] != '{'
  {
    SlotShape(slot);
    assert text[p..p + |slot|][q - p] == text[q];
  }

  lemma NeverOverlap(text: string, p: nat, slot: string, q: nat, slot': string)
    requires IsSlot(slot) && OccursAt(text, p, slot) && IsSlot(slot') && OccursAt(text, q, slot') && p < q
    ensures p + |slot| <= q
  {
    SlotShape(slot');
    assert text[q..q + |slot'|][0] == text[q];
    if q < p + |slot| {
      HiddenBrace(text, p, slot, q);
    }
  }

  /** A slot in the text is a placeholder of the scan, because no placeholder hides another. */
  lemma {:induction false} OccurrenceIsFound(text: string, from: nat, p: nat, slot: string)
    requires from <= p && IsSlot(slot) && OccursAt(text, p, slot)
    requires forall s :: s in FoundFrom(text, from) ==> IsSlot(s)
    ensures Count(FoundFrom(text, from), slot) >= 1
    ensures forall q :: p < q && OccursAt(text, q, slot) ==> Count(FoundFrom(text, from), slot) >= 2
    decreases |text| - from
  {
    hide IsSlot, CloseAfter, Count, OccursAt, FoundFrom, FillFrom, Opens;
    HoleHere(text, p, slot, Filling([], [], []));
    SlotShape(slot);
    EarlierThanEnd(text, p, slot);
    if from == p {
      var rest := FoundFrom(text, p + |slot|);
      CountOfNext(slot, rest, slot);
      forall q | p < q && OccursAt(text, q, slot) ensures Count(FoundFrom(text, from), slot) >= 2 {
        NeverOverlap(text, p, slot, q, slot);
        OccurrenceIsFound(text, p + |slot|, q, slot);
      }
    } else if Opens(text, from) {
      ScanHole(text, from, Filling([], [], []));
      var close := CloseAfter(text, from);
      var hole, rest := text[from..close + 1], FoundFrom(text, close + 1);
      assert hole in FoundFrom(text, from);
      OccursItself(text, from, close + 1);
      NeverOverlap(text, from, hole, p, slot);
      OccurrenceIsFound(text, close + 1, p, slot);
      CountOfNext(hole, rest, slot);
    } else {
      ScanCharacter(text, from, Filling([], [], []));
      OccurrenceIsFound(text, from + 1, p, slot);
    }
  }

  lemma CountOfNext(first: string, rest: seq<string>, slot: string)
    ensures Count([first] + rest, slot) == (if first == slot then 1 else 0) + Count(rest, slot)
  {
    assert ([first] + rest)[1..] == rest;
  }

  lemma EarlierThanEnd(text: string, p: nat, slot: string)
    requires IsSlot(slot) && OccursAt(text, p, slot)
    ensures p < p + |slot| <= |text|
  {
  }

  lemma OccursItself(text: string, from: nat, end: nat)
    requires from <= end <= |text|
    ensures OccursAt(text, from, text[from..end])
  {
  }

  lemma {:induction false} FoundOccurs(text: string, from: nat, slot: string)
    requires from <= |text| && slot in FoundFrom(text, from)
    ensures exists p :: from <= p && OccursAt(text, p, slot)
    decreases |text| - from
  {
    if Opens(text, from) {
      var close := CloseAfter(text, from);
      if slot == text[from..close + 1] {
        assert OccursAt(text, from, slot);
      } else {
        FoundOccurs(text, close + 1, slot);
      }
    } else {
      FoundOccurs(text, from + 1, slot);
    }
  }

  lemma {:induction false} CountedIsFound(found: seq<string>, slot: string)
    ensures Count(found, slot) > 0 <==> slot in found
  {
    if found != [] {
      CountedIsFound(found[1..], slot);
      assert found == [found[0]] + found[1..];
    }
  }

  /** In an accepted template each required slot is in the text at exactly one place, and no other slot at all:
      the scan for brace pairs and the search for substrings agree. */
  lemma SlotsOccurOnce(text: string, includeLink: bool, slot: string)
    requires WellFormed(text, includeLink) && IsSlot(slot)
    ensures slot in RequiredPlaceholders(includeLink) ==>
              exists p :: OccursAt(text, p, slot) && forall q :: OccursAt(text, q, slot) ==> q == p
    ensures slot !in RequiredPlaceholders(includeLink) ==> forall q :: !OccursAt(text, q, slot)
  {
    hide FoundFrom, OccursAt;
    CountedIsFound(Found(text), slot);
    forall p, q | p < q && OccursAt(text, p, slot) && OccursAt(text, q, slot) ensures Count(Found(text), slot) >= 2 {
      OccurrenceIsFound(text, 0, p, slot);
    }
    forall q | OccursAt(text, q, slot) ensures slot in Found(text) {
      OccurrenceIsFound(text, 0, q, slot);
    }
    if slot in RequiredPlaceholders(includeLink) {
      FoundOccurs(text, 0, slot);
      var p :| OccursAt(text, p, slot);
      assert forall q :: OccursAt(text, q, slot) ==> q == p;
    }
  }

  // ---- digits ------------------------------------------------------------------------------------

  function DigitsOf(s: string): string {
    if s == [] then [] else (if IsDigit(s[0]) then [s[0]] else []) + DigitsOf(s[1..])
  }

  function DigitsFilledIn(found: seq<string>, v: Filling): string {
    if found == [] then [] else DigitsOf(v.Of(found[0])) + DigitsFilledIn(found[1..], v)
  }

  lemma DigitsStep(s: string)
    requires s != []
    ensures DigitsOf(s) == (if IsDigit(s[0]) then [s[0]] else []) + DigitsOf(s[1..])
  {
  }

  lemma {:induction false} DigitsOfConcat(a: string, b: string)
    ensures DigitsOf(a + b) == DigitsOf(a) + DigitsOf(b)
  {
    hide IsDigit;
    if a == [] {
      assert a + b == b;
    } else {
      DigitsOfConcat(a[1..], b);
      var s := a + b;
      assert s[1..] == a[1..] + b && s[0] == a[0];
      hide DigitsOf;
      DigitsStep(s);
      DigitsStep(a);
    }
  }

  /** The digits of a filled template are the digits of its values, in the template's order, and no others. */
  lemma {:induction false} DigitsComeFromValues(text: string, from: nat, v: Filling)
    requires from <= |text| && forall i :: 0 <= i < |text| ==> !IsDigit(text[i])
    ensures DigitsOf(FillFrom(text, from, v)) == DigitsFilledIn(FoundFrom(text, from), v)
    decreases |text| - from
  {
    hide CloseAfter, Filling.Of, Opens, FoundFrom, FillFrom, DigitsOf;
    if from == |text| {
      ScanEnd(text, v);
      assert DigitsOf([]) == [] by {
        NoDigits([]);
      }
    } else if Opens(text, from) {
      ScanHole(text, from, v);
      var close := CloseAfter(text, from);
      DigitsComeFromValues(text, close + 1, v);
      DigitsOfConcat(v.Of(text[from..close + 1]), FillFrom(text, close + 1, v));
      assert FoundFrom(text, from)[1..] == FoundFrom(text, close + 1);
    } else {
      ScanCharacter(text, from, v);
      DigitsComeFromValues(text, from + 1, v);
      DigitsOfConcat([text[from]], FillFrom(text, from + 1, v));
      NoDigits([text[from]]);
    }
  }

  lemma {:induction false} NoDigits(s: string)
    requires forall i :: 0 <= i < |s| ==> !IsDigit(s[i])
    ensures DigitsOf(s) == []
  {
    if s != [] {
      NoDigits(s[1..]);
    }
  }

  // ---- the names that can break a message -----------------------------------------------------------

  function Braces(s: string): nat {
    if s == [] then 0 else (if s[0] == '{' then 1 else 0) + Braces(s[1..])
  }

  /** How many replacements are made. */
  function Hits(s: string, slot: string): nat
    requires slot != []
  {
    if |s| < |slot| then 0
    else if slot <= s then 1 + Hits(s[|slot|..], slot)
    else Hits(s[1..], slot)
  }

  lemma {:induction false} BracesOfConcat(a: string, b: string)
    ensures Braces(a + b) == Braces(a) + Braces(b)
  {
    if a == [] {
      assert a + b == b;
    } else {
      BracesOfConcat(a[1..], b);
      assert (a + b)[1..] == a[1..] + b;
    }
  }

  lemma {:induction false} NoBraces(s: string)
    requires '{' !in s
    ensures Braces(s) == 0
  {
    if s != [] {
      NoBraces(s[1..]);
    }
  }

  lemma {:induction false} OneBrace(slot: string)
    requires IsSlot(slot)
    ensures Braces(slot) == 1
  {
    SlotShape(slot);
    assert '{' !in slot[1..];
    NoBraces(slot[1..]);
  }

  lemma {:induction false} EachHitTakesABrace(s: string, slot: string, put: string)
    requires IsSlot(slot) && '{' !in put
    ensures Braces(ReplaceAll(s, slot, put)) + Hits(s, slot) == Braces(s)
  {
    hide IsSlot;
    SlotShape(slot);
    if |s| >= |slot| {
      if slot <= s {
        var rest := s[|slot|..];
        assert s == slot + rest;
        EachHitTakesABrace(rest, slot, put);
        OneBrace(slot);
        NoBraces(put);
        BracesOfConcat(slot, rest);
        BracesOfConcat(put, ReplaceAll(rest, slot, put));
      } else {
        EachHitTakesABrace(s[1..], slot, put);
        var replaced := ReplaceAll(s[1..], slot, put);
        assert ([s[0]] + replaced)[1..] == replaced;
      }
    }
  }

  lemma {:induction false} OccurrencesAreHits(s: string, slot: string, p: nat, q: nat)
    requires IsSlot(slot) && OccursAt(s, p, slot) && OccursAt(s, q, slot) && p <= q
    ensures Hits(s, slot) >= if p < q then 2 else 1
    decreases |s|
  {
    hide IsSlot;
    SlotShape(slot);
    if slot <= s {
      assert OccursAt(s, 0, slot);
      if p > 0 {
        NeverOverlap(s, 0, slot, p, slot);
      }
      if q > 0 {
        NeverOverlap(s, 0, slot, q, slot);
        var rest := s[|slot|..];
        assert rest[q - |slot|..q] == s[q..q + |slot|];
        OccurrencesAreHits(rest, slot, q - |slot|, q - |slot|);
      }
    } else {
      assert s[..|slot|] != slot;
      assert s[1..][p - 1..p - 1 + |slot|] == s[p..p + |slot|];
      assert s[1..][q - 1..q - 1 + |slot|] == s[q..q + |slot|];
      OccurrencesAreHits(s[1..], slot, p - 1, q - 1);
    }
  }

  lemma {:induction false} PassOver(text: string, from: nat, upto: nat, v: Filling)
    requires from <= upto <= |text| && '{' !in text[from..upto]
    ensures FoundFrom(text, from) == FoundFrom(text, upto)
    ensures FillFrom(text, from, v) == text[from..upto] + FillFrom(text, upto, v)
    decreases upto - from
  {
    hide FoundFrom, FillFrom, CloseAfter;
    if from < upto {
      assert text[from..upto] == [text[from]] + text[from + 1..upto];
      assert text[from] in text[from..upto];
      ScanCharacter(text, from, v);
      PassOver(text, from + 1, upto, v);
    } else {
      assert text[from..upto] == [];
    }
  }

  /** A template made to complete the slot a name begins. With a link, the link comes first. */
  function Trap(rest: string, includeLink: bool): string {
    (if includeLink then LINK else []) + MERCHANT + rest + AMOUNT
  }

  lemma TrapScan(rest: string, includeLink: bool, v: Filling)
    requires '{' !in rest
    ensures Found(Trap(rest, includeLink)) == (if includeLink then [LINK] else []) + [MERCHANT, AMOUNT]
    ensures FillFrom(Trap(rest, includeLink), 0, v) ==
            (if includeLink then v.link else []) + v.merchant + rest + v.amount
  {
    hide CloseAfter, Opens, FoundFrom, FillFrom;
    var text, l := Trap(rest, includeLink), if includeLink then |LINK| else 0;
    var m, n := l + |MERCHANT|, l + |MERCHANT| + |rest|;
    assert text[l..m] == MERCHANT && text[m..n] == rest && text[n..n + |AMOUNT|] == AMOUNT;
    HoleHere(text, l, MERCHANT, v);
    PassOver(text, m, n, v);
    HoleHere(text, n, AMOUNT, v);
    ScanEnd(text, v);
    assert n + |AMOUNT| == |text|;
    assert FillFrom(text, l, v) == v.merchant + rest + v.amount;
    if includeLink {
      assert text[0..l] == LINK;
      HoleHere(text, 0, LINK, v);
    }
  }

  /** How the slot continues after what the name already has of it. */
  lemma Completion(name: string, slot: string) returns (rest: string, k: nat)
    requires Clashes(name, slot) && IsSlot(slot)
    ensures '{' !in rest && (forall i :: 0 <= i < |rest| ==> !IsDigit(rest[i]))
    ensures k < |name| && OccursAt(name + rest, k, slot)
  {
    k :| 0 <= k < |name| && (slot <= name[k..] || name[k..] <= slot);
    hide IsSlot, IsDigit, OccursAt;
    rest := Continuation(name[k..], slot);
    Completed(name, k, rest, slot);
  }

  lemma Continuation(tail: string, slot: string) returns (rest: string)
    requires IsSlot(slot) && tail != [] && (slot <= tail || tail <= slot)
    ensures '{' !in rest && (forall i :: 0 <= i < |rest| ==> !IsDigit(rest[i]))
    ensures slot <= tail + rest
  {
    rest := if slot <= tail then [] else slot[|tail|..];
    EndOfSlot(slot, |tail|);
    hide IsSlot;
  }

  lemma EndOfSlot(slot: string, n: nat)
    requires IsSlot(slot) && n > 0
    ensures n <= |slot| ==> '{' !in slot[n..] && forall i :: 0 <= i < |slot[n..]| ==> !IsDigit(slot[n..][i])
  {
    SlotShape(slot);
    NoDigitsInSlots();
    hide IsDigit;
    assert forall i :: 0 <= i < |slot| ==> !IsDigit(slot[i]);
  }

  lemma Completed(name: string, k: nat, rest: string, slot: string)
    requires k < |name| && slot <= name[k..] + rest
    ensures OccursAt(name + rest, k, slot)
  {
    assert (name + rest)[k..] == name[k..] + rest;
    assert (name + rest)[k..k + |slot|] == (name[k..] + rest)[..|slot|];
  }

  lemma TrapIsWellFormed(rest: string, includeLink: bool)
    requires '{' !in rest && forall i :: 0 <= i < |rest| ==> !IsDigit(rest[i])
    ensures WellFormed(Trap(rest, includeLink), includeLink)
  {
    TrapScan(rest, includeLink, Filling([], [], []));
    SlotsCountOnce();
    NoDigitsInSlots();
    if !includeLink {
      assert [] + [MERCHANT, AMOUNT] == [MERCHANT, AMOUNT];
    }
    hide IsDigit;
    var text := Trap(rest, includeLink);
    assert forall i :: 0 <= i < |text| ==> !IsDigit(text[i]);
    hide FoundFrom, Trap;
    var expected := RequiredPlaceholders(includeLink);
    assert forall s :: s in expected <==> s in [MERCHANT, AMOUNT] || (includeLink && s == LINK);
  }

  lemma SlotsCountOnce()
    ensures forall slot :: slot in [MERCHANT, AMOUNT] ==> Count([MERCHANT, AMOUNT], slot) == 1
    ensures forall slot :: slot in [MERCHANT, AMOUNT, LINK] ==> Count([LINK] + [MERCHANT, AMOUNT], slot) == 1
  {
    assert |MERCHANT| != |AMOUNT| && |MERCHANT| != |LINK| && |AMOUNT| != |LINK|;
    forall slot | slot in [MERCHANT, AMOUNT, LINK]
      ensures Count([MERCHANT, AMOUNT], slot) == if slot == LINK then 0 else 1
      ensures Count([LINK] + [MERCHANT, AMOUNT], slot) == 1
    {
      CountOfNext(MERCHANT, [AMOUNT], slot);
      CountOfNext(AMOUNT, [], slot);
      CountOfNext(LINK, [MERCHANT, AMOUNT], slot);
      assert [MERCHANT] + [AMOUNT] == [MERCHANT, AMOUNT] && [AMOUNT] + [] == [AMOUNT];
    }
  }

  lemma NoDigitsInSlots()
    ensures forall i :: 0 <= i < |MERCHANT| ==> !IsDigit(MERCHANT[i])
    ensures forall i :: 0 <= i < |AMOUNT| ==> !IsDigit(AMOUNT[i])
    ensures forall i :: 0 <= i < |LINK| ==> !IsDigit(LINK[i])
  {
  }

  /** The trap after the name is in. */
  function Named(name: string, rest: string, includeLink: bool): string {
    (if includeLink then LINK else []) + name + rest + AMOUNT
  }

  lemma TrapNamed(name: string, rest: string, includeLink: bool)
    requires '{' !in rest
    ensures ReplaceAll(Trap(rest, includeLink), MERCHANT, name) == Named(name, rest, includeLink)
    ensures !Clashes(name, AMOUNT) ==>
              forall money :: ReplaceAll(Named(name, rest, includeLink), AMOUNT, money) ==
                              (if includeLink then LINK else []) + name + rest + money
  {
    hide ReplaceAll, FillFrom, Clashes;
    var text, plain := Trap(rest, includeLink), Filling(MERCHANT, AMOUNT, LINK);
    var named := plain.(merchant := name);
    TrapScan(rest, includeLink, named);
    FillWithThemselves(text, 0);
    AllSlotsApart();
    assert text[0..] == text;
    ReplaceFills(text, 0, plain, MERCHANT, name);
    if !Clashes(name, AMOUNT) {
      forall money ensures ReplaceAll(Named(name, rest, includeLink), AMOUNT, money) ==
                           (if includeLink then LINK else []) + name + rest + money
      {
        ReplaceFills(text, 0, named, AMOUNT, money);
        TrapScan(rest, includeLink, named.(amount := money));
      }
    }
  }

  /** What the braces come to when every value is brace-free but the name: one for each brace of the name. */
  lemma MeantBraces(name: string, rest: string, includeLink: bool, money: string, link: string)
    requires '{' !in rest && '{' !in money && '{' !in link
    ensures Braces((if includeLink then link else []) + name + rest + money) == Braces(name)
    ensures Braces(Named(name, rest, includeLink)) == Braces(name) + (if includeLink then 2 else 1)
  {
    hide Braces;
    var front := if includeLink then link else [];
    BracesOfConcat(front + name + rest, money);
    BracesOfConcat(front + name, rest);
    BracesOfConcat(front, name);
    var slots := if includeLink then LINK else [];
    BracesOfConcat(slots + name + rest, AMOUNT);
    BracesOfConcat(slots + name, rest);
    BracesOfConcat(slots, name);
    NoBraces(rest);
    NoBraces(money);
    NoBraces(front);
    OneBrace(AMOUNT);
    OneBrace(LINK);
  }

  lemma OccursTwice(before: string, k: nat, slot: string)
    requires OccursAt(before, k, slot)
    ensures OccursAt(before + AMOUNT, k, slot)
    ensures OccursAt(before + AMOUNT, |before|, AMOUNT)
  {
    assert (before + AMOUNT)[k..k + |slot|] == before[k..k + |slot|];
    assert (before + AMOUNT)[|before|..|before| + |AMOUNT|] == AMOUNT;
  }

  /** If the name clashes with the amount slot, two amounts are put in. */
  lemma AmountHitsTwice(name: string, rest: string, includeLink: bool, k: nat)
    requires OccursAt(name + rest, k, AMOUNT)
    ensures Hits(Named(name, rest, includeLink), AMOUNT) >= 2
  {
    hide Hits;
    var front := if includeLink then LINK else [];
    var before := front + name + rest;
    assert before == front + (name + rest);
    assert before[|front| + k..|front| + k + |AMOUNT|] == (name + rest)[k..k + |AMOUNT|];
    OccursTwice(before, |front| + k, AMOUNT);
    OccurrencesAreHits(before + AMOUNT, AMOUNT, |front| + k, |before|);
  }

  lemma AmountHitsOnce(name: string, rest: string, includeLink: bool)
    ensures Hits(Named(name, rest, includeLink), AMOUNT) >= 1
  {
    hide Hits;
    var before := (if includeLink then LINK else []) + name + rest;
    assert (before + AMOUNT)[|before|..|before| + |AMOUNT|] == AMOUNT;
    OccurrencesAreHits(before + AMOUNT, AMOUNT, |before|, |before|);
  }

  /** The link slot stays in front, and another one is completed behind it if the name clashes with it alone. */
  lemma LinkHits(name: string, rest: string, money: string, k: nat)
    requires '{' !in rest && '{' !in money
    ensures Hits(ReplaceAll(Named(name, rest, true), AMOUNT, money), LINK) >= 1
    ensures !Clashes(name, AMOUNT) && OccursAt(name + rest, k, LINK) ==>
              Hits(ReplaceAll(Named(name, rest, true), AMOUNT, money), LINK) >= 2
  {
    hide Hits, ReplaceAll, Clashes;
    var named := Named(name, rest, true);
    SlotsNeverClash(LINK, AMOUNT);
    assert named == LINK + (name + rest + AMOUNT);
    ReplaceSkips(LINK, name + rest + AMOUNT, AMOUNT, money);
    var priced := ReplaceAll(named, AMOUNT, money);
    assert priced[0..|LINK|] == LINK;
    OccurrencesAreHits(priced, LINK, 0, 0);
    if !Clashes(name, AMOUNT) && OccursAt(name + rest, k, LINK) {
      TrapNamed(name, rest, true);
      assert priced == LINK + (name + rest) + money;
      assert priced[|LINK| + k..|LINK| + k + |LINK|] == (name + rest)[k..k + |LINK|];
      OccurrencesAreHits(priced, LINK, 0, |LINK| + k);
    }
  }

  /** Given a name that clashes, some well-formed template renders to something else than it means: too many braces
      are replaced. */
  lemma ClashBreaks(name: string, amountPaise: int, link: Option<string>)
    requires Clashes(name, AMOUNT) || (link.Some? && Clashes(name, LINK))
    requires link.Some? ==> '{' !in link.value
    ensures exists text :: WellFormed(text, link.Some?) &&
              Substituted(text, name, amountPaise, link) != FillFrom(text, 0, Meant(name, amountPaise, link))
  {
    hide ReplaceAll, FillFrom, FoundFrom, Clashes, Money, Braces, Hits, OccursAt, WellFormed, Trap, Named;
    var slot := if Clashes(name, AMOUNT) then AMOUNT else LINK;
    var rest, k := Completion(name, slot);
    var text, money := Trap(rest, link.Some?), Money(amountPaise);
    var named := Named(name, rest, link.Some?);
    TrapIsWellFormed(rest, link.Some?);
    TrapNamed(name, rest, link.Some?);
    TrapScan(rest, link.Some?, Meant(name, amountPaise, link));
    MoneyIsBraceFree(amountPaise);
    MeantBraces(name, rest, link.Some?, money, if link.Some? then link.value else []);
    EachHitTakesABrace(named, AMOUNT, money);
    AmountHitsOnce(name, rest, link.Some?);
    if slot == AMOUNT {
      AmountHitsTwice(name, rest, link.Some?, k);
    }
    if link.Some? {
      LinkHits(name, rest, money, k);
      EachHitTakesABrace(ReplaceAll(named, AMOUNT, money), LINK, link.value);
    }
    assert Braces(Substituted(text, name, amountPaise, link)) < Braces(name);
  }

  /** Without a link, a name is safe in every well-formed template exactly when it neither contains the amount
      slot nor ends with the beginning of one. */
  lemma NameIsSafeIff(name: string, amountPaise: int)
    ensures !Clashes(name, AMOUNT) <==>
              forall text :: WellFormed(text, false) ==>
                Substituted(text, name, amountPaise, None) == FillFrom(text, 0, Meant(name, amountPaise, None))
  {
    hide FillFrom, Substituted, Clashes, FoundFrom;
    if Clashes(name, AMOUNT) {
      ClashBreaks(name, amountPaise, None);
    } else {
      forall text | WellFormed(text, false)
        ensures Substituted(text, name, amountPaise, None) == FillFrom(text, 0, Meant(name, amountPaise, None))
      {
        SubstitutionFills(text, name, amountPaise, None);
      }
    }
  }

  /** With a link that has no opening brace of its own, exactly when it does so for neither slot. */
  lemma NameIsSafeWithLinkIff(name: string, amountPaise: int, link: string)
    requires '{' !in link
    ensures !Clashes(name, AMOUNT) && !Clashes(name, LINK) <==>
              forall text :: WellFormed(text, true) ==>
                Substituted(text, name, amountPaise, Some(link)) ==
                FillFrom(text, 0, Meant(name, amountPaise, Some(link)))
  {
    hide FillFrom, Substituted, Clashes, FoundFrom;
    if Clashes(name, AMOUNT) || Clashes(name, LINK) {
      ClashBreaks(name, amountPaise, Some(link));
    } else {
      forall text | WellFormed(text, true)
        ensures Substituted(text, name, amountPaise, Some(link)) ==
                FillFrom(text, 0, Meant(name, amountPaise, Some(link)))
      {
        SubstitutionFills(text, name, amountPaise, Some(link));
      }
    }
  }

  /** End to end: what an accepted template renders to means what it says, and its digits are those of the name,
      the amount and the link, in the order of their slots. */
  lemma AcceptedRendersFaithfully(template: string, h: Heuristics, request: Request, link: Option<string>)
    requires ValidateTemplate(template, request.includeLink, h).Ok?
    requires !Clashes(request.merchantName, AMOUNT) && (request.includeLink ==> !Clashes(request.merchantName, LINK))
    requires Render(ValidateTemplate(template, request.includeLink, h).value, request, link).Ok?
    ensures var text := ValidateTemplate(template, request.includeLink, h).value;
            var v := Meant(request.merchantName, request.amountPaise, if request.includeLink then link else None);
            var rendered := Render(text, request, link).value;
            && rendered == FillFrom(text, 0, v) && |rendered| <= request.cap
            && DigitsOf(rendered) == DigitsFilledIn(Found(text), v)
  {
    hide ValidateTemplate, Render, FillFrom, FoundFrom, DigitsOf, DigitsFilledIn, Clashes;
    AcceptedIsWellFormed(template, request.includeLink, h);
    var text := ValidateTemplate(template, request.includeLink, h).value;
    RenderFills(text, request, link);
    var used := if request.includeLink then link else None;
    DigitsComeFromValues(text, 0, Meant(request.merchantName, request.amountPaise, used));
  }
}
