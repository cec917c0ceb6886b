/** Fields joined by a separator, how often the separator occurs in the text, and when the fields can be told from
    it: exactly when none of them contains it. */
module JoinedText {

  function Join(fields: seq<string>, sep: char): string {
    if fields == [] then []
    else if |fields| == 1 then fields[0]
    else fields[0] + [sep] + Join(fields[1..], sep)
  }

  lemma JoinOne(field: string, sep: char)
    ensures Join([field], sep) == field
  {
  }

  lemma JoinMore(field: string, rest: seq<string>, sep: char)
    requires rest != []
    ensures Join([field] + rest, sep) == field + [sep] + Join(rest, sep)
  {
    assert ([field] + rest)[1..] == rest;
  }

  ghost predicate Plain(fields: seq<string>, sep: char) {
    forall i :: 0 <= i < |fields| ==> sep !in fields[i]
  }

  function Occurrences(s: string, c: char): nat {
    if s == [] then 0 else (if s[0] == c then 1 else 0) + Occurrences(s[1..], c)
  }

  function OccurrencesIn(fields: seq<string>, c: char): nat {
    if fields == [] then 0 else Occurrences(fields[0], c) + OccurrencesIn(fields[1..], c)
  }

  lemma {:induction false} OccurrencesOfConcat(a: string, b: string, c: char)
    ensures Occurrences(a + b, c) == Occurrences(a, c) + Occurrences(b, c)
  {
    if a == [] {
      assert a + b == b;
    } else {
      OccurrencesOfConcat(a[1..], b, c);
      assert (a + b)[1..] == a[1..] + b;
    }
  }

  lemma {:induction false} PlainMeansNone(s: string, c: char)
    ensures Occurrences(s, c) == 0 <==> c !in s
  {
    if s != [] {
      PlainMeansNone(s[1..], c);
      assert s == [s[0]] + s[1..];
    }
  }

  lemma {:induction false} NoneInPlainFields(fields: seq<string>, c: char)
    ensures OccurrencesIn(fields, c) == 0 <==> Plain(fields, c)
  {
    if fields != [] {
      NoneInPlainFields(fields[1..], c);
      PlainMeansNone(fields[0], c);
      assert fields == [fields[0]] + fields[1..];
    }
  }

  lemma {:induction false} OccurrencesOfJoin(fields: seq<string>, sep: char)
    requires fields != []
    ensures Occurrences(Join(fields, sep), sep) == OccurrencesIn(fields, sep) + |fields| - 1
  {
    if |fields| == 1 {
      assert fields[1..] == [];
    } else {
      var rest := Join(fields[1..], sep);
      OccurrencesOfJoin(fields[1..], sep);
      OccurrencesOfConcat(fields[0] + [sep], rest, sep);
      OccurrencesOfConcat(fields[0], [sep], sep);
      assert [sep][1..] == [];
    }
  }

  /** The first separator ends the first field. */
  lemma FirstField(a: string, r: string, b: string, s: string, sep: char)
    requires sep !in a && sep !in b && a + [sep] + r == b + [sep] + s
    ensures a == b && r == s
  {
    var text := a + [sep] + r;
    forall i | 0 <= i < |a| ensures text[i] != sep {
      assert text[i] == a[i];
    }
    forall i | 0 <= i < |b| ensures text[i] != sep {
      assert text[i] == b[i];
    }
    assert text[|a|] == sep && text[|b|] == sep;
    assert text[..|a|] == a && text[|a| + 1..] == r;
    assert text[..|b|] == b && text[|b| + 1..] == s;
  }

  lemma {:induction false} JoinIsInjective(a: seq<string>, b: seq<string>, sep: char)
    requires |a| == |b| && Plain(a, sep) && Plain(b, sep) && Join(a, sep) == Join(b, sep)
    ensures a == b
  {
    if |a| == 1 {
      assert a == [a[0]] && b == [b[0]];
    } else if |a| > 1 {
      FirstField(a[0], Join(a[1..], sep), b[0], Join(b[1..], sep), sep);
      JoinIsInjective(a[1..], b[1..], sep);
      assert a == [a[0]] + a[1..] && b == [b[0]] + b[1..];
    }
  }

  /** Plain fields are told from their text even among fields that need not be plain. */
  lemma PlainFieldsAreDetermined(a: seq<string>, b: seq<string>, sep: char)
    requires |a| == |b| > 0 && Plain(a, sep) && Join(a, sep) == Join(b, sep)
    ensures a == b
  {
    OccurrencesOfJoin(a, sep);
    OccurrencesOfJoin(b, sep);
    NoneInPlainFields(a, sep);
    NoneInPlainFields(b, sep);
    JoinIsInjective(a, b, sep);
  }

  lemma {:induction false} JoinOfConcat(a: seq<string>, b: seq<string>, sep: char)
    requires a != [] && b != []
    ensures Join(a + b, sep) == Join(a, sep) + [sep] + Join(b, sep)
  {
    if |a| == 1 {
      assert (a + b)[1..] == b;
    } else {
      JoinOfConcat(a[1..], b, sep);
      assert (a + b)[1..] == a[1..] + b;
      assert a[0] + [sep] + (Join(a[1..], sep) + [sep] + Join(b, sep)) ==
             a[0] + [sep] + Join(a[1..], sep) + [sep] + Join(b, sep);
    }
  }

  /** Moving a separator from inside one field to inside its neighbour changes the fields and not the text. */
  lemma SeparatorMoves(before: seq<string>, x: string, y: string, z: string, after: seq<string>, sep: char)
    ensures Join(before + [x + [sep] + y, z] + after, sep) == Join(before + [x, y + [sep] + z] + after, sep)
    ensures x + [sep] + y != x
  {
    var left, right := [x + [sep] + y, z], [x, y + [sep] + z];
    MiddleText(x, y, z, sep);
    if before == [] && after == [] {
      assert before + left + after == left && before + right + after == right;
    } else if before == [] {
      JoinOfConcat(left, after, sep);
      JoinOfConcat(right, after, sep);
      assert before + left + after == left + after && before + right + after == right + after;
    } else if after == [] {
      JoinOfConcat(before, left, sep);
      JoinOfConcat(before, right, sep);
      assert before + left + after == before + left && before + right + after == before + right;
    } else {
      JoinOfConcat(before + left, after, sep);
      JoinOfConcat(before + right, after, sep);
      JoinOfConcat(before, left, sep);
      JoinOfConcat(before, right, sep);
    }
  }

  lemma MiddleText(x: string, y: string, z: string, sep: char)
    ensures Join([x + [sep] + y, z], sep) == Join([x, y + [sep] + z], sep)
  {
    assert [x + [sep] + y, z][1..] == [z] && [x, y + [sep] + z][1..] == [y + [sep] + z];
    assert Join([x + [sep] + y, z], sep) == (x + [sep] + y) + [sep] + z;
    assert Join([x, y + [sep] + z], sep) == x + [sep] + (y + [sep] + z);
    assert (x + [sep] + y) + [sep] + z == x + [sep] + (y + [sep] + z);
  }

  lemma SplitAt(s: string, sep: char) returns (x: string, y: string)
    requires sep in s
    ensures s == x + [sep] + y
  {
    var i :| 0 <= i < |s| && s[i] == sep;
    x, y := s[..i], s[i + 1..];
  }
}
