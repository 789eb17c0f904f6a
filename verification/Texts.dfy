/** Byte-wise order of strings, and splitting them. */
module Texts {
  import opened Outcomes

  function Sign(a: int, b: int): int {
    if a < b then -1 else if a > b then 1 else 0
  }

  /** The order of Go's string comparison: -1, 0 or 1. */
  function OrderText(a: string, b: string): int {
    if a == [] || b == [] then Sign(|a|, |b|)
    else if a[0] != b[0] then Sign(a[0] as int, b[0] as int)
    else OrderText(a[1..], b[1..])
  }

  lemma {:induction false} OrderTextIsTotal(a: string, b: string)
    ensures OrderText(a, b) == -OrderText(b, a)
    ensures OrderText(a, b) == 0 <==> a == b
  {
    if a != [] && b != [] && a[0] == b[0] {
      OrderTextIsTotal(a[1..], b[1..]);
      assert a == [a[0]] + a[1..] && b == [b[0]] + b[1..];
    }
  }

  lemma {:induction false} OrderTextIsTransitive(a: string, b: string, c: string)
    requires OrderText(a, b) <= 0 && OrderText(b, c) <= 0
    ensures OrderText(a, c) <= 0
  {
    if a != [] && b != [] && c != [] && a[0] == b[0] == c[0] {
      OrderTextIsTransitive(a[1..], b[1..], c[1..]);
    }
  }

  /** The text up to a character, and what follows it if it occurs. */
  function SplitFirst(text: string, at: char): (string, Option<string>) {
    if text == [] then ([], None)
    else if text[0] == at then ([], Some(text[1..]))
    else
      var (head, tail) := SplitFirst(text[1..], at);
      ([text[0]] + head, tail)
  }

  /** All parts between the occurrences of a character. */
  function Split(text: string, at: char): (parts: seq<string>)
    ensures |parts| >= 1
  {
    if text == [] then [[]]
    else
      var rest := Split(text[1..], at);
      if text[0] == at then [[]] + rest else [[text[0]] + rest[0]] + rest[1..]
  }

  function Join(parts: seq<string>, at: char): string {
    if parts == [] then "" else if |parts| == 1 then parts[0] else parts[0] + [at] + Join(parts[1..], at)
  }

  lemma {:induction false} SplitFirstReadsTheText(text: string, at: char)
    ensures var (head, tail) := SplitFirst(text, at);
      && at !in head && (forall c | c in head :: c in text)
      && text == head + (if tail.Some? then [at] + tail.value else "")
      && (tail.Some? ==> forall c | c in tail.value :: c in text)
  {
    if text != [] {
      SplitFirstReadsTheText(text[1..], at);
      assert text == [text[0]] + text[1..];
    }
  }

  lemma JoinBegins(part: string, parts: seq<string>, at: char)
    requires parts != []
    ensures Join([part] + parts, at) == part + [at] + Join(parts, at)
  {
    assert ([part] + parts)[1..] == parts;
  }

  lemma JoinGrows(c: char, parts: seq<string>, at: char)
    requires parts != []
    ensures Join([[c] + parts[0]] + parts[1..], at) == [c] + Join(parts, at)
  {
    if |parts| > 1 {
      JoinBegins([c] + parts[0], parts[1..], at);
      assert [c] + parts[0] + [at] + Join(parts[1..], at) == [c] + (parts[0] + [at] + Join(parts[1..], at));
    }
  }

  lemma {:induction false} JoiningSplitParts(text: string, at: char)
    ensures Join(Split(text, at), at) == text
  {
    if text != [] {
      JoiningSplitParts(text[1..], at);
      var rest := Split(text[1..], at);
      hide Join;
      if text[0] == at {
        JoinBegins([], rest, at);
        assert [] + [at] + text[1..] == text;
      } else {
        JoinGrows(text[0], rest, at);
        assert [text[0]] + text[1..] == text;
      }
    }
  }

  /** A part of a text without the separator. */
  ghost predicate PartOf(part: string, text: string, at: char) {
    at !in part && forall c | c in part :: c in text
  }

  lemma {:induction false} SplitPartsAreParts(text: string, at: char, i: nat)
    requires i < |Split(text, at)|
    ensures PartOf(Split(text, at)[i], text, at)
  {
    if text != [] {
      var rest := Split(text[1..], at);
      assert text == [text[0]] + text[1..];
      if text[0] == at {
        if i > 0 {
          SplitPartsAreParts(text[1..], at, i - 1);
        }
      } else {
        SplitPartsAreParts(text[1..], at, i);
      }
    }
  }

  lemma SplitReadsTheText(text: string, at: char)
    ensures Join(Split(text, at), at) == text
    ensures forall part | part in Split(text, at) :: PartOf(part, text, at)
  {
    JoiningSplitParts(text, at);
    forall part | part in Split(text, at)
      ensures PartOf(part, text, at)
    {
      var i :| 0 <= i < |Split(text, at)| && Split(text, at)[i] == part;
      SplitPartsAreParts(text, at, i);
    }
  }

  lemma {:induction false} SplitFirstIsInjective(a: string, b: string, at: char)
    requires SplitFirst(a, at) == SplitFirst(b, at)
    ensures a == b
  {
    if a != [] && b != [] {
      assert a == [a[0]] + a[1..] && b == [b[0]] + b[1..];
      if a[0] != at && b[0] != at {
        assert ([a[0]] + SplitFirst(a[1..], at).0)[1..] == SplitFirst(a[1..], at).0;
        assert ([b[0]] + SplitFirst(b[1..], at).0)[1..] == SplitFirst(b[1..], at).0;
        SplitFirstIsInjective(a[1..], b[1..], at);
      }
    }
  }

  lemma FirstPart(text: string, at: char)
    requires text != []
    ensures Split(text, at)[0] == [] <==> text[0] == at
  {
  }

  lemma NonEmptySplit(text: string, at: char)
    requires text != []
    ensures Split(text, at) != [[]]
  {
  }

  lemma {:induction false} SplitIsInjective(a: string, b: string, at: char)
    requires Split(a, at) == Split(b, at)
    ensures a == b
  {
    if a != [] && b != [] {
      assert a == [a[0]] + a[1..] && b == [b[0]] + b[1..];
      var p, q := Split(a[1..], at), Split(b[1..], at);
      FirstPart(a, at);
      FirstPart(b, at);
      if a[0] == at && b[0] == at {
        assert ([[]] + p)[1..] == p && ([[]] + q)[1..] == q;
        SplitIsInjective(a[1..], b[1..], at);
      } else if a[0] != at && b[0] != at {
        assert Split(a, at)[0] == [a[0]] + p[0] && Split(b, at)[0] == [b[0]] + q[0];
        assert Split(a, at)[1..] == p[1..] && Split(b, at)[1..] == q[1..];
        assert ([a[0]] + p[0])[1..] == p[0] && ([b[0]] + q[0])[1..] == q[0];
        assert p == [p[0]] + p[1..] && q == [q[0]] + q[1..];
        SplitIsInjective(a[1..], b[1..], at);
      }
    } else if a != [] {
      NonEmptySplit(a, at);
    } else if b != [] {
      NonEmptySplit(b, at);
    }
  }
}
