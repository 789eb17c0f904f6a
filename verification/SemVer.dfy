/** Comparing agent versions: the implementation on digit strings against the precedence of Semantic Versioning 2.0.0
    on numbers, section 11 of that document. */
module SemVer {
  import opened Outcomes
  import opened Texts

  // ---------------------------------------------------------------------------------------------
  // Grammar
  // ---------------------------------------------------------------------------------------------

  predicate Digit(c: char) {
    '0' <= c <= '9'
  }

  predicate Letter(c: char) {
    'a' <= c <= 'z' || 'A' <= c <= 'Z' || c == '-'
  }

  predicate Digits(text: string) {
    forall i | 0 <= i < |text| :: Digit(text[i])
  }

  /** Digits without a leading zero. */
  predicate NumericIdentifier(text: string) {
    text != [] && Digits(text) && (text[0] == '0' ==> |text| == 1)
  }

  predicate BuildIdentifier(text: string) {
    text != [] && forall i | 0 <= i < |text| :: Digit(text[i]) || Letter(text[i])
  }

  predicate PreIdentifier(text: string) {
    BuildIdentifier(text) && (Digits(text) ==> NumericIdentifier(text))
  }

  /** The three core numbers, the identifiers of a pre-release, and the text of the build metadata. */
  datatype Parsed = Parsed(core: seq<string>, pre: seq<string>, build: Option<string>)

  function Parse(text: string): Parsed {
    var (plain, build) := SplitFirst(text, '+');
    var (core, pre) := SplitFirst(plain, '-');
    Parsed(Split(core, '.'), if pre.Some? then Split(pre.value, '.') else [], build)
  }

  predicate Valid(text: string) {
    var parsed := Parse(text);
    && |parsed.core| == 3 && (forall i | 0 <= i < 3 :: NumericIdentifier(parsed.core[i]))
    && (forall i | 0 <= i < |parsed.pre| :: PreIdentifier(parsed.pre[i]))
    && (parsed.build.Some? ==>
          forall i | 0 <= i < |Split(parsed.build.value, '.')| :: BuildIdentifier(Split(parsed.build.value, '.')[i]))
  }

  function WithoutBuild(text: string): string {
    SplitFirst(text, '+').0
  }

  /** A version as it is written. */
  function Written(parsed: Parsed): string {
    Join(parsed.core, '.')
    + (if parsed.pre == [] then "" else "-" + Join(parsed.pre, '.'))
    + (if parsed.build.Some? then "+" + parsed.build.value else "")
  }

  /** Parsing loses nothing, and the parts contain no separator that comes before or between them. */
  lemma ParsingReadsTheText(text: string)
    ensures var parsed := Parse(text);
      && Written(parsed) == text
      && (forall part | part in parsed.core :: '.' !in part && '-' !in part && '+' !in part)
      && (forall part | part in parsed.pre :: '.' !in part && '+' !in part)
  {
    var (plain, build) := SplitFirst(text, '+');
    var (core, pre) := SplitFirst(plain, '-');
    SplitFirstReadsTheText(text, '+');
    SplitFirstReadsTheText(plain, '-');
    SplitReadsTheText(core, '.');
    if pre.Some? {
      SplitReadsTheText(pre.value, '.');
    }
  }

  // ---------------------------------------------------------------------------------------------
  // Precedence
  // ---------------------------------------------------------------------------------------------

  datatype Identifier = Number(value: nat) | Word(text: string)

  datatype Version = Version(major: nat, minor: nat, patch: nat, pre: seq<Identifier>)

  /** Numbers rank below words, numbers by value, words by their characters. */
  function OrderIdentifier(a: Identifier, b: Identifier): int {
    match (a, b)
    case (Number(m), Number(n)) => Sign(m, n)
    case (Number(_), Word(_)) => -1
    case (Word(_), Number(_)) => 1
    case (Word(s), Word(t)) => OrderText(s, t)
  }

  /** Field by field; with all preceding fields equal the larger set ranks higher. */
  function OrderFields(a: seq<Identifier>, b: seq<Identifier>): int {
    if a == [] || b == [] then Sign(|a|, |b|)
    else if OrderIdentifier(a[0], b[0]) != 0 then OrderIdentifier(a[0], b[0])
    else OrderFields(a[1..], b[1..])
  }

  /** A version ranks above its pre-releases. */
  function OrderPre(a: seq<Identifier>, b: seq<Identifier>): int {
    if a == [] || b == [] then Sign(|b|, |a|) else OrderFields(a, b)
  }

  function Order(a: Version, b: Version): int {
    if a.major != b.major then Sign(a.major, b.major)
    else if a.minor != b.minor then Sign(a.minor, b.minor)
    else if a.patch != b.patch then Sign(a.patch, b.patch)
    else OrderPre(a.pre, b.pre)
  }

  // ---------------------------------------------------------------------------------------------
  // Meaning
  // ---------------------------------------------------------------------------------------------

  function Power(n: nat): (p: nat)
    ensures p >= 1
  {
    if n == 0 then 1 else 10 * Power(n - 1)
  }

  function Value(digits: string): nat
    requires Digits(digits)
  {
    if digits == [] then 0 else (digits[0] as int - '0' as int) * Power(|digits| - 1) + Value(digits[1..])
  }

  function Identify(text: string): Identifier {
    if Digits(text) then Number(Value(text)) else Word(text)
  }

  function IdentifyAll(texts: seq<string>): (all: seq<Identifier>)
    ensures |all| == |texts| && forall i | 0 <= i < |texts| :: all[i] == Identify(texts[i])
  {
    if texts == [] then [] else [Identify(texts[0])] + IdentifyAll(texts[1..])
  }

  function Meaning(text: string): Version
    requires Valid(text)
  {
    var parsed := Parse(text);
    Version(Value(parsed.core[0]), Value(parsed.core[1]), Value(parsed.core[2]), IdentifyAll(parsed.pre))
  }

  // ---------------------------------------------------------------------------------------------
  // Digit strings
  // ---------------------------------------------------------------------------------------------

  lemma TimesGrows(a: nat, b: nat, p: nat, r: nat, s: nat)
    requires a < b && r < p
    ensures a * p + r < b * p + s
  {
    assert a * p + p == (a + 1) * p;
    TimesKeepsOrder(a + 1, b, p);
  }

  lemma TimesKeepsOrder(a: nat, b: nat, p: nat)
    requires a <= b
    ensures a * p <= b * p
  {
    assert b * p == a * p + (b - a) * p;
  }

  lemma {:induction false} ValueIsBounded(digits: string)
    requires Digits(digits)
    ensures Value(digits) < Power(|digits|)
    ensures digits != [] && digits[0] != '0' ==> Value(digits) >= Power(|digits| - 1)
  {
    if digits != [] {
      var digit := digits[0] as int - '0' as int;
      var p := Power(|digits| - 1);
      ValueIsBounded(digits[1..]);
      assert digit * p <= 9 * p by {
        TimesKeepsOrder(digit, 9, p);
      }
      if digits[0] != '0' {
        TimesKeepsOrder(1, digit, p);
      }
    }
  }

  lemma {:induction false} PowerGrows(m: nat, n: nat)
    requires m <= n
    ensures Power(m) <= Power(n)
  {
    if m < n {
      PowerGrows(m, n - 1);
    }
  }

  /** On digit strings of one length the order of the characters is the order of the numbers. */
  lemma {:induction false} SameLengthOrder(a: string, b: string)
    requires Digits(a) && Digits(b) && |a| == |b|
    ensures OrderText(a, b) == Sign(Value(a), Value(b))
  {
    if a != [] {
      ValueIsBounded(a[1..]);
      ValueIsBounded(b[1..]);
      SameLengthOrder(a[1..], b[1..]);
      var p := Power(|a| - 1);
      var m, n := a[0] as int - '0' as int, b[0] as int - '0' as int;
      if m < n {
        TimesGrows(m, n, p, Value(a[1..]), Value(b[1..]));
      } else if n < m {
        TimesGrows(n, m, p, Value(b[1..]), Value(a[1..]));
      }
    }
  }

  function CompareNumeric(left: string, right: string): int {
    if |left| != |right| then Sign(|left|, |right|) else OrderText(left, right)
  }

  /** Length first, then characters: that is the numeric order of digit strings of any length without leading zeros. */
  lemma LengthThenTextIsNumeric(left: string, right: string)
    requires NumericIdentifier(left) && NumericIdentifier(right)
    ensures CompareNumeric(left, right) == Sign(Value(left), Value(right))
    ensures Value(left) == Value(right) <==> left == right
  {
    ValueIsBounded(left);
    ValueIsBounded(right);
    if |left| < |right| {
      PowerGrows(|left|, |right| - 1);
    } else if |right| < |left| {
      PowerGrows(|right|, |left| - 1);
    } else {
      SameLengthOrder(left, right);
      OrderTextIsTotal(left, right);
    }
  }

  // ---------------------------------------------------------------------------------------------
  // The comparison
  // ---------------------------------------------------------------------------------------------

  method Numeric(text: string) returns (numeric: bool)
    ensures numeric <==> Digits(text)
  {
    for index := 0 to |text|
      invariant forall i | 0 <= i < index :: Digit(text[i])
    {
      if text[index] < '0' || text[index] > '9' {
        return false;
      }
    }
    return true;
  }

  lemma DropFields(a: seq<string>, b: seq<string>, index: nat)
    requires index < |a| && index < |b|
    ensures OrderFields(IdentifyAll(a)[index..], IdentifyAll(b)[index..])
         == if OrderIdentifier(Identify(a[index]), Identify(b[index])) != 0
            then OrderIdentifier(Identify(a[index]), Identify(b[index]))
            else OrderFields(IdentifyAll(a)[index + 1..], IdentifyAll(b)[index + 1..])
  {
    assert IdentifyAll(a)[index..][1..] == IdentifyAll(a)[index + 1..];
    assert IdentifyAll(b)[index..][1..] == IdentifyAll(b)[index + 1..];
  }

  /** Compares the identifiers of two pre-releases. */
  method ComparePre(left: seq<string>, right: seq<string>) returns (compared: int)
    requires forall i | 0 <= i < |left| :: PreIdentifier(left[i])
    requires forall i | 0 <= i < |right| :: PreIdentifier(right[i])
    ensures compared == OrderPre(IdentifyAll(left), IdentifyAll(right))
  {
    if |left| == 0 && |right| == 0 {
      return 0;
    } else if |left| == 0 {
      return 1;
    } else if |right| == 0 {
      return -1;
    }
    var index := 0;
    while index < |left| && index < |right|
      invariant index <= |left| && index <= |right|
      invariant OrderFields(IdentifyAll(left), IdentifyAll(right))
             == OrderFields(IdentifyAll(left)[index..], IdentifyAll(right)[index..])
    {
      DropFields(left, right, index);
      var leftNumeric := Numeric(left[index]);
      var rightNumeric := Numeric(right[index]);
      if leftNumeric && rightNumeric {
        LengthThenTextIsNumeric(left[index], right[index]);
        compared := CompareNumeric(left[index], right[index]);
        if compared != 0 {
          return;
        }
      } else if leftNumeric {
        return -1;
      } else if rightNumeric {
        return 1;
      } else {
        OrderTextIsTotal(left[index], right[index]);
        compared := OrderText(left[index], right[index]);
        if compared != 0 {
          return;
        }
      }
      index := index + 1;
    }
    if |left| < |right| {
      return -1;
    } else if |left| > |right| {
      return 1;
    }
    return 0;
  }

  /** Compares two versions, or reports that one is not a version. */
  method Compare(current: string, latest: string) returns (result: Result<int>)
    ensures result.Err? <==> !Valid(current) || !Valid(latest)
    ensures result.Ok? ==> result.value == Order(Meaning(current), Meaning(latest))
  {
    if !Valid(current) || !Valid(latest) {
      return Err(Invalid);
    }
    var left, right := Parse(current), Parse(latest);
    for index := 0 to 3
      invariant forall i | 0 <= i < index :: left.core[i] == right.core[i]
    {
      LengthThenTextIsNumeric(left.core[index], right.core[index]);
      var compared := CompareNumeric(left.core[index], right.core[index]);
      if compared != 0 {
        return Ok(compared);
      }
    }
    var compared := ComparePre(left.pre, right.pre);
    return Ok(compared);
  }

  // ---------------------------------------------------------------------------------------------
  // The rules of section 11
  // ---------------------------------------------------------------------------------------------

  predicate SameCore(a: Version, b: Version) {
    a.major == b.major && a.minor == b.minor && a.patch == b.patch
  }

  /** Rule 2: the first difference in major, minor and patch decides, numerically. */
  lemma CoreDecides(a: Version, b: Version)
    requires !SameCore(a, b)
    ensures Order(a, b) != 0
    ensures Order(a, b) < 0 <==>
      || a.major < b.major
      || (a.major == b.major && a.minor < b.minor)
      || (a.major == b.major && a.minor == b.minor && a.patch < b.patch)
  {
  }

  /** Rule 3: a pre-release is lower than its version. */
  lemma PreReleaseIsLower(a: Version, b: Version)
    requires SameCore(a, b) && a.pre != [] && b.pre == []
    ensures Order(a, b) < 0 && Order(b, a) > 0
  {
  }

  /** Texts that differ first at `k`, or of which one ends there. */
  predicate DifferAt(s: string, t: string, k: nat) {
    && k <= |s| && k <= |t| && s[..k] == t[..k]
    && ((k == |s| && k < |t|) || (k < |s| && k < |t| && s[k] < t[k]))
  }

  /** The first difference of two texts, or the end of one, decides by the value of the characters. */
  ghost predicate TextBefore(s: string, t: string) {
    exists k: nat :: DifferAt(s, t, k)
  }

  lemma {:induction false} DifferenceDecides(s: string, t: string, k: nat)
    requires DifferAt(s, t, k)
    ensures OrderText(s, t) < 0
  {
    if k > 0 {
      assert s[0] == s[..k][0] == t[..k][0] == t[0];
      assert s[1..][..k - 1] == s[..k][1..] && t[1..][..k - 1] == t[..k][1..];
      DifferenceDecides(s[1..], t[1..], k - 1);
    }
  }

  lemma {:induction false} DifferenceIsFound(s: string, t: string) returns (k: nat)
    requires OrderText(s, t) < 0
    ensures DifferAt(s, t, k)
  {
    if s == [] || t == [] || s[0] != t[0] {
      k := 0;
    } else {
      k := DifferenceIsFound(s[1..], t[1..]);
      assert s[..k + 1] == [s[0]] + s[1..][..k] && t[..k + 1] == [t[0]] + t[1..][..k];
      k := k + 1;
    }
  }

  lemma TextsByFirstDifference(s: string, t: string)
    ensures OrderText(s, t) < 0 <==> TextBefore(s, t)
  {
    if OrderText(s, t) < 0 {
      var k := DifferenceIsFound(s, t);
    }
    if k: nat :| DifferAt(s, t, k) {
      DifferenceDecides(s, t, k);
    }
  }

  /** Rules 4.1 to 4.3: numbers by value, words by their characters, and numbers below words. */
  ghost predicate Lower(x: Identifier, y: Identifier) {
    match (x, y)
    case (Number(m), Number(n)) => m < n
    case (Number(_), Word(_)) => true
    case (Word(_), Number(_)) => false
    case (Word(s), Word(t)) => TextBefore(s, t)
  }

  lemma {:induction false} FieldsByFirstDifference(a: seq<Identifier>, b: seq<Identifier>, k: nat)
    requires k < |a| && k < |b| && a[..k] == b[..k] && a[k] != b[k]
    ensures OrderFields(a, b) != 0
    ensures OrderFields(a, b) < 0 <==> Lower(a[k], b[k])
  {
    if k == 0 {
      if a[0].Word? && b[0].Word? {
        TextsByFirstDifference(a[0].text, b[0].text);
        OrderTextIsTotal(a[0].text, b[0].text);
      }
    } else {
      assert a[0] == a[..k][0] == b[..k][0] == b[0];
      assert a[1..][..k - 1] == a[..k][1..] && b[1..][..k - 1] == b[..k][1..];
      if a[0].Word? {
        OrderTextIsTotal(a[0].text, a[0].text);
      }
      FieldsByFirstDifference(a[1..], b[1..], k - 1);
    }
  }

  /** Rule 4: between pre-releases of one version the first identifier that differs decides. */
  lemma FirstDifferenceDecides(a: Version, b: Version, k: nat)
    requires SameCore(a, b) && k < |a.pre| && k < |b.pre| && a.pre[..k] == b.pre[..k] && a.pre[k] != b.pre[k]
    ensures Order(a, b) != 0
    ensures Order(a, b) < 0 <==> Lower(a.pre[k], b.pre[k])
  {
    FieldsByFirstDifference(a.pre, b.pre, k);
  }

  lemma {:induction false} FewerFieldsAreLower(a: seq<Identifier>, b: seq<Identifier>)
    requires |a| < |b| && a == b[..|a|]
    ensures OrderFields(a, b) < 0
  {
    if a != [] {
      assert a[0] == b[0] && a[1..] == b[1..][..|a| - 1];
      if a[0].Word? {
        OrderTextIsTotal(a[0].text, a[0].text);
      }
      FewerFieldsAreLower(a[1..], b[1..]);
    }
  }

  /** Rule 4.4: with all preceding identifiers equal the larger set is higher. */
  lemma LargerSetIsHigher(a: Version, b: Version)
    requires SameCore(a, b) && a.pre != [] && |a.pre| < |b.pre| && a.pre == b.pre[..|a.pre|]
    ensures Order(a, b) < 0
  {
    FewerFieldsAreLower(a.pre, b.pre);
  }

  // ---------------------------------------------------------------------------------------------
  // A total preorder
  // ---------------------------------------------------------------------------------------------

  lemma {:induction false} OrderFieldsIsTotal(a: seq<Identifier>, b: seq<Identifier>)
    ensures OrderFields(a, b) == -OrderFields(b, a)
    ensures OrderFields(a, b) == 0 <==> a == b
  {
    if a != [] && b != [] {
      if a[0].Word? && b[0].Word? {
        OrderTextIsTotal(a[0].text, b[0].text);
      }
      OrderFieldsIsTotal(a[1..], b[1..]);
      assert a == [a[0]] + a[1..] && b == [b[0]] + b[1..];
    }
  }

  lemma OrderIdentifierIsTransitive(a: Identifier, b: Identifier, c: Identifier)
    requires OrderIdentifier(a, b) <= 0 && OrderIdentifier(b, c) <= 0
    ensures OrderIdentifier(a, c) <= 0
    ensures OrderIdentifier(a, c) == 0 ==> a == b == c
  {
    if a.Word? && b.Word? && c.Word? {
      OrderTextIsTransitive(a.text, b.text, c.text);
      OrderTextIsTotal(a.text, b.text);
      OrderTextIsTotal(b.text, c.text);
      OrderTextIsTotal(a.text, c.text);
    }
  }

  lemma {:induction false} OrderFieldsIsTransitive(a: seq<Identifier>, b: seq<Identifier>, c: seq<Identifier>)
    requires OrderFields(a, b) <= 0 && OrderFields(b, c) <= 0
    ensures OrderFields(a, c) <= 0
  {
    if a != [] && b != [] && c != [] {
      OrderIdentifierIsTransitive(a[0], b[0], c[0]);
      if a[0] == b[0] == c[0] {
        if a[0].Word? {
          OrderTextIsTotal(a[0].text, a[0].text);
        }
        OrderFieldsIsTransitive(a[1..], b[1..], c[1..]);
      }
    }
  }

  /** Precedence is total and antisymmetric: versions of equal rank have the same numbers and identifiers. */
  lemma OrderIsTotal(a: Version, b: Version)
    ensures Order(a, b) == -Order(b, a)
    ensures Order(a, b) == 0 <==> a == b
  {
    OrderFieldsIsTotal(a.pre, b.pre);
  }

  lemma OrderIsTransitive(a: Version, b: Version, c: Version)
    requires Order(a, b) <= 0 && Order(b, c) <= 0
    ensures Order(a, c) <= 0
  {
    if a.pre != [] && b.pre != [] && c.pre != [] && Order(a, b) <= 0 {
      if OrderFields(a.pre, b.pre) <= 0 && OrderFields(b.pre, c.pre) <= 0 {
        OrderFieldsIsTransitive(a.pre, b.pre, c.pre);
      }
    }
  }

  lemma IdentifyAllIsInjective(a: seq<string>, b: seq<string>)
    requires forall i | 0 <= i < |a| :: PreIdentifier(a[i])
    requires forall i | 0 <= i < |b| :: PreIdentifier(b[i])
    requires IdentifyAll(a) == IdentifyAll(b)
    ensures a == b
  {
    forall i | 0 <= i < |a|
      ensures a[i] == b[i]
    {
      assert IdentifyAll(a)[i] == IdentifyAll(b)[i];
      if Digits(a[i]) && Digits(b[i]) {
        LengthThenTextIsNumeric(a[i], b[i]);
      }
    }
  }

  /** Two versions compare as equal exactly when they differ in build metadata at most. */
  lemma EqualUpToBuild(a: string, b: string)
    requires Valid(a) && Valid(b)
    ensures Order(Meaning(a), Meaning(b)) == 0 <==> WithoutBuild(a) == WithoutBuild(b)
  {
    OrderIsTotal(Meaning(a), Meaning(b));
    if Meaning(a) == Meaning(b) {
      var p, q := Parse(a), Parse(b);
      LengthThenTextIsNumeric(p.core[0], q.core[0]);
      LengthThenTextIsNumeric(p.core[1], q.core[1]);
      LengthThenTextIsNumeric(p.core[2], q.core[2]);
      IdentifyAllIsInjective(p.pre, q.pre);
      assert p.core == q.core;
      PlainIsInjective(WithoutBuild(a), WithoutBuild(b));
    }
  }

  lemma PlainIsInjective(a: string, b: string)
    requires Split(SplitFirst(a, '-').0, '.') == Split(SplitFirst(b, '-').0, '.')
    requires var p, q := SplitFirst(a, '-').1, SplitFirst(b, '-').1;
             (if p.Some? then Split(p.value, '.') else []) == (if q.Some? then Split(q.value, '.') else [])
    ensures a == b
  {
    var (core, pre) := SplitFirst(a, '-');
    var (core', pre') := SplitFirst(b, '-');
    SplitIsInjective(core, core', '.');
    if pre.Some? && pre'.Some? {
      SplitIsInjective(pre.value, pre'.value, '.');
    }
    SplitFirstIsInjective(a, b, '-');
  }
}
