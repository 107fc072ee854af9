/** What canonical texts look like: their characters, and the order of their keys. */
module CanonicalLayout {
  import opened Texts
  import opened Canonical
  import opened CanonicalParser

  // ---- The order of keys ----

  predicate AgreeUpTo(a: Text, b: Text, k: nat) {
    k <= |a| && k < |b| && a[..k] == b[..k]
  }

  /** The texts agree up to some place; there the first one ends, or its code unit is the smaller number. */
  predicate ComesBefore(a: Text, b: Text) {
    exists k: nat | k < |b| :: AgreeUpTo(a, b, k) && (k == |a| || a[k] < b[k])
  }

  lemma {:induction false} LessComesBefore(a: Text, b: Text)
    requires Less(a, b)
    ensures ComesBefore(a, b)
    decreases |a|
  {
    if a == [] || a[0] < b[0] {
      assert AgreeUpTo(a, b, 0);
    } else {
      LessComesBefore(a[1..], b[1..]);
      var k: nat :| k < |b[1..]| && AgreeUpTo(a[1..], b[1..], k) && (k == |a[1..]| || a[1..][k] < b[1..][k]);
      assert a[..k + 1] == [a[0]] + a[1..][..k] && b[..k + 1] == [b[0]] + b[1..][..k];
      assert AgreeUpTo(a, b, k + 1);
    }
  }

  /** In every object of the value, however deep, each key comes before all keys behind it. */
  ghost predicate KeysInOrder(v: Json) {
    match v
    case Arr(xs) => forall i | 0 <= i < |xs| :: KeysInOrder(xs[i])
    case Obj(ms) =>
      && (forall i, j | 0 <= i < j < |ms| :: ComesBefore(ms[i].name, ms[j].name))
      && forall i | 0 <= i < |ms| :: KeysInOrder(ms[i].value)
    case _ => true
  }

  lemma {:induction false} CanonInOrder(v: Json)
    requires Valid(v)
    ensures KeysInOrder(Canon(v))
    decreases v
  {
    match v
    case Arr(xs) =>
      forall i | 0 <= i < |xs| ensures KeysInOrder(CanonAll(xs)[i]) { CanonInOrder(xs[i]); }
    case Obj(ms) =>
      var cs := CanonMembers(ms);
      var ss := Sort(cs);
      SortOrdered(cs);
      SortMembers(cs);
      forall i, j | 0 <= i < j < |ss| ensures ComesBefore(ss[i].name, ss[j].name) {
        LessComesBefore(ss[i].name, ss[j].name);
      }
      forall i | 0 <= i < |ss| ensures KeysInOrder(ss[i].value) {
        assert ss[i] in Members(ss);
        var k :| 0 <= k < |cs| && cs[k] == ss[i];
        CanonInOrder(ms[k].value);
      }
    case _ =>
  }

  /** Read back, the canonical text of a value is the same value up to the order of keys, and in every object the
      keys stand in the order of their code units. */
  lemma StableTextInOrder(v: Json)
    requires Valid(v)
    ensures ParseValue(StableStringify(v)).Done? && ParseValue(StableStringify(v)).rest == []
    ensures var w := ParseValue(StableStringify(v)).value; KeysInOrder(w) && Valid(w) && Equivalent(v, w)
  {
    StableRoundTrip(v);
    CanonInOrder(v);
    CanonValid(v);
    CanonIdempotent(v);
    CanonIffEquivalent(v, Canon(v));
  }

  lemma {:induction false} CanonIdempotent(v: Json)
    requires Valid(v)
    ensures Canon(Canon(v)) == Canon(v)
    decreases v
  {
    match v
    case Arr(xs) =>
      forall i | 0 <= i < |xs| ensures Canon(CanonAll(xs)[i]) == CanonAll(xs)[i] { CanonIdempotent(xs[i]); }
      assert CanonAll(CanonAll(xs)) == CanonAll(xs);
    case Obj(ms) =>
      var cs := CanonMembers(ms);
      var ss := Sort(cs);
      SortOrdered(cs);
      SortMembers(cs);
      forall i | 0 <= i < |ss| ensures Canon(ss[i].value) == ss[i].value {
        assert ss[i] in Members(ss);
        var k :| 0 <= k < |cs| && cs[k] == ss[i];
        CanonIdempotent(ms[k].value);
      }
      assert CanonMembers(ss) == ss;
      OrderedIsSorted(ss);
    case _ =>
  }

  lemma OrderedIsSorted(ms: seq<Named<Json>>)
    requires Ordered(ms)
    ensures Sort(ms) == ms
  {
    forall i, j | 0 <= i < j < |ms| ensures ms[i].name != ms[j].name {
      LessIrreflexive(ms[i].name);
    }
    SortOrdered(ms);
    SortMembers(ms);
    OrderedUnique(Sort(ms), ms);
  }

  // ---- The characters ----

  /** The elements of an array, and the members of an object, as texts. */
  function Elements(xs: seq<Json>): Text {
    if xs == [] then [] else if |xs| == 1 then Print(xs[0]) else Print(xs[0]) + Ascii(",") + Elements(xs[1..])
  }

  function MemberText(m: Named<Json>): Text { Print(Str(m.name)) + Ascii(":") + Print(m.value) }

  function MemberTexts(ms: seq<Named<Json>>): Text {
    if ms == [] then [] else if |ms| == 1 then MemberText(ms[0]) else MemberText(ms[0]) + Ascii(",") + MemberTexts(ms[1..])
  }

  lemma {:induction false} ElementsJoined(xs: seq<Json>)
    ensures Join(PrintAll(xs)) == Elements(xs)
    decreases |xs|
  {
    if |xs| > 1 {
      ElementsJoined(xs[1..]);
      assert PrintAll(xs)[0] == Print(xs[0]) && PrintAll(xs)[1..] == PrintAll(xs[1..]);
      assert Ascii(",") == [COMMA];
    }
  }

  lemma {:induction false} MembersJoined(ms: seq<Named<Json>>)
    ensures Join(Pairs(PrintMembers(ms))) == MemberTexts(ms)
    decreases |ms|
  {
    if ms != [] {
      FirstPair(ms);
      MembersJoined(ms[1..]);
      assert Ascii(",") == [COMMA];
    }
  }

  lemma FirstPair(ms: seq<Named<Json>>)
    requires ms != []
    ensures Pairs(PrintMembers(ms))[0] == MemberText(ms[0]) && Pairs(PrintMembers(ms))[1..] == Pairs(PrintMembers(ms[1..]))
  {
    assert PrintMembers(ms)[0] == Named(ms[0].name, Print(ms[0].value)) && PrintMembers(ms)[1..] == PrintMembers(ms[1..]);
    assert Ascii(":") == [COLON];
  }

  /** The words, the arrays and the objects of JSON (sections 3 to 5 of RFC 8259), without white space. */
  lemma PrintedWords(d: Text)
    ensures Print(Null) == Ascii("null") && Print(Bool(true)) == Ascii("true") && Print(Bool(false)) == Ascii("false")
    ensures Print(Num(d)) == d
  {
  }

  lemma PrintedArray(xs: seq<Json>)
    ensures Print(Arr(xs)) == Ascii("[") + Elements(xs) + Ascii("]")
  {
    ElementsJoined(xs);
    assert Ascii("[") == [OPEN_BRACKET] && Ascii("]") == [CLOSE_BRACKET];
  }

  lemma PrintedObject(ms: seq<Named<Json>>)
    ensures Print(Obj(ms)) == Ascii("{") + MemberTexts(ms) + Ascii("}")
  {
    MembersJoined(ms);
    assert Ascii("{") == [OPEN_BRACE] && Ascii("}") == [CLOSE_BRACE];
  }

  /** The hexadecimal digits of a code unit. */
  function HexDigits(u: Unit): Text {
    var digits := Ascii("0123456789abcdef");
    [digits[u / 0x1000], digits[u / 0x100 % 0x10], digits[u / 0x10 % 0x10], digits[u % 0x10]]
  }

  /** A code unit in a string: quotation mark and backslash behind a backslash; the five control characters that
      have a letter by their letter, the others, and lone surrogates, by their digits; all else as it is
      (section 7 of RFC 8259, and section 25.5.2 of ECMA-262). */
  function UnitText(u: Unit): Text {
    if u == 0x22 then Ascii("\\\"") else if u == 0x5C then Ascii("\\\\")
    else if u == 0x08 then Ascii("\\b") else if u == 0x0C then Ascii("\\f") else if u == 0x0A then Ascii("\\n")
    else if u == 0x0D then Ascii("\\r") else if u == 0x09 then Ascii("\\t")
    else if u < 0x20 || 0xD800 <= u <= 0xDFFF then Ascii("\\u") + HexDigits(u)
    else [u]
  }

  /** The characters of a string; a surrogate pair stays as it is. */
  function Chars(s: Text): Text {
    if s == [] then []
    else if 0xD800 <= s[0] <= 0xDBFF && |s| > 1 && 0xDC00 <= s[1] <= 0xDFFF then s[..2] + Chars(s[2..])
    else UnitText(s[0]) + Chars(s[1..])
  }

  lemma HexDigitsAre(u: Unit)
    ensures Hex4(u) == HexDigits(u)
  {
    var digits := Ascii("0123456789abcdef");
    forall n: nat | n < 16 ensures digits[n] == HexDigit(n) {
      DigitIs(n);
    }
    assert u / 16 / 16 / 16 == u / 0x1000 && u / 16 / 16 == u / 0x100;
  }

  lemma DigitIs(n: nat)
    requires n < 16
    ensures Ascii("0123456789abcdef")[n] == HexDigit(n)
  {
    var s := "0123456789abcdef";
    if n < 8 {
      assert n == 0 || n == 1 || n == 2 || n == 3 || n == 4 || n == 5 || n == 6 || n == 7;
    } else {
      assert n == 8 || n == 9 || n == 10 || n == 11 || n == 12 || n == 13 || n == 14 || n == 15;
    }
  }

  lemma ShortEscaped(u: Unit)
    requires ShortEscape(u) != 0
    ensures EscapeUnit(u) == UnitText(u)
  {
  }

  lemma UnitPrinted(u: Unit)
    ensures EscapeUnit(u) == UnitText(u)
  {
    if ShortEscape(u) != 0 {
      ShortEscaped(u);
    } else {
      HexDigitsAre(u);
      assert Ascii("\\u") == [BACKSLASH, 'u' as int];
    }
  }

  lemma {:induction false} CharsPrinted(s: Text)
    ensures Escape(s) == Chars(s)
    decreases |s|
  {
    if s != [] {
      UnitPrinted(s[0]);
      CharsPrinted(s[1..]);
      if |s| > 1 {
        CharsPrinted(s[2..]);
        assert s[..2] == [s[0], s[1]];
      }
    }
  }

  /** A string is printed between quotation marks with these characters. */
  lemma PrintedString(s: Text)
    ensures Print(Str(s)) == Ascii("\"") + Chars(s) + Ascii("\"")
  {
    CharsPrinted(s);
    assert Ascii("\"") == [QUOTE];
  }
}
