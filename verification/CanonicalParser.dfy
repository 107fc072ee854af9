/** A parser for the texts that the canonical printer produces, and what it recovers from them. */
module CanonicalParser {
  import opened Texts
  import opened Canonical

  datatype Parsed<T> = Fail | Done(value: T, rest: Text)

  // ---- Strings ----

  function HexValue(u: Unit): Parsed<nat> {
    if IsDigit(u) then Done(u - '0' as int, [])
    else if 'a' as int <= u <= 'f' as int then Done(u - 'a' as int + 10, []) else Fail
  }

  function Unescape(t: Text): (r: Parsed<Unit>)
    requires t != [] && t[0] == BACKSLASH
    ensures r.Done? ==> |r.rest| < |t|
  {
    if |t| < 2 then Fail
    else if t[1] == QUOTE || t[1] == BACKSLASH then Done(t[1], t[2..])
    else if t[1] == 'b' as int then Done(8, t[2..]) else if t[1] == 'f' as int then Done(12, t[2..])
    else if t[1] == 'n' as int then Done(10, t[2..]) else if t[1] == 'r' as int then Done(13, t[2..])
    else if t[1] == 't' as int then Done(9, t[2..])
    else if t[1] == 'u' as int && |t| >= 6 && HexValue(t[2]).Done? && HexValue(t[3]).Done? && HexValue(t[4]).Done? && HexValue(t[5]).Done?
    then Done(Hex(t[2..6]), t[6..])
    else Fail
  }

  function Hex(h: Text): Unit
    requires |h| == 4 && forall i | 0 <= i < 4 :: HexValue(h[i]).Done?
  {
    var v := ((HexValue(h[0]).value * 16 + HexValue(h[1]).value) * 16 + HexValue(h[2]).value) * 16 + HexValue(h[3]).value;
    if v < 0x10000 then v else 0
  }

  /** The rest of a string, after its opening quote. */
  function ParseChars(t: Text): (r: Parsed<Text>)
    ensures r.Done? ==> |r.rest| < |t|
    decreases |t|
  {
    if t == [] then Fail
    else if t[0] == QUOTE then Done([], t[1..])
    else if t[0] == BACKSLASH then
      (match Unescape(t)
       case Fail => Fail
       case Done(u, rest) => Prepend(u, ParseChars(rest)))
    else if t[0] < 32 then Fail
    else Prepend(t[0], ParseChars(t[1..]))
  }

  function Prepend(u: Unit, p: Parsed<Text>): Parsed<Text> {
    match p case Fail => Fail case Done(s, rest) => Done([u] + s, rest)
  }

  lemma DigitRoundTrip(n: nat)
    requires n < 16
    ensures HexValue(HexDigit(n)) == Done(n, [])
  {}

  lemma HexRoundTrip(u: Unit)
    ensures forall i | 0 <= i < 4 :: HexValue(Hex4(u)[i]).Done?
    ensures Hex(Hex4(u)) == u
  {
    var v := u / 16;
    var w := v / 16;
    DigitRoundTrip(w / 16);
    DigitRoundTrip(w % 16);
    DigitRoundTrip(v % 16);
    DigitRoundTrip(u % 16);
    assert w == w / 16 * 16 + w % 16 && v == w * 16 + v % 16 && u == v * 16 + u % 16;
  }

  lemma UnitRoundTrip(u: Unit, rest: Text)
    ensures ParseChars(EscapeUnit(u) + rest) == Prepend(u, ParseChars(rest))
  {
    var t := EscapeUnit(u) + rest;
    if ShortEscape(u) != 0 {
      assert t[2..] == rest;
    } else if u < 32 || IsHigh(u) || IsLow(u) {
      HexRoundTrip(u);
      assert t == [BACKSLASH, 'u' as int] + Hex4(u) + rest;
      assert t[2..6] == Hex4(u) && t[6..] == rest;
    } else {
      assert t[1..] == rest;
    }
  }

  /** A unit that needs no escape is read as itself. */
  lemma PlainStep(u: Unit, rest: Text)
    requires u >= 32 && u != QUOTE && u != BACKSLASH
    ensures ParseChars([u] + rest) == Prepend(u, ParseChars(rest))
  {
    assert ([u] + rest)[1..] == rest;
  }

  lemma {:induction false} StringRoundTrip(s: Text, rest: Text)
    ensures ParseChars(Escape(s) + [QUOTE] + rest) == Done(s, rest)
    decreases |s|
  {
    if s == [] {
      Behind([QUOTE], rest);
      assert Escape(s) + [QUOTE] + rest == [QUOTE] + rest;
    } else if IsHigh(s[0]) && |s| > 1 && IsLow(s[1]) {
      StringRoundTrip(s[2..], rest);
      PairStep(s, Escape(s[2..]) + [QUOTE] + rest, rest);
      Regroup([s[0], s[1]], Escape(s[2..]), [QUOTE], rest);
    } else {
      StringRoundTrip(s[1..], rest);
      UnitRoundTrip(s[0], Escape(s[1..]) + [QUOTE] + rest);
      Regroup(EscapeUnit(s[0]), Escape(s[1..]), [QUOTE], rest);
      Behind([s[0]], s[1..]);
      assert s == [s[0]] + s[1..];
    }
  }

  lemma PairStep(s: Text, tail: Text, rest: Text)
    requires |s| > 1 && IsHigh(s[0]) && IsLow(s[1]) && ParseChars(tail) == Done(s[2..], rest)
    ensures ParseChars([s[0], s[1]] + tail) == Done(s, rest)
  {
    PlainStep(s[1], tail);
    PlainStep(s[0], [s[1]] + tail);
    assert [s[0], s[1]] + tail == [s[0]] + ([s[1]] + tail);
    assert s == [s[0]] + ([s[1]] + s[2..]);
  }

  // ---- Numbers and words ----

  function NumPrefix(t: Text): (n: nat)
    ensures n <= |t|
  {
    if t == [] || !NumChar(t[0]) then 0 else 1 + NumPrefix(t[1..])
  }

  lemma {:induction false} NumPrefixOf(d: Text, rest: Text)
    requires forall i | 0 <= i < |d| :: NumChar(d[i])
    requires rest == [] || !NumChar(rest[0])
    ensures NumPrefix(d + rest) == |d|
    decreases |d|
  {
    if d == [] {
      assert d + rest == rest;
    } else {
      assert (d + rest)[1..] == d[1..] + rest;
      NumPrefixOf(d[1..], rest);
    }
  }

  function ParseWord(w: Text, v: Json, t: Text): (r: Parsed<Json>)
    requires w != []
    ensures r.Done? ==> |r.rest| < |t|
  {
    if w <= t then Done(v, t[|w|..]) else Fail
  }

  // ---- Values ----

  function ParseValue(t: Text): (r: Parsed<Json>)
    ensures r.Done? ==> |r.rest| < |t|
    decreases |t|, 0
  {
    if t == [] then Fail
    else if t[0] == 'n' as int then ParseWord(NULL, Null, t)
    else if t[0] == 't' as int then ParseWord(TRUE, Bool(true), t)
    else if t[0] == 'f' as int then ParseWord(FALSE, Bool(false), t)
    else if t[0] == QUOTE then
      (match ParseChars(t[1..]) case Fail => Fail case Done(s, rest) => Done(Str(s), rest))
    else if t[0] == OPEN_BRACKET then
      if |t| > 1 && t[1] == CLOSE_BRACKET then Done(Arr([]), t[2..])
      else (match ParseElements(t[1..]) case Fail => Fail case Done(xs, rest) => Done(Arr(xs), rest))
    else if t[0] == OPEN_BRACE then
      if |t| > 1 && t[1] == CLOSE_BRACE then Done(Obj([]), t[2..])
      else (match ParseMembers(t[1..]) case Fail => Fail case Done(ms, rest) => Done(Obj(ms), rest))
    else if IsDigit(t[0]) || t[0] == MINUS then Done(Num(t[..NumPrefix(t)]), t[NumPrefix(t)..])
    else Fail
  }

  function ParseElements(t: Text): (r: Parsed<seq<Json>>)
    ensures r.Done? ==> |r.rest| < |t|
    decreases |t|, 1
  {
    match ParseValue(t)
    case Fail => Fail
    case Done(v, rest) =>
      if rest == [] then Fail
      else if rest[0] == CLOSE_BRACKET then Done([v], rest[1..])
      else if rest[0] == COMMA then
        (match ParseElements(rest[1..]) case Fail => Fail case Done(vs, after) => Done([v] + vs, after))
      else Fail
  }

  function ParseMembers(t: Text): (r: Parsed<seq<Named<Json>>>)
    ensures r.Done? ==> |r.rest| < |t|
    decreases |t|, 1
  {
    if t == [] || t[0] != QUOTE then Fail
    else
      match ParseChars(t[1..])
      case Fail => Fail
      case Done(k, colon) =>
        if colon == [] || colon[0] != COLON then Fail
        else
          match ParseValue(colon[1..])
          case Fail => Fail
          case Done(v, rest) =>
            if rest == [] then Fail
            else if rest[0] == CLOSE_BRACE then Done([Named(k, v)], rest[1..])
            else if rest[0] == COMMA then
              (match ParseMembers(rest[1..]) case Fail => Fail case Done(ms, after) => Done([Named(k, v)] + ms, after))
            else Fail
  }

  /** The text does not continue a number. */
  predicate Ends(rest: Text) {
    rest == [] || !NumChar(rest[0])
  }

  lemma NumRoundTrip(d: Text, rest: Text)
    requires NumText(d) && Ends(rest)
    ensures ParseValue(d + rest) == Done(Num(d), rest)
  {
    NumPrefixOf(d, rest);
    var t := d + rest;
    assert t[0] == d[0];
    assert t[..|d|] == d && t[|d|..] == rest;
  }

  /** Nothing that is printed starts like the end of an array. */
  lemma PrintStarts(v: Json)
    requires Valid(v)
    ensures Print(v) != [] && Print(v)[0] != CLOSE_BRACKET
  {}

  // ---- Reading back lists ----

  lemma JoinStarts(ts: seq<Text>)
    requires ts != [] && ts[0] != []
    ensures Join(ts) != [] && Join(ts)[0] == ts[0][0]
  {}

  lemma ArrayOpens(xs: seq<Json>, body: Text, rest: Text)
    requires body != [] && body[0] != CLOSE_BRACKET && ParseElements(body) == Done(xs, rest)
    ensures ParseValue([OPEN_BRACKET] + body) == Done(Arr(xs), rest)
  {
    assert ([OPEN_BRACKET] + body)[1..] == body;
  }

  lemma ObjectOpens(ms: seq<Named<Json>>, body: Text, rest: Text)
    requires body != [] && body[0] != CLOSE_BRACE && ParseMembers(body) == Done(ms, rest)
    ensures ParseValue([OPEN_BRACE] + body) == Done(Obj(ms), rest)
  {
    assert ([OPEN_BRACE] + body)[1..] == body;
  }

  /** What follows an element decides how the rest of the array is read. */
  lemma LastElement(t: Text, v: Json, rest: Text)
    requires ParseValue(t) == Done(v, [CLOSE_BRACKET] + rest)
    ensures ParseElements(t) == Done([v], rest)
  {
    Behind([CLOSE_BRACKET], rest);
  }

  lemma NextElement(t: Text, v: Json, tail: Text, vs: seq<Json>, rest: Text)
    requires ParseValue(t) == Done(v, [COMMA] + tail) && ParseElements(tail) == Done(vs, rest)
    ensures ParseElements(t) == Done([v] + vs, rest)
  {
    Behind([COMMA], tail);
  }

  lemma MemberStarts(name: Text, after: Text)
    ensures var t := Quote(name) + [COLON] + after;
      t[0] == QUOTE && ParseChars(t[1..]) == Done(name, [COLON] + after) && ([COLON] + after)[1..] == after
  {
    var t := Quote(name) + [COLON] + after;
    StringRoundTrip(name, [COLON] + after);
    assert t[1..] == Escape(name) + [QUOTE] + ([COLON] + after);
  }

  lemma LastMember(name: Text, t: Text, v: Json, rest: Text)
    requires ParseValue(t) == Done(v, [CLOSE_BRACE] + rest)
    ensures ParseMembers(Quote(name) + [COLON] + t) == Done([Named(name, v)], rest)
  {
    MemberStarts(name, t);
    Behind([CLOSE_BRACE], rest);
  }

  lemma NextMember(name: Text, t: Text, v: Json, tail: Text, ms: seq<Named<Json>>, rest: Text)
    requires ParseValue(t) == Done(v, [COMMA] + tail) && ParseMembers(tail) == Done(ms, rest)
    ensures ParseMembers(Quote(name) + [COLON] + t) == Done([Named(name, v)] + ms, rest)
  {
    MemberStarts(name, t);
    Behind([COMMA], tail);
  }

  /** The text of an array's elements, and of an object's members, split after the first value. */
  lemma ElementsText(xs: seq<Json>, rest: Text)
    requires xs != []
    ensures |xs| == 1 ==> Join(PrintAll(xs)) + [CLOSE_BRACKET] + rest == Print(xs[0]) + ([CLOSE_BRACKET] + rest)
    ensures |xs| > 1 ==> (Join(PrintAll(xs)) + [CLOSE_BRACKET] + rest ==
      Print(xs[0]) + ([COMMA] + (Join(PrintAll(xs[1..])) + [CLOSE_BRACKET] + rest)))
  {
    var ts := PrintAll(xs);
    assert ts[0] == Print(xs[0]) && ts[1..] == PrintAll(xs[1..]);
    JoinText(ts, [CLOSE_BRACKET], rest);
  }

  lemma JoinText(ts: seq<Text>, close: Text, rest: Text)
    requires ts != []
    ensures |ts| == 1 ==> Join(ts) + close + rest == ts[0] + (close + rest)
    ensures |ts| > 1 ==> Join(ts) + close + rest == ts[0] + ([COMMA] + (Join(ts[1..]) + close + rest))
  {
    Regroup(ts[0], [], close, rest);
    if |ts| > 1 {
      var j := Join(ts[1..]);
      Regroup(ts[0] + [COMMA], j, close, rest);
      Regroup(ts[0], [COMMA], j + close + rest, []);
    } else {
      Regroup(ts[0], close, rest, []);
    }
  }

  lemma MembersText(ms: seq<Named<Json>>, rest: Text)
    requires ms != []
    ensures |ms| == 1 ==> (Join(Pairs(PrintMembers(ms))) + [CLOSE_BRACE] + rest ==
      Quote(ms[0].name) + [COLON] + (Print(ms[0].value) + ([CLOSE_BRACE] + rest)))
    ensures |ms| > 1 ==> (Join(Pairs(PrintMembers(ms))) + [CLOSE_BRACE] + rest ==
      Quote(ms[0].name) + [COLON] + (Print(ms[0].value) + ([COMMA] + (Join(Pairs(PrintMembers(ms[1..]))) + [CLOSE_BRACE] + rest))))
  {
    var ts := Pairs(PrintMembers(ms));
    PairsUnfold(ms);
    JoinText(ts, [CLOSE_BRACE], rest);
    Regroup(Quote(ms[0].name) + [COLON], Print(ms[0].value), [CLOSE_BRACE] + rest, []);
    if |ms| > 1 {
      Regroup(Quote(ms[0].name) + [COLON], Print(ms[0].value), [COMMA] + (Join(ts[1..]) + [CLOSE_BRACE] + rest), []);
    }
  }

  lemma PairsUnfold(ms: seq<Named<Json>>)
    requires ms != []
    ensures var ts := Pairs(PrintMembers(ms));
      ts[0] == (Quote(ms[0].name) + [COLON]) + Print(ms[0].value) && ts[1..] == Pairs(PrintMembers(ms[1..]))
  {
    assert PrintMembers(ms)[1..] == PrintMembers(ms[1..]);
  }

  // ---- Round trips ----

  lemma WordRoundTrip(v: Json, rest: Text)
    requires v.Null? || v.Bool?
    ensures ParseValue(Print(v) + rest) == Done(v, rest)
  {
    Behind(Print(v), rest);
  }

  lemma QuotedRoundTrip(s: Text, rest: Text)
    ensures ParseValue(Quote(s) + rest) == Done(Str(s), rest)
  {
    StringRoundTrip(s, rest);
    assert (Quote(s) + rest)[1..] == Escape(s) + [QUOTE] + rest;
  }

  /** The printed text, whatever follows it, is read back as the value it was printed from. */
  lemma {:induction false} RoundTrip(v: Json, rest: Text)
    requires Valid(v) && Ends(rest)
    ensures ParseValue(Print(v) + rest) == Done(v, rest)
    decreases v, 0
  {
    match v
    case Null => WordRoundTrip(v, rest);
    case Bool(b) => WordRoundTrip(v, rest);
    case Num(d) => NumRoundTrip(d, rest);
    case Str(s) => QuotedRoundTrip(s, rest);
    case Arr(xs) => ArrayRoundTrip(xs, rest);
    case Obj(ms) => ObjectRoundTrip(ms, rest);
  }

  lemma {:induction false} ArrayRoundTrip(xs: seq<Json>, rest: Text)
    requires forall i | 0 <= i < |xs| :: Valid(xs[i])
    ensures ParseValue(Print(Arr(xs)) + rest) == Done(Arr(xs), rest)
    decreases xs, 2
  {
    if xs == [] {
      assert Print(Arr(xs)) + rest == [OPEN_BRACKET, CLOSE_BRACKET] + rest;
      Behind([OPEN_BRACKET, CLOSE_BRACKET], rest);
    } else {
      ElementsRoundTrip(xs, rest);
      var body := Join(PrintAll(xs)) + [CLOSE_BRACKET] + rest;
      PrintStarts(xs[0]);
      JoinStarts(PrintAll(xs));
      ArrayOpens(xs, body, rest);
      Regroup([OPEN_BRACKET], Join(PrintAll(xs)), [CLOSE_BRACKET], rest);
    }
  }

  lemma {:induction false} ObjectRoundTrip(ms: seq<Named<Json>>, rest: Text)
    requires forall i | 0 <= i < |ms| :: Valid(ms[i].value)
    ensures ParseValue(Print(Obj(ms)) + rest) == Done(Obj(ms), rest)
    decreases ms, 2
  {
    if ms == [] {
      assert Print(Obj(ms)) + rest == [OPEN_BRACE, CLOSE_BRACE] + rest;
      Behind([OPEN_BRACE, CLOSE_BRACE], rest);
    } else {
      MembersRoundTrip(ms, rest);
      var body := Join(Pairs(PrintMembers(ms))) + [CLOSE_BRACE] + rest;
      PairsUnfold(ms);
      JoinStarts(Pairs(PrintMembers(ms)));
      ObjectOpens(ms, body, rest);
      Regroup([OPEN_BRACE], Join(Pairs(PrintMembers(ms))), [CLOSE_BRACE], rest);
    }
  }

  lemma {:induction false} ElementsRoundTrip(xs: seq<Json>, rest: Text)
    requires xs != [] && forall i | 0 <= i < |xs| :: Valid(xs[i])
    ensures ParseElements(Join(PrintAll(xs)) + [CLOSE_BRACKET] + rest) == Done(xs, rest)
    decreases xs, 1
  {
    if |xs| == 1 {
      RoundTrip(xs[0], [CLOSE_BRACKET] + rest);
      OneElement(xs, rest);
    } else {
      ElementsRoundTrip(xs[1..], rest);
      RoundTrip(xs[0], [COMMA] + (Join(PrintAll(xs[1..])) + [CLOSE_BRACKET] + rest));
      MoreElements(xs, rest);
    }
  }

  lemma OneElement(xs: seq<Json>, rest: Text)
    requires |xs| == 1 && ParseValue(Print(xs[0]) + ([CLOSE_BRACKET] + rest)) == Done(xs[0], [CLOSE_BRACKET] + rest)
    ensures ParseElements(Join(PrintAll(xs)) + [CLOSE_BRACKET] + rest) == Done(xs, rest)
  {
    ElementsText(xs, rest);
    LastElement(Print(xs[0]) + ([CLOSE_BRACKET] + rest), xs[0], rest);
    assert xs == [xs[0]];
  }

  lemma MoreElements(xs: seq<Json>, rest: Text)
    requires |xs| > 1
    requires var tail := Join(PrintAll(xs[1..])) + [CLOSE_BRACKET] + rest;
      ParseValue(Print(xs[0]) + ([COMMA] + tail)) == Done(xs[0], [COMMA] + tail) && ParseElements(tail) == Done(xs[1..], rest)
    ensures ParseElements(Join(PrintAll(xs)) + [CLOSE_BRACKET] + rest) == Done(xs, rest)
  {
    var tail := Join(PrintAll(xs[1..])) + [CLOSE_BRACKET] + rest;
    var text := Print(xs[0]) + ([COMMA] + tail);
    assert Join(PrintAll(xs)) + [CLOSE_BRACKET] + rest == text by { ElementsText(xs, rest); }
    NextElement(text, xs[0], tail, xs[1..], rest);
    assert xs == [xs[0]] + xs[1..];
  }

  lemma {:induction false} MembersRoundTrip(ms: seq<Named<Json>>, rest: Text)
    requires ms != [] && forall i | 0 <= i < |ms| :: Valid(ms[i].value)
    ensures ParseMembers(Join(Pairs(PrintMembers(ms))) + [CLOSE_BRACE] + rest) == Done(ms, rest)
    decreases ms, 1
  {
    if |ms| == 1 {
      RoundTrip(ms[0].value, [CLOSE_BRACE] + rest);
      OneMember(ms, rest);
    } else {
      MembersRoundTrip(ms[1..], rest);
      RoundTrip(ms[0].value, [COMMA] + (Join(Pairs(PrintMembers(ms[1..]))) + [CLOSE_BRACE] + rest));
      MoreMembers(ms, rest);
    }
  }

  lemma OneMember(ms: seq<Named<Json>>, rest: Text)
    requires |ms| == 1 && ParseValue(Print(ms[0].value) + ([CLOSE_BRACE] + rest)) == Done(ms[0].value, [CLOSE_BRACE] + rest)
    ensures ParseMembers(Join(Pairs(PrintMembers(ms))) + [CLOSE_BRACE] + rest) == Done(ms, rest)
  {
    MembersText(ms, rest);
    LastMember(ms[0].name, Print(ms[0].value) + ([CLOSE_BRACE] + rest), ms[0].value, rest);
    assert ms == [Named(ms[0].name, ms[0].value)];
  }

  lemma MoreMembers(ms: seq<Named<Json>>, rest: Text)
    requires |ms| > 1
    requires var tail := Join(Pairs(PrintMembers(ms[1..]))) + [CLOSE_BRACE] + rest;
      && ParseValue(Print(ms[0].value) + ([COMMA] + tail)) == Done(ms[0].value, [COMMA] + tail)
      && ParseMembers(tail) == Done(ms[1..], rest)
    ensures ParseMembers(Join(Pairs(PrintMembers(ms))) + [CLOSE_BRACE] + rest) == Done(ms, rest)
  {
    var tail := Join(Pairs(PrintMembers(ms[1..]))) + [CLOSE_BRACE] + rest;
    var text := Print(ms[0].value) + ([COMMA] + tail);
    assert Join(Pairs(PrintMembers(ms))) + [CLOSE_BRACE] + rest == Quote(ms[0].name) + [COLON] + text by { MembersText(ms, rest); }
    NextMember(ms[0].name, text, ms[0].value, tail, ms[1..], rest);
    assert ms == [Named(ms[0].name, ms[0].value)] + ms[1..];
  }

  // ---- Main results ----

  /** Printing in stored order loses nothing. */
  lemma PrintInjective(x: Json, y: Json)
    requires Valid(x) && Valid(y) && Print(x) == Print(y)
    ensures x == y
  {
    RoundTrip(x, []);
    RoundTrip(y, []);
    assert Print(x) + [] == Print(x) && Print(y) + [] == Print(y);
  }

  /** The parser recovers the canonical value from the sorted text. */
  lemma StableRoundTrip(v: Json)
    requires Valid(v)
    ensures ParseValue(StableStringify(v)) == Done(Canon(v), [])
  {
    StableIsPrintCanon(v);
    CanonValid(v);
    RoundTrip(Canon(v), []);
    assert Print(Canon(v)) + [] == Print(Canon(v));
  }

  /** Two values have the same sorted text exactly when they are equal up to the order of keys. */
  lemma StableStringifyIffEquivalent(x: Json, y: Json)
    requires Valid(x) && Valid(y)
    ensures StableStringify(x) == StableStringify(y) <==> Equivalent(x, y)
  {
    StableRoundTrip(x);
    StableRoundTrip(y);
    StableIsPrintCanon(x);
    StableIsPrintCanon(y);
    CanonIffEquivalent(x, y);
  }
}
