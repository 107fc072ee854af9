/** Printed texts are well-formed UTF-16, so encoding them as UTF-8 for hashing loses nothing. */
module CanonicalUnicode {
  import opened Texts
  import opened Canonical

  /** Surrogates come in pairs only. */
  predicate WellFormed(t: Text) {
    if t == [] then true
    else if IsHigh(t[0]) then |t| > 1 && IsLow(t[1]) && WellFormed(t[2..])
    else !IsLow(t[0]) && WellFormed(t[1..])
  }

  lemma {:induction false} WellFormedConcat(a: Text, b: Text)
    requires WellFormed(a) && WellFormed(b)
    ensures WellFormed(a + b)
    decreases |a|
  {
    if a == [] {
      assert a + b == b;
    } else if IsHigh(a[0]) {
      WellFormedConcat(a[2..], b);
      assert (a + b)[2..] == a[2..] + b;
    } else {
      WellFormedConcat(a[1..], b);
      assert (a + b)[1..] == a[1..] + b;
    }
  }

  predicate Plain(t: Text) {
    forall i | 0 <= i < |t| :: !IsHigh(t[i]) && !IsLow(t[i])
  }

  lemma {:induction false} PlainWellFormed(t: Text)
    requires Plain(t)
    ensures WellFormed(t)
    decreases |t|
  {
    if t != [] { PlainWellFormed(t[1..]); }
  }

  lemma {:induction false} EscapeWellFormed(s: Text)
    ensures WellFormed(Escape(s))
    decreases |s|
  {
    if s == [] {
    } else if IsHigh(s[0]) && |s| > 1 && IsLow(s[1]) {
      EscapeWellFormed(s[2..]);
      assert ([s[0], s[1]] + Escape(s[2..]))[2..] == Escape(s[2..]);
    } else {
      EscapeWellFormed(s[1..]);
      PlainWellFormed(EscapeUnit(s[0]));
      WellFormedConcat(EscapeUnit(s[0]), Escape(s[1..]));
    }
  }

  lemma QuoteWellFormed(s: Text)
    ensures WellFormed(Quote(s))
  {
    EscapeWellFormed(s);
    PlainWellFormed([QUOTE]);
    WellFormedConcat([QUOTE], Escape(s));
    WellFormedConcat([QUOTE] + Escape(s), [QUOTE]);
  }

  lemma {:induction false} JoinWellFormed(ts: seq<Text>)
    requires forall i | 0 <= i < |ts| :: WellFormed(ts[i])
    ensures WellFormed(Join(ts))
    decreases |ts|
  {
    if |ts| > 1 {
      JoinWellFormed(ts[1..]);
      PlainWellFormed([COMMA]);
      WellFormedConcat(ts[0], [COMMA]);
      WellFormedConcat(ts[0] + [COMMA], Join(ts[1..]));
    }
  }

  lemma Bracketed(open: Text, body: Text, close: Text)
    requires Plain(open) && Plain(close) && WellFormed(body)
    ensures WellFormed(open + body + close)
  {
    PlainWellFormed(open);
    PlainWellFormed(close);
    WellFormedConcat(open, body);
    WellFormedConcat(open + body, close);
  }

  lemma {:induction false} PrintWellFormed(v: Json)
    requires Valid(v)
    ensures WellFormed(Print(v))
    decreases v, 0
  {
    match v
    case Null => PlainWellFormed(NULL);
    case Bool(b) => PlainWellFormed(Print(v));
    case Num(d) => PlainWellFormed(d);
    case Str(s) => QuoteWellFormed(s);
    case Arr(xs) =>
      AllWellFormed(xs);
      JoinWellFormed(PrintAll(xs));
      Bracketed([OPEN_BRACKET], Join(PrintAll(xs)), [CLOSE_BRACKET]);
    case Obj(ms) =>
      PairsWellFormed(ms);
      JoinWellFormed(Pairs(PrintMembers(ms)));
      Bracketed([OPEN_BRACE], Join(Pairs(PrintMembers(ms))), [CLOSE_BRACE]);
  }

  lemma {:induction false} AllWellFormed(xs: seq<Json>)
    requires forall i | 0 <= i < |xs| :: Valid(xs[i])
    ensures forall i | 0 <= i < |xs| :: WellFormed(PrintAll(xs)[i])
    decreases xs, 1
  {
    if xs != [] {
      PrintWellFormed(xs[0]);
      AllWellFormed(xs[1..]);
    }
  }

  lemma {:induction false} PairsWellFormed(ms: seq<Named<Json>>)
    requires forall i | 0 <= i < |ms| :: Valid(ms[i].value)
    ensures forall i | 0 <= i < |ms| :: WellFormed(Pairs(PrintMembers(ms))[i])
    decreases ms, 1
  {
    if ms != [] {
      PrintWellFormed(ms[0].value);
      PairsWellFormed(ms[1..]);
      QuoteWellFormed(ms[0].name);
      PlainWellFormed([COLON]);
      WellFormedConcat(Quote(ms[0].name), [COLON]);
      WellFormedConcat(Quote(ms[0].name) + [COLON], Print(ms[0].value));
      assert PrintMembers(ms)[1..] == PrintMembers(ms[1..]);
    }
  }

  /** The text that is hashed never contains a lone surrogate. */
  lemma StableStringifyWellFormed(v: Json)
    requires Valid(v)
    ensures WellFormed(StableStringify(v))
  {
    StableIsPrintCanon(v);
    CanonValid(v);
    PrintWellFormed(Canon(v));
  }
}
