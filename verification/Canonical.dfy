/**
 Canonical serialisation of JSON values, and a parser that reads it back.

 Values are those that `JSON.parse` produces, with finite numbers other than -0.  A number is
 represented by the text that JavaScript prints for it.  Printed texts are JSON (sections 4 to 7 of
 RFC 8259); object keys are sorted by code unit (section 3.2.3 of RFC 8785).
 */
module Canonical {
  import opened Texts

  datatype Json =
    | Null
    | Bool(b: bool)
    | Num(digits: Text)
    | Str(s: Text)
    | Arr(elements: seq<Json>)
    | Obj(members: seq<Named<Json>>)

  const QUOTE: Unit := '"' as int
  const BACKSLASH: Unit := '\\' as int
  const COMMA: Unit := ',' as int
  const COLON: Unit := ':' as int
  const MINUS: Unit := '-' as int
  const OPEN_BRACKET: Unit := '[' as int
  const CLOSE_BRACKET: Unit := ']' as int
  const OPEN_BRACE: Unit := '{' as int
  const CLOSE_BRACE: Unit := '}' as int

  predicate IsDigit(u: Unit) { '0' as int <= u <= '9' as int }

  /** A digit, or one of - + . e. */
  predicate NumChar(u: Unit) {
    IsDigit(u) || u == MINUS || u == '+' as int || u == '.' as int || u == 'e' as int
  }

  predicate NumText(t: Text) {
    t != [] && (IsDigit(t[0]) || t[0] == MINUS) && forall i | 0 <= i < |t| :: NumChar(t[i])
  }

  /** Numbers carry number texts and the keys of an object are distinct, all the way down. */
  ghost predicate Valid(v: Json) {
    match v
    case Num(d) => NumText(d)
    case Arr(xs) => forall i | 0 <= i < |xs| :: Valid(xs[i])
    case Obj(ms) => DistinctNames(ms) && forall i | 0 <= i < |ms| :: Valid(ms[i].value)
    case _ => true
  }

  ghost function Names<T>(ms: seq<Named<T>>): set<Text> {
    set i | 0 <= i < |ms| :: ms[i].name
  }

  /** The values are equal up to the order of object keys. */
  ghost predicate Equivalent(x: Json, y: Json)
    decreases x
  {
    if x.Arr? && y.Arr? then
      |x.elements| == |y.elements| &&
      forall i | 0 <= i < |x.elements| :: Equivalent(x.elements[i], y.elements[i])
    else if x.Obj? && y.Obj? then
      Names(x.members) == Names(y.members) &&
      forall i, j | 0 <= i < |x.members| && 0 <= j < |y.members| && x.members[i].name == y.members[j].name ::
        Equivalent(x.members[i].value, y.members[j].value)
    else x == y
  }

  // ---- Printing strings ----

  predicate IsHigh(u: Unit) { 0xD800 <= u <= 0xDBFF }
  predicate IsLow(u: Unit) { 0xDC00 <= u <= 0xDFFF }

  function HexDigit(n: nat): Unit
    requires n < 16
  {
    if n < 10 then '0' as int + n else 'a' as int + (n - 10)
  }

  function Hex4(u: Unit): Text {
    var v := u / 16;
    var w := v / 16;
    [HexDigit(w / 16), HexDigit(w % 16), HexDigit(v % 16), HexDigit(u % 16)]
  }

  /** The letter that follows the backslash in a two-character escape, or 0 if there is none. */
  function ShortEscape(u: Unit): Unit {
    if u == QUOTE || u == BACKSLASH then u
    else if u == 8 then 'b' as int else if u == 12 then 'f' as int else if u == 10 then 'n' as int
    else if u == 13 then 'r' as int else if u == 9 then 't' as int else 0
  }

  function EscapeUnit(u: Unit): Text {
    if ShortEscape(u) != 0 then [BACKSLASH, ShortEscape(u)]
    else if u < 32 || IsHigh(u) || IsLow(u) then [BACKSLASH, 'u' as int] + Hex4(u)
    else [u]
  }

  /** Surrogate pairs are printed as they are, lone surrogates are escaped. */
  function Escape(s: Text): Text {
    if s == [] then []
    else if IsHigh(s[0]) && |s| > 1 && IsLow(s[1]) then [s[0], s[1]] + Escape(s[2..])
    else EscapeUnit(s[0]) + Escape(s[1..])
  }

  function Quote(s: Text): Text {
    [QUOTE] + Escape(s) + [QUOTE]
  }

  // ---- Printing values ----

  const NULL: Text := Ascii("null")
  const TRUE: Text := Ascii("true")
  const FALSE: Text := Ascii("false")

  function Join(ts: seq<Text>): Text {
    if ts == [] then [] else if |ts| == 1 then ts[0] else ts[0] + [COMMA] + Join(ts[1..])
  }

  function Pairs(ms: seq<Named<Text>>): (r: seq<Text>)
    ensures |r| == |ms|
  {
    if ms == [] then [] else [Quote(ms[0].name) + [COLON] + ms[0].value] + Pairs(ms[1..])
  }

  /** The text of a value with its keys in the order in which they are stored. */
  function Print(v: Json): Text
    decreases v, 0
  {
    match v
    case Null => NULL
    case Bool(b) => if b then TRUE else FALSE
    case Num(d) => d
    case Str(s) => Quote(s)
    case Arr(xs) => [OPEN_BRACKET] + Join(PrintAll(xs)) + [CLOSE_BRACKET]
    case Obj(ms) => [OPEN_BRACE] + Join(Pairs(PrintMembers(ms))) + [CLOSE_BRACE]
  }

  function PrintAll(xs: seq<Json>): (r: seq<Text>)
    ensures |r| == |xs|
    decreases xs, 1
  {
    if xs == [] then [] else [Print(xs[0])] + PrintAll(xs[1..])
  }

  function PrintMembers(ms: seq<Named<Json>>): (r: seq<Named<Text>>)
    ensures |r| == |ms|
    decreases ms, 1
  {
    if ms == [] then [] else [Named(ms[0].name, Print(ms[0].value))] + PrintMembers(ms[1..])
  }

  /** The text of a value with its keys sorted. */
  function StableStringify(v: Json): Text
    decreases v, 0
  {
    match v
    case Arr(xs) => [OPEN_BRACKET] + Join(StableAll(xs)) + [CLOSE_BRACKET]
    case Obj(ms) => [OPEN_BRACE] + Join(Pairs(Sort(StableMembers(ms)))) + [CLOSE_BRACE]
    case _ => Print(v)
  }

  function StableAll(xs: seq<Json>): seq<Text>
    decreases xs, 1
  {
    if xs == [] then [] else [StableStringify(xs[0])] + StableAll(xs[1..])
  }

  function StableMembers(ms: seq<Named<Json>>): seq<Named<Text>>
    decreases ms, 1
  {
    if ms == [] then [] else [Named(ms[0].name, StableStringify(ms[0].value))] + StableMembers(ms[1..])
  }

  // ---- The canonical value ----

  function Canon(v: Json): Json
    decreases v, 0
  {
    match v
    case Arr(xs) => Arr(CanonAll(xs))
    case Obj(ms) => Obj(Sort(CanonMembers(ms)))
    case _ => v
  }

  function CanonAll(xs: seq<Json>): (r: seq<Json>)
    ensures |r| == |xs|
    ensures forall i | 0 <= i < |xs| :: r[i] == Canon(xs[i])
    decreases xs, 1
  {
    if xs == [] then [] else [Canon(xs[0])] + CanonAll(xs[1..])
  }

  function CanonMembers(ms: seq<Named<Json>>): (r: seq<Named<Json>>)
    ensures |r| == |ms|
    ensures forall i | 0 <= i < |ms| :: r[i] == Named(ms[i].name, Canon(ms[i].value))
    decreases ms, 1
  {
    if ms == [] then [] else [Named(ms[0].name, Canon(ms[0].value))] + CanonMembers(ms[1..])
  }

  lemma {:induction false} PrintInsert(m: Named<Json>, ms: seq<Named<Json>>)
    ensures PrintMembers(Insert(m, ms)) == Insert(Named(m.name, Print(m.value)), PrintMembers(ms))
    decreases |ms|
  {
    if ms == [] || !Less(ms[0].name, m.name) {
      assert ([m] + ms)[1..] == ms;
    } else {
      PrintInsert(m, ms[1..]);
      assert ([ms[0]] + Insert(m, ms[1..]))[1..] == Insert(m, ms[1..]);
      assert PrintMembers(ms)[1..] == PrintMembers(ms[1..]);
    }
  }

  lemma {:induction false} PrintSort(ms: seq<Named<Json>>)
    ensures PrintMembers(Sort(ms)) == Sort(PrintMembers(ms))
    decreases |ms|
  {
    if ms != [] {
      PrintSort(ms[1..]);
      PrintInsert(ms[0], Sort(ms[1..]));
      assert PrintMembers(ms)[1..] == PrintMembers(ms[1..]);
    }
  }

  /** The sorted text of a value is the plain text of its canonical value. */
  lemma {:induction false} StableIsPrintCanon(v: Json)
    ensures StableStringify(v) == Print(Canon(v))
    decreases v, 0
  {
    match v
    case Arr(xs) => StableAllIsPrint(xs);
    case Obj(ms) =>
      StableMembersIsPrint(ms);
      PrintSort(CanonMembers(ms));
    case _ =>
  }

  lemma {:induction false} StableAllIsPrint(xs: seq<Json>)
    ensures StableAll(xs) == PrintAll(CanonAll(xs))
    decreases xs, 1
  {
    if xs != [] {
      StableIsPrintCanon(xs[0]);
      StableAllIsPrint(xs[1..]);
      assert CanonAll(xs)[1..] == CanonAll(xs[1..]);
    }
  }

  lemma {:induction false} StableMembersIsPrint(ms: seq<Named<Json>>)
    ensures StableMembers(ms) == PrintMembers(CanonMembers(ms))
    decreases ms, 1
  {
    if ms != [] {
      StableIsPrintCanon(ms[0].value);
      StableMembersIsPrint(ms[1..]);
      assert CanonMembers(ms)[1..] == CanonMembers(ms[1..]);
    }
  }

  // ---- Canonical values and equivalence ----

  lemma {:induction false} CanonValid(v: Json)
    requires Valid(v)
    ensures Valid(Canon(v))
    decreases v
  {
    match v
    case Arr(xs) =>
      forall i | 0 <= i < |xs| ensures Valid(CanonAll(xs)[i]) { CanonValid(xs[i]); }
    case Obj(ms) =>
      var cs := CanonMembers(ms);
      var ss := Sort(cs);
      SortOrdered(cs);
      forall i, j | 0 <= i < j < |ss| ensures ss[i].name != ss[j].name {
        LessIrreflexive(ss[i].name);
      }
      SortMembers(cs);
      forall i | 0 <= i < |ss| ensures Valid(ss[i].value) {
        assert ss[i] in Members(ss);
        var k :| 0 <= k < |cs| && cs[k] == ss[i];
        CanonValid(ms[k].value);
      }
    case _ =>
  }

  /** Canonical values agree exactly on equivalent values. */
  lemma {:induction false} CanonIffEquivalent(x: Json, y: Json)
    requires Valid(x) && Valid(y)
    ensures Canon(x) == Canon(y) <==> Equivalent(x, y)
    decreases x
  {
    if x.Arr? && y.Arr? {
      var xs, ys := x.elements, y.elements;
      if |xs| == |ys| {
        forall i | 0 <= i < |xs| ensures Canon(xs[i]) == Canon(ys[i]) <==> Equivalent(xs[i], ys[i]) {
          CanonIffEquivalent(xs[i], ys[i]);
        }
        ArraysAgree(xs, ys);
      }
    } else if x.Obj? && y.Obj? {
      var ms, ns := x.members, y.members;
      forall i, j | 0 <= i < |ms| && 0 <= j < |ns|
        ensures Canon(ms[i].value) == Canon(ns[j].value) <==> Equivalent(ms[i].value, ns[j].value)
      {
        CanonIffEquivalent(ms[i].value, ns[j].value);
      }
      ObjectsAgree(ms, ns);
    }
  }

  lemma ArraysAgree(xs: seq<Json>, ys: seq<Json>)
    requires |xs| == |ys|
    ensures CanonAll(xs) == CanonAll(ys) <==> forall i | 0 <= i < |xs| :: Canon(xs[i]) == Canon(ys[i])
  {
    if CanonAll(xs) == CanonAll(ys) {
      forall i | 0 <= i < |xs| ensures Canon(xs[i]) == Canon(ys[i]) {
        assert CanonAll(xs)[i] == CanonAll(ys)[i];
      }
    }
  }

  ghost predicate SameValues(ms: seq<Named<Json>>, ns: seq<Named<Json>>) {
    forall i, j | 0 <= i < |ms| && 0 <= j < |ns| && ms[i].name == ns[j].name :: Canon(ms[i].value) == Canon(ns[j].value)
  }

  /** Two objects have the same canonical members, sorted, exactly when they have the same keys and
      equal canonical values under each of them. */
  lemma ObjectsAgree(ms: seq<Named<Json>>, ns: seq<Named<Json>>)
    requires DistinctNames(ms) && DistinctNames(ns)
    ensures Sort(CanonMembers(ms)) == Sort(CanonMembers(ns)) <==> Names(ms) == Names(ns) && SameValues(ms, ns)
  {
    SortMembers(CanonMembers(ms));
    SortMembers(CanonMembers(ns));
    if Names(ms) == Names(ns) && SameValues(ms, ns) {
      MembersIncluded(ms, ns);
      MembersIncluded(ns, ms);
      SortedEqual(CanonMembers(ms), CanonMembers(ns));
    }
    if Sort(CanonMembers(ms)) == Sort(CanonMembers(ns)) {
      MembersMatch(ms, ns);
    }
  }

  lemma SortedEqual(a: seq<Named<Json>>, b: seq<Named<Json>>)
    requires DistinctNames(a) && DistinctNames(b) && Members(a) == Members(b)
    ensures Sort(a) == Sort(b)
  {
    SortMembers(a);
    SortMembers(b);
    SortOrdered(a);
    SortOrdered(b);
    OrderedUnique(Sort(a), Sort(b));
  }

  /** Each member of `ms` has a member of the same name and canonical value in `ns`. */
  lemma MembersIncluded(ms: seq<Named<Json>>, ns: seq<Named<Json>>)
    requires Names(ms) == Names(ns) && SameValues(ms, ns)
    ensures Members(CanonMembers(ms)) <= Members(CanonMembers(ns))
  {
    var a, b := CanonMembers(ms), CanonMembers(ns);
    forall m | m in Members(a) ensures m in Members(b) {
      var i :| 0 <= i < |a| && a[i] == m;
      assert ms[i].name in Names(ns);
      var j :| 0 <= j < |ns| && ns[j].name == ms[i].name;
      assert b[j] == m;
    }
  }

  lemma MembersMatch(ms: seq<Named<Json>>, ns: seq<Named<Json>>)
    requires Members(CanonMembers(ms)) == Members(CanonMembers(ns))
    requires DistinctNames(ns)
    ensures Names(ms) == Names(ns) && SameValues(ms, ns)
  {
    NamesOfCanon(ms);
    NamesOfCanon(ns);
    forall i, j | 0 <= i < |ms| && 0 <= j < |ns| && ms[i].name == ns[j].name
      ensures Canon(ms[i].value) == Canon(ns[j].value)
    {
      var m := CanonMembers(ms)[i];
      assert m in Members(CanonMembers(ns));
      var k :| 0 <= k < |ns| && CanonMembers(ns)[k] == m;
      assert k == j;
    }
  }

  lemma NamesOfCanon(ms: seq<Named<Json>>)
    ensures Names(ms) == set m | m in Members(CanonMembers(ms)) :: m.name
  {
    var a := CanonMembers(ms);
    forall n | n in Names(ms) ensures n in (set m | m in Members(a) :: m.name) {
      var i :| 0 <= i < |ms| && ms[i].name == n;
      assert a[i] in Members(a) && a[i].name == n;
    }
    forall n | n in (set m | m in Members(a) :: m.name) ensures n in Names(ms) {
      var m :| m in Members(a) && m.name == n;
      var i :| 0 <= i < |a| && a[i] == m;
      assert ms[i].name == n;
    }
  }
}
