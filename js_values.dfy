/** The JavaScript values the library handles, and the few pieces of JavaScript
    semantics it relies on: truthiness, `===`, `==` against a string, the relational
    operators, property reads, `for...in` enumeration and the string methods
    `split`, `indexOf`, `replace`, `match` and `toUpperCase`. */
module JsValues {
  import opened JsObject

  /** A JavaScript value. Numbers are exact rationals; `NaN` is kept apart because
      the library produces it (`undefined - 1`, `0 / 0`). Functions are opaque: `Fn(id)`
      stands for the function object with identity `id`. */
  datatype Value =
    | Undef
    | Null
    | Bool(b: bool)
    | Num(r: real)
    | NaN
    | Str(s: string)
    | Arr(items: seq<Value>)
    | Obj(fields: Dict<Value>)
    | Fn(id: nat)

  /** How a run of library code can end other than normally: with one of the
      exceptions JavaScript raises, by reaching behaviour this model does not
      describe, or by looping forever. */
  datatype Halt = TypeErrorThrown | ReferenceErrorThrown | SyntaxErrorThrown | Unsupported | NeverEnds

  /** `!!v` */
  predicate Truthy(v: Value) {
    match v
    case Undef => false
    case Null => false
    case Bool(b) => b
    case Num(r) => r != 0.0
    case NaN => false
    case Str(s) => s != ""
    case _ => true
  }

  /** `a === b`. Distinct array and object values are distinct references: the
      library never compares an object with itself this way. */
  predicate StrictEquals(a: Value, b: Value) {
    match (a, b)
    case (Undef, Undef) => true
    case (Null, Null) => true
    case (Bool(x), Bool(y)) => x == y
    case (Num(x), Num(y)) => x == y
    case (Str(x), Str(y)) => x == y
    case (Fn(x), Fn(y)) => x == y
    case _ => false
  }

  /** Property read `v[k]`. Reading from `undefined` or `null` throws in JavaScript;
      the library guards every such read it makes, except where noted by callers. */
  function Prop(v: Value, k: string): Value {
    match v
    case Obj(fields) =>
      (match Get(fields, k) case Some(x) => x case None => Undef)
    case Arr(items) =>
      if k == "length" then Num(|items| as real)
      else if IsArrayIndex(k) && IndexValue(k) < |items| then items[IndexValue(k)]
      else Undef
    case Str(s) =>
      if k == "length" then Num(|s| as real)
      else if IsArrayIndex(k) && IndexValue(k) < |s| then Str([s[IndexValue(k)]])
      else Undef
    case _ => Undef
  }

  /** Reading a property of a plain object is a lookup in its property list. */
  lemma PropReadsGet(d: Dict<Value>, k: string)
    ensures Prop(Obj(d), k) == match Get(d, k) case Some(x) => x case None => Undef
  {
  }

  /** A property that was just set reads as the value it was set to. */
  lemma PropOfSet(d: Dict<Value>, k: string, x: Value)
    requires DistinctKeys(d)
    ensures Prop(Obj(Set(d, k, x)), k) == x
  {
    SetGet(d, k, x, k);
    PropReadsGet(Set(d, k, x), k);
  }

  /** Setting one property of an object changes what that property reads and no
      other. */
  lemma PropSet(d: Value, key: string, a: Value)
    requires d.Obj? && DistinctKeys(d.fields)
    ensures DistinctKeys(Set(d.fields, key, a))
    ensures Prop(Obj(Set(d.fields, key, a)), key) == a
    ensures forall k' :: k' != key ==> Prop(Obj(Set(d.fields, key, a)), k') == Prop(d, k')
  {
    var d1 := Set(d.fields, key, a);
    SetPreservesDistinct(d.fields, key, a);
    forall k' ensures Prop(Obj(d1), k') == if k' == key then a else Prop(d, k') {
      SetGet(d.fields, key, a, k');
      PropReadsGet(d1, k');
      PropReadsGet(d.fields, k');
    }
  }

  /** Index-keyed entries of a sequence, as `for...in` presents them. */
  function IndexEntries(items: seq<Value>): (d: Dict<Value>)
    ensures |d| == |items|
    ensures forall i :: 0 <= i < |items| ==> d[i] == (NatToString(i), items[i])
  {
    seq(|items|, i requires 0 <= i < |items| => (NatToString(i), items[i]))
  }

  /** The (key, value) pairs `for (p in v)` visits, in order. */
  function ForIn(v: Value): Dict<Value> {
    match v
    case Obj(fields) => fields
    case Arr(items) => IndexEntries(items)
    case Str(s) => IndexEntries(seq(|s|, i requires 0 <= i < |s| => Str([s[i]])))
    case _ => []
  }

  /** The values `for (e in v) out.push(v[e])` collects. */
  function ForInValues(v: Value): seq<Value> {
    Values(ForIn(v))
  }

  // ---------------------------------------------------------------- strings

  function FirstIndex(s: string, c: char): (i: nat)
    requires c in s
    ensures i < |s| && s[i] == c && c !in s[..i]
  {
    if s[0] == c then 0 else 1 + FirstIndex(s[1..], c)
  }

  /** `s.split(sep)` for a one-character separator. */
  function Split(s: string, sep: char): (parts: seq<string>)
    ensures |parts| >= 1
    ensures forall i :: 0 <= i < |parts| ==> sep !in parts[i]
    decreases |s|
  {
    if sep !in s then [s]
    else
      var i := FirstIndex(s, sep);
      [s[..i]] + Split(s[i + 1..], sep)
  }

  /** `parts.join(sep)`, the inverse of Split. */
  function Join(parts: seq<string>, sep: char): string
    requires |parts| >= 1
  {
    if |parts| == 1 then parts[0] else parts[0] + [sep] + Join(parts[1..], sep)
  }

  lemma {:induction false} SplitJoin(s: string, sep: char)
    ensures Join(Split(s, sep), sep) == s
    decreases |s|
  {
    if sep in s {
      var i := FirstIndex(s, sep);
      var rest := Split(s[i + 1..], sep);
      SplitJoin(s[i + 1..], sep);
      var parts := Split(s, sep);
      assert parts == [s[..i]] + rest;
      assert parts[0] == s[..i] && parts[1..] == rest;
      assert Join(parts, sep) == s[..i] + [sep] + Join(rest, sep);
      assert s == s[..i] + [sep] + s[i + 1..];
    }
  }

  /** Splitting at the first separator: the part before it, then the rest split. */
  lemma SplitAtFirst(pre: string, sep: char, rest: string)
    requires sep !in pre
    ensures Split(pre + [sep] + rest, sep) == [pre] + Split(rest, sep)
  {
    var s := pre + [sep] + rest;
    var k := |pre|;
    assert s[k] == sep && s[..k] == pre;
    assert FirstIndex(s, sep) == k;
    assert s[k + 1..] == rest;
  }

  predicate StartsWith(s: string, prefix: string) {
    |prefix| <= |s| && s[..|prefix|] == prefix
  }

  predicate IsAlnum(c: char) {
    ('a' <= c <= 'z') || ('A' <= c <= 'Z') || ('0' <= c <= '9')
  }

  /** Length of the leading run of `[a-zA-Z0-9]`. */
  function AlnumRun(s: string): (n: nat)
    ensures n <= |s|
    ensures forall i :: 0 <= i < n ==> IsAlnum(s[i])
    ensures n < |s| ==> !IsAlnum(s[n])
  {
    if s == [] || !IsAlnum(s[0]) then 0 else 1 + AlnumRun(s[1..])
  }

  /** Where the pattern `#[a-zA-Z0-9]*` first matches: its start and its length. */
  function IdMatch(s: string): (m: Option<(nat, nat)>)
    ensures m.Some? <==> '#' in s
    ensures m.Some? ==> m.value.1 >= 1 && m.value.0 + m.value.1 <= |s|
  {
    if '#' !in s then None
    else
      var i := FirstIndex(s, '#');
      Some((i, 1 + AlnumRun(s[i + 1..])))
  }

  /** The first match of `#[a-zA-Z0-9]*` in s: the first `#` and the letters and digits after it. */
  function IdToken(s: string): (t: Option<string>)
    ensures t.Some? <==> '#' in s
    ensures t.Some? ==> |t.value| >= 1 && t.value[0] == '#'
                        && forall i :: 1 <= i < |t.value| ==> IsAlnum(t.value[i])
  {
    match IdMatch(s)
    case None => None
    case Some((i, n)) => Some(s[i..i + n])
  }

  /** Replacing the pattern `#[a-zA-Z0-9]*` by nothing, without the global flag:
      only the first id token goes. */
  function RemoveFirstIdToken(s: string): (r: string)
    ensures '#' !in s ==> r == s
  {
    match IdMatch(s)
    case None => s
    case Some((i, n)) => s[..i] + s[i + n..]
  }

  /** Replacing the pattern `#[a-zA-Z0-9]*` by nothing with the global flag:
      every id token goes. */
  function RemoveAllIdTokens(s: string): (r: string)
    ensures '#' !in r
    decreases |s|
  {
    match IdMatch(s)
    case None => s
    case Some((i, n)) =>
      assert '#' !in s[..i] by { assert s[..i] == s[..FirstIndex(s, '#')]; }
      s[..i] + RemoveAllIdTokens(s[i + n..])
  }

  /** `s.toUpperCase()` on the letters a to z. */
  function ToUpper(s: string): (r: string)
    ensures |r| == |s|
    ensures forall i :: 0 <= i < |s| ==> r[i] == if 'a' <= s[i] <= 'z' then (s[i] as int - 32) as char else s[i]
  {
    seq(|s|, i requires 0 <= i < |s| => if 'a' <= s[i] <= 'z' then (s[i] as int - 32) as char else s[i])
  }

  /** Removing every space character (a global replace of " "). */
  function RemoveSpaces(s: string): (r: string)
    ensures ' ' !in r
    ensures |r| <= |s|
  {
    if s == [] then [] else (if s[0] == ' ' then [] else [s[0]]) + RemoveSpaces(s[1..])
  }

  /** Lexicographic order of strings, as `<` compares two strings. */
  predicate LexLess(a: string, b: string)
    decreases |a|
  {
    if a == [] then b != []
    else if b == [] then false
    else if a[0] != b[0] then a[0] < b[0]
    else LexLess(a[1..], b[1..])
  }

  // ---------------------------------------------------------------- numbers

  /** The white space and line terminators `Number` trims: tab, the vertical tab,
      form feed, the byte-order mark, every space separator (U+0020, U+00A0, U+1680,
      U+2000 to U+200A, U+202F, U+205F, U+3000), and line feed, carriage return and
      the line and paragraph separators. */
  predicate IsWhitespace(c: char) {
    c == ' ' || c == '\t' || c == '\n' || c == '\r' || c == '\U{000B}' || c == '\U{000C}'
    || c == '\U{00A0}' || c == '\U{FEFF}' || c == '\U{2028}' || c == '\U{2029}'
    || c == '\U{1680}' || ('\U{2000}' <= c <= '\U{200A}') || c == '\U{202F}' || c == '\U{205F}' || c == '\U{3000}'
  }

  function TrimStart(s: string): (r: string)
    ensures r == [] || !IsWhitespace(r[0])
  {
    if s != [] && IsWhitespace(s[0]) then TrimStart(s[1..]) else s
  }

  function TrimEnd(s: string): (r: string)
    ensures r == [] || !IsWhitespace(r[|r| - 1])
  {
    if s != [] && IsWhitespace(s[|s| - 1]) then TrimEnd(s[..|s| - 1]) else s
  }

  function Pow10(n: nat): (p: nat)
    ensures p >= 1
  {
    if n == 0 then 1 else 10 * Pow10(n - 1)
  }

  /** An unsigned decimal literal without exponent, `12`, `12.`, `12.5` or `.5`;
      None when malformed. */
  function PlainDecimal(s: string): Option<real> {
    if s == [] then None
    else if '.' in s then
      var i := FirstIndex(s, '.');
      var whole, frac := s[..i], s[i + 1..];
      if (whole == [] && frac == []) || !AllDigits(whole) || !AllDigits(frac) then None
      else Some(DigitsValue(whole) as real + DigitsValue(frac) as real / Pow10(|frac|) as real)
    else if AllDigits(s) then Some(DigitsValue(s) as real)
    else None
  }

  /** A plain decimal starts with a digit or the point. */
  lemma PlainDecimalStart(s: string)
    requires s != [] && !IsDigit(s[0]) && s[0] != '.'
    ensures PlainDecimal(s).None?
  {
    assert !AllDigits(s);
    if '.' in s {
      var i := FirstIndex(s, '.');
      assert i > 0 && s[..i][0] == s[0];
    }
  }

  /** Where the exponent mark `e` or `E` is, or the length when there is none. */
  function ExponentMark(s: string): (i: nat)
    ensures i <= |s|
    ensures i < |s| ==> s[i] == 'e' || s[i] == 'E'
    ensures forall j :: 0 <= j < i ==> s[j] != 'e' && s[j] != 'E'
  {
    if s == [] || s[0] == 'e' || s[0] == 'E' then 0 else 1 + ExponentMark(s[1..])
  }

  /** The exponent after the mark: decimal digits, perhaps signed; None when malformed. */
  function Exponent(s: string): Option<int> {
    if s != [] && (s[0] == '+' || s[0] == '-') then
      if |s| > 1 && AllDigits(s[1..]) then Some(if s[0] == '-' then -(DigitsValue(s[1..]) as int) else DigitsValue(s[1..])) else None
    else if s != [] && AllDigits(s) then Some(DigitsValue(s))
    else None
  }

  /** `10` to the power `e`. */
  function Scale(e: int): (r: real)
    ensures r > 0.0
  {
    if e >= 0 then Pow10(e) as real else 1.0 / Pow10(-e) as real
  }

  /** An unsigned decimal literal with an optional exponent, `12`, `12.5e3` or
      `.5E-2`; None when malformed. */
  function UnsignedDecimal(s: string): Option<real> {
    var i := ExponentMark(s);
    if i == |s| then PlainDecimal(s) else Scaled(PlainDecimal(s[..i]), Exponent(s[i + 1..]))
  }

  /** A mantissa times ten to the power of the exponent, when both are well formed. */
  function Scaled(m: Option<real>, e: Option<int>): Option<real> {
    if m.Some? && e.Some? then Some(m.value * Scale(e.value)) else None
  }

  /** The value of a character as a hexadecimal digit. */
  function HexDigitValue(c: char): (d: Option<nat>)
    ensures d.Some? ==> d.value < 16
  {
    if '0' <= c <= '9' then Some(c as int - '0' as int)
    else if 'a' <= c <= 'f' then Some(c as int - 'a' as int + 10)
    else if 'A' <= c <= 'F' then Some(c as int - 'A' as int + 10)
    else None
  }

  /** The radix a `0x`, `0o` or `0b` prefix names (either case), or 0. */
  function Radix(c: char): nat {
    if c == 'x' || c == 'X' then 16
    else if c == 'o' || c == 'O' then 8
    else if c == 'b' || c == 'B' then 2
    else 0
  }

  /** The digits of a non-decimal literal read in their radix; None when there are
      none or one is not a digit of that radix. */
  function RadixValue(s: string, radix: nat): Option<nat>
    decreases |s|
  {
    if s == [] then None
    else
      var d := HexDigitValue(s[|s| - 1]);
      if d.None? || d.value >= radix then None
      else if |s| == 1 then Some(d.value)
      else
        match RadixValue(s[..|s| - 1], radix)
        case Some(v) => Some(v * radix + d.value)
        case None => None
  }

  /** `Number(s)` for a string; None is NaN. Surrounding white space is ignored, the
      empty string is 0, and `0x`, `0o` and `0b` literals take no sign. */
  function StringToNumber(s: string): Option<real> {
    var t := TrimEnd(TrimStart(s));
    if t == [] then Some(0.0)
    else if |t| > 2 && t[0] == '0' && Radix(t[1]) > 0 then
      (match RadixValue(t[2..], Radix(t[1])) case Some(v) => Some(v as real) case None => None)
    else if t[0] == '-' then
      (match UnsignedDecimal(t[1..]) case Some(r) => Some(-r) case None => None)
    else if t[0] == '+' then UnsignedDecimal(t[1..])
    else UnsignedDecimal(t)
  }

  /** White space before a numeral, such as the ideographic space U+3000, does not
      change the number it converts to. */
  lemma LeadingWhitespaceIgnored(c: char, s: string)
    requires IsWhitespace(c)
    ensures StringToNumber([c] + s) == StringToNumber(s)
  {
    assert ([c] + s)[1..] == s;
  }

  /** A decimal literal with an exponent is its mantissa scaled by that power of ten;
      a missing or empty exponent, or a second mark, makes it NaN. */
  lemma ExponentScales(m: string, e: string)
    requires m != [] && AllDigits(m)
    ensures UnsignedDecimal(m + "e" + e) == Scaled(Some(DigitsValue(m) as real), Exponent(e))
    ensures Exponent(e).None? ==> UnsignedDecimal(m + "e" + e).None?
  {
    var rest := "e" + e;
    var s := m + "e" + e;
    assert s == m + rest;
    assert rest[0] == 'e';
    assert ExponentMark(rest) == 0;
    ExponentMarkAfter(m, rest);
    assert ExponentMark(s) == |m| < |s|;
    assert s[..|m|] == m && s[|m| + 1..] == e;
    PlainDecimalDigits(m);
    UnsignedDecimalSplits(s);
  }

  /** A literal with an exponent mark is its mantissa and its exponent. */
  lemma UnsignedDecimalSplits(s: string)
    requires ExponentMark(s) < |s|
    ensures UnsignedDecimal(s) == Scaled(PlainDecimal(s[..ExponentMark(s)]), Exponent(s[ExponentMark(s) + 1..]))
  {
  }

  lemma {:induction false} ExponentMarkAfter(m: string, rest: string)
    requires AllDigits(m)
    ensures ExponentMark(m + rest) == |m| + ExponentMark(rest)
  {
    if m != [] {
      assert (m + rest)[1..] == m[1..] + rest;
      assert IsDigit(m[0]);
      ExponentMarkAfter(m[1..], rest);
    } else {
      assert m + rest == rest;
    }
  }

  lemma PlainDecimalDigits(m: string)
    requires m != [] && AllDigits(m)
    ensures PlainDecimal(m) == Some(DigitsValue(m) as real)
  {
    assert '.' !in m by {
      assert !IsDigit('.');
    }
  }

  /** A hexadecimal literal reads its digits in base 16; the other radixes likewise. */
  lemma RadixLiteral(c: char, digits: string)
    requires Radix(c) > 0 && RadixValue(digits, Radix(c)).Some?
    ensures StringToNumber("0" + [c] + digits) == Some(RadixValue(digits, Radix(c)).value as real)
  {
    var s := "0" + [c] + digits;
    assert !IsWhitespace(s[0]);
    TrimStartKeeps(s);
    assert digits != [];
    assert !IsWhitespace(s[|s| - 1]) by {
      assert s[|s| - 1] == digits[|digits| - 1];
      assert HexDigitValue(digits[|digits| - 1]).Some?;
    }
    assert s[2..] == digits;
  }

  /** Examples: `Number("1e3")` is 1000 and `Number("0x10")` is 16. */
  lemma NumberLiteralExamples()
    ensures StringToNumber("1e3") == Some(1000.0)
    ensures StringToNumber("0x10") == Some(16.0)
  {
    ExponentExample();
    HexExample();
  }

  lemma ExponentExample()
    ensures StringToNumber("1e3") == Some(1000.0)
  {
    var s := "1e3";
    assert s == "1" + "e" + "3";
    ExponentScales("1", "3");
    assert Scale(3) == 1000.0;
    UnsignedNumber(s);
  }

  /** A string that starts with a non-zero digit and ends with a digit is read as an
      unsigned decimal. */
  lemma UnsignedNumber(s: string)
    requires s != [] && '1' <= s[0] <= '9' && IsDigit(s[|s| - 1])
    ensures StringToNumber(s) == UnsignedDecimal(s)
  {
    TrimStartKeeps(s);
    TrimEndKeeps(s);
  }

  lemma HexExample()
    ensures StringToNumber("0x10") == Some(16.0)
  {
    assert RadixValue("10", 16) == Some(16) by {
      assert "10"[..1] == "1";
    }
    RadixLiteral('x', "10");
    assert "0" + ['x'] + "10" == "0x10";
  }

  lemma TrimStartKeeps(s: string)
    requires s != [] && !IsWhitespace(s[0])
    ensures TrimStart(s) == s
  {
  }

  lemma TrimEndKeeps(s: string)
    requires s != [] && !IsWhitespace(s[|s| - 1])
    ensures TrimEnd(s) == s
  {
  }

  lemma StringToNumberOfNumeral(n: nat)
    ensures StringToNumber(NatToString(n)) == Some(n as real)
  {
    var s := NatToString(n);
    NatToStringRoundTrip(n);
    assert TrimStart(s) == s;
    assert TrimEnd(s) == s;
    assert '.' !in s;
  }

  /** `Number(v)`; None is NaN. */
  function ToNumber(v: Value): Option<real> {
    match v
    case Undef => None
    case Null => Some(0.0)
    case Bool(b) => Some(if b then 1.0 else 0.0)
    case Num(r) => Some(r)
    case NaN => None
    case Str(s) => StringToNumber(s)
    case Arr(items) =>
      // an array converts through its comma-joined text
      if |items| == 0 then Some(0.0)
      else if |items| == 1 then
        match items[0]
        case Undef => Some(0.0)
        case Null => Some(0.0)
        case Bool(_) => None
        case Obj(_) => None
        case Fn(_) => None
        case x => ToNumber(x)
      else None
    case Obj(_) => None
    case Fn(_) => None
  }

  /** A value reduced for a relational comparison: a string, or a number (None is NaN). */
  datatype Prim = PStr(s: string) | PNum(n: Option<real>)

  function ToPrimitive(v: Value): Prim {
    match v
    case Str(s) => PStr(s)
    case Obj(_) => PStr("[object Object]")
    case Arr(_) => PNum(None)
    case Fn(_) => PNum(None)
    case _ => PNum(ToNumber(v))
  }

  function PrimToNumber(p: Prim): Option<real> {
    match p
    case PStr(s) => StringToNumber(s)
    case PNum(n) => n
  }

  /** The abstract relational comparison `x < y`; None is its `undefined` result
      (a NaN operand), which every relational operator reads as false. */
  function LessThan(x: Prim, y: Prim): Option<bool> {
    if x.PStr? && y.PStr? then Some(LexLess(x.s, y.s))
    else
      var nx, ny := PrimToNumber(x), PrimToNumber(y);
      if nx.None? || ny.None? then None else Some(nx.value < ny.value)
  }

  /** `a < t`, `a > t`, `a <= t`, `a >= t` for a value and a string. */
  predicate Lt(a: Value, t: string) { LessThan(ToPrimitive(a), PStr(t)) == Some(true) }
  predicate Gt(a: Value, t: string) { LessThan(PStr(t), ToPrimitive(a)) == Some(true) }
  predicate Le(a: Value, t: string) { LessThan(PStr(t), ToPrimitive(a)) == Some(false) }
  predicate Ge(a: Value, t: string) { LessThan(ToPrimitive(a), PStr(t)) == Some(false) }

  /** `a == t` for a value and a string. */
  predicate LooseEqualsString(a: Value, t: string) {
    match a
    case Str(s) => s == t
    case Num(r) => StringToNumber(t) == Some(r)
    case Bool(b) => StringToNumber(t) == Some(if b then 1.0 else 0.0)
    case Obj(_) => t == "[object Object]"
    case _ => false
  }

  /** For a number and a numeric string, the operators are the numeric ones. */
  lemma NumericComparisons(x: real, t: string, n: real)
    requires StringToNumber(t) == Some(n)
    ensures Lt(Num(x), t) <==> x < n
    ensures Gt(Num(x), t) <==> x > n
    ensures Le(Num(x), t) <==> x <= n
    ensures Ge(Num(x), t) <==> x >= n
    ensures LooseEqualsString(Num(x), t) <==> x == n
  {
  }

  /** Against a string that is not a number, no relational operator holds for a number. */
  lemma NaNComparisons(x: real, t: string)
    requires StringToNumber(t).None?
    ensures !Lt(Num(x), t) && !Gt(Num(x), t) && !Le(Num(x), t) && !Ge(Num(x), t)
    ensures !LooseEqualsString(Num(x), t)
  {
  }
}
