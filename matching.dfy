/** `Element.matches`: the predicate language that decides whether an element fits a spec.
    A spec is a plain object; each of its keys must be defined on the subject and
    its value must agree with the subject's: a nested plain object recursively, a
    string starting with `<`, `>` or `!=` as a comparison, anything else by `===`. */
module Matching {
  import opened JsObject
  import opened JsValues
  import opened ObjectTools

  /** A spec string is read as an expression when it starts with `<`, `>` or `!=`. */
  predicate IsExpression(t: string) {
    StartsWith(t, "<") || StartsWith(t, ">") || StartsWith(t, "!=")
  }

  /** The five checks of an expression, in the order `matchesRecursively` makes them; each one
      rejects when its comparison holds. The operand is the text after the operator
      (removing the first occurrence of the operator, which is at the start). */
  predicate ExpressionRejects(a: Value, t: string) {
    || (StartsWith(t, "<=") && Gt(a, t[2..]))
    || (StartsWith(t, "<") && Ge(a, t[1..]))
    || (StartsWith(t, ">=") && Lt(a, t[2..]))
    || (StartsWith(t, ">") && Le(a, t[1..]))
    || (StartsWith(t, "!=") && LooseEqualsString(a, t[2..]))
  }

  /** `matchesRecursively(a, b)` */
  predicate Matches(a: Value, b: Value)
    decreases Size(b), 1
  {
    if !Truthy(a) || !Truthy(b) then false
    else
      ForInSmaller(b);
      MatchesEntries(a, ForIn(b), Size(b))
  }

  /** The loop over the spec's keys, which stops at the first key that fails. */
  predicate MatchesEntries(a: Value, entries: Dict<Value>, bound: nat)
    requires bound >= 1
    requires forall i :: 0 <= i < |entries| && entries[i].1.Obj? ==> Size(entries[i].1) < bound
    decreases bound, 0, |entries|
  {
    if entries == [] then true
    else LeafMatches(Prop(a, entries[0].0), entries[0].1) && MatchesEntries(a, entries[1..], bound)
  }

  /** One key: `ai` is the subject's value, `bi` the spec's. */
  predicate LeafMatches(ai: Value, bi: Value)
    decreases if bi.Obj? then Size(bi) else 0, 2
  {
    if ai == Undef then false
    else if bi.Obj? then Matches(ai, bi)
    else if bi.Str? && IsExpression(bi.s) then !ExpressionRejects(ai, bi.s)
    else StrictEquals(ai, bi)
  }

  lemma {:induction false} MatchesEntriesAll(a: Value, entries: Dict<Value>, bound: nat)
    requires bound >= 1
    requires forall i :: 0 <= i < |entries| && entries[i].1.Obj? ==> Size(entries[i].1) < bound
    ensures MatchesEntries(a, entries, bound)
            <==> forall i :: 0 <= i < |entries| ==> LeafMatches(Prop(a, entries[i].0), entries[i].1)
    decreases |entries|
  {
    if entries != [] {
      MatchesEntriesAll(a, entries[1..], bound);
      assert forall i :: 1 <= i < |entries| ==> entries[i] == entries[1..][i - 1];
    }
  }

  /** A subject matches a truthy spec exactly when every property the spec
      enumerates matches; a falsy subject or spec matches nothing. */
  lemma MatchesEveryKey(a: Value, b: Value)
    ensures Matches(a, b) <==>
      Truthy(a) && Truthy(b) && forall i :: 0 <= i < |ForIn(b)| ==> LeafMatches(Prop(a, ForIn(b)[i].0), ForIn(b)[i].1)
  {
    if Truthy(a) && Truthy(b) {
      ForInSmaller(b);
      MatchesEntriesAll(a, ForIn(b), Size(b));
    }
  }

  /** A spec key the subject does not define makes the match fail. */
  lemma MatchesNeedsDefinedKeys(a: Value, spec: Dict<Value>, k: string)
    requires HasKey(spec, k)
    requires Prop(a, k) == Undef
    ensures !Matches(a, Obj(spec))
  {
    MatchesEveryKey(a, Obj(spec));
    var i :| 0 <= i < |spec| && spec[i].0 == k;
    assert !LeafMatches(Prop(a, ForIn(Obj(spec))[i].0), ForIn(Obj(spec))[i].1);
  }

  /** The empty spec `{}` is truthy and matches every truthy subject. */
  lemma MatchesEmptySpec(a: Value)
    ensures Matches(a, Obj([])) == Truthy(a)
  {
    MatchesEveryKey(a, Obj([]));
  }

  /** No number is `=`-prefixed, so the second check of `<=N` and the fourth of
      `>=N` never reject a number. */
  lemma EqualsPrefixIsNaN(u: string)
    ensures StringToNumber("=" + u).None?
  {
    var s := "=" + u;
    assert s[0] == '=' && !IsWhitespace(s[0]);
    TrimStartKeeps(s);
    TrimEndKeepsFirst(s);
    var t := TrimEnd(s);
    assert t != [] && t[0] == '=';
    assert StringToNumber(s) == UnsignedDecimal(t);
    DecimalStart(t);
  }

  /** A decimal literal starts with a digit or the point. */
  lemma DecimalStart(t: string)
    requires t != [] && !IsDigit(t[0]) && t[0] != '.' && t[0] != 'e' && t[0] != 'E'
    ensures UnsignedDecimal(t).None?
  {
    var i := ExponentMark(t);
    if i == |t| {
      PlainDecimalStart(t);
    } else {
      UnsignedDecimalSplits(t);
      assert i > 0 && t[..i][0] == t[0];
      PlainDecimalStart(t[..i]);
    }
  }

  lemma {:induction false} TrimEndKeepsFirst(s: string)
    requires s != [] && !IsWhitespace(s[0])
    ensures TrimEnd(s) != [] && TrimEnd(s)[0] == s[0]
    decreases |s|
  {
    if IsWhitespace(s[|s| - 1]) {
      TrimEndKeepsFirst(s[..|s| - 1]);
    }
  }

  /** A number that parses from a string is never spelled with a leading `=`. */
  lemma NumeralNotEqualsPrefixed(t: string)
    requires StringToNumber(t).Some?
    ensures !StartsWith(t, "=")
  {
    if StartsWith(t, "=") {
      assert t == "=" + t[1..];
      EqualsPrefixIsNaN(t[1..]);
    }
  }

  /** A prefix after a common first character. */
  lemma StartsWithShift(c: char, t: string, p: string)
    ensures StartsWith([c] + t, [c] + p) <==> StartsWith(t, p)
  {
    var e := [c] + t;
    if StartsWith(t, p) {
      assert e[..|p| + 1] == [c] + t[..|p|];
    }
    if StartsWith(e, [c] + p) {
      assert t[..|p|] == e[1..|p| + 1];
    }
  }

  /** `"<=N"` keeps exactly the numbers at most N. */
  lemma AtMostExpression(x: real, t: string, n: real)
    requires StringToNumber(t) == Some(n)
    ensures LeafMatches(Num(x), Str("<=" + t)) <==> x <= n
  {
    NumericComparisons(x, t, n);
    EqualsPrefixIsNaN(t);
    NaNComparisons(x, "=" + t);
    var e := "<=" + t;
    assert e[2..] == t && e[1..] == "=" + t;
    assert StartsWith(e, "<=") && StartsWith(e, "<") && !StartsWith(e, ">") && !StartsWith(e, "!=");
  }

  /** `"<N"` keeps exactly the numbers below N. */
  lemma BelowExpression(x: real, t: string, n: real)
    requires StringToNumber(t) == Some(n)
    ensures LeafMatches(Num(x), Str("<" + t)) <==> x < n
  {
    NumericComparisons(x, t, n);
    NumeralNotEqualsPrefixed(t);
    var e := "<" + t;
    assert e[1..] == t;
    assert !StartsWith(e, "<=") by {
      StartsWithShift('<', t, "=");
    }
    assert StartsWith(e, "<") && !StartsWith(e, ">") && !StartsWith(e, ">=") && !StartsWith(e, "!=");
  }

  /** `">=N"` keeps exactly the numbers at least N. */
  lemma AtLeastExpression(x: real, t: string, n: real)
    requires StringToNumber(t) == Some(n)
    ensures LeafMatches(Num(x), Str(">=" + t)) <==> x >= n
  {
    NumericComparisons(x, t, n);
    EqualsPrefixIsNaN(t);
    NaNComparisons(x, "=" + t);
    var e := ">=" + t;
    assert e[2..] == t && e[1..] == "=" + t;
    assert StartsWith(e, ">=") && StartsWith(e, ">") && !StartsWith(e, "<") && !StartsWith(e, "<=") && !StartsWith(e, "!=");
  }

  /** `">N"` keeps exactly the numbers above N. */
  lemma AboveExpression(x: real, t: string, n: real)
    requires StringToNumber(t) == Some(n)
    ensures LeafMatches(Num(x), Str(">" + t)) <==> x > n
  {
    NumericComparisons(x, t, n);
    NumeralNotEqualsPrefixed(t);
    var e := ">" + t;
    assert e[1..] == t;
    assert !StartsWith(e, ">=") by {
      StartsWithShift('>', t, "=");
    }
    assert StartsWith(e, ">") && !StartsWith(e, "<") && !StartsWith(e, "<=") && !StartsWith(e, "!=");
  }

  /** `"!=N"` keeps exactly the numbers other than N. */
  lemma DifferentExpression(x: real, t: string, n: real)
    requires StringToNumber(t) == Some(n)
    ensures LeafMatches(Num(x), Str("!=" + t)) <==> x != n
  {
    NumericComparisons(x, t, n);
    var e := "!=" + t;
    assert e[2..] == t && e[0] == '!';
    assert e[..1] != "<" && e[..1] != ">";
    assert StartsWith(e, "!=") && !StartsWith(e, "<") && !StartsWith(e, "<=") && !StartsWith(e, ">") && !StartsWith(e, ">=");
  }

  /** A spec value that is neither a plain object nor an expression needs `===`;
      in particular arrays and objects held by the subject never equal one in the
      spec. */
  lemma LiteralNeedsStrictEquality(ai: Value, bi: Value)
    requires ai != Undef && !bi.Obj? && !(bi.Str? && IsExpression(bi.s))
    ensures LeafMatches(ai, bi) <==> StrictEquals(ai, bi)
    ensures bi.Arr? ==> !LeafMatches(ai, bi)
  {
  }

  /** A nested spec object is matched against the subject's property of that name. */
  lemma NestedSpec(a: Value, k: string, sub: Dict<Value>)
    requires Truthy(a)
    ensures Matches(a, Obj([(k, Obj(sub))])) <==> Prop(a, k) != Undef && Matches(Prop(a, k), Obj(sub))
  {
    MatchesEveryKey(a, Obj([(k, Obj(sub))]));
  }
}
