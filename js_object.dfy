/** Plain JavaScript objects as ordered dictionaries.
    A JavaScript object enumerates its own string keys in a fixed order: keys that are
    array indices ("0", "1", ..., canonical numerals below 2^32 - 1) come first in
    ascending numeric order, then every other key in the order it was first added.
    The registry, the event namespace tables and the drawing tables of the library
    all depend on that order, so it is kept explicitly here. */
module JsObject {

  datatype Option<+T> = None | Some(value: T)

  /** Maximum array index plus one (2^32 - 1). */
  const IndexLimit: nat := 4294967295

  predicate IsDigit(c: char) { '0' <= c <= '9' }

  predicate AllDigits(s: string) { forall i :: 0 <= i < |s| ==> IsDigit(s[i]) }

  /** The number a string of decimal digits denotes. */
  function DigitsValue(s: string): nat
    requires AllDigits(s)
  {
    if |s| == 0 then 0 else DigitsValue(s[..|s| - 1]) * 10 + (s[|s| - 1] as int - '0' as int)
  }

  /** The canonical decimal numeral of n (what String(n) gives). */
  function NatToString(n: nat): (s: string)
    ensures |s| > 0 && AllDigits(s)
    ensures (s[0] == '0') == (n == 0)
    decreases n
  {
    var d := [('0' as int + n % 10) as char];
    if n < 10 then d else NatToString(n / 10) + d
  }

  lemma {:induction false} NatToStringRoundTrip(n: nat)
    ensures DigitsValue(NatToString(n)) == n
    decreases n
  {
    var s := NatToString(n);
    if n >= 10 {
      NatToStringRoundTrip(n / 10);
      assert s[..|s| - 1] == NatToString(n / 10);
    }
  }

  /** A key that JavaScript orders numerically: a canonical numeral below 2^32 - 1. */
  predicate IsArrayIndex(k: string) {
    && |k| > 0
    && AllDigits(k)
    && (k[0] != '0' || |k| == 1)
    && DigitsValue(k) < IndexLimit
  }

  lemma NatToStringIsIndex(n: nat)
    requires n < IndexLimit
    ensures IsArrayIndex(NatToString(n)) && DigitsValue(NatToString(n)) == n
  {
    NatToStringRoundTrip(n);
  }

  function IndexValue(k: string): nat
    requires IsArrayIndex(k)
  {
    DigitsValue(k)
  }

  /** An object's own properties, in enumeration order. */
  type Dict<V> = seq<(string, V)>

  function Keys<V>(d: Dict<V>): (ks: seq<string>)
    ensures |ks| == |d| && forall i :: 0 <= i < |d| ==> ks[i] == d[i].0
  {
    if d == [] then [] else [d[0].0] + Keys(d[1..])
  }

  function Values<V>(d: Dict<V>): (vs: seq<V>)
    ensures |vs| == |d| && forall i :: 0 <= i < |d| ==> vs[i] == d[i].1
  {
    if d == [] then [] else [d[0].1] + Values(d[1..])
  }

  predicate HasKey<V>(d: Dict<V>, k: string) {
    exists i :: 0 <= i < |d| && d[i].0 == k
  }

  predicate DistinctKeys<V>(d: Dict<V>) {
    forall i, j :: 0 <= i < j < |d| ==> d[i].0 != d[j].0
  }

  /** Array-index keys form a prefix and ascend. */
  predicate IndexKeysFirst<V>(d: Dict<V>) {
    forall i, j :: 0 <= i < j < |d| && IsArrayIndex(d[j].0) ==>
      IsArrayIndex(d[i].0) && IndexValue(d[i].0) < IndexValue(d[j].0)
  }

  /** The representation invariant of an object's property list. */
  predicate WellOrdered<V>(d: Dict<V>) {
    DistinctKeys(d) && IndexKeysFirst(d)
  }

  function Get<V>(d: Dict<V>, k: string): (r: Option<V>)
    ensures r.Some? <==> HasKey(d, k)
    ensures r.Some? ==> exists i :: 0 <= i < |d| && d[i] == (k, r.value)
  {
    if d == [] then None
    else if d[0].0 == k then Some(d[0].1)
    else
      var r := Get(d[1..], k);
      assert r.Some? ==> exists i :: 1 <= i < |d| && d[i] == (k, r.value) by {
        if r.Some? {
          var i :| 0 <= i < |d[1..]| && d[1..][i] == (k, r.value);
          assert d[i + 1] == (k, r.value);
        }
      }
      assert HasKey(d[1..], k) ==> HasKey(d, k) by {
        if HasKey(d[1..], k) {
          var i :| 0 <= i < |d[1..]| && d[1..][i].0 == k;
          assert d[i + 1].0 == k;
        }
      }
      assert HasKey(d, k) ==> HasKey(d[1..], k) by {
        if HasKey(d, k) {
          var i :| 0 <= i < |d| && d[i].0 == k;
          assert i > 0 && d[1..][i - 1].0 == k;
        }
      }
      r
  }

  lemma GetAt<V>(d: Dict<V>, i: nat)
    requires DistinctKeys(d) && i < |d|
    ensures Get(d, d[i].0) == Some(d[i].1)
  {
    if i > 0 {
      assert DistinctKeys(d[1..]) by {
        forall a, b | 0 <= a < b < |d[1..]| ensures d[1..][a].0 != d[1..][b].0 {
          assert d[1..][a] == d[a + 1] && d[1..][b] == d[b + 1];
        }
      }
      assert d[1..][i - 1] == d[i];
      GetAt(d[1..], i - 1);
      assert d[0].0 != d[i].0;
    }
  }

  /** Replaces the value at an existing position. */
  function Replace<V>(d: Dict<V>, i: nat, v: V): (r: Dict<V>)
    requires i < |d|
    ensures |r| == |d| && Keys(r) == Keys(d)
  {
    d[i := (d[i].0, v)]
  }

  function IndexOfKey<V>(d: Dict<V>, k: string): (i: nat)
    requires HasKey(d, k)
    ensures i < |d| && d[i].0 == k
    ensures forall j :: 0 <= j < i ==> d[j].0 != k
  {
    if d[0].0 == k then 0
    else
      assert HasKey(d[1..], k) by {
        var j :| 0 <= j < |d| && d[j].0 == k;
        assert j > 0 && d[1..][j - 1].0 == k;
      }
      1 + IndexOfKey(d[1..], k)
  }

  /** Where a new array-index key goes: before the first key that is not an
      array index or has a larger value. */
  function IndexSlot<V>(d: Dict<V>, k: string): (p: nat)
    requires IsArrayIndex(k)
    ensures p <= |d|
    ensures forall j :: 0 <= j < p ==> IsArrayIndex(d[j].0) && IndexValue(d[j].0) <= IndexValue(k)
    ensures p < |d| ==> !IsArrayIndex(d[p].0) || IndexValue(d[p].0) > IndexValue(k)
  {
    if d == [] then 0
    else if !IsArrayIndex(d[0].0) || IndexValue(d[0].0) > IndexValue(k) then 0
    else 1 + IndexSlot(d[1..], k)
  }

  /** Property assignment `obj[k] = v`: an existing key keeps its position, a new
      array-index key is placed by its value, any other new key goes last. */
  function Set<V>(d: Dict<V>, k: string, v: V): (r: Dict<V>)
  {
    if HasKey(d, k) then Replace(d, IndexOfKey(d, k), v)
    else if IsArrayIndex(k) then
      var p := IndexSlot(d, k);
      d[..p] + [(k, v)] + d[p..]
    else d + [(k, v)]
  }

  /** Property deletion `delete obj[k]`: the other keys keep their order. */
  function Delete<V>(d: Dict<V>, k: string): (r: Dict<V>)
    ensures |r| <= |d|
    ensures forall i :: 0 <= i < |r| ==> r[i].0 != k
  {
    if d == [] then []
    else if d[0].0 == k then Delete(d[1..], k)
    else [d[0]] + Delete(d[1..], k)
  }

  lemma {:induction false} DeleteGet<V>(d: Dict<V>, k: string, k': string)
    ensures Get(Delete(d, k), k') == if k' == k then None else Get(d, k')
  {
    if d != [] {
      DeleteGet(d[1..], k, k');
    }
  }

  /** Every property left after deleting k was there before. */
  lemma {:induction false} DeleteFrom<V>(d: Dict<V>, k: string, j: nat)
    requires j < |Delete(d, k)|
    ensures exists m :: 0 <= m < |d| && d[m] == Delete(d, k)[j]
  {
    if d[0].0 == k {
      DeleteFrom(d[1..], k, j);
      var m :| 0 <= m < |d[1..]| && d[1..][m] == Delete(d[1..], k)[j];
      assert d[m + 1] == d[1..][m];
    } else if j > 0 {
      DeleteFrom(d[1..], k, j - 1);
      var m :| 0 <= m < |d[1..]| && d[1..][m] == Delete(d[1..], k)[j - 1];
      assert d[m + 1] == d[1..][m];
    } else {
      assert d[0] == Delete(d, k)[0];
    }
  }

  lemma {:induction false} DeletePreservesOrder<V>(d: Dict<V>, k: string)
    requires WellOrdered(d)
    ensures WellOrdered(Delete(d, k))
  {
    if d != [] {
      var t := d[1..];
      assert WellOrdered(t) by {
        forall a, b | 0 <= a < b < |t| ensures t[a].0 != t[b].0 {
          assert t[a] == d[a + 1] && t[b] == d[b + 1];
        }
        forall a, b | 0 <= a < b < |t| && IsArrayIndex(t[b].0)
          ensures IsArrayIndex(t[a].0) && IndexValue(t[a].0) < IndexValue(t[b].0)
        {
          assert t[a] == d[a + 1] && t[b] == d[b + 1];
        }
      }
      DeletePreservesOrder(t, k);
      var rt := Delete(t, k);
      if d[0].0 != k {
        var r := [d[0]] + rt;
        forall b | 0 < b < |r|
          ensures r[b].0 != d[0].0
          ensures IsArrayIndex(r[b].0) ==> IsArrayIndex(d[0].0) && IndexValue(d[0].0) < IndexValue(r[b].0)
        {
          assert r[b] == rt[b - 1];
          DeleteFrom(t, k, b - 1);
          var m :| 0 <= m < |t| && t[m] == r[b];
          assert d[m + 1] == r[b];
        }
        forall a, b | 0 <= a < b < |r| ensures r[a].0 != r[b].0 {
          if a > 0 { assert r[a] == rt[a - 1] && r[b] == rt[b - 1]; }
        }
        forall a, b | 0 <= a < b < |r| && IsArrayIndex(r[b].0)
          ensures IsArrayIndex(r[a].0) && IndexValue(r[a].0) < IndexValue(r[b].0)
        {
          if a > 0 { assert r[a] == rt[a - 1] && r[b] == rt[b - 1]; }
        }
      }
    }
  }

  lemma {:induction false} IndexOfKeyOnly<V>(d: Dict<V>, k: string, i: nat)
    requires DistinctKeys(d) && i < |d| && d[i].0 == k
    ensures HasKey(d, k) && IndexOfKey(d, k) == i
  {
    var j := IndexOfKey(d, k);
    assert !(j < i) && !(i < j);
  }

  /** Assignment keeps the representation invariant. */
  lemma SetPreservesOrder<V>(d: Dict<V>, k: string, v: V)
    requires WellOrdered(d)
    ensures WellOrdered(Set(d, k, v))
  {
    var r := Set(d, k, v);
    if HasKey(d, k) {
      var i := IndexOfKey(d, k);
      assert forall j :: 0 <= j < |r| ==> r[j].0 == d[j].0;
    } else if IsArrayIndex(k) {
      InsertIndexPreservesOrder(d, k, v);
    } else {
      assert forall j :: 0 <= j < |d| ==> d[j].0 != k;
      assert forall j :: 0 <= j < |d| ==> r[j] == d[j];
    }
  }

  /** A new array-index key lands after every smaller index key and before every
      other key. */
  lemma InsertIndexPreservesOrder<V>(d: Dict<V>, k: string, v: V)
    requires WellOrdered(d) && !HasKey(d, k) && IsArrayIndex(k)
    ensures WellOrdered(Set(d, k, v))
  {
    var p := IndexSlot(d, k);
    var r := d[..p] + [(k, v)] + d[p..];
    assert Set(d, k, v) == r;
    forall a, b | 0 <= a < b < |r| ensures r[a].0 != r[b].0 {
      InsertedPair(d, k, v, p, r, a, b);
    }
    forall a, b | 0 <= a < b < |r| && IsArrayIndex(r[b].0)
      ensures IsArrayIndex(r[a].0) && IndexValue(r[a].0) < IndexValue(r[b].0)
    {
      InsertedPair(d, k, v, p, r, a, b);
    }
  }

  lemma InsertedPair<V>(d: Dict<V>, k: string, v: V, p: nat, r: Dict<V>, a: nat, b: nat)
    requires WellOrdered(d) && !HasKey(d, k) && IsArrayIndex(k)
    requires p == IndexSlot(d, k) && r == d[..p] + [(k, v)] + d[p..]
    requires a < b < |r|
    ensures r[a].0 != r[b].0
    ensures IsArrayIndex(r[b].0) ==> IsArrayIndex(r[a].0) && IndexValue(r[a].0) < IndexValue(r[b].0)
  {
    InsertedAt(d, p, (k, v), a);
    InsertedAt(d, p, (k, v), b);
    if b < p {
      assert r[a] == d[a] && r[b] == d[b];
    } else if b == p {
      assert r[a] == d[a] && r[b] == (k, v);
      IndexBelowSlot(d, k, a);
    } else if a == p {
      assert r[a] == (k, v) && r[b] == d[b - 1];
      assert d[b - 1].0 != k;
      if IsArrayIndex(d[b - 1].0) { SlotAbove(d, k, b - 1); }
    } else if a < p {
      assert r[a] == d[a] && r[b] == d[b - 1];
    } else {
      assert r[a] == d[a - 1] && r[b] == d[b - 1];
    }
  }

  lemma InsertedAt<T>(d: seq<T>, p: nat, e: T, j: nat)
    requires p <= |d| && j <= |d|
    ensures var r := d[..p] + [e] + d[p..];
      r[j] == if j < p then d[j] else if j == p then e else d[j - 1]
  {
  }

  lemma SlotAbove<V>(d: Dict<V>, k: string, j: nat)
    requires WellOrdered(d) && IsArrayIndex(k)
    requires IndexSlot(d, k) <= j < |d| && IsArrayIndex(d[j].0)
    ensures IndexValue(d[j].0) > IndexValue(k)
  {
    var p := IndexSlot(d, k);
    if j > p {
      assert IsArrayIndex(d[p].0) && IndexValue(d[p].0) < IndexValue(d[j].0);
    }
  }

  lemma IndexBelowSlot<V>(d: Dict<V>, k: string, a: nat)
    requires WellOrdered(d) && !HasKey(d, k) && IsArrayIndex(k)
    requires a < IndexSlot(d, k)
    ensures IsArrayIndex(d[a].0) && IndexValue(d[a].0) < IndexValue(k)
  {
    assert d[a].0 != k;
    if IndexValue(d[a].0) == IndexValue(k) { CanonicalUnique(d[a].0, k); }
  }

  /** Two canonical numerals with the same value are the same string. */
  lemma {:induction false} CanonicalUnique(a: string, b: string)
    requires IsArrayIndex(a) && IsArrayIndex(b) && DigitsValue(a) == DigitsValue(b)
    ensures a == b
  {
    CanonicalIsNatToString(a);
    CanonicalIsNatToString(b);
  }

  lemma {:induction false} CanonicalIsNatToString(a: string)
    requires |a| > 0 && AllDigits(a) && (a[0] != '0' || |a| == 1)
    ensures a == NatToString(DigitsValue(a))
    decreases |a|
  {
    var n := DigitsValue(a);
    var init := a[..|a| - 1];
    if |a| == 1 {
    } else {
      assert init[0] == a[0];
      assert AllDigits(init);
      CanonicalIsNatToString(init);
      LeadingDigitPositive(init);
      assert n / 10 == DigitsValue(init);
      assert n >= 10;
      assert NatToString(n) == NatToString(n / 10) + [('0' as int + n % 10) as char];
      assert a == init + [a[|a| - 1]];
    }
  }

  lemma LeadingDigitPositive(s: string)
    requires |s| > 0 && AllDigits(s) && s[0] != '0'
    ensures DigitsValue(s) > 0
    decreases |s|
  {
    if |s| > 1 {
      assert s[..|s| - 1][0] == s[0];
      LeadingDigitPositive(s[..|s| - 1]);
    }
  }

  /** Reading back after assignment. */
  lemma SetGet<V>(d: Dict<V>, k: string, v: V, k': string)
    requires DistinctKeys(d)
    ensures Get(Set(d, k, v), k') == if k' == k then Some(v) else Get(d, k')
  {
    SetPreservesDistinct(d, k, v);
    if HasKey(d, k) {
      SetGetReplaced(d, k, v, k');
    } else {
      SetGetInserted(d, k, v, k');
    }
  }

  lemma SetGetReplaced<V>(d: Dict<V>, k: string, v: V, k': string)
    requires DistinctKeys(d) && DistinctKeys(Set(d, k, v)) && HasKey(d, k)
    ensures Get(Set(d, k, v), k') == if k' == k then Some(v) else Get(d, k')
  {
    var r := Set(d, k, v);
    var i := IndexOfKey(d, k);
    if k' == k {
      GetAt(r, i);
    } else if HasKey(d, k') {
      var j := IndexOfKey(d, k');
      GetAt(d, j);
      GetAt(r, j);
    } else {
      assert forall j :: 0 <= j < |r| ==> r[j].0 == d[j].0;
    }
  }

  lemma SetGetInserted<V>(d: Dict<V>, k: string, v: V, k': string)
    requires DistinctKeys(d) && DistinctKeys(Set(d, k, v)) && !HasKey(d, k)
    ensures Get(Set(d, k, v), k') == if k' == k then Some(v) else Get(d, k')
  {
    var p := if IsArrayIndex(k) then IndexSlot(d, k) else |d|;
    assert Set(d, k, v) == d[..p] + [(k, v)] + d[p..] by {
      if !IsArrayIndex(k) {
        assert d[..|d|] == d && d[|d|..] == [];
      }
    }
    InsertedGet(d, p, (k, v), k');
  }

  /** Reading a dictionary with one entry inserted at position p. */
  lemma InsertedGet<V>(d: Dict<V>, p: nat, e: (string, V), k': string)
    requires p <= |d| && DistinctKeys(d) && DistinctKeys(d[..p] + [e] + d[p..])
    ensures Get(d[..p] + [e] + d[p..], k') == if k' == e.0 then Some(e.1) else Get(d, k')
  {
    var r := d[..p] + [e] + d[p..];
    if k' == e.0 {
      assert r[p] == e;
      GetAt(r, p);
    } else if HasKey(d, k') {
      var j := IndexOfKey(d, k');
      GetAt(d, j);
      InsertedKeeps(d, p, e, j);
    } else {
      InsertedMissing(d, p, e, k');
    }
  }

  lemma InsertedKeeps<V>(d: Dict<V>, p: nat, e: (string, V), j: nat)
    requires p <= |d| && j < |d| && DistinctKeys(d[..p] + [e] + d[p..])
    ensures Get(d[..p] + [e] + d[p..], d[j].0) == Some(d[j].1)
  {
    var r := d[..p] + [e] + d[p..];
    if j < p {
      assert r[j] == d[j];
      GetAt(r, j);
    } else {
      assert r[j + 1] == d[j];
      GetAt(r, j + 1);
    }
  }

  lemma InsertedMissing<V>(d: Dict<V>, p: nat, e: (string, V), k': string)
    requires p <= |d| && !HasKey(d, k') && k' != e.0
    ensures Get(d[..p] + [e] + d[p..], k') == None
  {
    var r := d[..p] + [e] + d[p..];
    forall j | 0 <= j < |r| ensures r[j].0 != k' {
      if j < p {
        assert r[j] == d[j];
      } else if j > p {
        assert r[j] == d[j - 1];
      }
    }
  }

  lemma SetPreservesDistinct<V>(d: Dict<V>, k: string, v: V)
    requires DistinctKeys(d)
    ensures DistinctKeys(Set(d, k, v))
    ensures HasKey(Set(d, k, v), k)
  {
    var r := Set(d, k, v);
    if HasKey(d, k) {
      var i := IndexOfKey(d, k);
      assert forall j :: 0 <= j < |r| ==> r[j].0 == d[j].0;
      assert r[i].0 == k;
    } else {
      var p := if IsArrayIndex(k) then IndexSlot(d, k) else |d|;
      assert r == d[..p] + [(k, v)] + d[p..];
      assert forall j :: 0 <= j < |d| ==> d[j].0 != k;
      assert forall j :: 0 <= j < p ==> r[j] == d[j];
      assert forall j :: p < j < |r| ==> r[j] == d[j - 1];
      assert r[p].0 == k;
    }
  }

  /** A new key that is not an array index is enumerated last. */
  lemma SetNewNameAppends<V>(d: Dict<V>, k: string, v: V)
    requires !HasKey(d, k) && !IsArrayIndex(k)
    ensures Set(d, k, v) == d + [(k, v)]
  {
  }

  /** A second assignment to the same key overwrites the first and leaves no trace of it. */
  lemma SetTwice<V>(d: Dict<V>, k: string, v1: V, v2: V)
    requires DistinctKeys(d)
    ensures Set(Set(d, k, v1), k, v2) == Set(d, k, v2)
  {
    var d1 := Set(d, k, v1);
    SetPreservesDistinct(d, k, v1);
    if HasKey(d, k) {
      var i := IndexOfKey(d, k);
      IndexOfKeyOnly(d1, k, i);
    } else {
      var p := if IsArrayIndex(k) then IndexSlot(d, k) else |d|;
      assert d1 == d[..p] + [(k, v1)] + d[p..];
      assert d1[p] == (k, v1);
      IndexOfKeyOnly(d1, k, p);
      assert d1[p := (k, v2)] == d[..p] + [(k, v2)] + d[p..];
    }
  }

  /** Get finds the first entry with the key. */
  lemma {:induction false} GetFirst<V>(d: Dict<V>, k: string, i: nat)
    requires i < |d| && d[i].0 == k
    requires forall j :: 0 <= j < i ==> d[j].0 != k
    ensures Get(d, k) == Some(d[i].1)
  {
    if i > 0 {
      GetFirst(d[1..], k, i - 1);
    }
  }

  /** Reading back the key just assigned, whatever the rest of the list holds. */
  lemma GetAfterSet<V>(d: Dict<V>, k: string, v: V)
    ensures Get(Set(d, k, v), k) == Some(v)
  {
    var r := Set(d, k, v);
    if HasKey(d, k) {
      GetFirst(r, k, IndexOfKey(d, k));
    } else {
      var p := if IsArrayIndex(k) then IndexSlot(d, k) else |d|;
      assert r == d[..p] + [(k, v)] + d[p..];
      assert forall j :: 0 <= j < p ==> r[j] == d[j];
      GetFirst(r, k, p);
    }
  }
  /** Reading from two property lists written one after the other. */
  lemma {:induction false} GetConcat<V>(a: Dict<V>, b: Dict<V>, k: string)
    ensures Get(a + b, k) == if HasKey(a, k) then Get(a, k) else Get(b, k)
  {
    if a != [] {
      assert (a + b)[0] == a[0] && (a + b)[1..] == a[1..] + b;
      GetConcat(a[1..], b, k);
    } else {
      assert a + b == b;
    }
  }

  lemma ConcatAssociates<T>(a: seq<T>, b: seq<T>, c: seq<T>)
    ensures a + (b + c) == (a + b) + c
  {
  }
}
