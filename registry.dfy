/** The element registry `elementMap` seen as a property list whose values are
    elements: which values it holds, and the removal of every key holding one value
    (`CC.___remove`). Generic in the value type, so it is stated once. */
module Registry {
  import opened JsObject

  /** No value is stored under two keys. */
  predicate DistinctValues<V(==)>(d: Dict<V>) {
    forall i, j :: 0 <= i < j < |d| ==> d[i].1 != d[j].1
  }

  /** The entries whose value is not v, in enumeration order. */
  function RemoveValue<V(==)>(d: Dict<V>, v: V): (r: Dict<V>)
    ensures |r| <= |d|
    ensures forall i :: 0 <= i < |r| ==> r[i] in d && r[i].1 != v
    ensures forall i :: 0 <= i < |d| && d[i].1 != v ==> d[i] in r
  {
    if d == [] then []
    else
      assert d == [d[0]] + d[1..];
      if d[0].1 == v then RemoveValue(d[1..], v)
      else [d[0]] + RemoveValue(d[1..], v)
  }

  lemma {:induction false} RemoveValueSnoc<V>(d: Dict<V>, x: (string, V), v: V)
    ensures RemoveValue(d + [x], v) == RemoveValue(d, v) + (if x.1 == v then [] else [x])
  {
    if d == [] {
      assert [] + [x] == [x] && [x][1..] == [];
    } else {
      assert (d + [x])[0] == d[0] && (d + [x])[1..] == d[1..] + [x];
      RemoveValueSnoc(d[1..], x, v);
    }
  }

  lemma TailWellOrdered<V>(d: Dict<V>)
    requires d != [] && WellOrdered(d)
    ensures WellOrdered(d[1..])
  {
    var t := d[1..];
    forall a, b | 0 <= a < b < |t| ensures t[a].0 != t[b].0 {
      assert t[a] == d[a + 1] && t[b] == d[b + 1];
    }
    forall a, b | 0 <= a < b < |t| && IsArrayIndex(t[b].0)
      ensures IsArrayIndex(t[a].0) && IndexValue(t[a].0) < IndexValue(t[b].0)
    {
      assert t[a] == d[a + 1] && t[b] == d[b + 1];
    }
  }

  lemma ConsWellOrdered<V>(x: (string, V), s: Dict<V>)
    requires WellOrdered(s)
    requires forall y :: y in s ==> y.0 != x.0
    requires forall y :: y in s && IsArrayIndex(y.0) ==> IsArrayIndex(x.0) && IndexValue(x.0) < IndexValue(y.0)
    ensures WellOrdered([x] + s)
  {
    var r := [x] + s;
    forall a, b | 0 <= a < b < |r|
      ensures r[a].0 != r[b].0
      ensures IsArrayIndex(r[b].0) ==> IsArrayIndex(r[a].0) && IndexValue(r[a].0) < IndexValue(r[b].0)
    {
      assert r[b] == s[b - 1];
      if a > 0 { assert r[a] == s[a - 1]; }
    }
  }

  /** Removing a value keeps the registry in JavaScript key order and keeps its values
      distinct. */
  lemma RemoveValueKeepsOrder<V>(d: Dict<V>, v: V)
    requires WellOrdered(d)
    ensures WellOrdered(RemoveValue(d, v))
    ensures DistinctValues(d) ==> DistinctValues(RemoveValue(d, v))
  {
    RemoveValueOrdered(d, v);
    if DistinctValues(d) {
      RemoveValueDistinct(d, v);
    }
  }

  lemma {:induction false} RemoveValueOrdered<V>(d: Dict<V>, v: V)
    requires WellOrdered(d)
    ensures WellOrdered(RemoveValue(d, v))
  {
    if d != [] {
      var t := d[1..];
      TailWellOrdered(d);
      RemoveValueOrdered(t, v);
      var rt := RemoveValue(t, v);
      if d[0].1 != v {
        forall y | y in rt
          ensures y.0 != d[0].0
          ensures IsArrayIndex(y.0) ==> IsArrayIndex(d[0].0) && IndexValue(d[0].0) < IndexValue(y.0)
        {
          var n :| 0 <= n < |rt| && rt[n] == y;
          var m :| 0 <= m < |t| && t[m] == y;
          assert d[m + 1] == y;
        }
        ConsWellOrdered(d[0], rt);
      }
    }
  }

  lemma {:induction false} RemoveValueDistinct<V>(d: Dict<V>, v: V)
    requires DistinctValues(d)
    ensures DistinctValues(RemoveValue(d, v))
  {
    if d != [] {
      var t := d[1..];
      assert DistinctValues(t) by {
        forall a, b | 0 <= a < b < |t| ensures t[a].1 != t[b].1 {
          assert t[a] == d[a + 1] && t[b] == d[b + 1];
        }
      }
      RemoveValueDistinct(t, v);
      var rt := RemoveValue(t, v);
      if d[0].1 != v {
        var r := [d[0]] + rt;
        forall a, b | 0 <= a < b < |r| ensures r[a].1 != r[b].1 {
          assert r[b] == rt[b - 1];
          var m :| 0 <= m < |t| && t[m] == r[b];
          assert d[m + 1] == r[b];
          if a > 0 { assert r[a] == rt[a - 1]; }
        }
      }
    }
  }

  /** After removal no key holds the value, and every other key holds what it held. */
  lemma {:induction false} RemoveValueGet<V>(d: Dict<V>, v: V, k: string)
    requires DistinctKeys(d)
    ensures Get(RemoveValue(d, v), k) == if Get(d, k) == Some(v) then None else Get(d, k)
  {
    if d != [] {
      var t := d[1..];
      assert DistinctKeys(t) by {
        forall a, b | 0 <= a < b < |t| ensures t[a].0 != t[b].0 {
          assert t[a] == d[a + 1] && t[b] == d[b + 1];
        }
      }
      RemoveValueGet(t, v, k);
      if d[0].0 == k {
        assert !HasKey(t, k) by {
          forall m | 0 <= m < |t| ensures t[m].0 != k {
            assert t[m] == d[m + 1];
          }
        }
      }
    }
  }

  lemma {:induction false} DeleteConcat<V>(a: Dict<V>, b: Dict<V>, k: string)
    ensures Delete(a + b, k) == Delete(a, k) + Delete(b, k)
  {
    if a == [] {
      assert a + b == b;
    } else {
      assert (a + b)[0] == a[0] && (a + b)[1..] == a[1..] + b;
      DeleteConcat(a[1..], b, k);
      if a[0].0 != k {
        ConcatAssociates([a[0]], Delete(a[1..], k), Delete(b, k));
      }
    }
  }

  lemma {:induction false} DeleteAbsent<V>(d: Dict<V>, k: string)
    requires forall j :: 0 <= j < |d| ==> d[j].0 != k
    ensures Delete(d, k) == d
  {
    if d != [] {
      assert forall j :: 0 <= j < |d[1..]| ==> d[1..][j] == d[j + 1];
      DeleteAbsent(d[1..], k);
      assert d == [d[0]] + d[1..];
    }
  }

  /** Storing a value the registry does not hold keeps its values distinct. */
  lemma SetFreshValue<V>(d: Dict<V>, k: string, v: V)
    requires DistinctValues(d) && forall i :: 0 <= i < |d| ==> d[i].1 != v
    ensures DistinctValues(Set(d, k, v))
  {
    var r := Set(d, k, v);
    if HasKey(d, k) {
      var i := IndexOfKey(d, k);
      assert r == d[i := (k, v)];
      forall a, b | 0 <= a < b < |r| ensures r[a].1 != r[b].1 {
        if a != i && b != i { assert r[a] == d[a] && r[b] == d[b]; }
      }
    } else {
      var p := if IsArrayIndex(k) then IndexSlot(d, k) else |d|;
      assert r == d[..p] + [(k, v)] + d[p..];
      forall a, b | 0 <= a < b < |r| ensures r[a].1 != r[b].1 {
        var a' := if a < p then a else a - 1;
        var b' := if b < p then b else b - 1;
        if a != p { assert r[a] == d[a']; }
        if b != p { assert r[b] == d[b']; }
      }
    }
  }

  /** One round of the removal loop over a snapshot of the entries: deleting the key
      of an entry holding v moves the removal one entry on. */
  lemma RemoveValueStep<V>(d: Dict<V>, i: nat, v: V)
    requires DistinctKeys(d) && i < |d|
    ensures var cur := RemoveValue(d[..i], v) + d[i..];
      RemoveValue(d[..i + 1], v) + d[i + 1..] == if d[i].1 == v then Delete(cur, d[i].0) else cur
  {
    var front := RemoveValue(d[..i], v);
    assert d[..i + 1] == d[..i] + [d[i]];
    RemoveValueSnoc(d[..i], d[i], v);
    if d[i].1 == v {
      assert RemoveValue(d[..i + 1], v) == front + [] == front;
      DeleteHit(d, i, front);
    } else {
      assert RemoveValue(d[..i + 1], v) == front + [d[i]];
      assert d[i..] == [d[i]] + d[i + 1..];
      ConcatAssociates(front, [d[i]], d[i + 1..]);
    }
  }

  /** Deleting the key of entry i from entries taken before i, followed by the entries
      from i on, drops entry i and nothing else. */
  lemma DeleteHit<V>(d: Dict<V>, i: nat, front: Dict<V>)
    requires DistinctKeys(d) && i < |d|
    requires forall j :: 0 <= j < |front| ==> front[j] in d[..i]
    ensures Delete(front + d[i..], d[i].0) == front + d[i + 1..]
  {
    var k := d[i].0;
    DeleteConcat(front, d[i..], k);
    FrontAvoidsKey(d, i, front);
    DeleteAbsent(front, k);
    var rest := d[i + 1..];
    forall j | 0 <= j < |rest| ensures rest[j].0 != k {
      assert rest[j] == d[i + 1 + j];
    }
    DeleteAbsent(rest, k);
    assert d[i..][0] == d[i] && d[i..][1..] == rest;
  }

  /** With distinct keys, no entry before entry i carries its key. */
  lemma FrontAvoidsKey<V>(d: Dict<V>, i: nat, front: Dict<V>)
    requires DistinctKeys(d) && i < |d|
    requires forall j :: 0 <= j < |front| ==> front[j] in d[..i]
    ensures forall j :: 0 <= j < |front| ==> front[j].0 != d[i].0
  {
    forall j | 0 <= j < |front| ensures front[j].0 != d[i].0 {
      var n :| 0 <= n < |d[..i]| && d[..i][n] == front[j];
      assert d[n] == front[j];
    }
  }

  /** The loop of `CC.___remove` over a snapshot of the keys, deleting each key that
      holds v. */
  method DeleteEvery<V(==)>(d: Dict<V>, v: V) returns (r: Dict<V>)
    requires DistinctKeys(d)
    ensures r == RemoveValue(d, v)
  {
    r := d;
    var i := 0;
    assert d[..0] == [] && d[0..] == d;
    while i < |d|
      invariant 0 <= i <= |d|
      invariant r == RemoveValue(d[..i], v) + d[i..]
    {
      RemoveValueStep(d, i, v);
      if d[i].1 == v {
        r := Delete(r, d[i].0);
      }
      i := i + 1;
    }
    assert d[..i] == d && r == RemoveValue(d, v) + [];
  }
}
