/** `CC.merge` and `CC.sort`. */
module ObjectTools {
  import opened JsObject
  import opened JsValues

  // ================================================================ merge

  /** What a merge ends with. `TypeError` is the exception strict mode raises when a
      property is written onto a primitive; since the merge writes in place, it carries
      the destination as the throw leaves it, with every earlier write kept.
      `Unmodelled` marks a write of a named property onto an array or a function,
      which these values cannot hold. */
  datatype MergeResult = Merged(value: Value) | TypeError(partial: Value) | Unmodelled

  /** A size for values that decreases into every property value. */
  function Size(v: Value): nat {
    match v
    case Arr(items) => 1 + SeqSize(items)
    case Obj(fields) => 1 + DictSize(fields)
    case _ => 1
  }

  function SeqSize(items: seq<Value>): nat {
    if items == [] then 0 else Size(items[0]) + SeqSize(items[1..])
  }

  function DictSize(d: Dict<Value>): nat {
    if d == [] then 0 else PropertySize(d[0]) + DictSize(d[1..])
  }

  function PropertySize(p: (string, Value)): nat {
    Size(p.1)
  }

  lemma {:induction false} SeqSizeBound(items: seq<Value>, i: nat)
    requires i < |items|
    ensures Size(items[i]) <= SeqSize(items)
  {
    if i > 0 { SeqSizeBound(items[1..], i - 1); }
  }

  lemma {:induction false} DictSizeBound(d: Dict<Value>, i: nat)
    requires i < |d|
    ensures Size(d[i].1) <= DictSize(d)
  {
    if i > 0 { DictSizeBound(d[1..], i - 1); }
  }

  /** Every plain-object value that `for...in` visits is smaller than the whole. */
  lemma ForInSmaller(v: Value)
    ensures forall i :: 0 <= i < |ForIn(v)| && ForIn(v)[i].1.Obj? ==> Size(ForIn(v)[i].1) < Size(v)
  {
    forall i | 0 <= i < |ForIn(v)| && ForIn(v)[i].1.Obj? ensures Size(ForIn(v)[i].1) < Size(v) {
      match v
      case Obj(fields) => DictSizeBound(fields, i);
      case Arr(items) => SeqSizeBound(items, i);
    }
  }

  /** `target[p] = x` in strict mode. */
  function SetProp(target: Value, p: string, x: Value): MergeResult {
    match target
    case Obj(fields) => Merged(Obj(Set(fields, p, x)))
    case Arr(items) =>
      if IsArrayIndex(p) && IndexValue(p) < |items| then Merged(Arr(items[IndexValue(p) := x]))
      else if IsArrayIndex(p) && IndexValue(p) == |items| then Merged(Arr(items + [x]))
      else Unmodelled
    case Fn(_) => Unmodelled
    case _ => TypeError(target)
  }

  /** A nested merge into `holder[p]` that threw: the nested object was updated in
      place, so the holder sees its partial writes. */
  function Rethrow(holder: Value, p: string, failure: MergeResult): MergeResult {
    match failure
    case TypeError(c) =>
      (match SetProp(holder, p, c) case Merged(h) => TypeError(h) case _ => TypeError(holder))
    case _ => failure
  }

  /** `mergeRecursively(merged, obj)`: nothing happens unless both are truthy; then
      every property of obj, in enumeration order, is merged into merged. */
  function MergeInto(merged: Value, obj: Value): MergeResult
    decreases Size(obj), 1
  {
    if !Truthy(merged) || !Truthy(obj) then Merged(merged)
    else
      ForInSmaller(obj);
      MergeEntries(merged, ForIn(obj), Size(obj))
  }

  function MergeEntries(merged: Value, entries: Dict<Value>, bound: nat): MergeResult
    requires forall i :: 0 <= i < |entries| && entries[i].1.Obj? ==> Size(entries[i].1) < bound
    decreases bound, 0, |entries|
  {
    if entries == [] then Merged(merged)
    else
      match MergeEntry(merged, entries[0].0, entries[0].1, bound)
      case Merged(m) => MergeEntries(m, entries[1..], bound)
      case failure => failure
  }

  /** One iteration of the loop: a plain-object value merges into the existing
      property (created as `{}` when falsy), any other value overwrites it. */
  function MergeEntry(merged: Value, p: string, x: Value, bound: nat): MergeResult
    requires x.Obj? ==> Size(x) < bound
    decreases bound, 0, 0
  {
    if x.Obj? then
      var cur := Prop(merged, p);
      if Truthy(cur) then
        // the existing object is updated in place; a primitive holder sees no write
        match MergeInto(cur, x)
        case Merged(c) => if merged.Obj? || merged.Arr? then SetProp(merged, p, c) else Merged(merged)
        case failure => Rethrow(merged, p, failure)
      else
        match SetProp(merged, p, Obj([]))
        case Merged(m1) =>
          (match MergeInto(Obj([]), x)
           case Merged(c) => SetProp(m1, p, c)
           case failure => Rethrow(m1, p, failure))
        case failure => failure
    else SetProp(merged, p, x)
  }

  /** `CC.merge(first, ...rest)`: each argument in turn is merged into the first. */
  function MergeAllSpec(first: Value, rest: seq<Value>): MergeResult
    decreases |rest|
  {
    if rest == [] then Merged(first)
    else
      match MergeAllSpec(first, rest[..|rest| - 1])
      case Merged(m) => MergeInto(m, rest[|rest| - 1])
      case failure => failure
  }

  /** The loop of `CC.merge`. */
  method MergeAll(first: Value, rest: seq<Value>) returns (r: MergeResult)
    ensures r == MergeAllSpec(first, rest)
  {
    r := Merged(first);
    var i := 0;
    while i < |rest|
      invariant 0 <= i <= |rest|
      invariant r == MergeAllSpec(first, rest[..i])
    {
      assert rest[..i + 1][..i] == rest[..i];
      if r.Merged? {
        r := MergeRecursively(r.value, rest[i]);
      }
      i := i + 1;
    }
    assert rest[..i] == rest;
  }

  /** `mergeRecursively`, the loop over the source's properties. */
  method MergeRecursively(merged: Value, obj: Value) returns (r: MergeResult)
    ensures r == MergeInto(merged, obj)
    decreases Size(obj)
  {
    if !Truthy(merged) || !Truthy(obj) {
      return Merged(merged);
    }
    ForInSmaller(obj);
    var entries := ForIn(obj);
    var i := 0;
    r := Merged(merged);
    while i < |entries| && r.Merged?
      invariant 0 <= i <= |entries|
      invariant r.Merged? ==> MergeEntries(merged, entries, Size(obj)) == MergeEntries(r.value, entries[i..], Size(obj))
      invariant !r.Merged? ==> r == MergeEntries(merged, entries, Size(obj))
    {
      var (p, x) := entries[i];
      assert entries[i..][0] == (p, x) && entries[i..][1..] == entries[i + 1..];
      var m := r.value;
      if x.Obj? {
        var cur := Prop(m, p);
        var c: MergeResult;
        if Truthy(cur) {
          c := MergeRecursively(cur, x);
          if c.Merged? {
            r := if m.Obj? || m.Arr? then SetProp(m, p, c.value) else Merged(m);
          } else {
            r := Rethrow(m, p, c);
          }
        } else {
          var m1 := SetProp(m, p, Obj([]));
          if m1.Merged? {
            c := MergeRecursively(Obj([]), x);
            r := if c.Merged? then SetProp(m1.value, p, c.value) else Rethrow(m1.value, p, c);
          } else {
            r := m1;
          }
        }
      } else {
        r := SetProp(m, p, x);
      }
      i := i + 1;
    }
  }

  // ---------------------------------------------------------------- properties of merge

  /** A falsy destination or source leaves the destination as it is. */
  lemma MergeSkipsFalsy(merged: Value, obj: Value)
    requires !Truthy(merged) || !Truthy(obj)
    ensures MergeInto(merged, obj) == Merged(merged)
  {
  }

  /** Arguments are merged one after the other: `merge(a, b, c)` is `merge(merge(a, b), c)`. */
  lemma MergeAllSequential(a: Value, b: Value, c: Value)
    ensures MergeInto(a, b).Merged? ==> MergeAllSpec(a, [b, c]) == MergeInto(MergeInto(a, b).value, c)
    ensures !MergeInto(a, b).Merged? ==> MergeAllSpec(a, [b, c]) == MergeInto(a, b)
  {
    assert MergeAllSpec(a, [b]) == MergeInto(a, b) by {
      assert [b][..0] == [];
    }
    assert [b, c][..1] == [b];
    assert [b][..0] == [];
  }

  /** A truthy scalar destination: an empty plain object leaves it, a non-empty one
      makes strict mode throw. */
  lemma MergeIntoScalar(s: Value, obj: Dict<Value>)
    requires Truthy(s) && (s.Bool? || s.Num? || s.Str?)
    ensures obj == [] ==> MergeInto(s, Obj(obj)) == Merged(s)
    ensures obj != [] && !obj[0].1.Obj? ==> MergeInto(s, Obj(obj)) == TypeError(s)
  {
    if obj != [] && !obj[0].1.Obj? {
      ForInSmaller(Obj(obj));
      assert MergeEntry(s, obj[0].0, obj[0].1, Size(Obj(obj))) == TypeError(s);
    }
  }

  /** The value a property ends with when the source has it: a plain object is merged
      into the current value (or into `{}` when that is falsy), anything else replaces it. */
  function MergedProp(cur: Value, x: Value): MergeResult {
    if x.Obj? then MergeInto(if Truthy(cur) then cur else Obj([]), x) else Merged(x)
  }

  /** One entry merged into a plain object sets that property to its merged value,
      when the entry's own merge succeeds. */
  lemma MergeEntryOnObject(fields: Dict<Value>, p: string, x: Value, bound: nat)
    requires DistinctKeys(fields) && (x.Obj? ==> Size(x) < bound)
    requires MergeEntry(Obj(fields), p, x, bound).Merged?
    ensures MergedProp(Prop(Obj(fields), p), x).Merged?
    ensures MergeEntry(Obj(fields), p, x, bound) == Merged(Obj(Set(fields, p, MergedProp(Prop(Obj(fields), p), x).value)))
  {
    var cur := Prop(Obj(fields), p);
    if x.Obj? && !Truthy(cur) {
      var c := MergeInto(Obj([]), x);
      assert MergeEntry(Obj(fields), p, x, bound) == SetProp(Obj(Set(fields, p, Obj([]))), p, c.value);
      SetTwice(fields, p, Obj([]), c.value);
    }
  }

  lemma DistinctTail<V>(d: Dict<V>)
    requires d != [] && DistinctKeys(d)
    ensures DistinctKeys(d[1..]) && !HasKey(d[1..], d[0].0)
  {
    var rest := d[1..];
    forall a, b | 0 <= a < b < |rest| ensures rest[a].0 != rest[b].0 {
      assert rest[a] == d[a + 1] && rest[b] == d[b + 1];
    }
    forall j | 0 <= j < |rest| ensures rest[j].0 != d[0].0 {
      assert rest[j] == d[j + 1];
    }
  }

  /** Merging a source object into a destination object: every key of the source
      gets its merged value, every other key of the destination is untouched, and the
      destination's own keys keep their order (sibling keys are never clobbered). */
  lemma {:induction false} MergeEntriesIntoObject(fields: Dict<Value>, entries: Dict<Value>, bound: nat, q: string)
    requires forall i :: 0 <= i < |entries| && entries[i].1.Obj? ==> Size(entries[i].1) < bound
    requires DistinctKeys(fields) && DistinctKeys(entries)
    requires MergeEntries(Obj(fields), entries, bound).Merged?
    ensures MergeEntries(Obj(fields), entries, bound).value.Obj?
    ensures var r := MergeEntries(Obj(fields), entries, bound).value;
      && DistinctKeys(r.fields)
      && (HasKey(entries, q) ==> MergedProp(Prop(Obj(fields), q), Get(entries, q).value).Merged?
                                 && Prop(r, q) == MergedProp(Prop(Obj(fields), q), Get(entries, q).value).value)
      && (!HasKey(entries, q) ==> Prop(r, q) == Prop(Obj(fields), q))
    decreases |entries|
  {
    if entries != [] {
      var (p, x) := entries[0];
      MergeEntryOnObject(fields, p, x, bound);
      var f1 := Set(fields, p, MergedProp(Prop(Obj(fields), p), x).value);
      SetPreservesDistinct(fields, p, MergedProp(Prop(Obj(fields), p), x).value);
      DistinctTail(entries);
      assert MergeEntries(Obj(fields), entries, bound) == MergeEntries(Obj(f1), entries[1..], bound);
      MergeEntriesIntoObject(f1, entries[1..], bound, q);
      SetGet(fields, p, MergedProp(Prop(Obj(fields), p), x).value, q);
      PropReadsGet(fields, q);
      PropReadsGet(f1, q);
      if q == p {
        assert Get(entries, q) == Some(x);
      } else {
        assert Get(entries, q) == Get(entries[1..], q);
      }
    }
  }

  /** `merge(dest, src)` on two plain objects: a key of src gets its merged value,
      any other key keeps dest's value. */
  lemma MergeObjects(dest: Dict<Value>, src: Dict<Value>, q: string)
    requires DistinctKeys(dest) && DistinctKeys(src)
    requires MergeInto(Obj(dest), Obj(src)).Merged?
    ensures var r := MergeInto(Obj(dest), Obj(src)).value;
      && r.Obj? && DistinctKeys(r.fields)
      && (HasKey(src, q) ==> MergedProp(Prop(Obj(dest), q), Get(src, q).value).Merged?
                             && Prop(r, q) == MergedProp(Prop(Obj(dest), q), Get(src, q).value).value)
      && (!HasKey(src, q) ==> Prop(r, q) == Prop(Obj(dest), q))
  {
    ForInSmaller(Obj(src));
    assert MergeInto(Obj(dest), Obj(src)) == MergeEntries(Obj(dest), src, Size(Obj(src)));
    MergeEntriesIntoObject(dest, src, Size(Obj(src)), q);
  }

  /** Later sources win: after `merge(dest, src)` with two plain objects, a key of
      src holding a scalar or an array has exactly src's value; a key only dest has
      keeps dest's value. */
  lemma MergeLaterWins(dest: Dict<Value>, src: Dict<Value>, q: string)
    requires DistinctKeys(dest) && DistinctKeys(src)
    requires MergeInto(Obj(dest), Obj(src)).Merged?
    ensures var r := MergeInto(Obj(dest), Obj(src)).value;
      && (HasKey(src, q) && !Get(src, q).value.Obj? ==> Prop(r, q) == Get(src, q).value)
      && (!HasKey(src, q) ==> Prop(r, q) == Prop(Obj(dest), q))
  {
    MergeObjects(dest, src, q);
  }

  /** Nested plain objects merge into the existing destination object: its keys that
      the nested source lacks survive. */
  lemma MergeDeepKeepsSiblings(dest: Dict<Value>, src: Dict<Value>, q: string, inner: Dict<Value>, sub: Dict<Value>, k: string)
    requires DistinctKeys(dest) && DistinctKeys(src) && DistinctKeys(inner) && DistinctKeys(sub)
    requires Get(dest, q) == Some(Obj(inner)) && Get(src, q) == Some(Obj(sub))
    requires !HasKey(sub, k)
    requires MergeInto(Obj(dest), Obj(src)).Merged?
    ensures Prop(Prop(MergeInto(Obj(dest), Obj(src)).value, q), k) == Prop(Obj(inner), k)
  {
    var r := MergeInto(Obj(dest), Obj(src)).value;
    MergeObjects(dest, src, q);
    assert Prop(Obj(dest), q) == Obj(inner) && Get(src, q).value == Obj(sub);
    var c := MergeInto(Obj(inner), Obj(sub));
    assert c.Merged? && Prop(r, q) == c.value by {
      assert MergedProp(Obj(inner), Obj(sub)) == c;
    }
    MergeObjects(inner, sub, k);
  }

  // ================================================================ sort

  /** An item with the sort property read from it. Only numbers and booleans are
      ordered; every other value is kept as missing (None). */
  datatype Keyed<T> = Keyed(item: T, key: Option<real>)

  /** The sort property as the comparator sees it. */
  function SortKey(v: Value): Option<real> {
    match v
    case Num(r) => Some(r)
    case Bool(b) => Some(if b then 1.0 else 0.0)
    case _ => None
  }

  /** The comparator of `CC.sort`, line for line: a missing key is compared against
      the sign of the other key. */
  function Compare(a: Option<real>, b: Option<real>, invert: bool): int {
    if a.Some? && b.Some? && a.value > b.value then (if invert then -1 else 1)
    else if a.Some? && b.Some? && a.value < b.value then (if invert then 1 else -1)
    else if a.None? && b.Some? && b.value < 0.0 then (if invert then -1 else 1)
    else if a.None? && b.Some? && b.value > 0.0 then (if invert then 1 else -1)
    else if b.None? && a.Some? && a.value < 0.0 then (if invert then 1 else -1)
    else if b.None? && a.Some? && a.value > 0.0 then (if invert then -1 else 1)
    else 0
  }

  /** The position a key sorts by: a missing key counts as 0, and `invert` negates. */
  function Rank(key: Option<real>, invert: bool): real {
    var r := match key case Some(x) => x case None => 0.0;
    if invert then -r else r
  }

  /** The comparator is exactly the comparison of ranks, so it is a consistent total
      preorder and a missing key behaves like 0. */
  lemma CompareIsRankOrder(a: Option<real>, b: Option<real>, invert: bool)
    ensures Compare(a, b, invert) < 0 <==> Rank(a, invert) < Rank(b, invert)
    ensures Compare(a, b, invert) == 0 <==> Rank(a, invert) == Rank(b, invert)
    ensures Compare(a, b, invert) > 0 <==> Rank(a, invert) > Rank(b, invert)
  {
  }

  predicate SortedByRank<T>(s: seq<Keyed<T>>, invert: bool) {
    forall i, j :: 0 <= i < j < |s| ==> Rank(s[i].key, invert) <= Rank(s[j].key, invert)
  }

  /** The items of one rank, in order. */
  function WithRank<T>(s: seq<Keyed<T>>, invert: bool, v: real): seq<Keyed<T>> {
    if s == [] then []
    else (if Rank(s[0].key, invert) == v then [s[0]] else []) + WithRank(s[1..], invert, v)
  }

  /** Places x after every item whose rank is not above x's. */
  function Insert<T>(s: seq<Keyed<T>>, x: Keyed<T>, invert: bool): seq<Keyed<T>> {
    if s == [] then [x]
    else if Rank(s[0].key, invert) > Rank(x.key, invert) then [x] + s
    else [s[0]] + Insert(s[1..], x, invert)
  }

  /** `Array.prototype.sort` with the comparator, which ECMA-262 requires to be stable. */
  function StableSort<T>(s: seq<Keyed<T>>, invert: bool): seq<Keyed<T>> {
    if s == [] then [] else Insert(StableSort(s[..|s| - 1], invert), s[|s| - 1], invert)
  }

  lemma {:induction false} WithRankConcat<T>(a: seq<Keyed<T>>, b: seq<Keyed<T>>, invert: bool, v: real)
    ensures WithRank(a + b, invert, v) == WithRank(a, invert, v) + WithRank(b, invert, v)
  {
    if a == [] {
      assert a + b == b;
    } else {
      var h := if Rank(a[0].key, invert) == v then [a[0]] else [];
      assert (a + b)[0] == a[0] && (a + b)[1..] == a[1..] + b;
      assert WithRank(a + b, invert, v) == h + WithRank(a[1..] + b, invert, v);
      WithRankConcat(a[1..], b, invert, v);
      assert WithRank(a, invert, v) == h + WithRank(a[1..], invert, v);
    }
  }

  lemma {:induction false} WithRankNone<T>(s: seq<Keyed<T>>, invert: bool, v: real)
    requires forall i :: 0 <= i < |s| ==> Rank(s[i].key, invert) > v
    ensures WithRank(s, invert, v) == []
  {
    if s != [] { WithRankNone(s[1..], invert, v); }
  }

  lemma {:induction false} InsertMultiset<T>(s: seq<Keyed<T>>, x: Keyed<T>, invert: bool)
    ensures multiset(Insert(s, x, invert)) == multiset(s) + multiset{x}
  {
    if s != [] && Rank(s[0].key, invert) <= Rank(x.key, invert) {
      InsertMultiset(s[1..], x, invert);
      assert s == [s[0]] + s[1..];
    }
  }

  lemma SortedTail<T>(s: seq<Keyed<T>>, invert: bool)
    requires s != [] && SortedByRank(s, invert)
    ensures SortedByRank(s[1..], invert)
  {
    var t := s[1..];
    forall i, j | 0 <= i < j < |t| ensures Rank(t[i].key, invert) <= Rank(t[j].key, invert) {
      assert t[i] == s[i + 1] && t[j] == s[j + 1];
    }
  }

  /** Every item of an insertion is an item of the list or the inserted one. */
  lemma InsertItems<T>(t: seq<Keyed<T>>, x: Keyed<T>, invert: bool, b: real)
    requires Rank(x.key, invert) >= b && forall i :: 0 <= i < |t| ==> Rank(t[i].key, invert) >= b
    ensures forall i :: 0 <= i < |Insert(t, x, invert)| ==> Rank(Insert(t, x, invert)[i].key, invert) >= b
  {
    var rt := Insert(t, x, invert);
    InsertMultiset(t, x, invert);
    forall i | 0 <= i < |rt| ensures Rank(rt[i].key, invert) >= b {
      assert rt[i] in multiset(rt);
      if rt[i] != x {
        assert rt[i] in multiset(t);
        var m :| 0 <= m < |t| && t[m] == rt[i];
      }
    }
  }

  lemma WithRankCons<T>(y: Keyed<T>, t: seq<Keyed<T>>, invert: bool, v: real)
    ensures WithRank([y] + t, invert, v) == (if Rank(y.key, invert) == v then [y] else []) + WithRank(t, invert, v)
  {
    assert ([y] + t)[0] == y && ([y] + t)[1..] == t;
  }

  lemma {:induction false} InsertSorted<T>(s: seq<Keyed<T>>, x: Keyed<T>, invert: bool)
    requires SortedByRank(s, invert)
    ensures SortedByRank(Insert(s, x, invert), invert)
  {
    if s != [] && Rank(s[0].key, invert) <= Rank(x.key, invert) {
      var t := s[1..];
      SortedTail(s, invert);
      InsertSorted(t, x, invert);
      assert forall i :: 0 <= i < |t| ==> t[i] == s[i + 1];
      InsertItems(t, x, invert, Rank(s[0].key, invert));
      var rt := Insert(t, x, invert);
      var r := Insert(s, x, invert);
      assert r == [s[0]] + rt;
      forall i, j | 0 <= i < j < |r| ensures Rank(r[i].key, invert) <= Rank(r[j].key, invert) {
        assert r[j] == rt[j - 1];
        if i > 0 {
          assert r[i] == rt[i - 1];
        }
      }
    }
  }

  /** Putting one item in front of two lists keeps an equation between their items
      of rank v. */
  lemma WithRankConsAppend<T>(y: Keyed<T>, t: seq<Keyed<T>>, u: seq<Keyed<T>>, tail: seq<Keyed<T>>, invert: bool, v: real)
    requires WithRank(u, invert, v) == WithRank(t, invert, v) + tail
    ensures WithRank([y] + u, invert, v) == WithRank([y] + t, invert, v) + tail
  {
    WithRankCons(y, u, invert, v);
    WithRankCons(y, t, invert, v);
    ConcatAssociates(if Rank(y.key, invert) == v then [y] else [], WithRank(t, invert, v), tail);
  }

  /** A sorted list whose first rank is above v holds no item of rank v. */
  lemma SortedAbove<T>(s: seq<Keyed<T>>, invert: bool, v: real)
    requires s != [] && SortedByRank(s, invert) && Rank(s[0].key, invert) > v
    ensures WithRank(s, invert, v) == []
  {
    assert forall i :: 0 <= i < |s| ==> Rank(s[0].key, invert) <= Rank(s[i].key, invert);
    WithRankNone(s, invert, v);
  }

  /** Insertion puts x after every item of its own rank. */
  lemma {:induction false} InsertWithRank<T>(s: seq<Keyed<T>>, x: Keyed<T>, invert: bool, v: real)
    requires SortedByRank(s, invert)
    ensures WithRank(Insert(s, x, invert), invert, v)
            == WithRank(s, invert, v) + (if Rank(x.key, invert) == v then [x] else [])
  {
    if s == [] {
      WithRankCons(x, [], invert, v);
    } else if Rank(s[0].key, invert) > Rank(x.key, invert) {
      assert Insert(s, x, invert) == [x] + s;
      WithRankCons(x, s, invert, v);
      if Rank(x.key, invert) == v {
        SortedAbove(s, invert, v);
      }
    } else {
      var t := s[1..];
      SortedTail(s, invert);
      InsertWithRank(t, x, invert, v);
      assert Insert(s, x, invert) == [s[0]] + Insert(t, x, invert);
      assert s == [s[0]] + t;
      WithRankConsAppend(s[0], t, Insert(t, x, invert), if Rank(x.key, invert) == v then [x] else [], invert, v);
    }
  }

  /** `CC.sort` on a list of keyed items: a permutation, ordered by rank, and stable
      (the items of any one rank keep their input order). */
  lemma {:induction false} StableSortCorrect<T>(s: seq<Keyed<T>>, invert: bool)
    ensures SortedByRank(StableSort(s, invert), invert)
    ensures multiset(StableSort(s, invert)) == multiset(s)
    ensures forall v :: WithRank(StableSort(s, invert), invert, v) == WithRank(s, invert, v)
    decreases |s|
  {
    if s != [] {
      var init, x := s[..|s| - 1], s[|s| - 1];
      StableSortCorrect(init, invert);
      InsertSorted(StableSort(init, invert), x, invert);
      InsertMultiset(StableSort(init, invert), x, invert);
      assert s == init + [x];
      forall v ensures WithRank(StableSort(s, invert), invert, v) == WithRank(s, invert, v) {
        InsertWithRank(StableSort(init, invert), x, invert, v);
        WithRankConcat(init, [x], invert, v);
      }
    }
  }

  /** Items whose comparator says "before" end up before: for every pair of positions
      in the result, the comparator never puts the later one first. */
  lemma SortRespectsComparator<T>(s: seq<Keyed<T>>, invert: bool, i: nat, j: nat)
    requires i < j < |StableSort(s, invert)|
    ensures Compare(StableSort(s, invert)[i].key, StableSort(s, invert)[j].key, invert) <= 0
  {
    StableSortCorrect(s, invert);
    var r := StableSort(s, invert);
    CompareIsRankOrder(r[i].key, r[j].key, invert);
  }

  /** The values `CC.sort` sorts: an array's items, or the values of anything else,
      in `for...in` order. */
  function SortInput(elements: Value): seq<Value> {
    if elements.Arr? then elements.items else ForInValues(elements)
  }

  function KeyedBy(items: seq<Value>, prop: string): (r: seq<Keyed<Value>>)
    ensures |r| == |items|
    ensures forall i :: 0 <= i < |items| ==> r[i] == Keyed(items[i], SortKey(Prop(items[i], prop)))
  {
    seq(|items|, i requires 0 <= i < |items| => Keyed(items[i], SortKey(Prop(items[i], prop))))
  }

  function Items<T>(s: seq<Keyed<T>>): (r: seq<T>)
    ensures |r| == |s| && forall i :: 0 <= i < |s| ==> r[i] == s[i].item
  {
    seq(|s|, i requires 0 <= i < |s| => s[i].item)
  }

  /** The items `Array.prototype.sort` orders with the comparator: every item but
      `undefined`, in order. */
  function Defined(items: seq<Value>): (r: seq<Value>)
    ensures |r| <= |items|
  {
    if items == [] then [] else (if items[0].Undef? then [] else [items[0]]) + Defined(items[1..])
  }

  /** The `undefined` items, which `Array.prototype.sort` sets aside and puts last
      without calling the comparator on them. */
  function Undefs(items: seq<Value>): seq<Value> {
    if items == [] then [] else (if items[0].Undef? then [items[0]] else []) + Undefs(items[1..])
  }

  /** Whether `CC.sort` throws: its comparator reads `a[prop]` and `b[prop]`, which
      throws a TypeError on `null`, and once two or more items are to be ordered
      every one of them is handed to the comparator. The sorted items are written
      back only after sorting ends, so a throw leaves an array as it was. */
  predicate SortThrows(elements: Value) {
    var items := Defined(SortInput(elements));
    |items| >= 2 && Null in items
  }

  /** `CC.sort(elements, prop, invert)` when it does not throw: the items other than
      `undefined` stably sorted by the comparator, then the `undefined` ones. */
  function SortValues(elements: Value, prop: string, invert: bool): seq<Value> {
    Items(StableSort(KeyedBy(Defined(SortInput(elements)), prop), invert)) + Undefs(SortInput(elements))
  }

  /** `for...in` entries keyed by one property of their values. */
  function KeyedEntries(entries: Dict<Value>, prop: string): (r: seq<Keyed<(string, Value)>>)
    ensures |r| == |entries|
    ensures forall i :: 0 <= i < |entries| ==> r[i] == Keyed(entries[i], SortKey(Prop(entries[i].1, prop)))
  {
    seq(|entries|, i requires 0 <= i < |entries| => Keyed(entries[i], SortKey(Prop(entries[i].1, prop))))
  }

  /** `CC.sort(elements, prop, invert)`, keeping track of where each value is held:
      the holder as the sort leaves it (an array is sorted in place, anything else
      is copied first), and the sorted values paired with the key each is held
      under in that holder. */
  function SortEntries(elements: Value, prop: string, invert: bool): (Value, Dict<Value>) {
    var d := ForIn(elements);
    var s := Items(StableSort(KeyedEntries(DefinedEntries(d), prop), invert)) + UndefinedEntries(d);
    if elements.Arr? then (Arr(Values(s)), IndexEntries(Values(s))) else (elements, s)
  }

  /** The entries whose value is not `undefined`, in order. */
  function DefinedEntries(d: Dict<Value>): Dict<Value> {
    if d == [] then [] else (if d[0].1.Undef? then [] else [d[0]]) + DefinedEntries(d[1..])
  }

  /** The entries whose value is `undefined`, in order. */
  function UndefinedEntries(d: Dict<Value>): Dict<Value> {
    if d == [] then [] else (if d[0].1.Undef? then [d[0]] else []) + UndefinedEntries(d[1..])
  }

  lemma {:induction false} EntriesSplitValues(d: Dict<Value>)
    ensures Values(DefinedEntries(d)) == Defined(Values(d))
    ensures Values(UndefinedEntries(d)) == Undefs(Values(d))
  {
    if d != [] {
      EntriesSplitValues(d[1..]);
      assert Values(d)[1..] == Values(d[1..]);
      ValuesAppend((if d[0].1.Undef? then [] else [d[0]]), DefinedEntries(d[1..]));
      ValuesAppend((if d[0].1.Undef? then [d[0]] else []), UndefinedEntries(d[1..]));
    }
  }

  /** Splitting entries at `undefined` loses and duplicates nothing: the defined
      entries and the `undefined` ones together are the entries. */
  lemma {:induction false} EntriesSplit(d: Dict<Value>)
    ensures forall e :: e in DefinedEntries(d) ==> !e.1.Undef?
    ensures forall e :: e in UndefinedEntries(d) ==> e.1.Undef?
    ensures multiset(DefinedEntries(d)) + multiset(UndefinedEntries(d)) == multiset(d)
  {
    if d != [] {
      EntriesSplit(d[1..]);
      assert d == [d[0]] + d[1..];
    }
  }

  /** A `null` item and a second item that is not `undefined` make `CC.sort` throw. */
  lemma SortThrowsOnNull(elements: Value, i: nat, j: nat)
    requires i < |SortInput(elements)| && j < |SortInput(elements)| && i != j
    requires SortInput(elements)[i].Null? && !SortInput(elements)[j].Undef?
    ensures SortThrows(elements)
  {
    var items := SortInput(elements);
    if i < j {
      DefinedPair(items, i, j);
    } else {
      DefinedPair(items, j, i);
    }
  }

  lemma {:induction false} DefinedPair(items: seq<Value>, i: nat, j: nat)
    requires i < j < |items| && !items[i].Undef? && !items[j].Undef?
    ensures |Defined(items)| >= 2 && items[i] in Defined(items) && items[j] in Defined(items)
  {
    if i == 0 {
      DefinedKeeps(items[1..], j - 1);
      assert Defined(items) == [items[0]] + Defined(items[1..]);
    } else {
      DefinedPair(items[1..], i - 1, j - 1);
    }
  }

  lemma {:induction false} DefinedKeeps(items: seq<Value>, i: nat)
    requires i < |items| && !items[i].Undef?
    ensures items[i] in Defined(items) && |Defined(items)| >= 1
  {
    if i > 0 {
      DefinedKeeps(items[1..], i - 1);
    }
  }

  lemma ValuesAppend(a: Dict<Value>, b: Dict<Value>)
    ensures Values(a + b) == Values(a) + Values(b)
  {
  }

  /** Keyed entries with their property names forgotten. */
  function Unkeyed(s: seq<Keyed<(string, Value)>>): (r: seq<Keyed<Value>>)
    ensures |r| == |s| && forall i :: 0 <= i < |s| ==> r[i] == Keyed(s[i].item.1, s[i].key)
  {
    seq(|s|, i requires 0 <= i < |s| => Keyed(s[i].item.1, s[i].key))
  }

  lemma {:induction false} InsertUnkeyed(s: seq<Keyed<(string, Value)>>, x: Keyed<(string, Value)>, invert: bool)
    ensures Insert(Unkeyed(s), Keyed(x.item.1, x.key), invert) == Unkeyed(Insert(s, x, invert))
  {
    if s != [] && Rank(s[0].key, invert) <= Rank(x.key, invert) {
      InsertUnkeyed(s[1..], x, invert);
      assert Unkeyed(s)[1..] == Unkeyed(s[1..]);
      assert Unkeyed([s[0]] + Insert(s[1..], x, invert)) == [Unkeyed(s)[0]] + Unkeyed(Insert(s[1..], x, invert));
    }
  }

  /** Sorting does not look at where a value is held. */
  lemma {:induction false} StableSortUnkeyed(s: seq<Keyed<(string, Value)>>, invert: bool)
    ensures StableSort(Unkeyed(s), invert) == Unkeyed(StableSort(s, invert))
    decreases |s|
  {
    if s != [] {
      StableSortUnkeyed(s[..|s| - 1], invert);
      assert Unkeyed(s)[..|s| - 1] == Unkeyed(s[..|s| - 1]);
      InsertUnkeyed(StableSort(s[..|s| - 1], invert), s[|s| - 1], invert);
    }
  }

  /** The tracked sort visits exactly the values `CC.sort` returns; an array holder
      becomes that sorted array, and every other holder stays as it is. */
  lemma SortEntriesValues(elements: Value, prop: string, invert: bool)
    ensures Values(SortEntries(elements, prop, invert).1) == SortValues(elements, prop, invert)
    ensures elements.Arr? ==> SortEntries(elements, prop, invert).0 == Arr(SortValues(elements, prop, invert))
    ensures elements.Arr? ==> SortEntries(elements, prop, invert).1 == ForIn(SortEntries(elements, prop, invert).0)
    ensures !elements.Arr? ==> SortEntries(elements, prop, invert).0 == elements
  {
    var d := ForIn(elements);
    var t := Items(StableSort(KeyedEntries(DefinedEntries(d), prop), invert)) + UndefinedEntries(d);
    TrackedValues(elements, prop, invert);
    if elements.Arr? {
      assert Values(IndexEntries(Values(t))) == Values(t);
    }
  }

  /** The values of the tracked entries, before they are placed in a holder. */
  lemma TrackedValues(elements: Value, prop: string, invert: bool)
    ensures var d := ForIn(elements);
      Values(Items(StableSort(KeyedEntries(DefinedEntries(d), prop), invert)) + UndefinedEntries(d))
        == SortValues(elements, prop, invert)
  {
    var d := ForIn(elements);
    var ks := KeyedEntries(DefinedEntries(d), prop);
    if elements.Arr? {
      assert Values(IndexEntries(elements.items)) == elements.items;
    }
    assert Values(d) == SortInput(elements);
    EntriesSplitValues(d);
    assert Unkeyed(ks) == KeyedBy(Defined(SortInput(elements)), prop);
    StableSortUnkeyed(ks, invert);
    var s := Items(StableSort(ks, invert));
    assert Values(s) == Items(Unkeyed(StableSort(ks, invert)));
    ValuesAppend(s, UndefinedEntries(d));
  }

  /** `CC.sort` keeps the number of items, and the `undefined` ones come last. Items
      none of which is `undefined` or `null` cannot make it throw, and are simply
      sorted stably. */
  lemma SortUndefinedLast(elements: Value, prop: string, invert: bool)
    ensures var items := SortInput(elements);
      && |SortValues(elements, prop, invert)| == |items|
      && (forall i :: |Defined(items)| <= i < |items| ==> SortValues(elements, prop, invert)[i].Undef?)
      && ((forall i :: 0 <= i < |items| ==> !items[i].Undef? && !items[i].Null?) ==>
           !SortThrows(elements) && SortValues(elements, prop, invert) == Items(StableSort(KeyedBy(items, prop), invert)))
  {
    var items := SortInput(elements);
    var head := SortedDefined(elements, prop, invert);
    DefinedUndefsCount(items);
    forall i | |Defined(items)| <= i < |items|
      ensures SortValues(elements, prop, invert)[i].Undef?
    {
      assert SortValues(elements, prop, invert)[i] == Undefs(items)[i - |head|];
    }
    if forall i :: 0 <= i < |items| ==> !items[i].Undef? && !items[i].Null? {
      DefinedAll(items);
    }
  }

  /** The sorted items other than `undefined`, as many as there are. */
  lemma SortedDefined(elements: Value, prop: string, invert: bool) returns (head: seq<Value>)
    ensures head == Items(StableSort(KeyedBy(Defined(SortInput(elements)), prop), invert))
    ensures |head| == |Defined(SortInput(elements))|
    ensures SortValues(elements, prop, invert) == head + Undefs(SortInput(elements))
  {
    var ks := KeyedBy(Defined(SortInput(elements)), prop);
    StableSortCorrect(ks, invert);
    MultisetSize(StableSort(ks, invert), ks);
    head := Items(StableSort(ks, invert));
  }

  lemma {:induction false} DefinedUndefsCount(items: seq<Value>)
    ensures |Defined(items)| + |Undefs(items)| == |items|
    ensures forall x :: x in Undefs(items) ==> x.Undef?
    ensures forall x :: x in Defined(items) ==> x in items
  {
    if items != [] {
      DefinedUndefsCount(items[1..]);
    }
  }

  lemma {:induction false} DefinedAll(items: seq<Value>)
    requires forall i :: 0 <= i < |items| ==> !items[i].Undef? && !items[i].Null?
    ensures Defined(items) == items && Undefs(items) == [] && Null !in items
  {
    if items != [] {
      DefinedAll(items[1..]);
      assert items == [items[0]] + items[1..];
    }
  }

  lemma MultisetSize<T>(a: seq<T>, b: seq<T>)
    requires multiset(a) == multiset(b)
    ensures |a| == |b|
  {
    assert |multiset(a)| == |a| && |multiset(b)| == |b|;
  }

  /** The loop of `CC.sort` that turns a non-array into the array of its values. */
  method ValuesAsArray(elements: Value) returns (asArray: seq<Value>)
    ensures asArray == SortInput(elements)
  {
    if elements.Arr? {
      return elements.items;
    }
    var entries := ForIn(elements);
    asArray := [];
    var i := 0;
    while i < |entries|
      invariant 0 <= i <= |entries|
      invariant asArray == Values(entries[..i])
    {
      ValuesSnoc(entries[..i], entries[i]);
      assert entries[..i + 1] == entries[..i] + [entries[i]];
      asArray := asArray + [entries[i].1];
      i := i + 1;
    }
    assert entries[..i] == entries;
  }

  lemma {:induction false} ValuesSnoc(d: Dict<Value>, e: (string, Value))
    ensures Values(d + [e]) == Values(d) + [e.1]
  {
  }
}
