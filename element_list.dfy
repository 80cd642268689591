/** `ElementList`, the collection that `CC(selector)` returns unless exactly one
    element is selected, and that `search` returns: iteration, indexing, copying,
    sorting and searching, and the element operations it hands on to every member.
    The callbacks the list passes to `each` are the library's own, so each broadcast
    is modelled as the loop over the members calling the member's operation. */
module Collection {
  import opened JsObject
  import opened JsValues
  import opened ObjectTools
  import opened Matching
  import opened Events
  import opened Drawing
  import opened Elements
  import opened Registry
  import opened Cascade

  // ---------------------------------------------------------------- each

  /** The calls of `action.call(member)`, one per member, in order. */
  function Visits(action: Value, els: seq<Element>): (c: seq<Step>)
    ensures |c| == |els| && forall i :: 0 <= i < |els| ==> c[i] == Invoke(action, On(els[i]), [])
  {
    seq(|els|, i requires 0 <= i < |els| => Invoke(action, On(els[i]), []))
  }

  // ---------------------------------------------------------------- sort

  /** The members with the sort property read from each. */
  function KeyedMembers(els: seq<Element>, prop: string): (r: seq<Keyed<Element>>)
    reads ElementSet(els)
    ensures |r| == |els| && forall i :: 0 <= i < |els| ==> r[i] == Keyed(els[i], SortKey(Prop(Obj(els[i].attrs), prop)))
  {
    seq(|els|, i reads ElementSet(els) requires 0 <= i < |els| => Keyed(els[i], SortKey(Prop(Obj(els[i].attrs), prop))))
  }

  /** `CC.sort(elements, prop, invert)` on the members. */
  function SortedBy(els: seq<Element>, prop: string, invert: bool): seq<Element>
    reads ElementSet(els)
  {
    Items(StableSort(KeyedMembers(els, prop), invert))
  }

  /** The sort key `prop` of a member, as the comparator ranks it. */
  function MemberRank(e: Element, prop: string, invert: bool): real
    reads e
  {
    Rank(SortKey(Prop(Obj(e.attrs), prop)), invert)
  }

  lemma {:induction false} ItemsConcat<T>(a: seq<Keyed<T>>, b: seq<Keyed<T>>)
    ensures Items(a + b) == Items(a) + Items(b)
  {
    assert |Items(a + b)| == |Items(a) + Items(b)|;
    forall i | 0 <= i < |a + b| ensures Items(a + b)[i] == (Items(a) + Items(b))[i] {
      if i >= |a| {
        assert (a + b)[i] == b[i - |a|];
      }
    }
  }

  /** Taking the j-th entry out of a keyed sequence takes its item out of the items. */
  lemma ItemsRemove<T>(b: seq<Keyed<T>>, j: nat)
    requires j < |b|
    ensures multiset(Items(b)) == multiset(Items(b[..j] + b[j + 1..])) + multiset{b[j].item}
  {
    var left, right := b[..j], b[j + 1..];
    assert b == left + [b[j]] + right;
    ItemsConcat(left + [b[j]], right);
    ItemsConcat(left, [b[j]]);
    ItemsConcat(left, right);
    assert Items([b[j]]) == [b[j].item];
    var il, ir := Items(left), Items(right);
    assert Items(b) == il + [b[j].item] + ir;
    assert Items(left + right) == il + ir;
  }

  lemma MultisetRemove<T>(s: seq<T>, j: nat)
    requires j < |s|
    ensures multiset(s) == multiset(s[..j] + s[j + 1..]) + multiset{s[j]}
  {
    assert s == s[..j] + [s[j]] + s[j + 1..];
  }

  lemma MultisetCancel<T>(x: multiset<T>, y: multiset<T>, e: T)
    requires x + multiset{e} == y + multiset{e}
    ensures x == y
  {
    assert x == (x + multiset{e}) - multiset{e};
  }

  lemma MultisetHead<T>(s: seq<T>)
    requires s != []
    ensures multiset(s) == multiset(s[1..]) + multiset{s[0]}
  {
    assert s == [s[0]] + s[1..];
  }

  lemma ItemsHead<T>(s: seq<Keyed<T>>)
    requires s != []
    ensures multiset(Items(s)) == multiset(Items(s[1..])) + multiset{s[0].item}
  {
    assert Items(s) == [s[0].item] + Items(s[1..]);
  }

  /** Two keyed sequences that are permutations of each other have permuted items. */
  lemma {:induction false} ItemsPermuted<T>(a: seq<Keyed<T>>, b: seq<Keyed<T>>)
    requires multiset(a) == multiset(b)
    ensures multiset(Items(a)) == multiset(Items(b))
    decreases |a|
  {
    if a == [] {
      assert |b| == |multiset(b)| == 0;
    } else {
      assert a[0] in multiset(b);
      var j :| 0 <= j < |b| && b[j] == a[0];
      var b' := b[..j] + b[j + 1..];
      MultisetRemove(b, j);
      MultisetHead(a);
      MultisetCancel(multiset(a[1..]), multiset(b'), a[0]);
      ItemsPermuted(a[1..], b');
      ItemsHead(a);
      ItemsRemove(b, j);
    }
  }

  /** `list.sort(prop, invert)` reorders the members and nothing else: the same
      members as often as before, ordered by rank (ascending, or descending when
      `invert`), and members of equal rank in their former order. */
  lemma SortPermutesAndOrders(els: seq<Element>, prop: string, invert: bool)
    ensures multiset(SortedBy(els, prop, invert)) == multiset(els)
    ensures var s := SortedBy(els, prop, invert);
      forall i, j :: 0 <= i < j < |s| ==> MemberRank(s[i], prop, invert) <= MemberRank(s[j], prop, invert)
    ensures forall v :: WithRank(StableSort(KeyedMembers(els, prop), invert), invert, v) == WithRank(KeyedMembers(els, prop), invert, v)
  {
    var ks := KeyedMembers(els, prop);
    var sorted := StableSort(ks, invert);
    StableSortCorrect(ks, invert);
    ItemsPermuted(sorted, ks);
    assert Items(ks) == els;
    var s := SortedBy(els, prop, invert);
    forall i | 0 <= i < |sorted| ensures sorted[i].key == SortKey(Prop(Obj(sorted[i].item.attrs), prop)) {
      assert sorted[i] in multiset(ks);
      var j :| 0 <= j < |ks| && ks[j] == sorted[i];
    }
  }

  /** The draw order of the tick is this sort on `zIndex`, highest first. */
  lemma DrawOrderIsZIndexSort(els: seq<Element>)
    ensures DrawOrder(els) == SortedBy(els, "zIndex", true)
  {
    assert KeyedElements(els) == KeyedMembers(els, "zIndex");
  }

  // ---------------------------------------------------------------- search

  /** The members `matches(atrs)` accepts, in order. */
  function Found(els: seq<Element>, atrs: Value): seq<Element>
    reads ElementSet(els)`attrs
  {
    if els == [] then []
    else
      assert ElementSet(els[1..]) <= ElementSet(els) by {
        forall e | e in ElementSet(els[1..]) ensures e in ElementSet(els) {
          var i :| 0 <= i < |els[1..]| && els[1..][i] == e;
          assert els[i + 1] == e;
        }
      }
      (if Matches(Obj(els[0].attrs), atrs) then [els[0]] else []) + Found(els[1..], atrs)
  }

  lemma FoundFrom(els: seq<Element>, i: nat, atrs: Value)
    requires i < |els|
    ensures Found(els[i..], atrs) == (if Matches(Obj(els[i].attrs), atrs) then [els[i]] else []) + Found(els[i + 1..], atrs)
  {
    assert els[i..][0] == els[i] && els[i..][1..] == els[i + 1..];
  }

  /** The scan of `search` over the members, keeping those that match. */
  method FoundScan(els: seq<Element>, atrs: Value) returns (result: seq<Element>)
    ensures result == Found(els, atrs)
  {
    result := [];
    var i := 0;
    while i < |els|
      invariant 0 <= i <= |els|
      invariant Found(els, atrs) == result + Found(els[i..], atrs)
    {
      var x := if Matches(Obj(els[i].attrs), atrs) then [els[i]] else [];
      FoundFrom(els, i, atrs);
      ConcatAssociates(result, x, Found(els[i + 1..], atrs));
      result := result + x;
      i := i + 1;
    }
    assert els[i..] == [];
    assert result + [] == result;
  }

  /** An element is found exactly when it is a member and matches. */
  lemma {:induction false} FoundIff(els: seq<Element>, atrs: Value, e: Element)
    ensures e in Found(els, atrs) <==> e in els && Matches(Obj(e.attrs), atrs)
  {
    if els != [] {
      FoundIff(els[1..], atrs, e);
      assert e in els <==> e == els[0] || e in els[1..];
    }
  }

  /** Searching a search result again with the same specification finds it all. */
  lemma {:induction false} FoundIdempotent(els: seq<Element>, atrs: Value)
    ensures Found(Found(els, atrs), atrs) == Found(els, atrs)
  {
    if els != [] {
      var head := if Matches(Obj(els[0].attrs), atrs) then [els[0]] else [];
      var rest := Found(els[1..], atrs);
      FoundIdempotent(els[1..], atrs);
      if head == [] {
        assert Found(els, atrs) == rest;
      } else {
        var f := head + rest;
        assert f[0] == els[0] && f[1..] == rest;
      }
    }
  }

  /** `JSON.parse(atrs)` read back as a string for the new selection label; None
      when it throws. The argument is first converted to a string: `undefined`,
      `NaN`, a plain object (`"[object Object]"`) and a function's source are not
      JSON, so these throw; `null` and the booleans parse to themselves. The text
      of a number, a string or an array depends on number formatting and the JSON
      grammar, which are given as `parsed`. */
  function ParsedText(atrs: Value, parsed: Option<string>): Option<string> {
    match atrs
    case Null => Some("null")
    case Bool(b) => Some(if b then "true" else "false")
    case Num(_) => parsed
    case Str(_) => parsed
    case Arr(_) => parsed
    case _ => None
  }

  /** A list built by `CC(selector)` has no selection, which reads as "undefined". */
  function SelectionText(selection: Option<string>): string {
    if selection.Some? then selection.value else "undefined"
  }

  // ---------------------------------------------------------------- inherit and merge

  /** An attribute change handed to every member. */
  datatype Change =
    | Inheriting(classesStr: string, opts: Value, defs: map<string, seq<Value>>)
    | Merging(obj: Value)

  /** The change on one member's properties; a removed member ignores it. */
  function Changed(c: Change, attrs: Dict<Value>, removed: bool, self: Element): Outcome {
    if removed then Outcome(Quiet, attrs)
    else
      match c
      case Inheriting(cs, opts, defs) => InheritAll(attrs, Split(cs, ' '), opts, defs, self)
      case Merging(obj) => var m := MergeOutcome(attrs, obj); Outcome(Run([], m.0), m.1)
  }

  /** The members that are removed. */
  function Gone(els: seq<Element>): (g: set<Element>)
    reads ElementSet(els)`removed
    ensures g <= ElementSet(els) && forall i :: 0 <= i < |els| ==> (els[i] in g <==> els[i].removed)
  {
    set e | e in ElementSet(els) && e.removed
  }

  /** The change handed to the members in order, from the properties in `cur`: the
      run, and the properties afterwards. A throw stops the loop. */
  function ChangeEach(els: seq<Element>, cur: map<Element, Dict<Value>>, gone: set<Element>, c: Change): (r: (Run, map<Element, Dict<Value>>))
    requires forall i :: 0 <= i < |els| ==> els[i] in cur
    ensures r.1.Keys == cur.Keys
  {
    if els == [] then (Quiet, cur)
    else
      var o := Changed(c, cur[els[0]], els[0] in gone, els[0]);
      var next := cur[els[0] := o.attrs];
      if o.run.halt.Some? then (o.run, next)
      else
        var rest := ChangeEach(els[1..], next, gone, c);
        (Then(o.run, rest.0), rest.1)
  }

  /** One round of the broadcast loop. */
  lemma ChangeEachStep(els: seq<Element>, i: nat, cur: map<Element, Dict<Value>>, gone: set<Element>, c: Change)
    requires i < |els| && forall j :: 0 <= j < |els| ==> els[j] in cur
    ensures var o := Changed(c, cur[els[i]], els[i] in gone, els[i]);
      ChangeEach(els[i..], cur, gone, c)
        == if o.run.halt.Some? then (o.run, cur[els[i] := o.attrs])
           else var rest := ChangeEach(els[i + 1..], cur[els[i] := o.attrs], gone, c); (Then(o.run, rest.0), rest.1)
  {
    assert els[i..][0] == els[i] && els[i..][1..] == els[i + 1..];
  }

  /** Elements that are not members, and removed members, keep their properties. */
  lemma {:induction false} ChangeEachKeeps(els: seq<Element>, cur: map<Element, Dict<Value>>, gone: set<Element>, c: Change, e: Element)
    requires forall i :: 0 <= i < |els| ==> els[i] in cur
    requires e in cur && (e !in els || e in gone)
    ensures ChangeEach(els, cur, gone, c).1[e] == cur[e]
  {
    if els != [] {
      var o := Changed(c, cur[els[0]], els[0] in gone, els[0]);
      var next := cur[els[0] := o.attrs];
      assert next[e] == cur[e];
      if o.run.halt.None? {
        ChangeEachKeeps(els[1..], next, gone, c, e);
      }
    }
  }

  /** When no member throws, every member of a list without repeats has received the
      change once, on its properties as they were. */
  lemma {:induction false} ChangeEachReachesAll(els: seq<Element>, cur: map<Element, Dict<Value>>, gone: set<Element>, c: Change, k: nat)
    requires forall i :: 0 <= i < |els| ==> els[i] in cur
    requires forall i, j :: 0 <= i < j < |els| ==> els[i] != els[j]
    requires ChangeEach(els, cur, gone, c).0.halt.None? && k < |els|
    ensures ChangeEach(els, cur, gone, c).1[els[k]] == Changed(c, cur[els[k]], els[k] in gone, els[k]).attrs
  {
    var o := Changed(c, cur[els[0]], els[0] in gone, els[0]);
    var next := cur[els[0] := o.attrs];
    assert o.run.halt.None?;
    if k == 0 {
      assert els[0] !in els[1..] by {
        forall j | 0 <= j < |els| - 1 ensures els[1..][j] != els[0] {
          assert els[1..][j] == els[j + 1];
        }
      }
      ChangeEachKeeps(els[1..], next, gone, c, els[0]);
    } else {
      assert els[1..][k - 1] == els[k] && next[els[k]] == cur[els[k]];
      ChangeEachReachesAll(els[1..], next, gone, c, k - 1);
    }
  }

  /** Merging hands nothing to user code: its run has an empty trace. */
  lemma {:induction false} MergeEachCallsNothing(els: seq<Element>, cur: map<Element, Dict<Value>>, gone: set<Element>, obj: Value)
    requires forall i :: 0 <= i < |els| ==> els[i] in cur
    ensures ChangeEach(els, cur, gone, Merging(obj)).0.trace == []
  {
    if els != [] {
      var o := Changed(Merging(obj), cur[els[0]], els[0] in gone, els[0]);
      if o.run.halt.None? {
        MergeEachCallsNothing(els[1..], cur[els[0] := o.attrs], gone, obj);
      }
    }
  }

  /** The change on the member at position i, seen from the whole list. */
  method ChangeStep(e: Element, els: seq<Element>, i: nat, ghost cur: map<Element, Dict<Value>>, ghost gone: set<Element>, c: Change)
    returns (r: Run, ghost next: map<Element, Dict<Value>>)
    requires i < |els| && e == els[i] && Snapshot(els) == cur && (e.removed <==> e in gone)
    modifies e`attrs
    ensures var o := Changed(c, cur[els[i]], els[i] in gone, els[i]);
      r == o.run && next == cur[els[i] := o.attrs]
    ensures Snapshot(els) == next
  {
    match c {
      case Inheriting(cs, opts, defs) =>
        r := e.Inherit(cs, opts, defs);
      case Merging(obj) =>
        var h := e.Merge(obj);
        r := Run([], h);
    }
    next := cur[e := e.attrs];
    ghost var now := Snapshot(els);
    forall x | x in now ensures now[x] == next[x] {
      if x != e {
        assert x.attrs == old(x.attrs);
      }
    }
    assert now.Keys == next.Keys;
  }

  /** The loop below after i members: `run` so far, the properties `cur`, and the
      whole pass `r0` still ahead of it as the rest of the fold. */
  ghost predicate ChangedSoFar(els: seq<Element>, i: nat, cur: map<Element, Dict<Value>>, gone: set<Element>, c: Change,
                               run: Run, r0: (Run, map<Element, Dict<Value>>))
    requires i <= |els|
    reads ElementSet(els)`attrs, ElementSet(els)`removed
  {
    && run.halt.None? && Snapshot(els) == cur && Gone(els) == gone
    && var rest := ChangeEach(els[i..], cur, gone, c);
       r0 == (Then(run, rest.0), rest.1)
  }

  /** One round of the loop below. */
  method ChangeNext(e: Element, els: seq<Element>, i: nat, ghost cur: map<Element, Dict<Value>>, ghost gone: set<Element>, c: Change,
                    ghost run: Run, ghost r0: (Run, map<Element, Dict<Value>>))
    returns (r: Run, ghost next: map<Element, Dict<Value>>)
    requires i < |els| && e == els[i] && ChangedSoFar(els, i, cur, gone, c, run, r0)
    modifies e`attrs
    ensures r.halt.Some? ==> r0 == (Then(run, r), next) && Snapshot(els) == next
    ensures r.halt.None? ==> ChangedSoFar(els, i + 1, next, gone, c, Then(run, r), r0)
  {
    ChangeEachStep(els, i, cur, gone, c);
    r, next := ChangeStep(e, els, i, cur, gone, c);
    ThenAssociates(run, r, ChangeEach(els[i + 1..], next, gone, c).0);
  }

  /** `each(function(){ this.inherit(...) })` or `this.merge(obj)` over the members. */
  method ChangeAll(els: seq<Element>, c: Change) returns (run: Run)
    modifies ElementSet(els)`attrs
    ensures var r := old(ChangeEach(els, Snapshot(els), Gone(els), c));
      run == r.0 && Snapshot(els) == r.1
  {
    run := Quiet;
    var i := 0;
    ghost var cur := Snapshot(els);
    ghost var gone := Gone(els);
    ghost var r0 := ChangeEach(els, cur, gone, c);
    assert els[0..] == els && [] + r0.0.trace == r0.0.trace;
    while i < |els|
      invariant 0 <= i <= |els| && ChangedSoFar(els, i, cur, gone, c, run, r0)
    {
      var r: Run;
      r, cur := ChangeNext(els[i], els, i, cur, gone, c, run, r0);
      run := Then(run, r);
      if r.halt.Some? {
        return;
      }
      i := i + 1;
    }
    assert els[i..] == [];
    assert run.trace + [] == run.trace;
  }

  // ---------------------------------------------------------------- bind and unbind

  /** A change to the members' own event tables. */
  datatype Rebinding = Binding(eventsStr: string, action: Value) | Unbinding(eventsStr: string)

  function Rebound(t: Table<Value>, b: Rebinding): Table<Value> {
    match b
    case Binding(s, a) => Events.Bind(t, s, a)
    case Unbinding(s) => Events.Unbind(t, s)
  }

  /** The members' event tables, as they stand. */
  function Tables(els: seq<Element>): (m: map<Element, Table<Value>>)
    reads ElementSet(els)`events
    ensures forall i :: 0 <= i < |els| ==> els[i] in m
    ensures m.Keys == ElementSet(els) && forall e :: e in m ==> m[e] == e.events
  {
    map e | e in ElementSet(els) :: e.events
  }

  /** The tables after the members of `els`, in order, have each taken the change;
      removed members ignore it. */
  function RebindEach(tables: map<Element, Table<Value>>, els: seq<Element>, gone: set<Element>, b: Rebinding): (r: map<Element, Table<Value>>)
    requires forall i :: 0 <= i < |els| ==> els[i] in tables
    ensures r.Keys == tables.Keys
  {
    if els == [] then tables
    else
      var prev := RebindEach(tables, els[..|els| - 1], gone, b);
      var e := els[|els| - 1];
      if e in gone then prev else prev[e := Rebound(prev[e], b)]
  }

  /** Removed members, and elements that are not members, keep their tables. */
  lemma {:induction false} RebindEachKeeps(tables: map<Element, Table<Value>>, els: seq<Element>, gone: set<Element>, b: Rebinding, e: Element)
    requires forall i :: 0 <= i < |els| ==> els[i] in tables
    requires e in tables && (e !in els || e in gone)
    ensures RebindEach(tables, els, gone, b)[e] == tables[e]
  {
    if els != [] {
      assert e !in els ==> e !in els[..|els| - 1];
      RebindEachKeeps(tables, els[..|els| - 1], gone, b, e);
    }
  }

  /** In a list without repeats, every member that is not removed takes the change
      exactly once. */
  lemma {:induction false} RebindEachReachesAll(tables: map<Element, Table<Value>>, els: seq<Element>, gone: set<Element>, b: Rebinding, k: nat)
    requires forall i :: 0 <= i < |els| ==> els[i] in tables
    requires forall i, j :: 0 <= i < j < |els| ==> els[i] != els[j]
    requires k < |els| && els[k] !in gone
    ensures RebindEach(tables, els, gone, b)[els[k]] == Rebound(tables[els[k]], b)
  {
    var front := els[..|els| - 1];
    if k == |els| - 1 {
      assert forall j :: 0 <= j < |front| ==> front[j] == els[j];
      assert els[k] !in front;
      RebindEachKeeps(tables, front, gone, b, els[k]);
    } else {
      assert front[k] == els[k];
      RebindEachReachesAll(tables, front, gone, b, k);
    }
  }

  /** The change on the member at position i, seen from the whole list. */
  method RebindStep(e: Element, els: seq<Element>, i: nat, ghost tables: map<Element, Table<Value>>, ghost gone: set<Element>, b: Rebinding)
    requires i < |els| && e == els[i] && Tables(els) == tables && (e.removed <==> e in gone)
    modifies e`events
    ensures Tables(els) == if els[i] in gone then tables else tables[els[i] := Rebound(tables[els[i]], b)]
  {
    match b {
      case Binding(s, a) => e.Bind(s, a);
      case Unbinding(s) => e.Unbind(s, Undef);
    }
    ghost var now := Tables(els);
    ghost var next := if e in gone then tables else tables[e := Rebound(tables[e], b)];
    forall x | x in now ensures now[x] == next[x] {
      if x != e {
        assert x.events == old(x.events);
      }
    }
    assert now.Keys == next.Keys;
  }

  /** The loop below after i members, from tables `t0`. */
  ghost predicate ReboundSoFar(els: seq<Element>, i: nat, t0: map<Element, Table<Value>>, gone: set<Element>, b: Rebinding)
    requires i <= |els|
    reads ElementSet(els)`events, ElementSet(els)`removed
  {
    && Gone(els) == gone && (forall j :: 0 <= j < |els| ==> els[j] in t0)
    && Tables(els) == RebindEach(t0, els[..i], gone, b)
  }

  /** One round of the loop below. */
  method RebindNext(e: Element, els: seq<Element>, i: nat, ghost t0: map<Element, Table<Value>>, ghost gone: set<Element>, b: Rebinding)
    requires i < |els| && e == els[i] && ReboundSoFar(els, i, t0, gone, b)
    modifies e`events
    ensures ReboundSoFar(els, i + 1, t0, gone, b)
  {
    assert els[..i + 1][..i] == els[..i] && els[..i + 1][i] == els[i];
    RebindStep(e, els, i, Tables(els), gone, b);
  }

  /** `each(function(){ this.bind(...) })` or `this.unbind(...)` over the members. */
  method RebindAll(els: seq<Element>, b: Rebinding)
    modifies ElementSet(els)`events
    ensures Tables(els) == old(RebindEach(Tables(els), els, Gone(els), b))
  {
    ghost var t0 := Tables(els);
    ghost var gone := Gone(els);
    var i := 0;
    assert els[..0] == [];
    while i < |els|
      invariant 0 <= i <= |els| && ReboundSoFar(els, i, t0, gone, b)
    {
      RebindNext(els[i], els, i, t0, gone, b);
      i := i + 1;
    }
    assert els[..i] == els;
  }

  // ---------------------------------------------------------------- remove

  /** `each(function(){ this.remove() })` from registry `reg`, with `gone` the
      removed elements and `tables` the members' event tables: a member already
      removed is skipped; otherwise it is marked removed, its "remove" actions run,
      and it leaves the registry unless one of them threw, which stops the loop. */
  function RemoveEach(els: seq<Element>, reg: Dict<Element>, gone: set<Element>, tables: map<Element, Table<Value>>): (Run, Dict<Element>, set<Element>)
    requires forall i :: 0 <= i < |els| ==> els[i] in tables
  {
    if els == [] then (Quiet, reg, gone)
    else
      var e := els[0];
      if e in gone then RemoveEach(els[1..], reg, gone, tables)
      else
        var r := TriggerRun(tables[e], true, Str("remove"), [], e);
        if r.halt.Some? then (r, reg, gone + {e})
        else
          var rest := RemoveEach(els[1..], RemoveValue(reg, e), gone + {e}, tables);
          (Then(r, rest.0), rest.1, rest.2)
  }

  /** One round of the removal loop. */
  lemma RemoveEachStep(els: seq<Element>, i: nat, reg: Dict<Element>, gone: set<Element>, tables: map<Element, Table<Value>>)
    requires i < |els| && forall j :: 0 <= j < |els| ==> els[j] in tables
    ensures var e := els[i];
      RemoveEach(els[i..], reg, gone, tables)
        == if e in gone then RemoveEach(els[i + 1..], reg, gone, tables)
           else
             var r := TriggerRun(tables[e], true, Str("remove"), [], e);
             if r.halt.Some? then (r, reg, gone + {e})
             else var rest := RemoveEach(els[i + 1..], RemoveValue(reg, e), gone + {e}, tables); (Then(r, rest.0), rest.1, rest.2)
  {
    assert els[i..][0] == els[i] && els[i..][1..] == els[i + 1..];
  }

  /** Removal only drops registry entries, and when no "remove" action throws, no
      member that was not already removed is left registered and every member is
      removed. */
  lemma {:induction false} RemoveEachUnregisters(els: seq<Element>, reg: Dict<Element>, gone: set<Element>, tables: map<Element, Table<Value>>)
    requires forall i :: 0 <= i < |els| ==> els[i] in tables
    ensures var r := RemoveEach(els, reg, gone, tables);
      && gone <= r.2
      && (forall i :: 0 <= i < |r.1| ==> r.1[i] in reg)
      && (r.0.halt.None? ==>
            ElementSet(els) <= r.2
            && forall i :: 0 <= i < |r.1| && r.1[i].1 in ElementSet(els) ==> r.1[i].1 in gone)
  {
    if els != [] {
      var e := els[0];
      assert ElementSet(els) == {e} + ElementSet(els[1..]) by {
        forall x | x in ElementSet(els) ensures x in {e} + ElementSet(els[1..]) {
          var i :| 0 <= i < |els| && els[i] == x;
          if i > 0 {
            assert els[1..][i - 1] == x;
          }
        }
        forall x | x in ElementSet(els[1..]) ensures x in ElementSet(els) {
          var i :| 0 <= i < |els[1..]| && els[1..][i] == x;
          assert els[i + 1] == x;
        }
      }
      if e in gone {
        RemoveEachUnregisters(els[1..], reg, gone, tables);
      } else {
        var r := TriggerRun(tables[e], true, Str("remove"), [], e);
        if r.halt.None? {
          RemoveEachUnregisters(els[1..], RemoveValue(reg, e), gone + {e}, tables);
        }
      }
    }
  }

  /** `this.remove()` on the member at position i, seen from the whole list. */
  method RemoveStep(w: World, e: Element, els: seq<Element>, i: nat, ghost gone: set<Element>)
    returns (r: Run)
    requires w.Valid() && i < |els| && e == els[i] && Gone(els) == gone
    modifies w`registry, e`removed
    ensures w.Valid() && Gone(els) == gone + {els[i]}
    ensures els[i] in gone ==> r == Quiet && w.registry == old(w.registry)
    ensures els[i] !in gone ==> r == TriggerRun(els[i].events, true, Str("remove"), [], els[i])
    ensures els[i] !in gone && r.halt.None? ==> w.registry == RemoveValue(old(w.registry), els[i])
    ensures els[i] !in gone && r.halt.Some? ==> w.registry == old(w.registry)
  {
    r := w.Remove(e);
    forall x | x in ElementSet(els) ensures x in Gone(els) <==> x in gone + {e} {
      if x != e {
        assert x.removed == old(x.removed);
      }
    }
  }

  /** The removal loop's account of what is left to do, carried past one member. */
  lemma RemoveAdvance(els: seq<Element>, i: nat, reg: Dict<Element>, reg': Dict<Element>, gone: set<Element>,
                      tables: map<Element, Table<Value>>, run: Run, r: Run, r0: (Run, Dict<Element>, set<Element>))
    requires i < |els| && forall j :: 0 <= j < |els| ==> els[j] in tables
    requires run.halt.None?
    requires var rest := RemoveEach(els[i..], reg, gone, tables); r0 == (Then(run, rest.0), rest.1, rest.2)
    requires els[i] in gone ==> r == Quiet && reg' == reg
    requires els[i] !in gone ==> r == TriggerRun(tables[els[i]], true, Str("remove"), [], els[i])
    requires els[i] !in gone && r.halt.None? ==> reg' == RemoveValue(reg, els[i])
    requires els[i] !in gone && r.halt.Some? ==> reg' == reg
    ensures r.halt.Some? ==> r0 == (Then(run, r), reg', gone + {els[i]})
    ensures r.halt.None? ==> var rest := RemoveEach(els[i + 1..], reg', gone + {els[i]}, tables);
      r0 == (Then(Then(run, r), rest.0), rest.1, rest.2)
  {
    RemoveEachStep(els, i, reg, gone, tables);
    var rest := RemoveEach(els[i + 1..], reg', gone + {els[i]}, tables);
    if els[i] in gone {
      assert gone + {els[i]} == gone;
      assert run.trace + [] == run.trace;
      assert Then(run, r) == run;
    } else if r.halt.None? {
      ThenAssociates(run, r, rest.0);
    }
  }

  /** The removal loop after i members: `run` so far, and the whole pass `r0` still
      ahead of it as the rest of the fold. */
  ghost predicate RemovedSoFar(w: World, els: seq<Element>, i: nat, gone: set<Element>, tables: map<Element, Table<Value>>,
                               run: Run, r0: (Run, Dict<Element>, set<Element>))
    requires i <= |els|
    reads w, ElementSet(els)`removed, ElementSet(els)`events
  {
    && w.Valid() && run.halt.None? && Gone(els) == gone && Tables(els) == tables
    && var rest := RemoveEach(els[i..], w.registry, gone, tables);
       r0 == (Then(run, rest.0), rest.1, rest.2)
  }

  /** One round of the removal loop. */
  method RemoveNext(w: World, e: Element, els: seq<Element>, i: nat, ghost gone: set<Element>, ghost tables: map<Element, Table<Value>>,
                    ghost run: Run, ghost r0: (Run, Dict<Element>, set<Element>))
    returns (r: Run, ghost gone': set<Element>)
    requires i < |els| && e == els[i] && RemovedSoFar(w, els, i, gone, tables, run, r0)
    modifies w`registry, e`removed
    ensures r.halt.Some? ==> w.Valid() && r0 == (Then(run, r), w.registry, gone') && Gone(els) == gone'
    ensures r.halt.None? ==> RemovedSoFar(w, els, i + 1, gone', tables, Then(run, r), r0)
  {
    ghost var reg := w.registry;
    r := RemoveStep(w, e, els, i, gone);
    RemoveAdvance(els, i, reg, w.registry, gone, tables, run, r, r0);
    gone' := gone + {els[i]};
  }

  // ---------------------------------------------------------------- became, while, onClick

  /** Which element handler the list hands on. */
  datatype WatchKind = OnBecame | OnWhile | OnClicked

  /** The closure bound for member `el` when the list calls `became`, `while` or
      `onClick`: the inner callback of `each` is called with no arguments, so the
      member receives `undefined` for the specification and the action. */
  function Watcher(kind: WatchKind, el: Element, n: nat): Handler {
    match kind
    case OnBecame => BecameWatch(el, Undef, Undef, n)
    case OnWhile => WhileWatch(el, Undef, Undef)
    case OnClicked => ClickWatch(el, Undef)
  }

  function WatchEvent(kind: WatchKind): string {
    if kind.OnClicked? then ClickEvent else EnterFrame
  }

  /** The global table after the handlers `hs` have been bound on `evt`, in order. */
  function BindEach(events: Table<Handler>, evt: string, hs: seq<Handler>): Table<Handler> {
    if hs == [] then events
    else Events.Bind(BindEach(events, evt, hs[..|hs| - 1]), evt, hs[|hs| - 1])
  }

  /** The `matched` flags with k new `became` closures from number n, all unmatched. */
  function Unmatched(watched: map<nat, bool>, n: nat, k: nat): map<nat, bool> {
    if k == 0 then watched else Unmatched(watched, n, k - 1)[n + (k - 1) := false]
  }

  /** The closures of the members, in order. */
  function Watchers(kind: WatchKind, els: seq<Element>, n: nat): (hs: seq<Handler>)
    ensures |hs| == |els| && forall i :: 0 <= i < |els| ==> hs[i] == Watcher(kind, els[i], n + i)
  {
    seq(|els|, i requires 0 <= i < |els| => Watcher(kind, els[i], n + i))
  }

  lemma WatchersSnoc(kind: WatchKind, els: seq<Element>, n: nat)
    requires els != []
    ensures Watchers(kind, els, n) == Watchers(kind, els[..|els| - 1], n) + [Watcher(kind, els[|els| - 1], n + |els| - 1)]
  {
    var a := Watchers(kind, els, n);
    var b := Watchers(kind, els[..|els| - 1], n) + [Watcher(kind, els[|els| - 1], n + |els| - 1)];
    assert |a| == |b|;
    forall i | 0 <= i < |a| ensures a[i] == b[i] {
      if i < |els| - 1 {
        assert els[..|els| - 1][i] == els[i];
      }
    }
  }

  lemma LastSplit<T>(s: seq<T>)
    requires s != []
    ensures s == s[..|s| - 1] + [s[|s| - 1]]
  {
  }

  /** Bound handlers land at the end of the root list of their event, in order,
      and nothing else changes there. */
  lemma {:induction false} BindEachAppends(events: Table<Handler>, evt: string, hs: seq<Handler>)
    requires TableOk(events) && '.' !in evt
    ensures TableOk(BindEach(events, evt, hs))
    ensures Handlers(BindEach(events, evt, hs), evt, "root") == Handlers(events, evt, "root") + hs
  {
    if hs == [] {
      assert Handlers(events, evt, "root") + [] == Handlers(events, evt, "root");
    } else {
      var front := hs[..|hs| - 1];
      var h := hs[|hs| - 1];
      var prev := BindEach(events, evt, front);
      BindEachAppends(events, evt, front);
      ParsePlainName(evt);
      BindKeepsTable(prev, evt, h);
      BindAppends(prev, evt, h, evt, "root");
      var base := Handlers(events, evt, "root");
      assert Handlers(BindEach(events, evt, hs), evt, "root") == (base + front) + [h];
      LastSplit(hs);
      ConcatAssociates(base, front, [h]);
    }
  }

  /** A closure bound with an undefined specification never runs its action:
      `matches(undefined)` is false, so `became` stays unmatched and `while` stays
      quiet. */
  lemma UndefinedSpecNeverFires(el: Element, action: Value, w: nat, args: seq<Value>, pressed: set<string>, watched: map<nat, bool>, view: View)
    ensures Fire(BecameWatch(el, Undef, action, w), args, pressed, watched, view) == Fired(Quiet, watched[w := false])
    ensures Fire(WhileWatch(el, Undef, action), args, pressed, watched, view) == Fired(Quiet, watched)
  {
  }

  /** A click closure bound with an undefined action throws when the click lands on
      the element, and is quiet otherwise. */
  lemma UndefinedClickActionThrows(x: real, y: real, ex: real, ey: real, ew: real, eh: real, attrs: Dict<Value>, el: Element)
    requires Prop(Obj(attrs), "x") == Num(ex) && Prop(Obj(attrs), "y") == Num(ey)
    requires Prop(Obj(attrs), "w") == Num(ew) && Prop(Obj(attrs), "h") == Num(eh)
    ensures var event := Obj([("offsetX", Num(x)), ("offsetY", Num(y))]);
      ClickRun(attrs, event, el, Undef)
        == if ex <= x <= ex + ew && ey <= y <= ey + eh then Run([], Some(TypeErrorThrown)) else Quiet
  {
    ClickIsInclusive(x, y, ex, ey, ew, eh, attrs, el, Undef);
  }

  /** One more handler in the fold. */
  lemma BindEachSnoc(events: Table<Handler>, evt: string, hs: seq<Handler>, h: Handler)
    ensures BindEach(events, evt, hs + [h]) == Events.Bind(BindEach(events, evt, hs), evt, h)
  {
    var a := hs + [h];
    assert a[..|a| - 1] == hs;
  }

  /** One more member's closure. */
  lemma WatchersPrefix(kind: WatchKind, els: seq<Element>, i: nat, n: nat)
    requires i < |els|
    ensures Watchers(kind, els[..i + 1], n) == Watchers(kind, els[..i], n) + [Watcher(kind, els[i], n + i)]
  {
    var a := els[..i + 1];
    WatchersSnoc(kind, a, n);
    assert a[..|a| - 1] == els[..i] && a[|a| - 1] == els[i];
  }

  lemma UnmatchedNext(m0: map<nat, bool>, n0: nat, i: nat, m: nat)
    requires m == n0 + i
    ensures Unmatched(m0, n0, i)[m := false] == Unmatched(m0, n0, i + 1)
  {
    assert Unmatched(m0, n0, i + 1) == Unmatched(m0, n0, i)[n0 + i := false];
  }

  /** The world's events and flags after member i binds closure `m`, in terms of
      the fold: the arithmetic on closure numbers stays here. */
  lemma WatchNextState(kind: WatchKind, els: seq<Element>, i: nat, evt: string, e0: Table<Handler>,
                       m0: map<nat, bool>, n0: nat, m: nat, events: Table<Handler>, watched: map<nat, bool>)
    requires i < |els| && (kind.OnBecame? ==> m == n0 + i)
    requires events == BindEach(e0, evt, Watchers(kind, els[..i], n0))
    requires kind.OnBecame? ==> watched == Unmatched(m0, n0, i)
    ensures Events.Bind(events, evt, Watcher(kind, els[i], m)) == BindEach(e0, evt, Watchers(kind, els[..i + 1], n0))
    ensures kind.OnBecame? ==> watched[m := false] == Unmatched(m0, n0, i + 1)
  {
    if kind.OnBecame? {
      UnmatchedNext(m0, n0, i, m);
    }
    WatchersPrefix(kind, els, i, n0);
    assert Watcher(kind, els[i], m) == Watcher(kind, els[i], n0 + i);
    BindEachSnoc(e0, evt, Watchers(kind, els[..i], n0), Watcher(kind, els[i], n0 + i));
  }

  /** A `became` closure with number `m`, bound through the world. */
  method BecameStep(w: World, el: Element, h: Handler, m: nat)
    requires w.Valid() && h == BecameWatch(el, Undef, Undef, m) && w.nextWatcher == m
    modifies w`events, w`watched, w`nextWatcher
    ensures w.Valid() && w.events == Events.Bind(old(w.events), EnterFrame, h)
    ensures w.watched == old(w.watched)[m := false] && w.nextWatcher == m + 1
  {
    w.Became(el, Undef, Undef);
  }

  /** A `while` closure, bound through the world. */
  method WhileStep(w: World, el: Element, h: Handler)
    requires w.Valid() && h == WhileWatch(el, Undef, Undef)
    modifies w`events
    ensures w.Valid() && w.events == Events.Bind(old(w.events), EnterFrame, h)
  {
    w.While(el, Undef, Undef);
  }

  /** A click closure, bound through the world. */
  method ClickStep(w: World, el: Element, h: Handler)
    requires w.Valid() && h == ClickWatch(el, Undef)
    modifies w`events
    ensures w.Valid() && w.events == Events.Bind(old(w.events), ClickEvent, h)
  {
    w.OnClick(el, Undef);
  }

  /** The member's handler `h`, with closure number `m`, bound through the world. */
  method WatchStep(w: World, el: Element, kind: WatchKind, h: Handler, m: nat)
    requires w.Valid() && h == Watcher(kind, el, m)
    requires kind.OnBecame? ==> w.nextWatcher == m
    modifies w`events, w`watched, w`nextWatcher
    ensures w.Valid()
    ensures w.events == Events.Bind(old(w.events), WatchEvent(kind), h)
    ensures kind.OnBecame? ==> w.watched == old(w.watched)[m := false] && w.nextWatcher == m + 1
    ensures !kind.OnBecame? ==> w.watched == old(w.watched) && w.nextWatcher == old(w.nextWatcher)
  {
    match kind {
      case OnBecame => BecameStep(w, el, h, m);
      case OnWhile => WhileStep(w, el, h);
      case OnClicked => ClickStep(w, el, h);
    }
  }

  /** The world after the first i members have bound their closures, from events
      `e0`, flags `m0` and closure number `n0`. */
  ghost predicate WatchedSoFar(w: World, els: seq<Element>, i: nat, kind: WatchKind,
                               e0: Table<Handler>, m0: map<nat, bool>, n0: nat)
    requires i <= |els|
    reads w
  {
    && w.Valid()
    && w.events == BindEach(e0, WatchEvent(kind), Watchers(kind, els[..i], n0))
    && (kind.OnBecame? ==> w.watched == Unmatched(m0, n0, i) && w.nextWatcher == n0 + i)
    && (!kind.OnBecame? ==> w.watched == m0 && w.nextWatcher == n0)
  }

  /** One round of the loop below. */
  method WatchNext(w: World, els: seq<Element>, i: nat, kind: WatchKind,
                   ghost e0: Table<Handler>, ghost m0: map<nat, bool>, n0: nat)
    requires i < |els| && WatchedSoFar(w, els, i, kind, e0, m0, n0)
    modifies w`events, w`watched, w`nextWatcher
    ensures WatchedSoFar(w, els, i + 1, kind, e0, m0, n0)
  {
    var m := w.nextWatcher;
    var h := Watcher(kind, els[i], m);
    WatchNextState(kind, els, i, WatchEvent(kind), e0, m0, n0, m, w.events, w.watched);
    WatchStep(w, els[i], kind, h, m);
  }

  /** `each(function(){ this.became.apply(this, arguments) })` and its `while` and
      `onClick` siblings over the members, binding on the event of `kind`. */
  method WatchAll(w: World, els: seq<Element>, kind: WatchKind)
    requires w.Valid()
    modifies w`events, w`watched, w`nextWatcher
    ensures w.Valid()
    ensures w.events == BindEach(old(w.events), WatchEvent(kind), Watchers(kind, els, old(w.nextWatcher)))
    ensures kind.OnBecame? ==> w.watched == Unmatched(old(w.watched), old(w.nextWatcher), |els|) && w.nextWatcher == old(w.nextWatcher) + |els|
    ensures !kind.OnBecame? ==> w.watched == old(w.watched) && w.nextWatcher == old(w.nextWatcher)
  {
    ghost var e0, m0 := w.events, w.watched;
    var n0 := w.nextWatcher;
    var i := 0;
    assert els[..0] == [];
    while i < |els|
      invariant 0 <= i <= |els| && WatchedSoFar(w, els, i, kind, e0, m0, n0)
    {
      WatchNext(w, els, i, kind, e0, m0, n0);
      i := i + 1;
    }
    assert els[..i] == els;
  }

  // ---------------------------------------------------------------- the list

  /** `new ElementList(elements, selection)` */
  class ElementList {
    /** The members, which `sort` replaces. */
    var elements: seq<Element>
    /** The label `search` extends; None for a list from `CC(selector)`. */
    const selection: Option<string>

    constructor (elements: seq<Element>, selection: Option<string>)
      ensures this.elements == elements && this.selection == selection
    {
      this.elements := elements;
      this.selection := selection;
    }

    /** `each(action)`: the action is called once per member, with the member as
        `this` and no arguments; a value that is not a function throws at the first
        member. */
    method Each(action: Value) returns (run: Run)
      ensures elements == [] ==> run == Quiet
      ensures elements != [] && !action.Fn? ==> run == Run([], Some(TypeErrorThrown))
      ensures action.Fn? ==> run == Run(Visits(action, elements), None)
    {
      run := Quiet;
      var i := 0;
      while i < |elements|
        invariant 0 <= i <= |elements|
        invariant i > 0 ==> action.Fn?
        invariant run == Run(Visits(action, elements[..i]), None)
      {
        var r := InvokeOne(action, On(elements[i]), []);
        if r.halt.Some? {
          return r;
        }
        assert Visits(action, elements[..i + 1]) == Visits(action, elements[..i]) + r.trace;
        run := Then(run, r);
        i := i + 1;
      }
      assert elements[..i] == elements;
    }

    /** `eg(index)`: the member at that position, `undefined` outside the list. */
    method Eg(index: int) returns (e: Option<Element>)
      ensures e.Some? <==> 0 <= index < |elements|
      ensures e.Some? ==> e.value == elements[index] && e.value in ElementSet(elements)
    {
      if 0 <= index < |elements| {
        return Some(elements[index]);
      }
      return None;
    }

    /** `asArray()`: a new array holding the members in order. */
    method AsArray() returns (a: array<Element>)
      ensures fresh(a) && a[..] == elements
    {
      var els := elements;
      a := new Element[|els|](i requires 0 <= i < |els| => els[i]);
    }

    /** `sort(prop, invert)` */
    method Sort(prop: string, invert: bool)
      modifies this`elements
      ensures elements == old(SortedBy(elements, prop, invert))
    {
      elements := SortedBy(elements, prop, invert);
    }

    /** `search(atrs)`: a new list of the members that match `atrs`, labelled with
        the old label and the parsed specification; `parsed` is what parsing the
        specification's text gives when that is not fixed by its type. */
    method Search(atrs: Value, parsed: Option<string>) returns (r: Attempt<ElementList>)
      ensures ParsedText(atrs, parsed).None? ==> r == Fails(SyntaxErrorThrown)
      ensures ParsedText(atrs, parsed).Some? ==>
        && r.Ok? && fresh(r.value)
        && r.value.elements == old(Found(elements, atrs))
        && r.value.selection == Some(SelectionText(selection) + "\n" + ParsedText(atrs, parsed).value + "\n\n")
    {
      assert forall e | e in ElementSet(elements) :: allocated(e);
      var result := FoundScan(elements, atrs);
      var text := ParsedText(atrs, parsed);
      if text.None? {
        return Fails(SyntaxErrorThrown);
      }
      var list := new ElementList(result, Some(SelectionText(selection) + "\n" + text.value + "\n\n"));
      r := Ok(list);
    }

    /** `inherit(classesStr, opts)` with the class table `defs`. */
    method Inherit(classesStr: string, opts: Value, defs: map<string, seq<Value>>) returns (run: Run)
      modifies ElementSet(elements)`attrs
      ensures var r := old(ChangeEach(elements, Snapshot(elements), Gone(elements), Inheriting(classesStr, opts, defs)));
        run == r.0 && Snapshot(elements) == r.1
    {
      run := ChangeAll(elements, Inheriting(classesStr, opts, defs));
    }

    /** `merge(obj)` */
    method Merge(obj: Value) returns (run: Run)
      modifies ElementSet(elements)`attrs
      ensures var r := old(ChangeEach(elements, Snapshot(elements), Gone(elements), Merging(obj)));
        run == r.0 && Snapshot(elements) == r.1
    {
      run := ChangeAll(elements, Merging(obj));
    }

    /** `remove()` in the world `w` that holds the registry. */
    method Remove(w: World) returns (run: Run)
      requires w.Valid()
      modifies w`registry, ElementSet(elements)`removed
      ensures w.Valid()
      ensures var r := old(RemoveEach(elements, w.registry, Gone(elements), Tables(elements)));
        run == r.0 && w.registry == r.1 && Gone(elements) == r.2
    {
      var els := elements;
      ghost var gone := Gone(els);
      ghost var tables := Tables(els);
      ghost var r0 := RemoveEach(els, w.registry, gone, tables);
      run := Quiet;
      var i := 0;
      assert els[0..] == els && [] + r0.0.trace == r0.0.trace;
      while i < |els|
        invariant 0 <= i <= |els| && RemovedSoFar(w, els, i, gone, tables, run, r0)
      {
        var r: Run;
        r, gone := RemoveNext(w, els[i], els, i, gone, tables, run, r0);
        run := Then(run, r);
        if r.halt.Some? {
          return;
        }
        i := i + 1;
      }
      assert els[i..] == [];
      assert run.trace + [] == run.trace;
    }

    /** `bind(eventsStr, action)` */
    method Bind(eventsStr: string, action: Value)
      modifies ElementSet(elements)`events
      ensures Tables(elements) == old(RebindEach(Tables(elements), elements, Gone(elements), Binding(eventsStr, action)))
    {
      RebindAll(elements, Binding(eventsStr, action));
    }

    /** `unbind(eventsStr, action)` */
    method Unbind(eventsStr: string, action: Value)
      modifies ElementSet(elements)`events
      ensures Tables(elements) == old(RebindEach(Tables(elements), elements, Gone(elements), Unbinding(eventsStr)))
    {
      RebindAll(elements, Unbinding(eventsStr));
    }

    /** `trigger(...)`: each member is triggered with the inner callback's own
        (empty) arguments, so with an undefined event name. A removed member ignores
        it; the first member that is not removed throws on `split`, whatever the
        list was given. */
    method Trigger(args: seq<Value>) returns (run: Run)
      ensures (forall i :: 0 <= i < |elements| ==> elements[i].removed) ==> run == Quiet
      ensures (exists i :: 0 <= i < |elements| && !elements[i].removed) ==> run == Run([], Some(TypeErrorThrown))
    {
      var i := 0;
      while i < |elements|
        invariant 0 <= i <= |elements|
        invariant forall k :: 0 <= k < i ==> elements[k].removed
      {
        var r := elements[i].Trigger(Undef, []);
        if r.halt.Some? {
          assert !elements[i].removed;
          return r;
        }
        i := i + 1;
      }
      run := Quiet;
    }

    /** `became(...)`: every member binds a `became` closure with an undefined
        specification and action. */
    method Became(w: World)
      requires w.Valid()
      modifies w`events, w`watched, w`nextWatcher
      ensures w.Valid()
      ensures w.events == BindEach(old(w.events), EnterFrame, Watchers(OnBecame, elements, old(w.nextWatcher)))
      ensures w.watched == Unmatched(old(w.watched), old(w.nextWatcher), |elements|)
      ensures w.nextWatcher == old(w.nextWatcher) + |elements|
    {
      WatchAll(w, elements, OnBecame);
    }

    /** `while(...)`: every member binds a `while` closure with an undefined
        specification and action. */
    method While(w: World)
      requires w.Valid()
      modifies w`events, w`watched, w`nextWatcher
      ensures w.Valid()
      ensures w.events == BindEach(old(w.events), EnterFrame, Watchers(OnWhile, elements, old(w.nextWatcher)))
      ensures w.watched == old(w.watched) && w.nextWatcher == old(w.nextWatcher)
    {
      WatchAll(w, elements, OnWhile);
    }

    /** `onClick(...)`: every member binds a click closure with an undefined action. */
    method OnClick(w: World)
      requires w.Valid()
      modifies w`events, w`watched, w`nextWatcher
      ensures w.Valid()
      ensures w.events == BindEach(old(w.events), ClickEvent, Watchers(OnClicked, elements, old(w.nextWatcher)))
      ensures w.watched == old(w.watched) && w.nextWatcher == old(w.nextWatcher)
    {
      WatchAll(w, elements, OnClicked);
    }
  }

  /** `CC(selector)` in world `w`: exactly one element selected by id or classes is
      returned itself; every other selection, and every `*` selection, is returned
      as a new list without a label. */
  method Query(w: World, selector: string) returns (halt: Option<Halt>, single: Option<Element>, list: ElementList?)
    ensures var s := old(SelectSpec(Values(w.registry), selector));
      && (s.Fails? ==> halt == Some(s.halt) && single.None? && list == null)
      && (s.Ok? && '*' !in selector && |s.value| == 1 ==> halt.None? && single == Some(s.value[0]) && list == null)
      && (s.Ok? && ('*' in selector || |s.value| != 1) ==>
            && halt.None? && single.None? && list != null && fresh(list)
            && list.elements == s.value && list.selection == None)
  {
    ghost var s0 := SelectSpec(Values(w.registry), selector);
    ghost var vs := Values(w.registry);
    assert forall e | e in ElementSet(vs) :: allocated(e);
    var found := w.Select(selector);
    assert found == s0;
    if found.Fails? {
      return Some(found.halt), None, null;
    }
    if '*' !in selector && |found.value| == 1 {
      return None, Some(found.value[0]), null;
    }
    list := new ElementList(found.value, None);
    halt, single := None, None;
  }
}
