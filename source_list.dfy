/** The newer `ElementList` (src/elementlist.js): a wrapper over a sequence of
    members that hands each operation on to every member, gathers the handles the
    members return, and takes on every function of `CC.fn` as a method of its own.
    The members are the newer elements, whose code is not part of this model: a
    member is an identity, and what the list asks of its members is returned as the
    trace of calls it makes, in order. */
module SourceList {
  import opened JsObject
  import opened JsValues
  import opened ObjectTools
  import Collection

  /** A member of a list: the identity of one element. */
  type Member = nat

  /** One call the list makes. */
  datatype Call =
    | Apply(action: Value, receiver: Member)                 // `action.call(member)`
    | Ask(receiver: Member, name: string, args: seq<Value>)  // `member[name](...args)`
    | Release(handle: Handle)                                 // `handle.unbind()`

  /** A value a member returned: the result of that call. */
  datatype Handle = ReturnedBy(call: Call)

  /** What a list method returns. */
  datatype Reply =
    | TheList                         // `return this`
    | Nothing                         // no `return`: undefined
    | Unbinder(handles: seq<Handle>)  // `{unbind: ...}` over the gathered handles

  /** An own property of a list. */
  datatype Slot =
    | Field(v: Value)   // `selection` and `length`
    | Builtin           // a method the constructor defines
    | Copied(f: Value)  // a function taken from `CC.fn`

  // ---------------------------------------------------------------- traces

  /** `action.call(member)` for every member, in order. */
  function Applied(action: Value, els: seq<Member>): (c: seq<Call>)
    ensures |c| == |els|
    ensures forall i :: 0 <= i < |els| ==> c[i] == Apply(action, els[i])
  {
    if els == [] then [] else Applied(action, els[..|els| - 1]) + [Apply(action, els[|els| - 1])]
  }

  /** `member[name](...args)` for every member, in order. */
  function Asked(els: seq<Member>, name: string, args: seq<Value>): (c: seq<Call>)
    ensures |c| == |els|
    ensures forall i :: 0 <= i < |els| ==> c[i] == Ask(els[i], name, args)
  {
    if els == [] then [] else Asked(els[..|els| - 1], name, args) + [Ask(els[|els| - 1], name, args)]
  }

  /** What the calls returned, in order. */
  function Results(calls: seq<Call>): (hs: seq<Handle>)
    ensures |hs| == |calls|
    ensures forall i :: 0 <= i < |calls| ==> hs[i] == ReturnedBy(calls[i])
  {
    if calls == [] then [] else Results(calls[..|calls| - 1]) + [ReturnedBy(calls[|calls| - 1])]
  }

  /** `handle.unbind()` for every handle, in order. */
  function Released(handles: seq<Handle>): (c: seq<Call>)
    ensures |c| == |handles|
    ensures forall i :: 0 <= i < |handles| ==> c[i] == Release(handles[i])
  {
    if handles == [] then [] else Released(handles[..|handles| - 1]) + [Release(handles[|handles| - 1])]
  }

  // ---------------------------------------------------------------- calls that throw

  /** The position of the first call in `throwing`, or the number of calls when
      none of them throws. The list's loops catch nothing, so that call is the
      last one a loop makes. */
  function FirstThrow(calls: seq<Call>, throwing: set<Call>): (k: nat)
    ensures k <= |calls|
    ensures forall i :: 0 <= i < k ==> calls[i] !in throwing
    ensures k < |calls| ==> calls[k] in throwing
  {
    if calls == [] || calls[0] in throwing then 0
    else
      var k := FirstThrow(calls[1..], throwing);
      assert forall i :: 1 <= i < 1 + k ==> calls[i] == calls[1..][i - 1];
      1 + k
  }

  /** The calls a loop meant to make `calls` in order does make: all of them, or
      those up to and including the first that throws. */
  function Attempted(calls: seq<Call>, throwing: set<Call>): (r: seq<Call>)
    ensures |r| <= |calls| && r == calls[..|r|]
    ensures forall i :: 0 <= i < |r| - 1 ==> r[i] !in throwing
    ensures |r| < |calls| ==> r != [] && r[|r| - 1] in throwing
  {
    var k := FirstThrow(calls, throwing);
    if k < |calls| then calls[..k + 1] else calls
  }

  /** The call whose exception ends the loop, if one does. */
  function ThrownBy(calls: seq<Call>, throwing: set<Call>): Option<Call> {
    var k := FirstThrow(calls, throwing);
    if k < |calls| then Some(calls[k]) else None
  }

  /** A loop runs to the end exactly when none of its calls throws; otherwise it
      stops right after the first call that throws, which is the exception it
      passes on. */
  lemma AttemptedIff(calls: seq<Call>, throwing: set<Call>)
    ensures ThrownBy(calls, throwing).None? <==> forall i :: 0 <= i < |calls| ==> calls[i] !in throwing
    ensures ThrownBy(calls, throwing).None? ==> Attempted(calls, throwing) == calls
    ensures forall i :: 0 <= i < |calls| && calls[i] in throwing && (forall j :: 0 <= j < i ==> calls[j] !in throwing) ==>
      Attempted(calls, throwing) == calls[..i + 1] && ThrownBy(calls, throwing) == Some(calls[i])
  {
  }

  /** The members in `matched`, in order. */
  function Kept(els: seq<Member>, matched: set<Member>): (r: seq<Member>)
    ensures |r| <= |els|
    ensures forall m :: m in r <==> m in els && m in matched
  {
    if els == [] then []
    else
      var last := els[|els| - 1];
      assert els == els[..|els| - 1] + [last];
      Kept(els[..|els| - 1], matched) + (if last in matched then [last] else [])
  }

  /** Keeping members preserves their order: the kept members of two lists one after
      the other are the kept members of the first, then those of the second. */
  lemma {:induction false} KeptAppend(a: seq<Member>, b: seq<Member>, matched: set<Member>)
    ensures Kept(a + b, matched) == Kept(a, matched) + Kept(b, matched)
    decreases |b|
  {
    if b == [] {
      assert a + b == a;
    } else {
      var init := b[..|b| - 1];
      var last := b[|b| - 1];
      assert (a + b)[..|a + b| - 1] == a + init;
      assert (a + b)[|a + b| - 1] == last;
      KeptAppend(a, init, matched);
      var tail := if last in matched then [last] else [];
      assert Kept(a + b, matched) == Kept(a + init, matched) + tail;
      assert Kept(b, matched) == Kept(init, matched) + tail;
      assert (Kept(a, matched) + Kept(init, matched)) + tail == Kept(a, matched) + (Kept(init, matched) + tail);
    }
  }

  /** Searching a search result again, with the same answers from the members,
      gives the same members back. */
  lemma {:induction false} KeptIdempotent(els: seq<Member>, matched: set<Member>)
    ensures Kept(Kept(els, matched), matched) == Kept(els, matched)
    decreases |els|
  {
    if els != [] {
      var init := els[..|els| - 1];
      var last := els[|els| - 1];
      var tail := if last in matched then [last] else [];
      KeptIdempotent(init, matched);
      KeptAppend(Kept(init, matched), tail, matched);
      if last in matched {
        assert [last][..0] == [];
      }
      assert Kept(tail, matched) == tail;
    }
  }

  /** What `unbind` on the object returned by `bind`, `became`, `while` or `onClick`
      does, where the releases in `throwing` throw: the handles the members
      returned are released in member order, each at most once, until one throws;
      when none throws, every handle is released. */
  lemma UnbindReleasesEachOnce(els: seq<Member>, name: string, args: seq<Value>, throwing: set<Call>)
    ensures var releases := Released(Results(Asked(els, name, args)));
      var r := Attempted(releases, throwing);
      && |r| <= |els|
      && (forall i :: 0 <= i < |r| ==> r[i] == Release(ReturnedBy(Ask(els[i], name, args))))
      && (ThrownBy(releases, throwing).None? ==> |r| == |els|)
      && (ThrownBy(releases, throwing).Some? ==> ThrownBy(releases, throwing) == Some(r[|r| - 1]) && r[|r| - 1] in throwing)
  {
    var releases := Released(Results(Asked(els, name, args)));
    AttemptedIff(releases, throwing);
  }

  /** The loop of the returned object's `unbind`, where the releases in `throwing`
      throw. */
  method UnbindAll(handles: seq<Handle>, throwing: set<Call>) returns (calls: seq<Call>, thrown: Option<Call>)
    ensures calls == Attempted(Released(handles), throwing)
    ensures thrown == ThrownBy(Released(handles), throwing)
  {
    ghost var all := Released(handles);
    calls := [];
    for i := 0 to |handles|
      invariant i <= FirstThrow(all, throwing)
      invariant calls == all[..i]
    {
      var call := Release(handles[i]);
      assert all[..i + 1] == all[..i] + [call];
      calls := calls + [call];
      if call in throwing {
        return calls, Some(call);
      }
    }
    assert all[..|handles|] == all;
    thrown := None;
  }

  // ---------------------------------------------------------------- own properties

  /** The methods the constructor defines. */
  const Methods: set<string> := {
    "each", "eg", "asArray", "inherit", "sort", "search", "merge", "remove", "removeClass",
    "bind", "unbind", "trigger", "became", "while", "onClick", "hideAllLayers", "toggleLayers"
  }

  /** The own properties before `init()`: the two fields and the methods. */
  function Initial(selection: Option<string>, count: nat): map<string, Slot> {
    (map name | name in Methods :: Builtin)
      ["selection" := Field(if selection.Some? then Str(selection.value) else Undef)]
      ["length" := Field(Num(count as real))]
  }

  /** `CC.isFunction(CC.fn[k])` */
  predicate CopiesFunction(fn: Dict<Value>, k: string) {
    Get(fn, k).Some? && Get(fn, k).value.Fn?
  }

  /** One turn of the `for (var i in CC.fn)` loop of `implementGlobalMethods`. */
  function Install(own: map<string, Slot>, entry: (string, Value)): map<string, Slot> {
    if entry.1.Fn? then own[entry.0 := Copied(entry.1)] else own
  }

  /** The own properties after the whole loop. */
  function Installed(own: map<string, Slot>, fn: Dict<Value>): map<string, Slot> {
    if fn == [] then own else Install(Installed(own, fn[..|fn| - 1]), fn[|fn| - 1])
  }

  lemma {:induction false} GetSnoc<V>(d: Dict<V>, e: (string, V), k: string)
    ensures Get(d + [e], k) == if HasKey(d, k) then Get(d, k) else if e.0 == k then Some(e.1) else None
    decreases |d|
  {
    if d == [] {
      assert d + [e] == [e];
      assert [e][1..] == [];
    } else {
      assert (d + [e])[0] == d[0];
      assert (d + [e])[1..] == d[1..] + [e];
      GetSnoc(d[1..], e, k);
      if d[0].0 == k {
        assert HasKey(d, k);
      }
    }
  }

  /** After `implementGlobalMethods`, every key under which `CC.fn` holds a function
      holds that function, whatever was there before; every other property is as it
      was. */
  lemma {:induction false} InstalledLookup(own: map<string, Slot>, fn: Dict<Value>, k: string)
    requires DistinctKeys(fn)
    ensures CopiesFunction(fn, k) ==> k in Installed(own, fn) && Installed(own, fn)[k] == Copied(Get(fn, k).value)
    ensures !CopiesFunction(fn, k) ==> (k in Installed(own, fn) <==> k in own)
    ensures !CopiesFunction(fn, k) && k in own ==> Installed(own, fn)[k] == own[k]
    decreases |fn|
  {
    if fn != [] {
      var init := fn[..|fn| - 1];
      var e := fn[|fn| - 1];
      assert fn == init + [e];
      InstalledLookup(own, init, k);
      GetSnoc(init, e, k);
    }
  }

  /** A new list answers to every constructor method and to `length`, the member
      count at construction, unless `CC.fn` has a function of that name, which then
      takes its place. */
  lemma OwnProperties(selection: Option<string>, count: nat, fn: Dict<Value>, k: string)
    requires DistinctKeys(fn)
    ensures var own := Installed(Initial(selection, count), fn);
      && (CopiesFunction(fn, k) ==> k in own && own[k] == Copied(Get(fn, k).value))
      && (!CopiesFunction(fn, k) && k in Methods ==> k in own && own[k] == Builtin)
      && (!CopiesFunction(fn, k) && k == "length" ==> k in own && own[k] == Field(Num(count as real)))
  {
    InstalledLookup(Initial(selection, count), fn, k);
  }

  // ---------------------------------------------------------------- sort

  /** The members with the sort property (`keyOf`) read from each. */
  function KeyedWith(els: seq<Member>, keyOf: Member -> Value): (r: seq<Keyed<Member>>)
    ensures |r| == |els|
  {
    seq(|els|, i requires 0 <= i < |els| => Keyed(els[i], SortKey(keyOf(els[i]))))
  }

  /** `CC.sort(elements, prop, invert)`, where `keyOf` reads `prop` from a member. */
  function SortedMembers(els: seq<Member>, keyOf: Member -> Value, invert: bool): seq<Member> {
    Items(StableSort(KeyedWith(els, keyOf), invert))
  }

  /** Sorting keeps the members, one for one, and orders them by key, a missing key
      counting as 0 and `invert` reversing the order. */
  lemma SortKeepsMembers(els: seq<Member>, keyOf: Member -> Value, invert: bool)
    ensures |SortedMembers(els, keyOf, invert)| == |els|
    ensures multiset(SortedMembers(els, keyOf, invert)) == multiset(els)
    ensures var s := SortedMembers(els, keyOf, invert);
      forall i, j :: 0 <= i < j < |s| ==> Rank(SortKey(keyOf(s[i])), invert) <= Rank(SortKey(keyOf(s[j])), invert)
  {
    var ks := KeyedWith(els, keyOf);
    var sorted := StableSort(ks, invert);
    StableSortCorrect(ks, invert);
    Collection.ItemsPermuted(sorted, ks);
    assert Items(ks) == els;
    assert |sorted| == |multiset(sorted)| == |multiset(ks)| == |ks|;
    forall i | 0 <= i < |sorted| ensures sorted[i].key == SortKey(keyOf(sorted[i].item)) {
      assert sorted[i] in multiset(ks);
      var j :| 0 <= j < |ks| && ks[j] == sorted[i];
    }
  }

  // ---------------------------------------------------------------- the list

  class List {
    /** The members; `sort` reassigns them. */
    var elements: seq<Member>
    /** The `selection` the list was built with, which `search` reads. */
    const selection: Option<string>
    /** The list's own properties. */
    var own: map<string, Slot>

    /** `new ElementList(elements, selection)` while `CC.fn` is `fn`. */
    constructor (elements: seq<Member>, selection: Option<string>, fn: Dict<Value>)
      ensures this.elements == elements && this.selection == selection
      ensures own == Installed(Initial(selection, |elements|), fn)
    {
      this.elements := elements;
      this.selection := selection;
      own := Initial(selection, |elements|);
      new;
      InstallGlobals(fn);
    }

    /** `implementGlobalMethods()` */
    method InstallGlobals(fn: Dict<Value>)
      modifies this`own
      ensures own == Installed(old(own), fn)
    {
      ghost var own0 := own;
      for i := 0 to |fn|
        invariant own == Installed(own0, fn[..i])
      {
        assert fn[..i + 1][..i] == fn[..i];
        if fn[i].1.Fn? {
          own := own[fn[i].0 := Copied(fn[i].1)];
        }
      }
      assert fn[..|fn|] == fn;
    }

    /** `each(action)`: the action is called once per member, in order, with the
        member as `this`; a value that is not a function throws at the first member. */
    method Each(action: Value) returns (calls: seq<Call>, halt: Option<Halt>, reply: Reply)
      ensures action.Fn? || elements == [] ==> calls == Applied(action, elements) && halt.None? && reply == TheList
      ensures !action.Fn? && elements != [] ==> calls == [] && halt == Some(TypeErrorThrown)
    {
      var els := elements;
      calls := [];
      for i := 0 to |els|
        invariant calls == Applied(action, els[..i])
        invariant i > 0 ==> action.Fn?
      {
        if !action.Fn? {
          return calls, Some(TypeErrorThrown), Nothing;
        }
        assert els[..i + 1][..i] == els[..i];
        calls := calls + [Apply(action, els[i])];
      }
      assert els[..|els|] == els;
      return calls, None, TheList;
    }

    /** `this.each(function () { ... this[name](...args) ... })`, where the calls in
        `throwing` throw: every member is asked in turn, and what each returns is
        kept, until a member's call throws; that exception ends the loop and leaves
        the list method. */
    method Forward(name: string, args: seq<Value>, throwing: set<Call>)
      returns (calls: seq<Call>, handles: seq<Handle>, thrown: Option<Call>)
      ensures calls == Attempted(Asked(elements, name, args), throwing)
      ensures thrown == ThrownBy(Asked(elements, name, args), throwing)
      ensures thrown.None? ==> handles == Results(calls)
    {
      var els := elements;
      ghost var all := Asked(els, name, args);
      calls, handles := [], [];
      for i := 0 to |els|
        invariant i <= FirstThrow(all, throwing)
        invariant calls == all[..i] && handles == Results(calls)
      {
        var call := Ask(els[i], name, args);
        assert all[..i + 1] == all[..i] + [call];
        assert (calls + [call])[..|calls|] == calls;
        calls := calls + [call];
        if call in throwing {
          return calls, handles, Some(call);
        }
        handles := handles + [ReturnedBy(call)];
      }
      assert all[..|els|] == all;
      thrown := None;
    }

    /** `eg(index)`: the member at that position, undefined outside the list. */
    method Eg(index: int) returns (m: Option<Member>)
      ensures m.Some? <==> 0 <= index < |elements|
      ensures m.Some? ==> m.value == elements[index]
    {
      if 0 <= index < |elements| {
        return Some(elements[index]);
      }
      return None;
    }

    /** `asArray()`: a new array holding the members in order, so that writing to it
        leaves the list as it was. */
    method AsArray() returns (a: array<Member>)
      ensures fresh(a) && a[..] == elements
    {
      var els := elements;
      a := new Member[|els|](i requires 0 <= i < |els| => els[i]);
    }

    /** `sort(prop, invert)`, where `keyOf` reads `prop` from a member. The count
        `length` recorded at construction is not touched. */
    method Sort(keyOf: Member -> Value, invert: bool) returns (reply: Reply)
      modifies this`elements
      ensures elements == SortedMembers(old(elements), keyOf, invert) && reply == TheList
    {
      elements := SortedMembers(elements, keyOf, invert);
      reply := TheList;
    }

    /** The scan of `search(atrs)`: every member is asked `matches(atrs)`; those in
        `matched` answered true, and they are kept in order. A call in `throwing`
        throws and ends the scan. */
    method Scan(atrs: Value, matched: set<Member>, throwing: set<Call>)
      returns (calls: seq<Call>, found: seq<Member>, thrown: Option<Call>)
      ensures calls == Attempted(Asked(elements, "matches", [atrs]), throwing)
      ensures thrown == ThrownBy(Asked(elements, "matches", [atrs]), throwing)
      ensures thrown.None? ==> found == Kept(elements, matched)
    {
      var els := elements;
      ghost var all := Asked(els, "matches", [atrs]);
      calls, found := [], [];
      for i := 0 to |els|
        invariant i <= FirstThrow(all, throwing)
        invariant calls == all[..i] && found == Kept(els[..i], matched)
      {
        assert els[..i + 1][..i] == els[..i];
        var call := Ask(els[i], "matches", [atrs]);
        assert all[..i + 1] == all[..i] + [call];
        calls := calls + [call];
        if call in throwing {
          return calls, found, Some(call);
        }
        if els[i] in matched {
          found := found + [els[i]];
        }
      }
      assert els[..|els|] == els;
      assert all[..|els|] == all;
      thrown := None;
    }

    /** `search(atrs)` while `CC.fn` is `fn`: a new list of the members that match,
        labelled with this list's selection and the parsed specification; `parsed`
        is what parsing the specification's text gives when its type does not fix
        it, and a specification that is not JSON text throws after the scan. */
    method Search(atrs: Value, matched: set<Member>, throwing: set<Call>, parsed: Option<string>, fn: Dict<Value>)
      returns (calls: seq<Call>, thrown: Option<Call>, halt: Option<Halt>, result: List?)
      ensures calls == Attempted(Asked(elements, "matches", [atrs]), throwing)
      ensures thrown == ThrownBy(Asked(elements, "matches", [atrs]), throwing)
      ensures thrown.Some? ==> halt.None? && result == null
      ensures thrown.None? && Collection.ParsedText(atrs, parsed).None? ==> halt == Some(SyntaxErrorThrown) && result == null
      ensures thrown.None? && Collection.ParsedText(atrs, parsed).Some? ==>
        && halt.None? && result != null && fresh(result)
        && result.elements == Kept(elements, matched)
        && result.selection == Some(Collection.SelectionText(selection) + "\n" + Collection.ParsedText(atrs, parsed).value + "\n\n")
        && result.own == Installed(Initial(result.selection, |result.elements|), fn)
    {
      var found;
      calls, found, thrown := Scan(atrs, matched, throwing);
      if thrown.Some? {
        return calls, thrown, None, null;
      }
      var text := Collection.ParsedText(atrs, parsed);
      if text.None? {
        return calls, thrown, Some(SyntaxErrorThrown), null;
      }
      result := new List(found, Some(Collection.SelectionText(selection) + "\n" + text.value + "\n\n"), fn);
      halt := None;
    }

    /** `inherit(classesStr, opts)` */
    method Inherit(classesStr: Value, opts: Value, throwing: set<Call>) returns (calls: seq<Call>, thrown: Option<Call>, reply: Reply)
      ensures calls == Attempted(Asked(elements, "inherit", [classesStr, opts]), throwing) && thrown == ThrownBy(Asked(elements, "inherit", [classesStr, opts]), throwing)
      ensures thrown.None? ==> reply == TheList
    {
      var returned;
      calls, returned, thrown := Forward("inherit", [classesStr, opts], throwing);
      reply := TheList;
    }

    /** `merge(obj)` */
    method Merge(obj: Value, throwing: set<Call>) returns (calls: seq<Call>, thrown: Option<Call>, reply: Reply)
      ensures calls == Attempted(Asked(elements, "merge", [obj]), throwing) && thrown == ThrownBy(Asked(elements, "merge", [obj]), throwing)
      ensures thrown.None? ==> reply == TheList
    {
      var returned;
      calls, returned, thrown := Forward("merge", [obj], throwing);
      reply := TheList;
    }

    /** `remove()` */
    method Remove(throwing: set<Call>) returns (calls: seq<Call>, thrown: Option<Call>, reply: Reply)
      ensures calls == Attempted(Asked(elements, "remove", []), throwing) && thrown == ThrownBy(Asked(elements, "remove", []), throwing)
      ensures thrown.None? ==> reply == Nothing
    {
      var returned;
      calls, returned, thrown := Forward("remove", [], throwing);
      reply := Nothing;
    }

    /** `removeClass(classe)` */
    method RemoveClass(classe: Value, throwing: set<Call>) returns (calls: seq<Call>, thrown: Option<Call>, reply: Reply)
      ensures calls == Attempted(Asked(elements, "removeClass", [classe]), throwing) && thrown == ThrownBy(Asked(elements, "removeClass", [classe]), throwing)
      ensures thrown.None? ==> reply == Nothing
    {
      var returned;
      calls, returned, thrown := Forward("removeClass", [classe], throwing);
      reply := Nothing;
    }

    /** `bind(eventsStr, action)`: the returned object unbinds every member's binding. */
    method Bind(eventsStr: Value, action: Value, throwing: set<Call>) returns (calls: seq<Call>, thrown: Option<Call>, reply: Reply)
      ensures calls == Attempted(Asked(elements, "bind", [eventsStr, action]), throwing) && thrown == ThrownBy(Asked(elements, "bind", [eventsStr, action]), throwing)
      ensures thrown.None? ==> reply == Unbinder(Results(calls))
    {
      var handles;
      calls, handles, thrown := Forward("bind", [eventsStr, action], throwing);
      reply := Unbinder(handles);
    }

    /** `unbind(eventsStr, action)` */
    method Unbind(eventsStr: Value, action: Value, throwing: set<Call>) returns (calls: seq<Call>, thrown: Option<Call>, reply: Reply)
      ensures calls == Attempted(Asked(elements, "unbind", [eventsStr, action]), throwing) && thrown == ThrownBy(Asked(elements, "unbind", [eventsStr, action]), throwing)
      ensures thrown.None? ==> reply == TheList
    {
      var returned;
      calls, returned, thrown := Forward("unbind", [eventsStr, action], throwing);
      reply := TheList;
    }

    /** `trigger(...args)`: every member is triggered with the inner callback's own
        `arguments`, which are empty, whatever the list was given. */
    method Trigger(args: seq<Value>, throwing: set<Call>) returns (calls: seq<Call>, thrown: Option<Call>, reply: Reply)
      ensures calls == Attempted(Asked(elements, "trigger", []), throwing) && thrown == ThrownBy(Asked(elements, "trigger", []), throwing)
      ensures thrown.None? ==> reply == TheList
    {
      var returned;
      calls, returned, thrown := Forward("trigger", [], throwing);
      reply := TheList;
    }

    /** `became(...args)`: every member is asked `became()` with no arguments. */
    method Became(args: seq<Value>, throwing: set<Call>) returns (calls: seq<Call>, thrown: Option<Call>, reply: Reply)
      ensures calls == Attempted(Asked(elements, "became", []), throwing) && thrown == ThrownBy(Asked(elements, "became", []), throwing)
      ensures thrown.None? ==> reply == Unbinder(Results(calls))
    {
      var handles;
      calls, handles, thrown := Forward("became", [], throwing);
      reply := Unbinder(handles);
    }

    /** `while(...args)`: every member is asked `while()` with no arguments. */
    method While(args: seq<Value>, throwing: set<Call>) returns (calls: seq<Call>, thrown: Option<Call>, reply: Reply)
      ensures calls == Attempted(Asked(elements, "while", []), throwing) && thrown == ThrownBy(Asked(elements, "while", []), throwing)
      ensures thrown.None? ==> reply == Unbinder(Results(calls))
    {
      var handles;
      calls, handles, thrown := Forward("while", [], throwing);
      reply := Unbinder(handles);
    }

    /** `onClick(...args)`: every member is asked `onClick()` with no arguments. */
    method OnClick(args: seq<Value>, throwing: set<Call>) returns (calls: seq<Call>, thrown: Option<Call>, reply: Reply)
      ensures calls == Attempted(Asked(elements, "onClick", []), throwing) && thrown == ThrownBy(Asked(elements, "onClick", []), throwing)
      ensures thrown.None? ==> reply == Unbinder(Results(calls))
    {
      var handles;
      calls, handles, thrown := Forward("onClick", [], throwing);
      reply := Unbinder(handles);
    }

    /** `hideAllLayers()` */
    method HideAllLayers(throwing: set<Call>) returns (calls: seq<Call>, thrown: Option<Call>, reply: Reply)
      ensures calls == Attempted(Asked(elements, "hideAllLayers", []), throwing) && thrown == ThrownBy(Asked(elements, "hideAllLayers", []), throwing)
      ensures thrown.None? ==> reply == Nothing
    {
      var returned;
      calls, returned, thrown := Forward("hideAllLayers", [], throwing);
      reply := Nothing;
    }

    /** `toggleLayers(toHide, toShow)` */
    method ToggleLayers(toHide: Value, toShow: Value, throwing: set<Call>) returns (calls: seq<Call>, thrown: Option<Call>, reply: Reply)
      ensures calls == Attempted(Asked(elements, "toggleLayers", [toHide, toShow]), throwing) && thrown == ThrownBy(Asked(elements, "toggleLayers", [toHide, toShow]), throwing)
      ensures thrown.None? ==> reply == Nothing
    {
      var returned;
      calls, returned, thrown := Forward("toggleLayers", [toHide, toShow], throwing);
      reply := Nothing;
    }
  }
}
