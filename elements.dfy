/** The element of the bundle (`Element` in dist/cascadecanvas-1.0.4.js): its
    properties, its private event table and its `removed` flag. User code (class
    constructors, event actions, drawing functions) is opaque: the operations that
    would run it return the trace of calls they make instead. */
module Elements {
  import opened JsObject
  import opened JsValues
  import opened ObjectTools
  import opened Matching
  import opened Events
  import opened Drawing

  /** The `this` a piece of user code runs with (`NoReceiver` is `undefined`). */
  datatype Receiver = NoReceiver | On(el: Element)

  /** One thing a run hands over to user code or to the canvas. */
  datatype Step =
    | Invoke(f: Value, receiver: Receiver, args: seq<Value>)
    | Paint(el: Element, painted: Painted)

  /** What a run did, in order, and how it ended when not normally. */
  datatype Run = Run(trace: seq<Step>, halt: Option<Halt>)

  const Quiet: Run := Run([], None)

  /** Running a, then b unless a has already stopped. */
  function Then(a: Run, b: Run): (r: Run)
    ensures a.halt.Some? ==> r == a
    ensures a.halt.None? ==> r.trace == a.trace + b.trace && r.halt == b.halt
  {
    if a.halt.Some? then a else Run(a.trace + b.trace, b.halt)
  }

  lemma ThenAssociates(a: Run, b: Run, c: Run)
    ensures Then(Then(a, b), c) == Then(a, Then(b, c))
  {
    if a.halt.None? && b.halt.None? {
      assert (a.trace + b.trace) + c.trace == a.trace + (b.trace + c.trace);
    }
  }

  // ---------------------------------------------------------------- calling user code

  /** `f.call(receiver, ...args)`: calling anything but a function throws a TypeError. */
  function InvokeOne(f: Value, receiver: Receiver, args: seq<Value>): Run {
    if f.Fn? then Run([Invoke(f, receiver, args)], None) else Run([], Some(TypeErrorThrown))
  }

  /** Calling each of fs in turn; the first value that is not a function throws. */
  function InvokeAll(fs: seq<Value>, receiver: Receiver, args: seq<Value>): Run {
    if fs == [] then Quiet else Then(InvokeOne(fs[0], receiver, args), InvokeAll(fs[1..], receiver, args))
  }

  /** The calls of a list of functions, one each, in order. */
  function Calls(fs: seq<Value>, receiver: Receiver, args: seq<Value>): (c: seq<Step>)
    ensures |c| == |fs| && forall i :: 0 <= i < |fs| ==> c[i] == Invoke(fs[i], receiver, args)
  {
    seq(|fs|, i requires 0 <= i < |fs| => Invoke(fs[i], receiver, args))
  }

  /** Position of the first value that is not a function (|fs| when there is none). */
  function FirstNonFunction(fs: seq<Value>): (k: nat)
    ensures k <= |fs|
    ensures forall i :: 0 <= i < k ==> fs[i].Fn?
    ensures k < |fs| ==> !fs[k].Fn?
  {
    if fs == [] || !fs[0].Fn? then 0 else 1 + FirstNonFunction(fs[1..])
  }

  /** Calling a list of functions calls every function up to the first value that is
      not one, in order, and throws there; a list of functions is called completely. */
  lemma {:induction false} InvokeAllCalls(fs: seq<Value>, receiver: Receiver, args: seq<Value>)
    ensures var k := FirstNonFunction(fs);
      InvokeAll(fs, receiver, args)
        == Run(Calls(fs[..k], receiver, args), if k < |fs| then Some(TypeErrorThrown) else None)
  {
    var k := FirstNonFunction(fs);
    if fs != [] && fs[0].Fn? {
      InvokeAllCalls(fs[1..], receiver, args);
      assert fs[1..][..k - 1] == fs[1..k];
      assert Calls(fs[..k], receiver, args) == [Invoke(fs[0], receiver, args)] + Calls(fs[1..k], receiver, args);
    } else {
      assert fs[..k] == [];
    }
  }

  /** The loops that call a list of user functions with one receiver. */
  method CallEach(fs: seq<Value>, receiver: Receiver, args: seq<Value>) returns (run: Run)
    ensures run == InvokeAll(fs, receiver, args)
  {
    InvokeAllCalls(fs, receiver, args);
    var trace: seq<Step> := [];
    var i := 0;
    while i < |fs|
      invariant 0 <= i <= |fs|
      invariant forall j :: 0 <= j < i ==> fs[j].Fn?
      invariant trace == Calls(fs[..i], receiver, args)
    {
      if !fs[i].Fn? {
        return Run(trace, Some(TypeErrorThrown));
      }
      trace := trace + [Invoke(fs[i], receiver, args)];
      i := i + 1;
    }
    assert fs[..i] == fs;
    run := Run(trace, None);
  }

  // ---------------------------------------------------------------- construction

  /** The methods every element carries as own properties; the model keeps them out
      of the property list, so merging onto one of these names is not modelled. */
  const MethodNames: set<string> := {"inherit", "matches", "merge", "remove", "bind", "unbind", "trigger",
    "became", "while", "onClick", "hideAllDrawings", "toggleDrawings", "draw"}

  /** The properties `init` copies from a truthy `opts`, in order. */
  const OptionKeys: seq<string> := ["x", "y", "w", "h", "angle", "anchor", "flip", "hidden", "zIndex"]

  function OptionEntries(opts: Value): (d: Dict<Value>)
    ensures |d| == 9 && forall i :: 0 <= i < 9 ==> d[i] == (OptionKeys[i], Prop(opts, OptionKeys[i]))
  {
    seq(9, i requires 0 <= i < 9 => (OptionKeys[i], Prop(opts, OptionKeys[i])))
  }

  /** The properties of a new element before it inherits: `classes` and `drawings`
      start empty, `id` is the first `#` token of the specs, and a truthy `opts`
      gives the nine geometry and display properties. */
  function InitialAttrs(specs: string, opts: Value): Dict<Value> {
    var base := [("classes", Obj([])), ("drawings", Obj([]))];
    var withId := match IdToken(specs) case Some(t) => base + [("id", Str(t))] case None => base;
    if Truthy(opts) then withId + OptionEntries(opts) else withId
  }

  /** Length and first letter tell the names of a new element's properties apart. */
  function Tag(k: string): (int, char)
    requires |k| > 0
  {
    (|k|, k[0])
  }

  const InitialNames: seq<string> := ["classes", "drawings", "id"] + OptionKeys

  lemma InitialNamesDiffer()
    ensures forall i, j :: 0 <= i < j < |InitialNames| ==> |InitialNames[i]| > 0 && Tag(InitialNames[i]) != Tag(InitialNames[j])
    ensures forall i :: 0 <= i < |InitialNames| ==> |InitialNames[i]| > 0 && !IsDigit(InitialNames[i][0])
  {
  }

  /** How many properties a new element has before the options: two, or three
      with an id. */
  function IdCount(specs: string): nat {
    if IdToken(specs).Some? then 3 else 2
  }

  /** The position in InitialNames of a new element's i-th property. */
  function InitialPos(specs: string, i: nat): nat {
    if i < IdCount(specs) then i else i - IdCount(specs) + 3
  }

  /** A new element's properties are the leading names, then the option keys. */
  lemma InitialAttrsShape(specs: string, opts: Value)
    ensures var d := InitialAttrs(specs, opts);
      && |d| == IdCount(specs) + (if Truthy(opts) then 9 else 0)
      && d[0] == ("classes", Obj([])) && d[1] == ("drawings", Obj([]))
      && (IdToken(specs).Some? ==> d[2] == ("id", Str(IdToken(specs).value)))
      && forall i :: IdCount(specs) <= i < |d| ==> d[i].0 == OptionKeys[i - IdCount(specs)]
  {
  }

  /** The keys of a new element, as positions in InitialNames. */
  lemma InitialAttrsNames(specs: string, opts: Value)
    ensures var d := InitialAttrs(specs, opts);
      && (forall i :: 0 <= i < |d| ==> InitialPos(specs, i) < |InitialNames| && d[i].0 == InitialNames[InitialPos(specs, i)])
      && (forall i, j :: 0 <= i < j < |d| ==> InitialPos(specs, i) < InitialPos(specs, j))
  {
    var d := InitialAttrs(specs, opts);
    InitialAttrsShape(specs, opts);
    forall i | 0 <= i < |d| ensures InitialPos(specs, i) < |InitialNames| && d[i].0 == InitialNames[InitialPos(specs, i)] {
      if i >= IdCount(specs) {
        assert InitialNames[InitialPos(specs, i)] == OptionKeys[i - IdCount(specs)];
      }
    }
  }

  /** A new element's property list is in JavaScript order. */
  lemma InitialAttrsOrdered(specs: string, opts: Value)
    ensures WellOrdered(InitialAttrs(specs, opts))
  {
    var d := InitialAttrs(specs, opts);
    InitialAttrsNames(specs, opts);
    InitialNamesDiffer();
    forall i, j | 0 <= i < j < |d| ensures d[i].0 != d[j].0 {
      assert Tag(InitialNames[InitialPos(specs, i)]) != Tag(InitialNames[InitialPos(specs, j)]);
    }
    forall i | 0 <= i < |d| ensures !IsArrayIndex(d[i].0) {
      assert !IsDigit(InitialNames[InitialPos(specs, i)][0]);
    }
  }

  /** A new element starts with `classes` and then `drawings`. */
  lemma InitialAttrsHead(specs: string, opts: Value)
    ensures var d := InitialAttrs(specs, opts);
      |d| >= 2 && d[0] == ("classes", Obj([])) && d[1] == ("drawings", Obj([]))
  {
  }

  /** A new element has empty `classes` and `drawings`. */
  lemma InitialAttrsRead(specs: string, opts: Value)
    ensures Prop(Obj(InitialAttrs(specs, opts)), "classes") == Obj([])
    ensures Prop(Obj(InitialAttrs(specs, opts)), "drawings") == Obj([])
  {
    var d := InitialAttrs(specs, opts);
    InitialAttrsHead(specs, opts);
    assert Get(d, "classes") == Some(Obj([]));
    assert "classes" != "drawings" by { assert |"classes"| != |"drawings"|; }
    assert Get(d, "drawings") == Get(d[1..], "drawings");
    assert d[1..][0] == ("drawings", Obj([]));
  }

  /** A new element's `id` is the first `#` token of its specs, if any. */
  lemma InitialAttrsId(specs: string, opts: Value)
    ensures Prop(Obj(InitialAttrs(specs, opts)), "id") == match IdToken(specs) case Some(t) => Str(t) case None => Undef
  {
    var d := InitialAttrs(specs, opts);
    InitialAttrsShape(specs, opts);
    assert "classes" != "id" && "drawings" != "id";
    if IdToken(specs).Some? {
      GetFirst(d, "id", 2);
    } else {
      assert forall j :: 0 <= j < 9 ==> |OptionKeys[j]| != 2;
      assert forall i :: 0 <= i < |d| ==> d[i].0 != "id";
      assert !HasKey(d, "id");
    }
  }

  lemma OptionKeysDiffer()
    ensures forall i, j :: 0 <= i < j < 9 ==> OptionKeys[i] != OptionKeys[j]
    ensures forall i :: 0 <= i < 9 ==> |OptionKeys[i]| != 2 && |OptionKeys[i]| < 7
  {
    InitialNamesDiffer();
    assert forall i :: 0 <= i < 9 ==> OptionKeys[i] == InitialNames[i + 3];
  }

  /** A new element holds exactly the geometry of a truthy `opts`, and none otherwise:
      the j-th option property. */
  lemma InitialAttrsOptions(specs: string, opts: Value, j: nat)
    requires j < |OptionKeys|
    ensures Prop(Obj(InitialAttrs(specs, opts)), OptionKeys[j]) == if Truthy(opts) then Prop(opts, OptionKeys[j]) else Undef
  {
    var k := OptionKeys[j];
    var base := [("classes", Obj([])), ("drawings", Obj([]))];
    var withId := match IdToken(specs) case Some(t) => base + [("id", Str(t))] case None => base;
    OptionKeysDiffer();
    assert |k| != 2 && |k| < 7;
    assert forall i :: 0 <= i < |withId| ==> withId[i].0 != k;
    assert !HasKey(withId, k);
    var d := InitialAttrs(specs, opts);
    if Truthy(opts) {
      var oe := OptionEntries(opts);
      assert d == withId + oe;
      GetFirst(oe, k, j);
      GetConcat(withId, oe, k);
      PropReadsGet(d, k);
    } else {
      assert d == withId;
      PropReadsGet(d, k);
    }
  }

  // ---------------------------------------------------------------- inherit

  /** A class record `{constructors: [...]}` as `CC.def` builds it. */
  function ClassRecord(ctors: seq<Value>): Value {
    Obj([("constructors", Arr(ctors))])
  }

  /** What a run leaves behind: its trace and the element's new properties. */
  datatype Outcome = Outcome(run: Run, attrs: Dict<Value>)

  /** Carrying on after a run that did not stop. */
  function Continue(r: Run, o: Outcome): Outcome {
    Outcome(Then(r, o.run), o.attrs)
  }

  /** One class name of `inherit`: an empty name or a class already held is skipped;
      otherwise the name is recorded with the class's record (an empty one for an
      unknown class) before the class's constructors run with `opts`. */
  function InheritOne(attrs: Dict<Value>, s: string, opts: Value, defs: map<string, seq<Value>>, self: Element): Outcome {
    var cls := Prop(Obj(attrs), "classes");
    if s == "" then Outcome(Quiet, attrs)
    else if cls.Undef? || cls.Null? then Outcome(Run([], Some(TypeErrorThrown)), attrs)
    else if Truthy(Prop(cls, s)) then Outcome(Quiet, attrs)
    else
      var rec := if s in defs then ClassRecord(defs[s]) else ClassRecord([]);
      match SetProp(cls, s, rec)
      case Merged(c) =>
        Outcome(if s in defs then InvokeAll(defs[s], On(self), [opts]) else Quiet, Set(attrs, "classes", c))
      case TypeError(_) => Outcome(Run([], Some(TypeErrorThrown)), attrs)
      case Unmodelled => Outcome(Run([], Some(Unsupported)), attrs)
  }

  /** The loop of `inherit` over the names, stopping at the first throw. */
  function InheritAll(attrs: Dict<Value>, names: seq<string>, opts: Value, defs: map<string, seq<Value>>, self: Element): Outcome
    decreases |names|
  {
    if names == [] then Outcome(Quiet, attrs)
    else
      var o := InheritOne(attrs, names[0], opts, defs, self);
      if o.run.halt.Some? then o else Continue(o.run, InheritAll(o.attrs, names[1..], opts, defs, self))
  }

  lemma InheritAllStep(attrs: Dict<Value>, names: seq<string>, opts: Value, defs: map<string, seq<Value>>, self: Element)
    requires names != []
    ensures var o := InheritOne(attrs, names[0], opts, defs, self);
      InheritAll(attrs, names, opts, defs, self)
        == if o.run.halt.Some? then o else Continue(o.run, InheritAll(o.attrs, names[1..], opts, defs, self))
  {
  }

  /** `InheritAllStep` at position i, given the outcome of that name. */
  lemma InheritAllNext(attrs: Dict<Value>, names: seq<string>, i: nat, opts: Value, defs: map<string, seq<Value>>,
                       self: Element, o: Outcome)
    requires i < |names| && o == InheritOne(attrs, names[i], opts, defs, self)
    ensures InheritAll(attrs, names[i..], opts, defs, self)
      == if o.run.halt.Some? then o else Continue(o.run, InheritAll(o.attrs, names[i + 1..], opts, defs, self))
  {
    InheritAllStep(attrs, names[i..], opts, defs, self);
    assert names[i..][0] == names[i] && names[i..][1..] == names[i + 1..];
  }

  lemma ContinueAssociates(a: Run, b: Run, o: Outcome)
    requires a.halt.None?
    ensures Continue(a, Continue(b, o)) == Continue(Then(a, b), o)
    ensures b.halt.Some? ==> Continue(a, Continue(b, o)) == Outcome(Then(a, b), o.attrs)
  {
    ThenAssociates(a, b, o.run);
  }

  /** The class table is a well-formed plain object. */
  predicate ClassesOk(attrs: Dict<Value>) {
    DistinctKeys(attrs) && Prop(Obj(attrs), "classes").Obj? && DistinctKeys(Prop(Obj(attrs), "classes").fields)
  }

  /** Inheriting a new class records it before its constructors run, and runs exactly
      the constructors registered for it, in registration order, with `opts` and the
      element as receiver; an unknown class is recorded with no constructors. */
  lemma InheritRecordsClass(attrs: Dict<Value>, s: string, opts: Value, defs: map<string, seq<Value>>, self: Element)
    requires ClassesOk(attrs) && s != "" && !Truthy(Prop(Prop(Obj(attrs), "classes"), s))
    ensures var o := InheritOne(attrs, s, opts, defs, self);
      && ClassesOk(o.attrs)
      && Prop(Prop(Obj(o.attrs), "classes"), s) == (if s in defs then ClassRecord(defs[s]) else ClassRecord([]))
      && o.run == (if s in defs then InvokeAll(defs[s], On(self), [opts]) else Quiet)
  {
    var cls := Prop(Obj(attrs), "classes");
    var rec := if s in defs then ClassRecord(defs[s]) else ClassRecord([]);
    var c := Set(cls.fields, s, rec);
    assert SetProp(cls, s, rec) == Merged(Obj(c));
    var o := InheritOne(attrs, s, opts, defs, self);
    assert o.attrs == Set(attrs, "classes", Obj(c));
    SetGet(cls.fields, s, rec, s);
    SetPreservesDistinct(cls.fields, s, rec);
    SetGet(attrs, "classes", Obj(c), "classes");
    SetPreservesDistinct(attrs, "classes", Obj(c));
    PropReadsGet(o.attrs, "classes");
    PropReadsGet(c, s);
  }

  /** A class the element already holds is skipped: nothing runs, nothing changes. */
  lemma InheritSkipsHeld(attrs: Dict<Value>, s: string, opts: Value, defs: map<string, seq<Value>>, self: Element)
    requires Truthy(Prop(Prop(Obj(attrs), "classes"), s))
    ensures InheritOne(attrs, s, opts, defs, self) == Outcome(Quiet, attrs)
  {
  }

  /** Each class is applied at most once per element: naming a new class twice runs
      its constructors once. */
  lemma InheritOnce(attrs: Dict<Value>, s: string, opts: Value, defs: map<string, seq<Value>>, self: Element)
    requires ClassesOk(attrs) && s != "" && !Truthy(Prop(Prop(Obj(attrs), "classes"), s))
    requires InheritOne(attrs, s, opts, defs, self).run.halt.None?
    ensures InheritAll(attrs, [s, s], opts, defs, self) == InheritOne(attrs, s, opts, defs, self)
  {
    var o := InheritOne(attrs, s, opts, defs, self);
    InheritRecordsClass(attrs, s, opts, defs, self);
    assert [s, s][1..] == [s] && [s][1..] == [];
    InheritSkipsHeld(o.attrs, s, opts, defs, self);
    assert InheritAll(o.attrs, [s], opts, defs, self) == Outcome(Quiet, o.attrs);
    assert o.run.trace + [] == o.run.trace;
  }

  // ---------------------------------------------------------------- merge

  /** Whether merging obj would overwrite one of the element's methods. */
  predicate WritesMethod(obj: Value) {
    Truthy(obj) && exists i :: 0 <= i < |ForIn(obj)| && ForIn(obj)[i].0 in MethodNames
  }

  lemma {:induction false} MergeEntriesKeepObject(fields: Dict<Value>, entries: Dict<Value>, bound: nat)
    requires forall i :: 0 <= i < |entries| && entries[i].1.Obj? ==> Size(entries[i].1) < bound
    ensures MergeEntries(Obj(fields), entries, bound).Merged? ==> MergeEntries(Obj(fields), entries, bound).value.Obj?
    ensures MergeEntries(Obj(fields), entries, bound).TypeError? ==> MergeEntries(Obj(fields), entries, bound).partial.Obj?
    decreases |entries|
  {
    if entries != [] {
      var r := MergeEntry(Obj(fields), entries[0].0, entries[0].1, bound);
      if r.Merged? {
        assert r.value.Obj?;
        MergeEntriesKeepObject(r.value.fields, entries[1..], bound);
      }
    }
  }

  /** Merging into an object gives an object, also when it throws part way. */
  lemma MergeKeepsObject(fields: Dict<Value>, obj: Value)
    ensures MergeInto(Obj(fields), obj).Merged? ==> MergeInto(Obj(fields), obj).value.Obj?
    ensures MergeInto(Obj(fields), obj).TypeError? ==> MergeInto(Obj(fields), obj).partial.Obj?
  {
    if Truthy(obj) {
      ForInSmaller(obj);
      MergeEntriesKeepObject(fields, ForIn(obj), Size(obj));
    }
  }

  /** `CC.merge(this, obj)` on an element's properties: the merged list, or the
      exception together with the properties as the throw leaves them. */
  function MergeOutcome(attrs: Dict<Value>, obj: Value): (Option<Halt>, Dict<Value>) {
    if WritesMethod(obj) then (Some(Unsupported), attrs)
    else
      match MergeInto(Obj(attrs), obj)
      case Merged(v) => MergeKeepsObject(attrs, obj); (None, v.fields)
      case TypeError(v) => MergeKeepsObject(attrs, obj); (Some(TypeErrorThrown), v.fields)
      case Unmodelled => (Some(Unsupported), attrs)
  }

  /** A throw part way keeps what was written before it: with `b` holding 5, merging
      `{a: 1, b: {c: 1}}` sets `a` and then throws on writing `c` onto the number. */
  lemma MergeThrowKeepsEarlierWrites()
    ensures MergeOutcome([("b", Num(5.0))], Obj([("a", Num(1.0)), ("b", Obj([("c", Num(1.0))]))]))
      == (Some(TypeErrorThrown), [("b", Num(5.0)), ("a", Num(1.0))])
  {
    var entries := [("a", Num(1.0)), ("b", Obj([("c", Num(1.0))]))];
    var obj := Obj(entries);
    NoMethodWritten(entries);
    ForInSmaller(obj);
    var bound := Size(obj);
    var m1 := Obj([("b", Num(5.0)), ("a", Num(1.0))]);
    WriteAOntoB(bound);
    ThrowOnB(bound);
    assert entries[1..] == [entries[1]] && entries[1..][1..] == [];
    assert MergeEntries(m1, entries[1..], bound) == TypeError(m1);
    assert MergeInto(Obj([("b", Num(5.0))]), obj) == MergeEntries(Obj([("b", Num(5.0))]), entries, bound);
  }

  lemma NoMethodWritten(entries: Dict<Value>)
    requires entries == [("a", Num(1.0)), ("b", Obj([("c", Num(1.0))]))]
    ensures !WritesMethod(Obj(entries))
  {
    assert "a" !in MethodNames && "b" !in MethodNames;
    forall i | 0 <= i < |entries| ensures entries[i].0 !in MethodNames {
      assert entries[i].0 == "a" || entries[i].0 == "b";
    }
  }

  lemma WriteAOntoB(bound: nat)
    ensures MergeEntry(Obj([("b", Num(5.0))]), "a", Num(1.0), bound) == Merged(Obj([("b", Num(5.0)), ("a", Num(1.0))]))
  {
    var k := "a";
    assert !HasKey([("b", Num(5.0))], k);
    assert !IsArrayIndex(k) by {
      assert !IsDigit(k[0]);
    }
    assert Set([("b", Num(5.0))], k, Num(1.0)) == [("b", Num(5.0)), (k, Num(1.0))];
  }

  lemma ThrowOnB(bound: nat)
    requires Size(Obj([("c", Num(1.0))])) < bound
    ensures MergeEntry(Obj([("b", Num(5.0)), ("a", Num(1.0))]), "b", Obj([("c", Num(1.0))]), bound)
      == TypeError(Obj([("b", Num(5.0)), ("a", Num(1.0))]))
  {
    var m1 := [("b", Num(5.0)), ("a", Num(1.0))];
    MergeIntoScalar(Num(5.0), [("c", Num(1.0))]);
    assert Get(m1, "b") == Some(Num(5.0));
    assert HasKey(m1, "b") && IndexOfKey(m1, "b") == 0;
    assert Replace(m1, 0, Num(5.0)) == m1;
  }

  /** Merging onto an element: a later scalar wins, and a property the source lacks
      reads as before. */
  lemma MergeOutcomeScalar(attrs: Dict<Value>, src: Dict<Value>, q: string)
    requires DistinctKeys(attrs) && DistinctKeys(src)
    requires !WritesMethod(Obj(src)) && MergeInto(Obj(attrs), Obj(src)).Merged?
    ensures MergeOutcome(attrs, Obj(src)).0.None?
    ensures HasKey(src, q) && !Get(src, q).value.Obj? ==> Prop(Obj(MergeOutcome(attrs, Obj(src)).1), q) == Get(src, q).value
    ensures !HasKey(src, q) ==> Prop(Obj(MergeOutcome(attrs, Obj(src)).1), q) == Prop(Obj(attrs), q)
  {
    MergeLaterWins(attrs, src, q);
    MergeKeepsObject(attrs, Obj(src));
  }

  // ---------------------------------------------------------------- trigger

  /** `el.trigger(eventsStr, ...args)`: a removed element ignores every name but exactly
      `"remove"`; a name that is not a string throws on `split`; otherwise the actions
      of the trigger plan run with the element as receiver, and a root walk past the
      end of the root list throws afterwards. */
  function TriggerRun(events: Table<Value>, removed: bool, eventsStr: Value, args: seq<Value>, self: Element): Run {
    if removed && !StrictEquals(eventsStr, Str("remove")) then Quiet
    else if !eventsStr.Str? then Run([], Some(TypeErrorThrown))
    else
      var plan := TriggerPlan(events, eventsStr.s);
      var r := InvokeAll(plan.calls, On(self), args);
      if r.halt.None? && plan.fails then Run(r.trace, Some(TypeErrorThrown)) else r
  }

  /** After removal only `"remove"` still runs actions; it runs them as before removal. */
  lemma RemovedTriggersOnlyRemove(events: Table<Value>, eventsStr: Value, args: seq<Value>, self: Element)
    ensures eventsStr != Str("remove") ==> TriggerRun(events, true, eventsStr, args, self) == Quiet
    ensures eventsStr == Str("remove") ==> TriggerRun(events, true, eventsStr, args, self) == TriggerRun(events, false, eventsStr, args, self)
  {
    assert StrictEquals(eventsStr, Str("remove")) <==> eventsStr == Str("remove");
  }

  /** A namespaced event calls exactly its own list, in order, with the element as
      receiver and the trailing arguments. */
  lemma TriggerCallsNamespace(events: Table<Value>, removed: bool, s: string, args: seq<Value>, self: Element)
    requires !removed && ParseEvent(s).domain != "root"
    requires forall f :: f in Handlers(events, ParseEvent(s).evt, ParseEvent(s).domain) ==> f.Fn?
    ensures TriggerRun(events, removed, Str(s), args, self)
      == Run(Calls(Handlers(events, ParseEvent(s).evt, ParseEvent(s).domain), On(self), args), None)
  {
    var hs := Handlers(events, ParseEvent(s).evt, ParseEvent(s).domain);
    TriggerNamed(events, s);
    InvokeAllCalls(hs, On(self), args);
    assert hs[..|hs|] == hs;
  }

  // ---------------------------------------------------------------- drawings

  /** `this.drawings[i].hidden = true` for every drawing in turn. A drawing that is not
      an object stops the loop; the drawings updated before it stay updated. */
  function HideAll(fields: Dict<Value>): (r: (Dict<Value>, Option<Halt>))
    ensures |r.0| == |fields| && forall i :: 0 <= i < |fields| ==> r.0[i].0 == fields[i].0
  {
    if fields == [] then ([], None)
    else
      match SetProp(fields[0].1, "hidden", Bool(true))
      case Merged(d) =>
        var rest := HideAll(fields[1..]);
        ([(fields[0].0, d)] + rest.0, rest.1)
      case TypeError(_) => (fields, Some(TypeErrorThrown))
      case Unmodelled => (fields, Some(Unsupported))
  }

  lemma HiddenAfterSet(fields: Dict<Value>, flag: bool)
    ensures Prop(Obj(Set(fields, "hidden", Bool(flag))), "hidden") == Bool(flag)
  {
    GetAfterSet(fields, "hidden", Bool(flag));
    PropReadsGet(Set(fields, "hidden", Bool(flag)), "hidden");
  }

  lemma HideAllUnfold(fields: Dict<Value>)
    requires fields != []
    ensures HideAll(fields) == match SetProp(fields[0].1, "hidden", Bool(true))
      case Merged(d) => ([(fields[0].0, d)] + HideAll(fields[1..]).0, HideAll(fields[1..]).1)
      case TypeError(_) => (fields, Some(TypeErrorThrown))
      case Unmodelled => (fields, Some(Unsupported))
  {
  }

  /** When hiding completes, every drawing is an object whose `hidden` is true. */
  lemma {:induction false} HideAllHides(fields: Dict<Value>)
    requires HideAll(fields).1.None?
    ensures forall i :: 0 <= i < |fields| ==>
      HideAll(fields).0[i].1.Obj? && Prop(HideAll(fields).0[i].1, "hidden") == Bool(true)
  {
    if fields != [] {
      HideAllHides(fields[1..]);
      HiddenAfterSet(fields[0].1.fields, true);
      var r := HideAll(fields).0;
      assert forall i :: 1 <= i < |fields| ==> r[i] == HideAll(fields[1..]).0[i - 1];
    }
  }

  /** The loop of `hideAllDrawings` over a drawing table. */
  method HideEach(ds: Dict<Value>) returns (fields: Dict<Value>, halt: Option<Halt>)
    ensures (fields, halt) == HideAll(ds)
  {
    var done: Dict<Value> := [];
    var i := 0;
    assert ds[0..] == ds && [] + HideAll(ds).0 == HideAll(ds).0;
    while i < |ds|
      invariant 0 <= i <= |ds|
      invariant HideAll(ds) == (done + HideAll(ds[i..]).0, HideAll(ds[i..]).1)
    {
      HideAllUnfold(ds[i..]);
      assert ds[i..][0] == ds[i] && ds[i..][1..] == ds[i + 1..];
      var d := SetProp(ds[i].1, "hidden", Bool(true));
      if !d.Merged? {
        return done + ds[i..], Some(if d.TypeError? then TypeErrorThrown else Unsupported);
      }
      ConcatAssociates(done, [(ds[i].0, d.value)], HideAll(ds[i + 1..]).0);
      done := done + [(ds[i].0, d.value)];
      i := i + 1;
    }
    assert ds[i..] == [] && done + [] == done;
    fields, halt := done, None;
  }

  /** `hideAllDrawings`: the loop runs over whatever `drawings` holds; an array's
      items are visited under their indices and updated where they stand. */
  function HideOutcome(attrs: Dict<Value>): (Option<Halt>, Dict<Value>) {
    match Prop(Obj(attrs), "drawings")
    case Obj(fields) =>
      var (f, h) := HideAll(fields);
      (h, Set(attrs, "drawings", Obj(f)))
    case Arr(items) =>
      var (f, h) := HideAll(IndexEntries(items));
      (h, Set(attrs, "drawings", Arr(Values(f))))
    case Str(s) => if s == "" then (None, attrs) else (Some(TypeErrorThrown), attrs)
    case _ => (None, attrs)
  }

  /** When hiding an array of drawings completes, the array keeps its length and
      every item is an object whose `hidden` is true. */
  lemma HideArrayHides(attrs: Dict<Value>)
    requires DistinctKeys(attrs) && Prop(Obj(attrs), "drawings").Arr?
    requires HideOutcome(attrs).0.None?
    ensures var items := Prop(Obj(attrs), "drawings").items;
      var after := Prop(Obj(HideOutcome(attrs).1), "drawings");
      && after.Arr? && |after.items| == |items|
      && forall i :: 0 <= i < |items| ==> after.items[i].Obj? && Prop(after.items[i], "hidden") == Bool(true)
  {
    var items := Prop(Obj(attrs), "drawings").items;
    var f := HideAll(IndexEntries(items)).0;
    HideAllHides(IndexEntries(items));
    PropOfSet(attrs, "drawings", Arr(Values(f)));
  }

  /** `obj[k].hidden = flag`, writing the updated drawing back into its holder. */
  function SetHidden(drawings: Value, k: string, flag: bool): MergeResult {
    match SetProp(Prop(drawings, k), "hidden", Bool(flag))
    case Merged(d) => (match SetProp(drawings, k, d) case Merged(x) => Merged(x) case _ => Unmodelled)
    case failure => failure
  }

  function HaltOf(r: MergeResult): Halt {
    if r.TypeError? then TypeErrorThrown else Unsupported
  }

  /** `toggleDrawings(toHide, toShow)`: hides one drawing, then shows the other; a
      missing `drawings` or a missing drawing throws. */
  function ToggleOutcome(attrs: Dict<Value>, toHide: string, toShow: string): (Option<Halt>, Dict<Value>) {
    var ds := Prop(Obj(attrs), "drawings");
    if ds.Undef? || ds.Null? then (Some(TypeErrorThrown), attrs)
    else
      match SetHidden(ds, toHide, true)
      case Merged(d1) =>
        (match SetHidden(d1, toShow, false)
         case Merged(d2) => (None, Set(attrs, "drawings", d2))
         case failure => (Some(HaltOf(failure)), Set(attrs, "drawings", d1)))
      case failure => (Some(HaltOf(failure)), attrs)
  }

  /** Toggling two drawings of a drawing table leaves the first hidden and the second
      shown (shown, when both names are the same). */
  lemma ToggleHidesAndShows(attrs: Dict<Value>, fields: Dict<Value>, toHide: string, toShow: string)
    requires DistinctKeys(attrs) && Prop(Obj(attrs), "drawings") == Obj(fields) && DistinctKeys(fields)
    requires Get(fields, toHide).Some? && Get(fields, toHide).value.Obj?
    requires Get(fields, toShow).Some? && Get(fields, toShow).value.Obj?
    ensures var (h, a) := ToggleOutcome(attrs, toHide, toShow);
      && h.None?
      && Prop(Prop(Prop(Obj(a), "drawings"), toShow), "hidden") == Bool(false)
      && (toHide != toShow ==> Prop(Prop(Prop(Obj(a), "drawings"), toHide), "hidden") == Bool(true))
  {
    SetHiddenStep(fields, toHide, true);
    var f1 := SetHidden(Obj(fields), toHide, true).value.fields;
    SetHiddenStep(f1, toShow, false);
    var f2 := SetHidden(Obj(f1), toShow, false).value.fields;
    PropReadsGet(attrs, "drawings");
    assert ToggleOutcome(attrs, toHide, toShow) == (None, Set(attrs, "drawings", Obj(f2)));
    SetGet(attrs, "drawings", Obj(f2), "drawings");
    PropReadsGet(Set(attrs, "drawings", Obj(f2)), "drawings");
    PropReadsGet(f2, toShow);
    PropReadsGet(f2, toHide);
  }

  /** One step of `toggleDrawings` on a drawing table. */
  lemma SetHiddenStep(fields: Dict<Value>, k: string, flag: bool)
    requires DistinctKeys(fields) && Get(fields, k).Some? && Get(fields, k).value.Obj?
    ensures var r := SetHidden(Obj(fields), k, flag);
      && r.Merged? && r.value.Obj? && DistinctKeys(r.value.fields)
      && Get(r.value.fields, k).Some? && Get(r.value.fields, k).value.Obj?
      && Prop(Get(r.value.fields, k).value, "hidden") == Bool(flag)
      && forall k' :: k' != k ==> Get(r.value.fields, k') == Get(fields, k')
  {
    var v := Get(fields, k).value;
    PropReadsGet(fields, k);
    var n := Set(v.fields, "hidden", Bool(flag));
    assert SetProp(v, "hidden", Bool(flag)) == Merged(Obj(n));
    assert SetHidden(Obj(fields), k, flag) == Merged(Obj(Set(fields, k, Obj(n))));
    SetPreservesDistinct(fields, k, Obj(n));
    forall k' ensures Get(Set(fields, k, Obj(n)), k') == if k' == k then Some(Obj(n)) else Get(fields, k') {
      SetGet(fields, k, Obj(n), k');
    }
    HiddenAfterSet(v.fields, flag);
  }

  // ---------------------------------------------------------------- draw

  /** `drawing.anchor = a` for the drawing held under k in `drawings`: the drawing
      object is shared with the table, so the write shows there. */
  function StoreDrawingAnchor(attrs: Dict<Value>, k: string, a: Value): Dict<Value> {
    match Prop(Obj(attrs), "drawings")
    case Obj(fields) =>
      (match Get(fields, k)
       case Some(d) => if d.Obj? then Set(attrs, "drawings", Obj(Set(fields, k, Obj(Set(d.fields, "anchor", a))))) else attrs
       case None => attrs)
    case Arr(items) =>
      if IsArrayIndex(k) && IndexValue(k) < |items| && items[IndexValue(k)].Obj?
      then Set(attrs, "drawings", Arr(items[IndexValue(k) := Obj(Set(items[IndexValue(k)].fields, "anchor", a))]))
      else attrs
    case _ => attrs
  }

  /** `drawing[style].linearGradient = g` for the drawing held under k in `drawings`:
      `createLinearGradient` writes into the gradient object itself, which the style
      shares with the drawing and the drawing with the table. */
  function StoreGradient(attrs: Dict<Value>, k: string, style: string, g: Value): Dict<Value> {
    match Prop(Obj(attrs), "drawings")
    case Obj(fields) =>
      (match Get(fields, k)
       case Some(d) =>
         if d.Obj? && Prop(d, style).Obj?
         then Set(attrs, "drawings", Obj(Set(fields, k, Obj(Set(d.fields, style, Obj(Set(Prop(d, style).fields, "linearGradient", g)))))))
         else attrs
       case None => attrs)
    case Arr(items) =>
      if IsArrayIndex(k) && IndexValue(k) < |items| && items[IndexValue(k)].Obj? && Prop(items[IndexValue(k)], style).Obj?
      then
        var d := items[IndexValue(k)];
        Set(attrs, "drawings", Arr(items[IndexValue(k) := Obj(Set(d.fields, style, Obj(Set(Prop(d, style).fields, "linearGradient", g))))]))
      else attrs
    case _ => attrs
  }

  /** The gradients `drawShape` completed, in the order it completed them. */
  function StoreGradients(attrs: Dict<Value>, k: string, gs: seq<(string, Value)>): Dict<Value>
    decreases |gs|
  {
    if gs == [] then attrs
    else
      var attrs1 := StoreGradient(attrs, k, gs[0].0, gs[0].1);
      StoreGradients(attrs1, k, gs[1..])
  }

  /** The writes `drawShape` made that outlive it: the element's anchor, then the
      drawing's, then the gradients of its fill and stroke. */
  function StoreWrites(attrs: Dict<Value>, k: string, p: Painted): Dict<Value> {
    var attrs1 := if p.elAnchor.Some? then Set(attrs, "anchor", p.elAnchor.value) else attrs;
    var attrs2 := if p.drawingAnchor.Some? then StoreDrawingAnchor(attrs1, k, p.drawingAnchor.value) else attrs1;
    StoreGradients(attrs2, k, p.gradients)
  }

  /** The loop of `draw` over the sorted drawings, each with the key it is held under:
      a function is called with the element as receiver; anything else is drawn by
      `drawShape`, which may write the element's `anchor`, the drawing's and the
      drawing's gradients, and may throw, ending the loop. */
  function DrawList(ds: Dict<Value>, attrs: Dict<Value>, self: Element, step: nat, sprites: map<string, Value>): Outcome {
    if ds == [] then Outcome(Quiet, attrs)
    else if ds[0].1.Fn? then
      Continue(InvokeOne(ds[0].1, On(self), []), DrawList(ds[1..], attrs, self, step, sprites))
    else
      var p := DrawShapeSpec(Obj(attrs), ds[0].1, step, sprites);
      var attrs1 := StoreWrites(attrs, ds[0].0, p);
      if p.halt.Some? then Outcome(Run([Paint(self, p)], p.halt), attrs1)
      else Continue(Run([Paint(self, p)], None), DrawList(ds[1..], attrs1, self, step, sprites))
  }

  /** The order `draw` visits the drawings in: `CC.sort(this.drawings, "zIndex", true)`. */
  function DrawingOrder(attrs: Dict<Value>): seq<Value> {
    SortValues(Prop(Obj(attrs), "drawings"), "zIndex", true)
  }

  /** `el.draw()`: nothing when `hidden` is exactly true; otherwise the drawings are
      sorted first, which throws on a `null` drawing beside another one, and an array
      of drawings is sorted in place. */
  function DrawOutcome(attrs: Dict<Value>, self: Element, step: nat, sprites: map<string, Value>): Outcome {
    if StrictEquals(Prop(Obj(attrs), "hidden"), Bool(true)) then Outcome(Quiet, attrs)
    else
      var drawings := Prop(Obj(attrs), "drawings");
      if SortThrows(drawings) then Outcome(Run([], Some(TypeErrorThrown)), attrs)
      else
      var sorted := SortEntries(drawings, "zIndex", true);
      DrawList(sorted.1, if drawings.Arr? then Set(attrs, "drawings", sorted.0) else attrs, self, step, sprites)
  }

  /** Drawings that are all functions are called once each, in order, and the
      element's properties stay as they are. */
  lemma {:induction false} DrawFunctions(ds: Dict<Value>, attrs: Dict<Value>, self: Element, step: nat, sprites: map<string, Value>)
    requires forall i :: 0 <= i < |ds| ==> ds[i].1.Fn?
    ensures DrawList(ds, attrs, self, step, sprites) == Outcome(Run(Calls(Values(ds), On(self), []), None), attrs)
  {
    if ds != [] {
      DrawListCalls(ds, attrs, self, step, sprites);
      DrawFunctions(ds[1..], attrs, self, step, sprites);
      ValuesCons(ds);
      CallsCons(Values(ds), On(self));
    }
  }

  lemma ValuesCons(ds: Dict<Value>)
    requires ds != []
    ensures Values(ds) == [ds[0].1] + Values(ds[1..])
  {
  }

  lemma CallsCons(fs: seq<Value>, receiver: Receiver)
    requires fs != []
    ensures Calls(fs, receiver, []) == [Invoke(fs[0], receiver, [])] + Calls(fs[1..], receiver, [])
  {
  }

  /** A function first in the list is called, and the list goes on. */
  lemma DrawListCalls(ds: Dict<Value>, attrs: Dict<Value>, self: Element, step: nat, sprites: map<string, Value>)
    requires ds != [] && ds[0].1.Fn?
    ensures DrawList(ds, attrs, self, step, sprites)
      == Continue(Run([Invoke(ds[0].1, On(self), [])], None), DrawList(ds[1..], attrs, self, step, sprites))
  {
  }

  /** A shape first in the list is drawn, its writes stored, and the list goes on
      unless the drawing threw. */
  lemma DrawListShape(ds: Dict<Value>, attrs: Dict<Value>, self: Element, step: nat, sprites: map<string, Value>, p: Painted)
    requires ds != [] && !ds[0].1.Fn? && p == DrawShapeSpec(Obj(attrs), ds[0].1, step, sprites)
    ensures var attrs1 := StoreWrites(attrs, ds[0].0, p);
      DrawList(ds, attrs, self, step, sprites)
      == if p.halt.Some? then Outcome(Run([Paint(self, p)], p.halt), attrs1)
         else Continue(Run([Paint(self, p)], None), DrawList(ds[1..], attrs1, self, step, sprites))
  {
  }

  /** Drawings other than `undefined` are visited by descending `zIndex` (a missing
      one counting as 0), ties keeping their order in the table, then the `undefined`
      ones; each drawing exactly once, paired with the key it is held under; an
      array of drawings is left sorted. */
  lemma DrawingOrderSorted(attrs: Dict<Value>)
    ensures var d := Prop(Obj(attrs), "drawings");
      var ks := StableSort(KeyedEntries(DefinedEntries(ForIn(d)), "zIndex"), true);
      && Values(SortEntries(d, "zIndex", true).1) == DrawingOrder(attrs)
      && (!d.Arr? ==> SortEntries(d, "zIndex", true).1 == Items(ks) + UndefinedEntries(ForIn(d)))
      && (d.Arr? ==> SortEntries(d, "zIndex", true) == (Arr(DrawingOrder(attrs)), ForIn(Arr(DrawingOrder(attrs)))))
      && SortedByRank(ks, true)
      && multiset(ks) == multiset(KeyedEntries(DefinedEntries(ForIn(d)), "zIndex"))
      && (forall e :: e in DefinedEntries(ForIn(d)) ==> !e.1.Undef?)
      && (forall e :: e in UndefinedEntries(ForIn(d)) ==> e.1.Undef?)
      && multiset(DefinedEntries(ForIn(d))) + multiset(UndefinedEntries(ForIn(d))) == multiset(ForIn(d))
  {
    var d := Prop(Obj(attrs), "drawings");
    SortEntriesValues(d, "zIndex", true);
    StableSortCorrect(KeyedEntries(DefinedEntries(ForIn(d)), "zIndex"), true);
    EntriesSplit(ForIn(d));
  }

  /** A `null` drawing next to a second drawing that is not `undefined` makes the
      sort throw a TypeError: nothing is drawn or called, and the element's
      properties, an array of drawings included, stay as they were. */
  lemma DrawNullDrawingThrows(attrs: Dict<Value>, self: Element, step: nat, sprites: map<string, Value>, i: nat, j: nat)
    requires !StrictEquals(Prop(Obj(attrs), "hidden"), Bool(true))
    requires var items := SortInput(Prop(Obj(attrs), "drawings"));
      i < |items| && j < |items| && i != j && items[i].Null? && !items[j].Undef?
    ensures DrawOutcome(attrs, self, step, sprites) == Outcome(Run([], Some(TypeErrorThrown)), attrs)
  {
    SortThrowsOnNull(Prop(Obj(attrs), "drawings"), i, j);
  }

  /** A rotated drawing without an anchor is drawn around the element's anchor (or
      the box's centre), and that anchor is written into the drawing's entry of the
      element's drawing table; the other drawings stay as they are. */
  lemma StoreDrawingAnchorWrites(attrs: Dict<Value>, fields: Dict<Value>, k: string, a: Value)
    requires DistinctKeys(attrs) && Prop(Obj(attrs), "drawings") == Obj(fields) && DistinctKeys(fields)
    requires Get(fields, k).Some? && Get(fields, k).value.Obj? && DistinctKeys(Get(fields, k).value.fields)
    ensures var after := Prop(Obj(StoreDrawingAnchor(attrs, k, a)), "drawings");
      && after.Obj? && DistinctKeys(after.fields)
      && Prop(Prop(after, k), "anchor") == a
      && (forall k' :: k' != "anchor" ==> Prop(Prop(after, k), k') == Prop(Get(fields, k).value, k'))
      && (forall k' :: k' != k ==> Get(after.fields, k') == Get(fields, k'))
  {
    var d := Get(fields, k).value;
    var d1 := Set(d.fields, "anchor", a);
    var f1 := Set(fields, k, Obj(d1));
    StoredTable(attrs, fields, k, a);
    TableEntrySet(fields, k, Obj(d1));
    PropSet(d, "anchor", a);
  }

  /** A gradient `drawShape` completed is written into the drawing's entry of the
      element's drawing table, inside the style it belongs to; the style's other
      properties, the drawing's other properties and the other entries stay as
      they were. */
  lemma StoreGradientWrites(attrs: Dict<Value>, fields: Dict<Value>, k: string, style: string, g: Value)
    requires DistinctKeys(attrs) && Prop(Obj(attrs), "drawings") == Obj(fields) && DistinctKeys(fields)
    requires Get(fields, k).Some? && Get(fields, k).value.Obj? && DistinctKeys(Get(fields, k).value.fields)
    requires Prop(Get(fields, k).value, style).Obj? && DistinctKeys(Prop(Get(fields, k).value, style).fields)
    ensures var after := Prop(Obj(StoreGradient(attrs, k, style, g)), "drawings");
      && after.Obj? && DistinctKeys(after.fields)
      && Prop(Prop(Prop(after, k), style), "linearGradient") == g
      && (forall k' :: k' != "linearGradient" ==> Prop(Prop(Prop(after, k), style), k') == Prop(Prop(Get(fields, k).value, style), k'))
      && (forall k' :: k' != style ==> Prop(Prop(after, k), k') == Prop(Get(fields, k).value, k'))
      && (forall k' :: k' != k ==> Get(after.fields, k') == Get(fields, k'))
  {
    var d := Get(fields, k).value;
    var st := Prop(d, style);
    var st1 := Set(st.fields, "linearGradient", g);
    var d1 := Set(d.fields, style, Obj(st1));
    StoredGradientTable(attrs, fields, k, style, g);
    PropSet(st, "linearGradient", g);
    PropSet(d, style, Obj(st1));
    TableEntrySet(fields, k, Obj(d1));
  }

  lemma StoredGradientTable(attrs: Dict<Value>, fields: Dict<Value>, k: string, style: string, g: Value)
    requires DistinctKeys(attrs) && Prop(Obj(attrs), "drawings") == Obj(fields)
    requires Get(fields, k).Some? && Get(fields, k).value.Obj? && Prop(Get(fields, k).value, style).Obj?
    ensures var d := Get(fields, k).value;
      Prop(Obj(StoreGradient(attrs, k, style, g)), "drawings")
      == Obj(Set(fields, k, Obj(Set(d.fields, style, Obj(Set(Prop(d, style).fields, "linearGradient", g))))))
  {
    var d := Get(fields, k).value;
    var f1 := Set(fields, k, Obj(Set(d.fields, style, Obj(Set(Prop(d, style).fields, "linearGradient", g)))));
    assert StoreGradient(attrs, k, style, g) == Set(attrs, "drawings", Obj(f1));
    PropOfSet(attrs, "drawings", Obj(f1));
  }

  lemma StoredTable(attrs: Dict<Value>, fields: Dict<Value>, k: string, a: Value)
    requires DistinctKeys(attrs) && Prop(Obj(attrs), "drawings") == Obj(fields)
    requires Get(fields, k).Some? && Get(fields, k).value.Obj?
    ensures Prop(Obj(StoreDrawingAnchor(attrs, k, a)), "drawings")
      == Obj(Set(fields, k, Obj(Set(Get(fields, k).value.fields, "anchor", a))))
  {
    var f1 := Set(fields, k, Obj(Set(Get(fields, k).value.fields, "anchor", a)));
    assert StoreDrawingAnchor(attrs, k, a) == Set(attrs, "drawings", Obj(f1));
    PropOfSet(attrs, "drawings", Obj(f1));
  }

  lemma TableEntrySet(fields: Dict<Value>, k: string, x: Value)
    requires DistinctKeys(fields)
    ensures DistinctKeys(Set(fields, k, x)) && Prop(Obj(Set(fields, k, x)), k) == x
    ensures forall k' :: k' != k ==> Get(Set(fields, k, x), k') == Get(fields, k')
  {
    SetPreservesDistinct(fields, k, x);
    forall k' ensures Get(Set(fields, k, x), k') == if k' == k then Some(x) else Get(fields, k') {
      SetGet(fields, k, x, k');
    }
    PropReadsGet(Set(fields, k, x), k);
  }

  /** The anchor a drawing is given is truthy, so once stored it is the one every
      later draw turns the drawing around, wherever the element has moved. */
  lemma DrawingAnchorSticks(el: Value, drawing: Value, box: Box, el2: Value, box2: Box)
    requires drawing.Obj? && Anchors(el, drawing, box).1.Some?
    ensures var a := Anchors(el, drawing, box).1.value;
      && Truthy(a)
      && Anchors(el2, Obj(Set(drawing.fields, "anchor", a)), box2).1.None?
  {
    var a := Anchors(el, drawing, box).1.value;
    GetAfterSet(drawing.fields, "anchor", a);
    PropReadsGet(Set(drawing.fields, "anchor", a), "anchor");
  }

  /** The loop of `inherit` over the names, on the element's properties. */
  method InheritLoop(attrs0: Dict<Value>, names: seq<string>, opts: Value, defs: map<string, seq<Value>>, self: Element)
    returns (run: Run, attrs: Dict<Value>)
    ensures Outcome(run, attrs) == InheritAll(attrs0, names, opts, defs, self)
  {
    run, attrs := Quiet, attrs0;
    var i := 0;
    assert names[0..] == names;
    while i < |names|
      invariant 0 <= i <= |names|
      invariant run.halt.None?
      invariant InheritAll(attrs0, names, opts, defs, self) == Continue(run, InheritAll(attrs, names[i..], opts, defs, self))
    {
      var o, next := InheritName(attrs, names[i], opts, defs, self);
      InheritAllNext(attrs, names, i, opts, defs, self, Outcome(o, next));
      ContinueAssociates(run, o, InheritAll(next, names[i + 1..], opts, defs, self));
      run, attrs := Then(run, o), next;
      if o.halt.Some? {
        return;
      }
      i := i + 1;
    }
    assert names[i..] == [];
    assert run.trace + [] == run.trace;
  }

  /** One name of `inherit`'s loop, with the loop over the class's constructors. */
  method InheritName(attrs0: Dict<Value>, s: string, opts: Value, defs: map<string, seq<Value>>, self: Element)
    returns (run: Run, attrs: Dict<Value>)
    ensures Outcome(run, attrs) == InheritOne(attrs0, s, opts, defs, self)
  {
    attrs := attrs0;
    var cls := Prop(Obj(attrs), "classes");
    if s == "" {
      return Quiet, attrs;
    } else if cls.Undef? || cls.Null? {
      return Run([], Some(TypeErrorThrown)), attrs;
    } else if Truthy(Prop(cls, s)) {
      return Quiet, attrs;
    }
    var rec := if s in defs then ClassRecord(defs[s]) else ClassRecord([]);
    var c := SetProp(cls, s, rec);
    if c.TypeError? {
      return Run([], Some(TypeErrorThrown)), attrs;
    } else if c.Unmodelled? {
      return Run([], Some(Unsupported)), attrs;
    }
    attrs := Set(attrs, "classes", c.value);
    if s in defs {
      run := CallEach(defs[s], On(self), [opts]);
    } else {
      run := Quiet;
    }
  }

  // ---------------------------------------------------------------- the element

  class Element {
    /** The element's own properties other than its methods, in enumeration order. */
    var attrs: Dict<Value>
    /** `thisevents`, the private event table. */
    var events: Table<Value>
    var removed: bool

    /** `new Element(specs, opts)` up to its call of `inherit`. */
    constructor (specs: string, opts: Value)
      ensures attrs == InitialAttrs(specs, opts) && events == map[] && !removed
    {
      attrs := InitialAttrs(specs, opts);
      events := map[];
      removed := false;
    }

    /** `el.matches(specs)` */
    predicate MatchesSpec(specs: Value)
      reads this
    {
      Matches(Obj(attrs), specs)
    }

    /** `el.inherit(classesStr, opts)` against the class table `defs` (`CC.classes`). */
    method Inherit(classesStr: string, opts: Value, defs: map<string, seq<Value>>) returns (run: Run)
      modifies this`attrs
      ensures removed ==> run == Quiet && attrs == old(attrs)
      ensures !removed ==> Outcome(run, attrs) == InheritAll(old(attrs), Split(classesStr, ' '), opts, defs, this)
    {
      if removed {
        return Quiet;
      }
      run, attrs := InheritLoop(attrs, Split(classesStr, ' '), opts, defs, this);
    }

    /** `el.merge(obj)`: nothing once removed. */
    method Merge(obj: Value) returns (halt: Option<Halt>)
      modifies this`attrs
      ensures removed ==> halt.None? && attrs == old(attrs)
      ensures !removed ==> (halt, attrs) == MergeOutcome(old(attrs), obj)
    {
      if removed {
        return None;
      }
      if WritesMethod(obj) {
        return Some(Unsupported);
      }
      var r := MergeRecursively(Obj(attrs), obj);
      MergeKeepsObject(attrs, obj);
      if r.Merged? {
        attrs := r.value.fields;
        halt := None;
      } else if r.TypeError? {
        attrs := r.partial.fields;
        halt := Some(TypeErrorThrown);
      } else {
        halt := Some(Unsupported);
      }
    }

    /** `el.bind(eventsStr, action)`: nothing once removed. */
    method Bind(eventsStr: string, action: Value)
      modifies this`events
      ensures events == if removed then old(events) else Events.Bind(old(events), eventsStr, action)
    {
      if !removed {
        events := Events.Bind(events, eventsStr, action);
      }
    }

    /** `el.unbind(eventsStr, action)`: the action is never looked at. */
    method Unbind(eventsStr: string, action: Value)
      modifies this`events
      ensures events == if removed then old(events) else Events.Unbind(old(events), eventsStr)
    {
      if !removed {
        events := Events.Unbind(events, eventsStr);
      }
    }

    /** `el.trigger(eventsStr, ...args)` */
    method Trigger(eventsStr: Value, args: seq<Value>) returns (run: Run)
      ensures run == TriggerRun(events, removed, eventsStr, args, this)
    {
      if removed && !StrictEquals(eventsStr, Str("remove")) {
        return Quiet;
      }
      if !eventsStr.Str? {
        return Run([], Some(TypeErrorThrown));
      }
      var plan := CollectPlan(events, eventsStr.s);
      run := CallEach(plan.calls, On(this), args);
      if run.halt.None? && plan.fails {
        run := Run(run.trace, Some(TypeErrorThrown));
      }
    }

    /** `el.hideAllDrawings()` */
    method HideAllDrawings() returns (halt: Option<Halt>)
      modifies this`attrs
      ensures (halt, attrs) == HideOutcome(old(attrs))
    {
      var ds := Prop(Obj(attrs), "drawings");
      if ds.Arr? {
        var fields;
        fields, halt := HideEach(IndexEntries(ds.items));
        attrs := Set(attrs, "drawings", Arr(Values(fields)));
        return;
      } else if ds.Str? {
        return if ds.s == "" then None else Some(TypeErrorThrown);
      } else if !ds.Obj? {
        return None;
      }
      var fields;
      fields, halt := HideEach(ds.fields);
      attrs := Set(attrs, "drawings", Obj(fields));
    }

    /** `el.toggleDrawings(toHide, toShow)` */
    method ToggleDrawings(toHide: string, toShow: string) returns (halt: Option<Halt>)
      modifies this`attrs
      ensures (halt, attrs) == ToggleOutcome(old(attrs), toHide, toShow)
    {
      var ds := Prop(Obj(attrs), "drawings");
      if ds.Undef? || ds.Null? {
        return Some(TypeErrorThrown);
      }
      var d1 := SetHidden(ds, toHide, true);
      if !d1.Merged? {
        return Some(HaltOf(d1));
      }
      var d2 := SetHidden(d1.value, toShow, false);
      if !d2.Merged? {
        attrs := Set(attrs, "drawings", d1.value);
        return Some(HaltOf(d2));
      }
      attrs := Set(attrs, "drawings", d2.value);
      halt := None;
    }

    /** `el.draw()` */
    method Draw(step: nat, sprites: map<string, Value>) returns (run: Run)
      modifies this`attrs
      ensures Outcome(run, attrs) == DrawOutcome(old(attrs), this, step, sprites)
    {
      if StrictEquals(Prop(Obj(attrs), "hidden"), Bool(true)) {
        return Quiet;
      }
      var drawings := Prop(Obj(attrs), "drawings");
      if SortThrows(drawings) {
        return Run([], Some(TypeErrorThrown));
      }
      var sorted := SortEntries(drawings, "zIndex", true);
      if drawings.Arr? {
        attrs := Set(attrs, "drawings", sorted.0);
      }
      run := DrawSorted(sorted.1, step, sprites);
    }

    /** The loop over the sorted drawings: a function is called with the element as
        `this`, anything else is drawn by `drawShape`; a throw stops the loop. */
    method DrawSorted(ds: Dict<Value>, step: nat, sprites: map<string, Value>) returns (run: Run)
      modifies this`attrs
      ensures Outcome(run, attrs) == DrawList(ds, old(attrs), this, step, sprites)
    {
      run := Quiet;
      var i := 0;
      assert ds[0..] == ds;
      while i < |ds|
        invariant 0 <= i <= |ds|
        invariant run.halt.None?
        invariant DrawList(ds, old(attrs), this, step, sprites) == Continue(run, DrawList(ds[i..], attrs, this, step, sprites))
      {
        assert ds[i..][0] == ds[i] && ds[i..][1..] == ds[i + 1..];
        var rest := DrawList(ds[i + 1..], attrs, this, step, sprites);
        var r: Run;
        if ds[i].1.Fn? {
          DrawListCalls(ds[i..], attrs, this, step, sprites);
          r := InvokeOne(ds[i].1, On(this), []);
        } else {
          var p := DrawShape(Obj(attrs), ds[i].1, step, sprites);
          DrawListShape(ds[i..], attrs, this, step, sprites, p);
          attrs := StoreWrites(attrs, ds[i].0, p);
          r := Run([Paint(this, p)], p.halt);
          rest := DrawList(ds[i + 1..], attrs, this, step, sprites);
        }
        ThenAssociates(run, r, rest.run);
        run := Then(run, r);
        if r.halt.Some? {
          return;
        }
        i := i + 1;
      }
      assert ds[i..] == [];
    }
  }
}
