/** The state the bundle keeps at module level (`elementMap`, `elementsSize`, the
    global `events`, `CC.classes`, `CC.step`, `running`, `keyPressed`, the loaded
    sprites) and the operations of `CC` on it: creating, selecting and removing
    elements, defining classes, the global event bus with the handlers the library
    itself binds (key combinations, `became`, `while`, `onClick`), and the frame tick. */
module Cascade {
  import opened JsObject
  import opened JsValues
  import opened ObjectTools
  import opened Matching
  import opened Keyboard
  import opened Events
  import opened Drawing
  import opened Elements
  import opened Registry

  // ---------------------------------------------------------------- global handlers

  /** What sits in the global event table: an action bound by the user, or one of the
      closures the library binds on the user's behalf. A `became` closure keeps its
      `matched` flag in the world's `watched` map under its own number. */
  datatype Handler =
    | Plain(f: Value)
    | KeysDownGuard(keys: string, action: Value)
    | KeysDownOnlyGuard(keys: string, action: Value)
    | ComboEndGuard(keys: string, action: Value)
    | BecameWatch(el: Element, specs: Value, action: Value, watcher: nat)
    | WhileWatch(el: Element, specs: Value, action: Value)
    | ClickWatch(el: Element, action: Value)

  predicate Watches(h: Handler) {
    h.BecameWatch? || h.WhileWatch? || h.ClickWatch?
  }

  /** The elements a list of handlers looks at when it runs. */
  function Watched(hs: seq<Handler>): set<Element> {
    set i | 0 <= i < |hs| && Watches(hs[i]) :: hs[i].el
  }

  /** What running handlers did, and the `matched` flags afterwards. */
  datatype Fired = Fired(run: Run, watched: map<nat, bool>)

  /** The first argument a handler receives (its `event`). */
  function FirstArg(args: seq<Value>): Value {
    if args == [] then Undef else args[0]
  }

  /** JavaScript `a + b` for the hit test: two strings concatenate, two non-strings add
      as numbers (None is NaN); a string with a number needs number formatting, which
      is not modelled. */
  function Plus(a: Value, b: Value): Option<Prim> {
    var pa, pb := ToPrimitive(a), ToPrimitive(b);
    if pa.PStr? && pb.PStr? then Some(PStr(pa.s + pb.s))
    else if pa.PStr? || pb.PStr? then None
    else
      var na, nb := PrimToNumber(pa), PrimToNumber(pb);
      Some(PNum(if na.Some? && nb.Some? then Some(na.value + nb.value) else None))
  }

  /** `x >= y` and `x <= y` on primitives. */
  predicate AtLeast(x: Prim, y: Prim) { LessThan(x, y) == Some(false) }
  predicate AtMost(x: Prim, y: Prim) { LessThan(y, x) == Some(false) }

  /** The `onClick` closure: `x >= el.x && x <= el.x + el.w && y >= el.y && y <= el.y + el.h`,
      evaluated left to right with short-circuit, then `action.call(el)`. */
  function ClickRun(attrs: Dict<Value>, event: Value, el: Element, action: Value): Run {
    if event.Undef? || event.Null? then Run([], Some(TypeErrorThrown))
    else
      var x, y := ToPrimitive(Prop(event, "offsetX")), ToPrimitive(Prop(event, "offsetY"));
      var ex, ey := Prop(Obj(attrs), "x"), Prop(Obj(attrs), "y");
      if !AtLeast(x, ToPrimitive(ex)) then Quiet
      else
        match Plus(ex, Prop(Obj(attrs), "w"))
        case None => Run([], Some(Unsupported))
        case Some(right) =>
          if !AtMost(x, right) || !AtLeast(y, ToPrimitive(ey)) then Quiet
          else
            match Plus(ey, Prop(Obj(attrs), "h"))
            case None => Run([], Some(Unsupported))
            case Some(bottom) => if AtMost(y, bottom) then InvokeOne(action, On(el), []) else Quiet
  }

  /** The properties of the elements handlers look at, as a trigger finds them
      (handlers themselves do not change them). */
  type View = map<Element, Dict<Value>>

  function Seen(view: View, el: Element): Dict<Value> {
    if el in view then view[el] else []
  }

  /** The view of the elements a list of handlers looks at. */
  function Sight(hs: seq<Handler>): (view: View)
    reads Watched(hs)
    ensures forall e :: e in Watched(hs) ==> Seen(view, e) == e.attrs
  {
    map e | e in Watched(hs) :: e.attrs
  }

  /** One handler run with the trigger's trailing arguments. */
  function Fire(h: Handler, args: seq<Value>, pressed: set<string>, watched: map<nat, bool>, view: View): Fired {
    match h
    case Plain(f) => Fired(InvokeOne(f, NoReceiver, args), watched)
    case KeysDownGuard(keys, a) =>
      Fired(if IsKeysPressed(pressed, keys) then InvokeOne(a, NoReceiver, [FirstArg(args)]) else Quiet, watched)
    case KeysDownOnlyGuard(keys, a) =>
      Fired(if IsKeysPressedOnly(pressed, keys) then InvokeOne(a, NoReceiver, [FirstArg(args)]) else Quiet, watched)
    case ComboEndGuard(keys, a) =>
      var event := FirstArg(args);
      if event.Undef? || event.Null? then Fired(Run([], Some(TypeErrorThrown)), watched)
      else if ComboEnded(pressed, keys, KeyNameOf(Prop(event, "keyCode"))) then Fired(InvokeOne(a, NoReceiver, [event]), watched)
      else Fired(Quiet, watched)
    case BecameWatch(el, specs, a, w) =>
      var was := w in watched && watched[w];
      var now := Matches(Obj(Seen(view, el)), specs);
      var r := if !was && now then InvokeOne(a, On(el), []) else Quiet;
      Fired(r, if r.halt.Some? then watched else watched[w := now])
    case WhileWatch(el, specs, a) =>
      Fired(if Matches(Obj(Seen(view, el)), specs) then InvokeOne(a, On(el), []) else Quiet, watched)
    case ClickWatch(el, a) => Fired(ClickRun(Seen(view, el), FirstArg(args), el, a), watched)
  }

  /** Running handlers in order, stopping at the first that throws. */
  function FireAll(hs: seq<Handler>, args: seq<Value>, pressed: set<string>, watched: map<nat, bool>, view: View): Fired {
    if hs == [] then Fired(Quiet, watched)
    else
      var f := Fire(hs[0], args, pressed, watched, view);
      if f.run.halt.Some? then f
      else
        var rest := FireAll(hs[1..], args, pressed, f.watched, view);
        Fired(Then(f.run, rest.run), rest.watched)
  }

  /** `CC.trigger(eventsStr, ...args)`: nothing while paused; otherwise the handlers of
      the trigger plan run, and a root walk past the end of the root list throws. */
  function TriggerGlobal(running: bool, events: Table<Handler>, s: string, args: seq<Value>,
                         pressed: set<string>, watched: map<nat, bool>, view: View): Fired {
    if !running then Fired(Quiet, watched)
    else
      var plan := TriggerPlan(events, s);
      var f := FireAll(plan.calls, args, pressed, watched, view);
      if f.run.halt.None? && plan.fails then Fired(Run(f.run.trace, Some(TypeErrorThrown)), f.watched) else f
  }

  /** One round of the trigger's loop, from position i. */
  lemma FireAllStep(hs: seq<Handler>, i: nat, args: seq<Value>, pressed: set<string>, watched: map<nat, bool>, view: View)
    requires i < |hs|
    ensures var f := Fire(hs[i], args, pressed, watched, view);
      FireAll(hs[i..], args, pressed, watched, view)
        == if f.run.halt.Some? then f
           else var rest := FireAll(hs[i + 1..], args, pressed, f.watched, view); Fired(Then(f.run, rest.run), rest.watched)
  {
    assert hs[i..][0] == hs[i] && hs[i..][1..] == hs[i + 1..];
  }

  /** While the world is paused, a trigger runs nothing and changes nothing. */
  lemma PausedTriggerIsQuiet(events: Table<Handler>, s: string, args: seq<Value>, pressed: set<string>, watched: map<nat, bool>, view: View)
    ensures TriggerGlobal(false, events, s, args, pressed, watched, view) == Fired(Quiet, watched)
  {
  }

  /** User actions are called once each, in order, with no receiver and the trailing
      arguments, and leave the `became` flags alone. */
  lemma {:induction false} FirePlainActions(hs: seq<Handler>, fs: seq<Value>, args: seq<Value>, pressed: set<string>, watched: map<nat, bool>, view: View)
    requires |hs| == |fs| && forall i :: 0 <= i < |fs| ==> fs[i].Fn? && hs[i] == Plain(fs[i])
    ensures FireAll(hs, args, pressed, watched, view) == Fired(Run(Calls(fs, NoReceiver, args), None), watched)
  {
    if fs != [] {
      FirePlainActions(hs[1..], fs[1..], args, pressed, watched, view);
      assert Calls(fs, NoReceiver, args) == [Invoke(fs[0], NoReceiver, args)] + Calls(fs[1..], NoReceiver, args);
    }
  }

  /** `became` is edge-triggered: the action runs exactly when the element matches now
      and did not at the previous check (a new watcher starts unmatched); afterwards
      the flag holds the current match, unless the action threw. */
  lemma BecameFiresOnRisingEdge(el: Element, specs: Value, action: Value, w: nat, pressed: set<string>, watched: map<nat, bool>, view: View)
    ensures var f := Fire(BecameWatch(el, specs, action, w), [], pressed, watched, view);
      var was := w in watched && watched[w];
      var now := Matches(Obj(Seen(view, el)), specs);
      && (f.run.trace != [] <==> !was && now && action.Fn?)
      && (f.run.halt.Some? <==> !was && now && !action.Fn?)
      && (f.run.trace != [] ==> f.run.trace == [Invoke(action, On(el), [])])
      && (f.run.halt.None? ==> f.watched == watched[w := now])
  {
  }

  /** A second check while the element still matches does not fire again. */
  lemma BecameOncePerEdge(el: Element, specs: Value, action: Value, w: nat, pressed: set<string>, watched: map<nat, bool>, view: View)
    requires action.Fn?
    ensures var f1 := Fire(BecameWatch(el, specs, action, w), [], pressed, watched, view);
      Fire(BecameWatch(el, specs, action, w), [], pressed, f1.watched, view).run == Quiet
  {
  }

  /** The hit test of `onClick` on numbers: the action runs exactly when the click lies
      in the element's box, edges included. */
  lemma ClickIsInclusive(x: real, y: real, ex: real, ey: real, ew: real, eh: real, attrs: Dict<Value>, el: Element, action: Value)
    requires Prop(Obj(attrs), "x") == Num(ex) && Prop(Obj(attrs), "y") == Num(ey)
    requires Prop(Obj(attrs), "w") == Num(ew) && Prop(Obj(attrs), "h") == Num(eh)
    ensures var event := Obj([("offsetX", Num(x)), ("offsetY", Num(y))]);
      ClickRun(attrs, event, el, action)
        == if ex <= x <= ex + ew && ey <= y <= ey + eh then InvokeOne(action, On(el), []) else Quiet
  {
    OffsetsRead(x, y);
    NumberOperators(x, ex, ew);
    NumberOperators(y, ey, eh);
  }

  /** The offsets of a mouse event object are read back as given. */
  lemma OffsetsRead(x: real, y: real)
    ensures Prop(Obj([("offsetX", Num(x)), ("offsetY", Num(y))]), "offsetX") == Num(x)
    ensures Prop(Obj([("offsetX", Num(x)), ("offsetY", Num(y))]), "offsetY") == Num(y)
  {
    assert "offsetX" != "offsetY" by { assert "offsetX"[6] != "offsetY"[6]; }
    var d := [("offsetX", Num(x)), ("offsetY", Num(y))];
    PropReadsGet(d, "offsetX");
    PropReadsGet(d, "offsetY");
    assert d[1..] == [("offsetY", Num(y))];
    assert Get(d, "offsetY") == Get(d[1..], "offsetY");
  }

  /** On numbers, `+`, `>=` and `<=` are the arithmetic ones. */
  lemma NumberOperators(p: real, lo: real, size: real)
    ensures ToPrimitive(Num(p)) == PNum(Some(p)) && ToPrimitive(Num(lo)) == PNum(Some(lo))
    ensures Plus(Num(lo), Num(size)) == Some(PNum(Some(lo + size)))
    ensures AtLeast(PNum(Some(p)), PNum(Some(lo))) <==> p >= lo
    ensures AtMost(PNum(Some(p)), PNum(Some(lo + size))) <==> p <= lo + size
  {
  }

  /** The combination handlers see the key set as updated by the listener, and pass the
      event on as the action's only argument. */
  lemma KeysDownGuardCalls(keys: string, action: Value, event: Value, pressed: set<string>, watched: map<nat, bool>, view: View)
    requires action.Fn?
    ensures Fire(KeysDownGuard(keys, action), [event], pressed, watched, view).run
      == if WantedSet(keys) <= pressed then Run([Invoke(action, NoReceiver, [event])], None) else Quiet
  {
    KeysPressedIff(pressed, keys);
  }

  // ---------------------------------------------------------------- classes

  /** The constructors registered for a class name (none when it is not defined). */
  function Registered(classes: map<string, seq<Value>>, c: string): seq<Value> {
    if c in classes then classes[c] else []
  }

  /** The loop of `CC.def` over the class names: each non-empty name gets the
      constructor appended to its list, a new name starting with an empty list. */
  function DefAll(classes: map<string, seq<Value>>, names: seq<string>, ctor: Value): map<string, seq<Value>>
    decreases |names|
  {
    if names == [] then classes
    else if names[0] == "" then DefAll(classes, names[1..], ctor)
    else DefAll(classes[names[0] := Registered(classes, names[0]) + [ctor]], names[1..], ctor)
  }

  function Count(names: seq<string>, c: string): nat {
    if names == [] then 0 else (if names[0] == c then 1 else 0) + Count(names[1..], c)
  }

  function Repeat(v: Value, n: nat): (r: seq<Value>)
    ensures |r| == n && forall i :: 0 <= i < n ==> r[i] == v
  {
    seq(n, i requires 0 <= i < n => v)
  }

  /** Defining appends the constructor to every named class once per mention, after
      the constructors already there; other classes and the empty name are untouched. */
  lemma {:induction false} DefAppends(classes: map<string, seq<Value>>, names: seq<string>, ctor: Value, c: string)
    ensures Registered(DefAll(classes, names, ctor), c)
      == Registered(classes, c) + (if c == "" then [] else Repeat(ctor, Count(names, c)))
    decreases |names|
  {
    if names == [] {
      assert Registered(classes, c) + [] == Registered(classes, c);
    } else if names[0] == "" {
      DefAppends(classes, names[1..], ctor, c);
    } else {
      var next := classes[names[0] := Registered(classes, names[0]) + [ctor]];
      DefAppends(next, names[1..], ctor, c);
      if c != "" && names[0] == c {
        assert Repeat(ctor, Count(names, c)) == [ctor] + Repeat(ctor, Count(names[1..], c));
      }
    }
  }

  // ---------------------------------------------------------------- selection

  /** The class test of the selector: every non-empty class token must be truthy in
      the element's `classes`; reading it throws when `classes` is undefined or null. */
  function HasClasses(classes: Value, cls: seq<string>): Attempt<bool> {
    if cls == [] then Ok(true)
    else if cls[0] == "" then HasClasses(classes, cls[1..])
    else if classes.Undef? || classes.Null? then Fails(TypeErrorThrown)
    else if !Truthy(Prop(classes, cls[0])) then Ok(false)
    else HasClasses(classes, cls[1..])
  }

  /** One element of the selector's scan: the id test (`id && id != e.id` skips it),
      then the class test. */
  function Chosen(attrs: Dict<Value>, id: Option<string>, cls: seq<string>): Attempt<bool> {
    if id.Some? && !LooseEqualsString(Prop(Obj(attrs), "id"), id.value) then Ok(false)
    else HasClasses(Prop(Obj(attrs), "classes"), cls)
  }

  function ElementSet(els: seq<Element>): set<Element> {
    set i | 0 <= i < |els| :: els[i]
  }

  /** The scan over the registry's elements in enumeration order. */
  function SelectFrom(els: seq<Element>, id: Option<string>, cls: seq<string>): Attempt<seq<Element>>
    reads ElementSet(els)`attrs
  {
    if els == [] then Ok([])
    else
      match Chosen(els[0].attrs, id, cls)
      case Fails(h) => Fails(h)
      case Ok(b) =>
        assert ElementSet(els[1..]) <= ElementSet(els) by {
          forall e | e in ElementSet(els[1..]) ensures e in ElementSet(els) {
            var i :| 0 <= i < |els[1..]| && els[1..][i] == e;
            assert els[i + 1] == e;
          }
        }
        match SelectFrom(els[1..], id, cls)
        case Fails(h) => Fails(h)
        case Ok(rest) => Ok(if b then [els[0]] + rest else rest)
  }

  /** `CC(selector)` before it decides between one element and a list: `"*"` anywhere
      selects every element; otherwise the first `#token` and the space-separated
      classes of the rest filter the elements. */
  function SelectSpec(els: seq<Element>, selector: string): Attempt<seq<Element>>
    reads ElementSet(els)`attrs
  {
    if '*' in selector then Ok(els)
    else SelectFrom(els, IdToken(selector), Split(RemoveFirstIdToken(selector), ' '))
  }

  predicate ClassesReadable(els: seq<Element>)
    reads ElementSet(els)`attrs
  {
    forall i :: 0 <= i < |els| ==> var c := Prop(Obj(els[i].attrs), "classes"); !c.Undef? && !c.Null?
  }

  predicate HasAll(classes: Value, cls: seq<string>) {
    forall j :: 0 <= j < |cls| && cls[j] != "" ==> Truthy(Prop(classes, cls[j]))
  }

  lemma {:induction false} HasClassesIff(classes: Value, cls: seq<string>)
    requires !classes.Undef? && !classes.Null?
    ensures HasClasses(classes, cls) == Ok(HasAll(classes, cls))
  {
    if cls != [] {
      HasClassesIff(classes, cls[1..]);
      assert forall j :: 1 <= j < |cls| ==> cls[j] == cls[1..][j - 1];
    }
  }

  /** An element is selected exactly when it passes the id test and has every
      non-empty class, and the selection keeps the registry's order. */
  lemma {:induction false} SelectFromIff(els: seq<Element>, id: Option<string>, cls: seq<string>)
    requires ClassesReadable(els)
    ensures SelectFrom(els, id, cls).Ok?
    ensures var sel := SelectFrom(els, id, cls).value;
      sel == Filtered(els, id, cls)
  {
    if els != [] {
      assert ClassesReadable(els[1..]) by {
        forall i | 0 <= i < |els[1..]| ensures els[1..][i] == els[i + 1] { }
      }
      SelectFromIff(els[1..], id, cls);
      HasClassesIff(Prop(Obj(els[0].attrs), "classes"), cls);
    }
  }

  /** The elements passing both tests, in order. */
  function Filtered(els: seq<Element>, id: Option<string>, cls: seq<string>): (r: seq<Element>)
    reads ElementSet(els)`attrs
    ensures forall i :: 0 <= i < |r| ==> r[i] in els
  {
    if els == [] then []
    else
      assert ElementSet(els[1..]) <= ElementSet(els) by {
        forall e | e in ElementSet(els[1..]) ensures e in ElementSet(els) {
          var i :| 0 <= i < |els[1..]| && els[1..][i] == e;
          assert els[i + 1] == e;
        }
      }
      var keep := (id.None? || LooseEqualsString(Prop(Obj(els[0].attrs), "id"), id.value))
                  && HasAll(Prop(Obj(els[0].attrs), "classes"), cls);
      var rest := Filtered(els[1..], id, cls);
      assert forall i :: 0 <= i < |rest| ==> rest[i] in els;
      if keep then [els[0]] + rest else rest
  }

  lemma {:induction false} FilteredMembers(els: seq<Element>, id: Option<string>, cls: seq<string>, e: Element)
    requires forall i, j :: 0 <= i < j < |els| ==> els[i] != els[j]
    ensures e in Filtered(els, id, cls) <==>
      e in els && (id.None? || LooseEqualsString(Prop(Obj(e.attrs), "id"), id.value)) && HasAll(Prop(Obj(e.attrs), "classes"), cls)
  {
    if els != [] {
      FilteredMembers(els[1..], id, cls, e);
      assert els == [els[0]] + els[1..];
    }
  }

  // ---------------------------------------------------------------- drawing every element

  /** The elements keyed by their `zIndex` as the tick sorts them. */
  function KeyedElements(els: seq<Element>): (r: seq<Keyed<Element>>)
    reads ElementSet(els)
    ensures |r| == |els| && forall i :: 0 <= i < |els| ==> r[i].item == els[i]
  {
    seq(|els|, i reads ElementSet(els) requires 0 <= i < |els| => Keyed(els[i], SortKey(Prop(Obj(els[i].attrs), "zIndex"))))
  }

  /** `CC("*").sort("zIndex", true)`: every element, by descending `zIndex`. */
  function DrawOrder(els: seq<Element>): seq<Element>
    reads ElementSet(els)
  {
    Items(StableSort(KeyedElements(els), true))
  }

  /** The draw order holds exactly the registered elements, as many times as the
      registry holds them. */
  lemma DrawOrderElements(els: seq<Element>)
    ensures |DrawOrder(els)| == |els|
    ensures ElementSet(DrawOrder(els)) == ElementSet(els)
  {
    var ks := KeyedElements(els);
    var sorted := StableSort(ks, true);
    StableSortCorrect(ks, true);
    assert |sorted| == |ks| by {
      assert |multiset(sorted)| == |multiset(ks)|;
    }
    var order := DrawOrder(els);
    forall e | e in ElementSet(order) ensures e in ElementSet(els) {
      var i :| 0 <= i < |order| && order[i] == e;
      assert sorted[i] in multiset(ks);
      var j :| 0 <= j < |ks| && ks[j] == sorted[i];
      assert els[j] == e;
    }
    forall e | e in ElementSet(els) ensures e in ElementSet(order) {
      var j :| 0 <= j < |els| && els[j] == e;
      assert ks[j] in multiset(sorted);
      var i :| 0 <= i < |sorted| && sorted[i] == ks[j];
      assert order[i] == e;
    }
  }

  /** The draw order is highest `zIndex` first, and elements of equal rank keep
      their enumeration order. */
  lemma DrawOrderIsSorted(els: seq<Element>)
    ensures SortedByRank(StableSort(KeyedElements(els), true), true)
    ensures forall v :: WithRank(StableSort(KeyedElements(els), true), true, v) == WithRank(KeyedElements(els), true, v)
  {
    StableSortCorrect(KeyedElements(els), true);
  }

  /** The properties of the elements to draw, as they stand. */
  function Snapshot(order: seq<Element>): (m: map<Element, Dict<Value>>)
    reads ElementSet(order)`attrs
    ensures forall i :: 0 <= i < |order| ==> order[i] in m
    ensures m.Keys == ElementSet(order) && forall e :: e in m ==> m[e] == e.attrs
  {
    map e | e in ElementSet(order) :: e.attrs
  }

  /** `.each(function(){ this.draw(); })` over the sorted elements, from the properties
      in `cur`: the run, and every element's properties afterwards. A throw stops the
      loop. */
  function DrawEach(order: seq<Element>, cur: map<Element, Dict<Value>>, step: nat, sprites: map<string, Value>): (r: (Run, map<Element, Dict<Value>>))
    requires forall i :: 0 <= i < |order| ==> order[i] in cur
    ensures r.1.Keys == cur.Keys
  {
    if order == [] then (Quiet, cur)
    else
      var o := DrawOutcome(cur[order[0]], order[0], step, sprites);
      var next := cur[order[0] := o.attrs];
      if o.run.halt.Some? then (o.run, next)
      else
        var rest := DrawEach(order[1..], next, step, sprites);
        (Then(o.run, rest.0), rest.1)
  }

  /** Hidden elements are skipped: when every element is hidden, drawing does nothing. */
  lemma {:induction false} DrawEachSkipsHidden(order: seq<Element>, cur: map<Element, Dict<Value>>, step: nat, sprites: map<string, Value>)
    requires forall i :: 0 <= i < |order| ==> order[i] in cur && StrictEquals(Prop(Obj(cur[order[i]]), "hidden"), Bool(true))
    ensures DrawEach(order, cur, step, sprites) == (Quiet, cur)
  {
    if order != [] {
      var o := DrawOutcome(cur[order[0]], order[0], step, sprites);
      assert o == Outcome(Quiet, cur[order[0]]);
      assert cur[order[0] := o.attrs] == cur;
      DrawEachSkipsHidden(order[1..], cur, step, sprites);
    }
  }

  /** One round of the draw loop. */
  lemma DrawEachStep(order: seq<Element>, i: nat, cur: map<Element, Dict<Value>>, step: nat, sprites: map<string, Value>)
    requires i < |order| && forall j :: 0 <= j < |order| ==> order[j] in cur
    ensures var o := DrawOutcome(cur[order[i]], order[i], step, sprites);
      DrawEach(order[i..], cur, step, sprites)
        == if o.run.halt.Some? then (o.run, cur[order[i] := o.attrs])
           else var rest := DrawEach(order[i + 1..], cur[order[i] := o.attrs], step, sprites); (Then(o.run, rest.0), rest.1)
  {
    assert order[i..][0] == order[i] && order[i..][1..] == order[i + 1..];
  }

  /** The draw loop of the tick, with the loop's own snapshot of properties. */
  method DrawAll(order: seq<Element>, step: nat, sprites: map<string, Value>) returns (run: Run)
    modifies ElementSet(order)
    ensures var r := DrawEach(order, old(Snapshot(order)), step, sprites);
      run == r.0 && Snapshot(order) == r.1
  {
    run := Quiet;
    var i := 0;
    ghost var cur := Snapshot(order);
    ghost var r0 := DrawEach(order, cur, step, sprites);
    assert order[0..] == order && [] + r0.0.trace == r0.0.trace;
    while i < |order|
      invariant 0 <= i <= |order|
      invariant run.halt.None?
      invariant Snapshot(order) == cur
      invariant var rest := DrawEach(order[i..], cur, step, sprites);
        r0 == (Then(run, rest.0), rest.1)
    {
      DrawEachStep(order, i, cur, step, sprites);
      var r;
      r, cur := DrawStep(order, i, cur, step, sprites);
      ThenAssociates(run, r, DrawEach(order[i + 1..], cur, step, sprites).0);
      run := Then(run, r);
      if r.halt.Some? {
        return;
      }
      i := i + 1;
    }
    assert order[i..] == [];
    assert run.trace + [] == run.trace;
  }

  /** `this.draw()` on one element of the draw order, seen from the whole order. */
  method DrawStep(order: seq<Element>, i: nat, ghost cur: map<Element, Dict<Value>>, step: nat, sprites: map<string, Value>)
    returns (r: Run, ghost next: map<Element, Dict<Value>>)
    requires i < |order| && Snapshot(order) == cur
    modifies order[i]
    ensures var o := DrawOutcome(cur[order[i]], order[i], step, sprites);
      r == o.run && next == cur[order[i] := o.attrs]
    ensures Snapshot(order) == next
  {
    var e := order[i];
    r := e.Draw(step, sprites);
    next := cur[e := e.attrs];
    ghost var now := Snapshot(order);
    forall x | x in now ensures now[x] == next[x] {
      if x != e {
        assert x.attrs == old(x.attrs);
      }
    }
    assert now.Keys == next.Keys;
  }

  /** `CC.trigger` on the global table, given the properties of the elements its
      handlers look at: collect what to call, call it, and throw when the root walk
      read past the end of the root list. */
  method TriggerWith(running: bool, events: Table<Handler>, eventsStr: string, args: seq<Value>,
                     pressed: set<string>, watched0: map<nat, bool>, view: View)
    returns (run: Run, watched: map<nat, bool>)
    ensures Fired(run, watched) == TriggerGlobal(running, events, eventsStr, args, pressed, watched0, view)
  {
    if !running {
      return Quiet, watched0;
    }
    var plan := CollectPlan(events, eventsStr);
    run, watched := FireEach(plan.calls, args, pressed, watched0, view);
    if run.halt.None? && plan.fails {
      run := Run(run.trace, Some(TypeErrorThrown));
    }
  }

  /** The event the main loop triggers once per frame. */
  const EnterFrame: string := "enterframe"

  /** The events the page's key and mouse listeners trigger. */
  const KeyDownEvent: string := "keydown"
  const KeyUpEvent: string := "keyup"
  const ClickEvent: string := "click"
  const RightClickEvent: string := "rightclick"

  /** What one frame of the main loop leaves behind: its run, the watcher flags, the
      properties of the drawn elements and the step counter. */
  datatype Ticked = Ticked(run: Run, watched: map<nat, bool>, attrs: map<Element, Dict<Value>>, step: nat)

  /** `mainloop`: when running, trigger `enterframe`, then draw every element in draw
      order and count the step; an exception ends the frame where it is thrown. */
  function TickSpec(running: bool, events: Table<Handler>, pressed: set<string>, watched: map<nat, bool>, view: View,
                    order: seq<Element>, snap: map<Element, Dict<Value>>, step: nat, sprites: map<string, Value>): Ticked
    requires forall i :: 0 <= i < |order| ==> order[i] in snap
  {
    if !running then Ticked(Quiet, watched, snap, step)
    else AfterTrigger(TriggerGlobal(true, events, EnterFrame, [], pressed, watched, view), order, snap, step, sprites)
  }

  /** The rest of a frame once its trigger has run: a throw ends it; otherwise every
      element is drawn and the step counted unless a drawing threw. */
  function AfterTrigger(f: Fired, order: seq<Element>, snap: map<Element, Dict<Value>>, step: nat,
                        sprites: map<string, Value>): Ticked
    requires forall i :: 0 <= i < |order| ==> order[i] in snap
  {
    if f.run.halt.Some? then Ticked(f.run, f.watched, snap, step)
    else
      var d := DrawEach(order, snap, step, sprites);
      Ticked(Then(f.run, d.0), f.watched, d.1, if d.0.halt.None? then step + 1 else step)
  }

  /** The loop of a trigger over the planned handlers. */
  method FireEach(hs: seq<Handler>, args: seq<Value>, pressed: set<string>, watched0: map<nat, bool>, view: View)
    returns (run: Run, watched: map<nat, bool>)
    ensures Fired(run, watched) == FireAll(hs, args, pressed, watched0, view)
  {
    run, watched := Quiet, watched0;
    var i := 0;
    assert hs[0..] == hs;
    ghost var f0 := FireAll(hs, args, pressed, watched0, view);
    assert [] + f0.run.trace == f0.run.trace;
    while i < |hs|
      invariant 0 <= i <= |hs|
      invariant run.halt.None?
      invariant var f := FireAll(hs[i..], args, pressed, watched, view);
        f0 == Fired(Then(run, f.run), f.watched)
    {
      FireAllStep(hs, i, args, pressed, watched, view);
      var f := Fire(hs[i], args, pressed, watched, view);
      var rest := FireAll(hs[i + 1..], args, pressed, f.watched, view);
      ThenAssociates(run, f.run, rest.run);
      run, watched := Then(run, f.run), f.watched;
      if f.run.halt.Some? {
        return;
      }
      i := i + 1;
    }
    assert hs[i..] == [];
    assert run.trace + [] == run.trace;
  }

  // ---------------------------------------------------------------- the registry's keys

  /** The key `CC.new` stores an element under, and the count afterwards: the id when
      there is one, otherwise the running count, which then goes up by one. */
  function NewKey(id: Option<string>, size: nat): (string, nat) {
    match id
    case Some(t) => (t, size)
    case None => (NatToString(size), size + 1)
  }

  /** Elements created without an id get keys no other element gets: different counts
      give different keys, and no id is a count. */
  lemma NewKeysDiffer(specs: string, m: nat, n: nat)
    ensures m != n ==> NatToString(m) != NatToString(n)
    ensures IdToken(specs).Some? ==> IdToken(specs).value != NatToString(n)
  {
    NatToStringRoundTrip(m);
    NatToStringRoundTrip(n);
    if IdToken(specs).Some? {
      var t := IdToken(specs).value;
      assert !IsDigit(t[0]);
    }
  }

  // ---------------------------------------------------------------- the selector's loops

  function Prepend(front: seq<Element>, a: Attempt<seq<Element>>): Attempt<seq<Element>> {
    match a
    case Fails(h) => Fails(h)
    case Ok(s) => Ok(front + s)
  }

  lemma SelectFromStep(els: seq<Element>, i: nat, id: Option<string>, cls: seq<string>)
    requires i < |els|
    ensures SelectFrom(els[i..], id, cls)
      == match Chosen(els[i].attrs, id, cls)
         case Fails(h) => Fails(h)
         case Ok(b) => Prepend(if b then [els[i]] else [], SelectFrom(els[i + 1..], id, cls))
  {
    assert els[i..][0] == els[i] && els[i..][1..] == els[i + 1..];
    var rest := SelectFrom(els[i + 1..], id, cls);
    if rest.Ok? {
      assert [] + rest.value == rest.value;
    }
  }

  /** `SelectFromStep` given the test's outcome on element i. */
  lemma SelectFromNext(els: seq<Element>, i: nat, id: Option<string>, cls: seq<string>, add: Attempt<bool>)
    requires i < |els| && add == Chosen(els[i].attrs, id, cls)
    ensures SelectFrom(els[i..], id, cls)
      == match add
         case Fails(h) => Fails(h)
         case Ok(b) => Prepend(if b then [els[i]] else [], SelectFrom(els[i + 1..], id, cls))
  {
    SelectFromStep(els, i, id, cls);
  }

  lemma PrependTwice(front: seq<Element>, x: seq<Element>, a: Attempt<seq<Element>>)
    ensures Prepend(front, Prepend(x, a)) == Prepend(front + x, a)
  {
    if a.Ok? {
      ConcatAssociates(front, x, a.value);
    }
  }

  /** The selector's scan over the elements in order, stopping at the first throw. */
  method SelectScan(els: seq<Element>, id: Option<string>, cls: seq<string>) returns (r: Attempt<seq<Element>>)
    ensures r == SelectFrom(els, id, cls)
  {
    var picked: seq<Element> := [];
    var i := 0;
    assert els[0..] == els;
    PrependTwice([], [], SelectFrom(els, id, cls));
    assert Prepend([], SelectFrom(els, id, cls)) == SelectFrom(els, id, cls) by {
      if SelectFrom(els, id, cls).Ok? {
        assert [] + SelectFrom(els, id, cls).value == SelectFrom(els, id, cls).value;
      }
    }
    while i < |els|
      invariant 0 <= i <= |els|
      invariant SelectFrom(els, id, cls) == Prepend(picked, SelectFrom(els[i..], id, cls))
    {
      var attrs := els[i].attrs;
      var add: Attempt<bool> := Ok(true);
      if id.Some? && !LooseEqualsString(Prop(Obj(attrs), "id"), id.value) {
        add := Ok(false);
      } else {
        // the loop over the wanted classes, which stops at the first one missing
        var classes := Prop(Obj(attrs), "classes");
        var j := 0;
        while j < |cls| && add == Ok(true)
          invariant 0 <= j <= |cls|
          invariant add == Ok(true) ==> HasClasses(classes, cls) == HasClasses(classes, cls[j..])
          invariant add != Ok(true) ==> add == HasClasses(classes, cls)
        {
          assert cls[j..][0] == cls[j] && cls[j..][1..] == cls[j + 1..];
          if cls[j] != "" {
            if classes.Undef? || classes.Null? {
              add := Fails(TypeErrorThrown);
            } else if !Truthy(Prop(classes, cls[j])) {
              add := Ok(false);
            }
          }
          j := j + 1;
        }
        assert add == Ok(true) ==> cls[j..] == [];
      }
      assert add == Chosen(attrs, id, cls);
      SelectFromNext(els, i, id, cls, add);
      if add.Fails? {
        return Fails(add.halt);
      }
      var x := if add.value then [els[i]] else [];
      PrependTwice(picked, x, SelectFrom(els[i + 1..], id, cls));
      picked := picked + x;
      i := i + 1;
    }
    assert els[i..] == [];
    assert picked + [] == picked;
    r := Ok(picked);
  }

  // ---------------------------------------------------------------- the world

  /** The module-level state of the bundle. */
  class World {
    /** `elementMap`: the registered elements by id or creation count. */
    var registry: Dict<Element>
    var elementsSize: nat
    /** The global event table. */
    var events: Table<Handler>
    /** `CC.classes`: the constructors of each defined class. */
    var classes: map<string, seq<Value>>
    /** `CC.step`, the frame counter. */
    var step: nat
    var running: bool
    /** `keyPressed`: the names of the keys held down. */
    var keyPressed: set<string>
    /** The `matched` flag of each `became` closure, by watcher number. */
    var watched: map<nat, bool>
    var nextWatcher: nat
    /** The loaded sprites by URL (`CC.useResource`). */
    const sprites: map<string, Value>

    predicate Valid()
      reads this
    {
      WellOrdered(registry) && TableOk(events) && DistinctValues(registry)
    }

    /** The registered elements. */
    function Members(): set<Element>
      reads this
    {
      ElementSet(Values(registry))
    }

    /** The state when the bundle has loaded. */
    constructor (sprites: map<string, Value>)
      ensures Valid()
      ensures registry == [] && elementsSize == 0 && events == map[] && classes == map[]
      ensures step == 0 && running && keyPressed == {} && watched == map[] && nextWatcher == 0
      ensures this.sprites == sprites
    {
      registry := [];
      elementsSize := 0;
      events := map[];
      classes := map[];
      step := 0;
      running := true;
      keyPressed := {};
      watched := map[];
      nextWatcher := 0;
      this.sprites := sprites;
    }

    /** `CC.new(specs, opts)`: the element inherits its classes while being built;
        when that throws, nothing is registered. */
    method New(specs: string, opts: Value) returns (el: Element, run: Run)
      requires Valid()
      modifies this`registry, this`elementsSize
      ensures Valid() && fresh(el)
      ensures el.events == map[] && !el.removed
      ensures Outcome(run, el.attrs) == InheritAll(InitialAttrs(specs, opts), Split(RemoveAllIdTokens(specs), ' '), opts, classes, el)
      ensures run.halt.Some? ==> registry == old(registry) && elementsSize == old(elementsSize)
      ensures run.halt.None? ==>
        var (key, size) := NewKey(IdToken(specs), old(elementsSize));
        registry == Set(old(registry), key, el) && elementsSize == size
    {
      el := new Element(specs, opts);
      run := el.Inherit(RemoveAllIdTokens(specs), opts, classes);
      if run.halt.Some? {
        return;
      }
      var (key, size) := NewKey(IdToken(specs), elementsSize);
      SetPreservesOrder(registry, key, el);
      SetFreshValue(registry, key, el);
      registry := Set(registry, key, el);
      elementsSize := size;
    }

    /** `CC.def(classesStr, constructor)` */
    method Def(classesStr: string, ctor: Value)
      modifies this`classes
      ensures classes == DefAll(old(classes), Split(classesStr, ' '), ctor)
    {
      var names := Split(classesStr, ' ');
      var i := 0;
      while i < |names|
        invariant 0 <= i <= |names|
        invariant DefAll(old(classes), names, ctor) == DefAll(classes, names[i..], ctor)
      {
        assert names[i..][0] == names[i] && names[i..][1..] == names[i + 1..];
        var c := names[i];
        if c != "" {
          classes := classes[c := Registered(classes, c) + [ctor]];
        }
        i := i + 1;
      }
      assert names[i..] == [];
    }

    /** `CC.clear()` */
    method Clear()
      modifies this`classes, this`registry, this`elementsSize, this`events
      ensures Valid()
      ensures classes == map[] && registry == [] && elementsSize == 0 && events == map[]
    {
      classes := map[];
      registry := [];
      elementsSize := 0;
      events := map[];
    }

    /** The scan of `CC(selector)` over the registry. */
    method Select(selector: string) returns (r: Attempt<seq<Element>>)
      ensures r == SelectSpec(Values(registry), selector)
    {
      var els := Values(registry);
      if '*' in selector {
        return Ok(els);
      }
      var id := IdToken(selector);
      var cls := Split(RemoveFirstIdToken(selector), ' ');
      r := SelectScan(els, id, cls);
    }

    /** `el.remove()`, which calls `CC.___remove(el)`: the element is marked removed,
        its "remove" handlers run, and then every key holding it is deleted. A throw
        from a handler leaves it registered. */
    method Remove(el: Element) returns (run: Run)
      requires Valid()
      modifies this`registry, el`removed
      ensures Valid() && el.removed
      ensures old(el.removed) ==> run == Quiet && registry == old(registry)
      ensures !old(el.removed) ==> run == TriggerRun(el.events, true, Str("remove"), [], el)
      ensures !old(el.removed) && run.halt.None? ==> registry == RemoveValue(old(registry), el)
      ensures !old(el.removed) && run.halt.Some? ==> registry == old(registry)
    {
      if el.removed {
        return Quiet;
      }
      el.removed := true;
      run := el.Trigger(Str("remove"), []);
      if run.halt.Some? {
        return;
      }
      RemoveValueKeepsOrder(registry, el);
      registry := DeleteEvery(registry, el);
    }

    /** `CC.bind(eventsStr, action)` */
    method Bind(eventsStr: string, action: Value)
      requires Valid()
      modifies this`events
      ensures Valid()
      ensures events == Events.Bind(old(events), eventsStr, Plain(action))
    {
      BindKeepsTable(events, eventsStr, Plain(action));
      events := Events.Bind(events, eventsStr, Plain(action));
    }

    /** `CC.unbind(eventsStr, action)`: the action is never looked at. */
    method Unbind(eventsStr: string, action: Value)
      requires Valid()
      modifies this`events
      ensures Valid()
      ensures events == Events.Unbind(old(events), eventsStr)
    {
      UnbindRemovesOne(events, eventsStr, "", "");
      events := Events.Unbind(events, eventsStr);
    }

    /** `CC.trigger(eventsStr, ...args)` */
    method Trigger(eventsStr: string, args: seq<Value>) returns (run: Run)
      modifies this`watched
      ensures Fired(run, watched) == old(TriggerGlobal(running, events, eventsStr, args, keyPressed, watched, Sight(TriggerPlan(events, eventsStr).calls)))
    {
      var view := Sight(TriggerPlan(events, eventsStr).calls);
      run, watched := TriggerWith(running, events, eventsStr, args, keyPressed, watched, view);
    }

    /** `CC.pause()` */
    method Pause()
      modifies this`running
      ensures !running
    {
      running := false;
    }

    /** `CC.play()` */
    method Play()
      modifies this`running
      ensures running
    {
      running := true;
    }

    /** The window's keydown listener: the key is marked pressed, then `keydown`
        is triggered with the event. */
    method KeyDown(event: Value) returns (run: Run)
      modifies this`keyPressed, this`watched
      ensures event.Undef? || event.Null? ==>
        run == Run([], Some(TypeErrorThrown)) && keyPressed == old(keyPressed) && watched == old(watched)
      ensures !event.Undef? && !event.Null? ==>
        && keyPressed == Press(old(keyPressed), Prop(event, "keyCode"))
        && Fired(run, watched) == old(TriggerGlobal(running, events, KeyDownEvent, [event], Press(keyPressed, Prop(event, "keyCode")), watched, Sight(TriggerPlan(events, KeyDownEvent).calls)))
    {
      if event.Undef? || event.Null? {
        return Run([], Some(TypeErrorThrown));
      }
      keyPressed := Press(keyPressed, Prop(event, "keyCode"));
      run := Trigger(KeyDownEvent, [event]);
    }

    /** The window's keyup listener: the key is released, then `keyup` is triggered
        with the event. */
    method KeyUp(event: Value) returns (run: Run)
      modifies this`keyPressed, this`watched
      ensures event.Undef? || event.Null? ==>
        run == Run([], Some(TypeErrorThrown)) && keyPressed == old(keyPressed) && watched == old(watched)
      ensures !event.Undef? && !event.Null? ==>
        && keyPressed == Release(old(keyPressed), Prop(event, "keyCode"))
        && Fired(run, watched) == old(TriggerGlobal(running, events, KeyUpEvent, [event], Release(keyPressed, Prop(event, "keyCode")), watched, Sight(TriggerPlan(events, KeyUpEvent).calls)))
    {
      if event.Undef? || event.Null? {
        return Run([], Some(TypeErrorThrown));
      }
      keyPressed := Release(keyPressed, Prop(event, "keyCode"));
      run := Trigger(KeyUpEvent, [event]);
    }

    /** The canvas's click listener. */
    method Click(event: Value) returns (run: Run)
      modifies this`watched
      ensures Fired(run, watched) == old(TriggerGlobal(running, events, ClickEvent, [event], keyPressed, watched, Sight(TriggerPlan(events, ClickEvent).calls)))
    {
      run := Trigger(ClickEvent, [event]);
    }

    /** The canvas's context-menu listener. */
    method RightClick(event: Value) returns (run: Run)
      modifies this`watched
      ensures Fired(run, watched) == old(TriggerGlobal(running, events, RightClickEvent, [event], keyPressed, watched, Sight(TriggerPlan(events, RightClickEvent).calls)))
    {
      run := Trigger(RightClickEvent, [event]);
    }

    /** `CC.onKeysDown(keys, action)` */
    method OnKeysDown(keys: string, action: Value)
      requires Valid()
      modifies this`events
      ensures Valid()
      ensures events == Events.Bind(old(events), KeyDownEvent, KeysDownGuard(keys, action))
    {
      BindKeepsTable(events, KeyDownEvent, KeysDownGuard(keys, action));
      events := Events.Bind(events, KeyDownEvent, KeysDownGuard(keys, action));
    }

    /** `CC.onKeysDownOnly(keys, action)` */
    method OnKeysDownOnly(keys: string, action: Value)
      requires Valid()
      modifies this`events
      ensures Valid()
      ensures events == Events.Bind(old(events), KeyDownEvent, KeysDownOnlyGuard(keys, action))
    {
      BindKeepsTable(events, KeyDownEvent, KeysDownOnlyGuard(keys, action));
      events := Events.Bind(events, KeyDownEvent, KeysDownOnlyGuard(keys, action));
    }

    /** `CC.onKeysComboEnd(keys, action)` */
    method OnKeysComboEnd(keys: string, action: Value)
      requires Valid()
      modifies this`events
      ensures Valid()
      ensures events == Events.Bind(old(events), KeyUpEvent, ComboEndGuard(keys, action))
    {
      BindKeepsTable(events, KeyUpEvent, ComboEndGuard(keys, action));
      events := Events.Bind(events, KeyUpEvent, ComboEndGuard(keys, action));
    }

    /** `el.became(specs, action)`: a new closure on "enterframe" that starts unmatched. */
    method Became(el: Element, specs: Value, action: Value)
      requires Valid()
      modifies this`events, this`watched, this`nextWatcher
      ensures Valid()
      ensures events == Events.Bind(old(events), EnterFrame, BecameWatch(el, specs, action, old(nextWatcher)))
      ensures watched == old(watched)[old(nextWatcher) := false] && nextWatcher == old(nextWatcher) + 1
    {
      var h := BecameWatch(el, specs, action, nextWatcher);
      BindKeepsTable(events, EnterFrame, h);
      events, watched, nextWatcher := Events.Bind(events, EnterFrame, h), watched[nextWatcher := false], nextWatcher + 1;
    }

    /** `el.while(specs, action)` */
    method While(el: Element, specs: Value, action: Value)
      requires Valid()
      modifies this`events
      ensures Valid()
      ensures events == Events.Bind(old(events), EnterFrame, WhileWatch(el, specs, action))
    {
      BindKeepsTable(events, EnterFrame, WhileWatch(el, specs, action));
      events := Events.Bind(events, EnterFrame, WhileWatch(el, specs, action));
    }

    /** `el.onClick(action)` */
    method OnClick(el: Element, action: Value)
      requires Valid()
      modifies this`events
      ensures Valid()
      ensures events == Events.Bind(old(events), ClickEvent, ClickWatch(el, action))
    {
      BindKeepsTable(events, ClickEvent, ClickWatch(el, action));
      events := Events.Bind(events, ClickEvent, ClickWatch(el, action));
    }

    /** Between two states that changed no element, the draw order and the
        element snapshot are the same. */
    twostate lemma AttrsKept(els: seq<Element>)
      requires forall e :: e in ElementSet(els) ==> unchanged(e)
      ensures DrawOrder(els) == old(DrawOrder(els)) && Snapshot(els) == old(Snapshot(els))
    { }

    /** One pass of the main loop: nothing while paused; otherwise "enterframe" is
        triggered, every element is drawn in `zIndex` order, and the step counter
        goes up, each stage only when the one before did not throw. */
    method Tick() returns (run: Run)
      modifies this`watched, this`step, Members()
      ensures var order := old(DrawOrder(Values(registry)));
        var t := old(TickSpec(running, events, keyPressed, watched, Sight(TriggerPlan(events, EnterFrame).calls),
                              order, Snapshot(order), step, sprites));
        run == t.run && watched == t.watched && step == t.step && Snapshot(order) == t.attrs
    {
      if !running {
        return Quiet;
      }
      var order := DrawOrder(Values(registry));
      DrawOrderElements(Values(registry));
      ghost var snap := Snapshot(order);
      var view := Sight(TriggerPlan(events, EnterFrame).calls);
      var f, w := TriggerWith(running, events, EnterFrame, [], keyPressed, watched, view);
      watched := w;
      AttrsKept(order);
      if f.halt.Some? {
        return f;
      }
      run := DrawFrame(f, w, order);
    }

    /** The rest of a frame once "enterframe" has run without throwing: every element
        is drawn, and the step counted unless a drawing threw. */
    method DrawFrame(f: Run, w: map<nat, bool>, order: seq<Element>) returns (run: Run)
      requires f.halt.None?
      modifies this`step, ElementSet(order)
      ensures var t := AfterTrigger(Fired(f, w), order, old(Snapshot(order)), old(step), sprites);
        run == t.run && step == t.step && Snapshot(order) == t.attrs
    {
      var d := DrawAll(order, step, sprites);
      if d.halt.None? {
        label drawn:
        step := step + 1;
        AttrsKept@drawn(order);
      }
      run := Then(f, d);
    }
  }
}
