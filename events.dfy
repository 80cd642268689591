/** The event tables of the library: the global one (`events`) and each element's
    own (`thisevents`). Both map an event name to an object of namespaces, and each
    namespace to the list of actions bound to it. The two tables are handled by the
    same code, so it is written once here, generic in what an action is. */
module Events {
  import opened JsObject
  import opened JsValues

  /** `"evt.namespace"` taken apart; the namespace defaults to `"root"`. */
  datatype EventName = EventName(evt: string, domain: string)

  /** `split(".")`, then the first part and `parts[1] || "root"`. */
  function ParseEvent(s: string): (n: EventName)
    ensures '.' !in n.evt && n.domain != "" && '.' !in n.domain
  {
    var parts := Split(s, '.');
    EventName(parts[0], if |parts| > 1 && parts[1] != "" then parts[1] else "root")
  }

  /** The event string that names one namespace of one event. */
  function EventString(n: EventName): string {
    n.evt + "." + n.domain
  }

  /** A name without a dot is the root namespace of that event. */
  lemma ParsePlainName(evt: string)
    requires '.' !in evt
    ensures ParseEvent(evt) == EventName(evt, "root")
  {
  }

  /** Parsing undoes EventString: `"evt.ns"` names namespace ns of evt. */
  lemma ParseEventString(n: EventName)
    requires '.' !in n.evt && '.' !in n.domain && n.domain != ""
    ensures ParseEvent(EventString(n)) == n
  {
    SplitAtFirst(n.evt, '.', n.domain);
    assert Split(n.domain, '.') == [n.domain];
  }

  /** Only the first two parts count: `"evt.ns.more"` is namespace ns. */
  lemma ParseIgnoresRest(n: EventName, rest: string)
    requires '.' !in n.evt && '.' !in n.domain && n.domain != ""
    ensures ParseEvent(EventString(n) + "." + rest) == n
  {
    var tail := n.domain + "." + rest;
    assert EventString(n) + "." + rest == n.evt + "." + tail;
    SplitAtFirst(n.evt, '.', tail);
    SplitAtFirst(n.domain, '.', rest);
  }

  /** Event name to its namespaces, each holding its list of actions. */
  type Table<H> = map<string, Dict<seq<H>>>

  /** Every namespace object enumerates its keys in JavaScript order. */
  predicate TableOk<H>(t: Table<H>) {
    forall e :: e in t ==> WellOrdered(t[e])
  }

  /** The actions bound to one namespace of one event, none when it does not exist. */
  function Handlers<H>(t: Table<H>, evt: string, domain: string): seq<H> {
    if evt in t then match Get(t[evt], domain) case Some(l) => l case None => []
    else []
  }

  /** Whether the namespace list exists (an existing list may be empty). */
  predicate HasNamespace<H>(t: Table<H>, evt: string, domain: string) {
    evt in t && HasKey(t[evt], domain)
  }

  /** `bind(eventsStr, action)`: the namespace object and the list are created when
      missing, then the action is pushed. */
  function Bind<H>(t: Table<H>, s: string, h: H): Table<H> {
    var n := ParseEvent(s);
    var spaces := if n.evt in t then t[n.evt] else [];
    t[n.evt := Set(spaces, n.domain, Handlers(t, n.evt, n.domain) + [h])]
  }

  /** `unbind(eventsStr, action)`. The namespace always has a value (`|| "root"`), so
      the branches that scan for the action or delete the whole event never run:
      unbind deletes one namespace list and nothing else. */
  function Unbind<H>(t: Table<H>, s: string): Table<H> {
    var n := ParseEvent(s);
    if n.evt !in t then t else t[n.evt := Delete(t[n.evt], n.domain)]
  }

  /** Binding keeps every namespace object in JavaScript key order, and the bound
      namespace exists afterwards. */
  lemma BindKeepsTable<H>(t: Table<H>, s: string, h: H)
    requires TableOk(t)
    ensures TableOk(Bind(t, s, h))
    ensures HasNamespace(Bind(t, s, h), ParseEvent(s).evt, ParseEvent(s).domain)
  {
    var n := ParseEvent(s);
    var spaces := if n.evt in t then t[n.evt] else [];
    var l := Handlers(t, n.evt, n.domain) + [h];
    SetPreservesOrder(spaces, n.domain, l);
    SetPreservesDistinct(spaces, n.domain, l);
    SetGet(spaces, n.domain, l, n.domain);
    assert Get(Set(spaces, n.domain, l), n.domain).Some?;
  }

  /** Binding appends the action to the end of its namespace list and touches no
      other list. */
  lemma BindAppends<H>(t: Table<H>, s: string, h: H, evt: string, domain: string)
    requires TableOk(t)
    ensures Handlers(Bind(t, s, h), evt, domain) ==
      (if (evt, domain) == (ParseEvent(s).evt, ParseEvent(s).domain) then Handlers(t, evt, domain) + [h]
       else Handlers(t, evt, domain))
  {
    var n := ParseEvent(s);
    var spaces := if n.evt in t then t[n.evt] else [];
    var l := Handlers(t, n.evt, n.domain) + [h];
    SetGet(spaces, n.domain, l, domain);
  }

  /** Unbinding removes exactly the named namespace list; an unknown event leaves the
      table as it is. */
  lemma UnbindRemovesOne<H>(t: Table<H>, s: string, evt: string, domain: string)
    requires TableOk(t)
    ensures TableOk(Unbind(t, s))
    ensures ParseEvent(s).evt !in t ==> Unbind(t, s) == t
    ensures var n := ParseEvent(s);
      && !HasNamespace(Unbind(t, s), n.evt, n.domain)
      && Handlers(Unbind(t, s), evt, domain) ==
           (if (evt, domain) == (n.evt, n.domain) then [] else Handlers(t, evt, domain))
      && HasNamespace(Unbind(t, s), evt, domain) ==
           ((evt, domain) != (n.evt, n.domain) && HasNamespace(t, evt, domain))
  {
    var n := ParseEvent(s);
    if n.evt in t {
      DeletePreservesOrder(t[n.evt], n.domain);
      DeleteGet(t[n.evt], n.domain, domain);
      DeleteGet(t[n.evt], n.domain, n.domain);
    }
  }

  /** What a trigger invokes: the actions in call order, and whether it then fails
      (reading past the end of the root list gives `undefined`, whose `apply` throws). */
  datatype Plan<H> = Plan(calls: seq<H>, fails: bool)

  /** `trigger(eventsStr)`: nothing unless the named namespace list exists; a named
      namespace calls its own list; the root namespace walks every namespace d in
      order and, for each index i of d's list, calls the i-th ROOT action. */
  function TriggerPlan<H>(t: Table<H>, s: string): Plan<H> {
    var n := ParseEvent(s);
    if !HasNamespace(t, n.evt, n.domain) then Plan([], false)
    else if n.domain != "root" then Plan(Handlers(t, n.evt, n.domain), false)
    else RootPlan(Handlers(t, n.evt, "root"), Values(t[n.evt]))
  }

  function RootPlan<H>(root: seq<H>, lists: seq<seq<H>>): (p: Plan<H>)
    ensures p.fails ==> |p.calls| >= |root|
  {
    if lists == [] then Plan([], false)
    else if |lists[0]| > |root| then Plan(root, true)
    else
      var rest := RootPlan(root, lists[1..]);
      Plan(root[..|lists[0]|] + rest.calls, rest.fails)
  }

  /** The root walk fails exactly when some namespace holds more actions than root. */
  lemma {:induction false} RootPlanFails<H>(root: seq<H>, lists: seq<seq<H>>)
    ensures RootPlan(root, lists).fails <==> exists j :: 0 <= j < |lists| && |lists[j]| > |root|
  {
    if lists != [] {
      RootPlanFails(root, lists[1..]);
      if |lists[0]| <= |root| {
        assert forall j :: 1 <= j < |lists| ==> lists[j] == lists[1..][j - 1];
      }
    }
  }

  /** Calls made by the root walk: for each namespace in turn, the root prefix as long
      as that namespace's list. */
  function PrefixesFor<H>(root: seq<H>, lists: seq<seq<H>>): seq<H>
    requires forall j :: 0 <= j < |lists| ==> |lists[j]| <= |root|
  {
    if lists == [] then [] else root[..|lists[0]|] + PrefixesFor(root, lists[1..])
  }

  lemma {:induction false} RootPlanCalls<H>(root: seq<H>, lists: seq<seq<H>>)
    requires forall j :: 0 <= j < |lists| ==> |lists[j]| <= |root|
    ensures RootPlan(root, lists) == Plan(PrefixesFor(root, lists), false)
  {
    if lists != [] {
      RootPlanCalls(root, lists[1..]);
    }
  }

  /** A named namespace invokes exactly its own list, in order, and never fails. */
  lemma TriggerNamed<H>(t: Table<H>, s: string)
    requires ParseEvent(s).domain != "root"
    ensures TriggerPlan(t, s) == Plan(Handlers(t, ParseEvent(s).evt, ParseEvent(s).domain), false)
  {
  }

  /** With no root list, triggering the bare event does nothing, whatever other
      namespaces hold. */
  lemma TriggerNeedsRoot<H>(t: Table<H>, evt: string)
    requires '.' !in evt && !HasNamespace(t, evt, "root")
    ensures TriggerPlan(t, evt) == Plan([], false)
  {
    ParsePlainName(evt);
  }

  /** When root is the only namespace, triggering the bare event calls the root list
      once, in order. */
  lemma TriggerRootOnly<H>(t: Table<H>, evt: string, root: seq<H>)
    requires '.' !in evt && evt in t && t[evt] == [("root", root)]
    ensures TriggerPlan(t, evt) == Plan(root, false)
  {
    ParsePlainName(evt);
    assert Values(t[evt]) == [root];
    RootPlanCalls(root, [root]);
    assert root[..|root|] == root;
  }

  /** Example: the root quirk on one concrete table. Root holds one action f, a second namespace
      holds g and h. Triggering the bare event calls f (for root's index 0), then f
      again (for the other namespace's index 0), then fails on index 1. */
  lemma TriggerRootQuirk<H>(f: H, g: H, h: H)
    ensures TriggerPlan(map["jump" := [("root", [f]), ("ui", [g, h])]], "jump") == Plan([f, f], true)
  {
    var t: Table<H> := map["jump" := [("root", [f]), ("ui", [g, h])]];
    ParsePlainName("jump");
    assert ParseEvent("jump") == EventName("jump", "root");
    assert t["jump"][0].0 == "root";
    assert Get(t["jump"], "root") == Some([f]);
    assert HasNamespace(t, "jump", "root");
    assert Handlers(t, "jump", "root") == [f];
    assert Values(t["jump"]) == [[f], [g, h]];
    var lists: seq<seq<H>> := [[f], [g, h]];
    assert lists[1..] == [[g, h]];
    assert RootPlan([f], lists[1..]) == Plan([f], true);
    assert [f][..1] == [f];
  }

  /** A plan run after the calls already made. */
  function After<H>(calls: seq<H>, p: Plan<H>): Plan<H> {
    Plan(calls + p.calls, p.fails)
  }

  /** One namespace of the root walk: it either fails after the whole root list or
      calls the root prefix as long as its own list and moves on. */
  lemma RootPlanStep<H>(root: seq<H>, lists: seq<seq<H>>, j: nat, calls: seq<H>)
    requires j < |lists|
    ensures After(calls, RootPlan(root, lists[j..])) ==
      if |lists[j]| > |root| then Plan(calls + root, true)
      else After(calls + root[..|lists[j]|], RootPlan(root, lists[j + 1..]))
  {
    assert lists[j..][0] == lists[j] && lists[j..][1..] == lists[j + 1..];
    if |lists[j]| <= |root| {
      ConcatAssociates(calls, root[..|lists[j]|], RootPlan(root, lists[j + 1..]).calls);
    }
  }

  /** The trigger's loops: over the namespaces of the event and, for each, over the
      indices of its list. */
  method CollectPlan<H>(t: Table<H>, s: string) returns (p: Plan<H>)
    ensures p == TriggerPlan(t, s)
  {
    var n := ParseEvent(s);
    if !HasNamespace(t, n.evt, n.domain) {
      return Plan([], false);
    }
    var own := Handlers(t, n.evt, n.domain);
    if n.domain != "root" {
      return Plan(own, false);
    }
    var lists := Values(t[n.evt]);
    var calls: seq<H> := [];
    var j := 0;
    assert lists[0..] == lists;
    while j < |lists|
      invariant 0 <= j <= |lists|
      invariant RootPlan(own, lists) == After(calls, RootPlan(own, lists[j..]))
    {
      RootPlanStep(own, lists, j, calls);
      var taken, fails := RootPrefix(own, |lists[j]|);
      calls := calls + taken;
      if fails {
        return Plan(calls, true);
      }
      j := j + 1;
    }
    assert lists[j..] == [];
    assert calls + [] == calls;
    p := Plan(calls, false);
  }

  /** The inner loop for one namespace of length `len`: `events[evt].root[i].apply`
      for i from 0, which throws once i passes the end of the root list. */
  method RootPrefix<H>(root: seq<H>, len: nat) returns (taken: seq<H>, fails: bool)
    ensures fails == (len > |root|)
    ensures taken == if fails then root else root[..len]
  {
    taken := [];
    var i := 0;
    while i < len
      invariant 0 <= i <= len && i <= |root|
      invariant taken == root[..i]
    {
      if i >= |root| {
        assert root[..i] == root;
        return taken, true;
      }
      taken := taken + [root[i]];
      assert root[..i + 1] == root[..i] + [root[i]];
      i := i + 1;
    }
    fails := false;
  }
}
