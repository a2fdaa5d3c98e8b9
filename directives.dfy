/**
 * Directive attributes: how an attribute name is recognised and split, how
 * a `w-for` value is read, and which effect (or which error) each attribute
 * of an element leads to. All of it is decided by the attribute text, the
 * element's tag name and the set of registered handler names.
 */
module Directives {
  import opened Wrappers
  import opened Text

  /** An element attribute. */
  datatype Attr = Attr(name: string, value: string)

  /** An element of the document: tag name, attributes in order, child elements in order. */
  datatype Node = Element(tag: string, attrs: seq<Attr>, children: seq<Node>)

  /** What the processor reports on its diagnostic channel. */
  datatype Diagnostic =
    | UnresolvedWrite(name: string)         // setValueInContext found no context defining the name
    | UnresolvedSubscription(name: string)  // subscribeToContextStateChange found none
    | TagNotAllowed(tag: string)            // w-data on an element outside the allow-list
    | BadForConfig(value: string)           // w-for value with more than one ':' (the source's message is fixed; the value is added here)
    | ForBindingNotFound(name: string)      // w-for list variable not found
    | NotAnArray                            // w-for list variable holds a non-array
    | NoEventType                           // w-on without an event name
    | NoHandler(name: string)               // w-on naming an unregistered handler
    | UnknownDirective(kind: string)        // w-<kind> with an unrecognised kind

  /** A recognised directive with its arguments. */
  datatype Directive =
    | Data(stateName: string)
    | Content(stateName: string)
    | For(loopVar: string, listName: string)
    | On(event: string, handler: string)

  /** What one attribute does: nothing, a directive, an error the walk goes on after, or one that ends the element. */
  datatype Step = Skip | Act(d: Directive) | Report(e: Diagnostic) | Abort(e: Diagnostic)

  const Prefix: string := "w-"
  /** The tags that may carry `w-data`. */
  const DataTags: seq<string> := ["input", "textarea"]
  /** The loop variable of a `w-for` that names only its list. */
  const DefaultLoopVar: string := "iter"

  /**
   * The directive kind and the remaining pieces of a `w-` attribute name:
   * the name split at `-`, without its leading `w`.
   */
  function ParseAttrName(name: string): (r: Option<(string, seq<string>)>)
    ensures r.Some? <==> StartsWith(name, Prefix)
    ensures r.Some? ==> '-' !in r.value.0
  {
    if !StartsWith(name, Prefix) then None
    else
      var parts := Split(name, '-');
      Some((parts[1], parts[2..]))
  }

  /** The kind and the rest, joined again with `-`, give back the name after `w-`. */
  lemma AttrNameRoundTrip(name: string)
    requires StartsWith(name, Prefix)
    ensures var (kind, rest) := ParseAttrName(name).value; Join([kind] + rest, '-') == name[2..]
  {
    assert name == "w" + ['-'] + name[2..];
    SplitAtFirstSeparator("w", '-', name[2..]);
    JoinSplit(name[2..], '-');
    var parts := Split(name, '-');
    assert [parts[1]] + parts[2..] == Split(name[2..], '-');
  }

  /** The name `w-<kind><tail>` has kind `kind`, whatever `-`-separated pieces follow. */
  lemma KindOfName(kind: string, tail: string)
    requires '-' !in kind && (tail == [] || tail[0] == '-')
    ensures ParseAttrName(Prefix + kind + tail) ==
            Some((kind, if tail == [] then [] else Split(tail[1..], '-')))
  {
    var name := Prefix + kind + tail;
    assert name[..2] == Prefix;
    assert name[2..] == kind + tail;
    SplitAtFirstSeparator("w", '-', kind + tail);
    assert name == "w" + ['-'] + (kind + tail);
    var parts := Split(name, '-');
    assert StartsWith(name, Prefix);
    assert ParseAttrName(name) == Some((parts[1], parts[2..]));
    if tail == [] {
      SplitWithoutSeparator(kind, '-');
      assert kind + tail == kind;
      assert parts == ["w", kind];
      assert parts[1] == kind && parts[2..] == [];
    } else {
      assert kind + tail == kind + ['-'] + tail[1..];
      SplitAtFirstSeparator(kind, '-', tail[1..]);
      assert parts == ["w"] + ([kind] + Split(tail[1..], '-'));
      assert parts[1] == kind && parts[2..] == Split(tail[1..], '-');
    }
  }

  /**
   * The `w-for` value: `loopVar:listName`, or `listName` alone with the
   * default loop variable; any other number of `:`-separated pieces is an error.
   */
  function ParseForConfig(value: string): (r: Result<(string, string), Diagnostic>)
    ensures r.Ok? <==> Occurrences(value, ':') <= 1
    ensures r.Err? ==> r.error == BadForConfig(value)
  {
    var parts := Split(value, ':');
    var loopVar := if |parts| == 2 then parts[0] else DefaultLoopVar;
    if |parts| == 2 then Ok((loopVar, parts[1]))
    else if |parts| == 1 then Ok((loopVar, parts[0]))
    else Err(BadForConfig(value))
  }

  lemma ForConfigBare(listName: string)
    requires ':' !in listName
    ensures ParseForConfig(listName) == Ok((DefaultLoopVar, listName))
  {
    SplitWithoutSeparator(listName, ':');
  }

  lemma ForConfigPair(loopVar: string, listName: string)
    requires ':' !in loopVar && ':' !in listName
    ensures ParseForConfig(loopVar + ":" + listName) == Ok((loopVar, listName))
  {
    SplitAtFirstSeparator(loopVar, ':', listName);
    SplitWithoutSeparator(listName, ':');
  }

  /**
   * The effect of one attribute of an element whose tag name is `tag`: only
   * `w-` names do anything; `w-data` binds on an allow-listed tag, `w-for`
   * binds what its value parses to, `w-on` names a registered handler, and
   * every error that ends the element is one of the four the dispatch raises.
   */
  function Classify(tag: string, attr: Attr, handlers: set<string>): (step: Step)
    ensures step.Skip? <==> !StartsWith(attr.name, Prefix)
    ensures step.Act? && step.d.Data? ==> Lower(tag) in DataTags && step.d.stateName == attr.value
    ensures step.Act? && step.d.Content? ==> step.d.stateName == attr.value
    ensures step.Act? && step.d.For? ==> ParseForConfig(attr.value) == Ok((step.d.loopVar, step.d.listName))
    ensures step.Act? && step.d.On? ==> step.d.handler == attr.value && attr.value in handlers && '-' !in step.d.event
    ensures step.Report? ==> step.e.UnknownDirective? && step.e.kind !in ["data", "content", "for", "on"]
    ensures step.Abort? ==>
              step.e == TagNotAllowed(Lower(tag)) || step.e == BadForConfig(attr.value) ||
              step.e == NoEventType || step.e == NoHandler(attr.value)
  {
    match ParseAttrName(attr.name)
    case None => Skip
    case Some((kind, rest)) =>
      if kind == "data" then
        if Lower(tag) in DataTags then Act(Data(attr.value)) else Abort(TagNotAllowed(Lower(tag)))
      else if kind == "content" then Act(Content(attr.value))
      else if kind == "for" then
        match ParseForConfig(attr.value)
        case Ok((loopVar, listName)) => Act(For(loopVar, listName))
        case Err(e) => Abort(e)
      else if kind == "on" then
        if rest == [] then Abort(NoEventType)
        else if attr.value !in handlers then Abort(NoHandler(attr.value))
        else Act(On(rest[0], attr.value))
      else Report(UnknownDirective(kind))
  }

  lemma NonDirectiveSkipped(tag: string, attr: Attr, handlers: set<string>)
    requires !StartsWith(attr.name, Prefix)
    ensures Classify(tag, attr, handlers) == Skip
  {
  }

  /** `w-data` is honoured on an allow-listed tag (compared case-insensitively) and ends the element otherwise. */
  lemma DataNeedsAllowedTag(tag: string, tail: string, value: string, handlers: set<string>)
    requires tail == [] || tail[0] == '-'
    ensures Classify(tag, Attr(Prefix + "data" + tail, value), handlers) ==
            if Lower(tag) in DataTags then Act(Data(value)) else Abort(TagNotAllowed(Lower(tag)))
  {
    KindOfName("data", tail);
  }

  lemma ContentBinds(tag: string, tail: string, value: string, handlers: set<string>)
    requires tail == [] || tail[0] == '-'
    ensures Classify(tag, Attr(Prefix + "content" + tail, value), handlers) == Act(Content(value))
  {
    KindOfName("content", tail);
  }

  lemma ForBinds(tag: string, loopVar: string, listName: string, handlers: set<string>)
    requires ':' !in loopVar && ':' !in listName
    ensures Classify(tag, Attr(Prefix + "for", listName), handlers) == Act(For(DefaultLoopVar, listName))
    ensures Classify(tag, Attr(Prefix + "for", loopVar + ":" + listName), handlers) == Act(For(loopVar, listName))
  {
    KindOfName("for", []);
    assert Prefix + "for" + [] == Prefix + "for";
    ForConfigBare(listName);
    ForConfigPair(loopVar, listName);
  }

  /** A `w-for` value with two or more `:` ends the element. */
  lemma ForRejectsManyParts(tag: string, value: string, handlers: set<string>)
    requires Occurrences(value, ':') >= 2
    ensures Classify(tag, Attr(Prefix + "for", value), handlers) == Abort(BadForConfig(value))
  {
    KindOfName("for", []);
    assert Prefix + "for" + [] == Prefix + "for";
  }

  /** `w-on` must name an event and a registered handler; the first piece after `on` is the event. */
  lemma OnNeedsEventAndHandler(tag: string, event: string, more: string, value: string, handlers: set<string>)
    requires '-' !in event && (more == [] || more[0] == '-')
    ensures Classify(tag, Attr(Prefix + "on", value), handlers) == Abort(NoEventType)
    ensures Classify(tag, Attr(Prefix + "on-" + event + more, value), handlers) ==
            if value in handlers then Act(On(event, value)) else Abort(NoHandler(value))
  {
    KindOfName("on", []);
    assert Prefix + "on" + [] == Prefix + "on";
    var tail := "-" + event + more;
    assert Prefix + "on-" + event + more == Prefix + "on" + tail;
    KindOfName("on", tail);
    assert tail[1..] == event + more;
    if more == [] {
      SplitWithoutSeparator(event, '-');
      assert event + more == event;
    } else {
      assert event + more == event + ['-'] + more[1..];
      SplitAtFirstSeparator(event, '-', more[1..]);
    }
  }

  /** Any other kind is reported and the walk goes on with the next attribute. */
  lemma UnknownKindReported(tag: string, kind: string, tail: string, value: string, handlers: set<string>)
    requires '-' !in kind && (tail == [] || tail[0] == '-')
    requires kind != "data" && kind != "content" && kind != "for" && kind != "on"
    ensures Classify(tag, Attr(Prefix + kind + tail, value), handlers) == Report(UnknownDirective(kind))
  {
    KindOfName(kind, tail);
  }

  /** The classification of every attribute of an element, in attribute order. */
  function Steps(tag: string, attrs: seq<Attr>, handlers: set<string>): (steps: seq<Step>)
    ensures |steps| == |attrs|
  {
    if attrs == [] then [] else [Classify(tag, attrs[0], handlers)] + Steps(tag, attrs[1..], handlers)
  }

  lemma {:induction false} StepAt(tag: string, attrs: seq<Attr>, handlers: set<string>, i: nat)
    requires i < |attrs|
    ensures Steps(tag, attrs, handlers)[i] == Classify(tag, attrs[i], handlers)
  {
    if i > 0 {
      StepAt(tag, attrs[1..], handlers, i - 1);
    }
  }

  /** The index of the first step that ends the element's processing, or the number of steps. */
  function FirstAbort(steps: seq<Step>): (k: nat)
    ensures k <= |steps|
    ensures forall i :: 0 <= i < k ==> !steps[i].Abort?
    ensures k < |steps| ==> steps[k].Abort?
  {
    if steps == [] then 0
    else if steps[0].Abort? then 0
    else 1 + FirstAbort(steps[1..])
  }

  /** A step before the first one that ends the element, and not ending it itself, leaves the next one before it too. */
  lemma PastNonAbort(steps: seq<Step>, i: nat)
    requires i < |steps| && i <= FirstAbort(steps) && !steps[i].Abort?
    ensures i + 1 <= FirstAbort(steps)
  {
  }

  /** The loop variables of the well-formed `w-for` steps. */
  function LoopVars(steps: seq<Step>): set<string>
  {
    set i | 0 <= i < |steps| && steps[i].Act? && steps[i].d.For? :: steps[i].d.loopVar
  }

  lemma LoopVarOf(steps: seq<Step>, i: nat)
    requires i < |steps| && steps[i].Act? && steps[i].d.For?
    ensures steps[i].d.loopVar in LoopVars(steps)
  {
  }

  /** None of the first `n` steps is a well-formed `w-for`, the only directive that replaces an element's children. */
  predicate NoFor(steps: seq<Step>, n: nat)
    requires n <= |steps|
  {
    forall j :: 0 <= j < n ==> !(steps[j].Act? && steps[j].d.For?)
  }

  /** Height of an element tree: 1 for an element without children. */
  function Depth(n: Node): nat
  {
    1 + DepthOfAll(n.children)
  }

  function DepthOfAll(ns: seq<Node>): nat
  {
    if ns == [] then 0
    else var d := Depth(ns[0]); var e := DepthOfAll(ns[1..]); if d < e then e else d
  }

  predicate Below(ns: seq<Node>, bound: nat)
  {
    forall i :: 0 <= i < |ns| ==> Depth(ns[i]) < bound
  }

  /** Every child is shallower than its parent. */
  lemma {:induction false} ChildrenBelow(ns: seq<Node>)
    ensures Below(ns, DepthOfAll(ns) + 1)
  {
    if ns != [] {
      ChildrenBelow(ns[1..]);
      assert forall i :: 1 <= i < |ns| ==> ns[i] == ns[1..][i - 1];
    }
  }

  lemma BelowAppend(ns: seq<Node>, ms: seq<Node>, bound: nat)
    requires Below(ns, bound) && Below(ms, bound)
    ensures Below(ns + ms, bound)
  {
  }

  /** Children below a bound make a parent no deeper than that bound. */
  lemma {:induction false} DepthOfAllBelow(ns: seq<Node>, bound: nat)
    requires bound >= 1 && Below(ns, bound)
    ensures DepthOfAll(ns) < bound
  {
    if ns != [] {
      assert forall i :: 0 <= i < |ns| - 1 ==> ns[1..][i] == ns[i + 1];
      DepthOfAllBelow(ns[1..], bound);
    }
  }

  /** Same element, whatever was done to its children. */
  predicate SameElement(a: Node, b: Node)
  {
    a.tag == b.tag && a.attrs == b.attrs
  }

  /** One more element like the next of `from` keeps `out` element-wise like `from`. */
  lemma SameElementsAppend(out: seq<Node>, from: seq<Node>, o: Node)
    requires |out| < |from| && SameElement(o, from[|out|])
    requires forall m :: 0 <= m < |out| ==> SameElement(out[m], from[m])
    ensures forall m :: 0 <= m < |out| + 1 ==> SameElement((out + [o])[m], from[m])
  {
  }
}
