/**
 * The binder's mutable state and the operations of the tree walk: writing
 * and declaring context variables (with the Proxy's notification of
 * listeners), the upward searches of `setValueInContext` and
 * `subscribeToContextStateChange`, and `considerNode` with the `w-for` list
 * render. Listeners are identities; calling one is recorded in `calls`,
 * except that the list render of `w-for`, which runs inside the subscription,
 * is carried out. DOM event listeners are recorded in `wirings`.
 */
module Binder {
  import opened Wrappers
  import opened Contexts
  import opened Directives
  import opened Listeners

  /** `clones` holds one clone of each template, in template order. */
  predicate ClonesOf(clones: seq<Node>, templates: seq<Node>)
  {
    |clones| == |templates| && forall j :: 0 <= j < |clones| ==> SameElement(clones[j], templates[j])
  }

  /**
   * Rendered children `children` are `n` consecutive blocks, each holding
   * one clone of every template in template order: the last block is
   * preceded by the layout of `n - 1` blocks.
   */
  ghost predicate ItemMajorLayout(children: seq<Node>, templates: seq<Node>, n: nat)
    decreases n
  {
    if n == 0 then children == []
    else
      var m := |children| - |templates|;
      0 <= m && ItemMajorLayout(children[..m], templates, n - 1) &&
      forall j :: 0 <= j < |templates| ==> SameElement(children[m + j], templates[j])
  }

  /** Appending the block of one more item keeps the layout. */
  lemma ExtendLayout(children: seq<Node>, templates: seq<Node>, n: nat, clones: seq<Node>)
    requires ItemMajorLayout(children, templates, n) && ClonesOf(clones, templates)
    ensures ItemMajorLayout(children + clones, templates, n + 1)
  {
    assert (children + clones)[..|children|] == children;
  }

  /** Division by `t` recovers the quotient and remainder a number was built from. */
  lemma DivModUnique(x: int, t: int, q: int, r: int)
    requires t > 0 && x == q * t + r && 0 <= r < t
    ensures x / t == q && x % t == r
  {
    var q', r' := x / t, x % t;
    assert x == q' * t + r' && 0 <= r' < t;
    var d := q - q';
    assert d * t == r' - r by {
      assert q * t - q' * t == (q - q') * t;
    }
  }

  /** The layout of `n` items over `t` templates has `n * t` children. */
  lemma {:induction false} LayoutLength(children: seq<Node>, templates: seq<Node>, n: nat)
    requires ItemMajorLayout(children, templates, n)
    ensures |children| == n * |templates|
    decreases n
  {
    if n > 0 {
      LayoutLength(children[..|children| - |templates|], templates, n - 1);
      assert n * |templates| == (n - 1) * |templates| + |templates|;
    }
  }

  /** Child `k` of the layout is a clone of template `k % t`, in block `k / t`. */
  lemma {:induction false} LayoutPosition(children: seq<Node>, templates: seq<Node>, n: nat, k: nat)
    requires ItemMajorLayout(children, templates, n) && |templates| > 0 && k < |children|
    ensures SameElement(children[k], templates[k % |templates|]) && k / |templates| < n
    decreases n
  {
    var t := |templates|;
    var m := |children| - t;
    var front := children[..m];
    LayoutLength(front, templates, n - 1);
    if k < m {
      assert children[k] == front[k];
      LayoutPosition(front, templates, n - 1, k);
    } else {
      assert SameElement(children[m + (k - m)], templates[k - m]);
      DivModUnique(k, t, n - 1, k - m);
    }
  }

  /**
   * After `prev`, whose first `|before|` contexts are `before` with at most
   * one earlier store to `name` in `ctx`, at most one more store there
   * leaves the first `|before|` contexts as `before` with just the later one.
   */
  lemma AssignedNext(before: seq<Scope>, prev: seq<Scope>, after: seq<Scope>, ctx: nat, name: string,
                     earlier: Option<Value>, next: Option<Value>)
    requires ctx < |before| <= |prev| <= |after|
    requires StoredLast(before, ctx, name, earlier) <= prev
    requires StoredLast(prev, ctx, name, next) <= after
    ensures StoredLast(before, ctx, name, if next.Some? then next else earlier) <= after
  {
    forall i | 0 <= i < |before|
      ensures after[i] == StoredLast(before, ctx, name, if next.Some? then next else earlier)[i]
    {
      assert after[i] == StoredLast(prev, ctx, name, next)[i];
      if earlier.Some? && next.Some? {
        AssignedTwice(before, ctx, name, earlier.value, next.value);
      }
    }
  }

  /**
   * Why the attribute loop stopped at `stop`: it is at most the first
   * attribute that ends the element; when it is that attribute, its error is
   * the last diagnostic, and when it is earlier, it is a `w-for` whose list
   * was found nowhere, and that is the last diagnostic.
   */
  predicate StoppedFor(steps: seq<Step>, stop: nat, errors: seq<Diagnostic>)
  {
    var first := FirstAbort(steps);
    stop <= first &&
    (stop == first < |steps| ==> |errors| > 0 && errors[|errors| - 1] == steps[stop].e) &&
    (stop < first ==>
       steps[stop].Act? && steps[stop].d.For? && |errors| > 0 && errors[|errors| - 1] == ForBindingNotFound(steps[stop].d.listName))
  }

  /** Every `w-for` among the first `n` steps names a list that resolution from `c` finds. */
  ghost predicate ListsFound(steps: seq<Step>, n: nat, scopes: seq<Scope>, c: nat)
    requires WellFormed(scopes) && c < |scopes| && n <= |steps|
    decreases n
  {
    n == 0 ||
    (ListsFound(steps, n - 1, scopes, c) &&
     (steps[n - 1].Act? && steps[n - 1].d.For? ==> Resolve(scopes, c, steps[n - 1].d.listName).Some?))
  }

  /** Lists that were found are still found once contexts have only gained names. */
  lemma {:induction false} ListsFoundGrow(steps: seq<Step>, n: nat, a: seq<Scope>, b: seq<Scope>, c: nat)
    requires WellFormed(a) && WellFormed(b) && c < |a| && n <= |steps| && ParentsKept(a, b) && KeysGrow(a, b)
    requires ListsFound(steps, n, a, c)
    ensures ListsFound(steps, n, b, c)
    decreases n
  {
    if n > 0 {
      ListsFoundGrow(steps, n - 1, a, b, c);
      if steps[n - 1].Act? && steps[n - 1].d.For? {
        ResolveKept(a, b, c, steps[n - 1].d.listName);
      }
    }
  }

  /** Whether the lists are found depends only on which names the contexts define. */
  lemma {:induction false} ListsFoundByKeys(steps: seq<Step>, n: nat, a: seq<Scope>, b: seq<Scope>, c: nat)
    requires WellFormed(a) && WellFormed(b) && c < |a| && n <= |steps| && ParentsKept(a, b) && KeysKept(a, b)
    requires ListsFound(steps, n, a, c)
    ensures ListsFound(steps, n, b, c)
    decreases n
  {
    if n > 0 {
      ListsFoundByKeys(steps, n - 1, a, b, c);
      if steps[n - 1].Act? && steps[n - 1].d.For? {
        ResolveByKeys(a, b, c, steps[n - 1].d.listName);
      }
    }
  }

  /**
   * The attribute loop's stop rule, by resolution from the element's context
   * `c`: it goes on past every `w-for` whose list is found and stops at the
   * first attribute that ends the element or, before it, at a `w-for` whose
   * list is found nowhere.
   */
  ghost predicate StopRule(steps: seq<Step>, stop: nat, scopes: seq<Scope>, c: nat)
    requires WellFormed(scopes) && c < |scopes|
  {
    var first := FirstAbort(steps);
    stop <= first && ListsFound(steps, stop, scopes, c) &&
    (stop < first ==> steps[stop].Act? && steps[stop].d.For? && Resolve(scopes, c, steps[stop].d.listName).None?)
  }

  /** A step whose list, if it is a `w-for`, was found, keeps every list found once names are only gained. */
  lemma ListsFoundNext(steps: seq<Step>, i: nat, a: seq<Scope>, b: seq<Scope>, c: nat)
    requires WellFormed(a) && WellFormed(b) && c < |a| && i < |steps| && ParentsKept(a, b) && KeysGrow(a, b)
    requires ListsFound(steps, i, a, c)
    requires steps[i].Act? && steps[i].d.For? ==> Resolve(a, c, steps[i].d.listName).Some?
    ensures ListsFound(steps, i + 1, b, c)
  {
    ListsFoundGrow(steps, i, a, b, c);
    if steps[i].Act? && steps[i].d.For? {
      ResolveKept(a, b, c, steps[i].d.listName);
    }
  }

  /**
   * One turn of the attribute loop, on the arena: attribute `i`, which did
   * not end the element, keeps the loop's frame from `base` and every list
   * found so far, its own included.
   */
  lemma AttrScopesTurn(steps: seq<Step>, i: nat, base: seq<Scope>, prev: seq<Scope>, after: seq<Scope>, c: nat)
    requires WellFormed(base) && WellFormed(prev) && WellFormed(after) && c < |base|
    requires i < |steps| && i <= FirstAbort(steps) && !steps[i].Abort?
    requires Grown(base, prev, c) && Grown(prev, after, c) && AddedUnder(prev, |base|, {}) && AddedUnder(after, |prev|, {})
    requires VarsKept(base, prev, c, LoopVars(steps))
    requires VarsKept(prev, after, c, if steps[i].Act? && steps[i].d.For? then {steps[i].d.loopVar} else {})
    requires ListsFound(steps, i, prev, c)
    requires steps[i].Act? && steps[i].d.For? ==> Resolve(prev, c, steps[i].d.listName).Some?
    ensures Grown(base, after, c) && AddedUnder(after, |base|, {}) && VarsKept(base, after, c, LoopVars(steps))
    ensures ListsFound(steps, i + 1, after, c) && i + 1 <= FirstAbort(steps)
  {
    GrownTrans(base, prev, after, c);
    AddedUnderTrans(prev, after, |base|, {}, {});
    if steps[i].Act? && steps[i].d.For? {
      LoopVarOf(steps, i);
    }
    VarsKeptTrans(base, prev, after, c, LoopVars(steps), if steps[i].Act? && steps[i].d.For? then {steps[i].d.loopVar} else {});
    KeysGrowByVarsKept(prev, after, c, if steps[i].Act? && steps[i].d.For? then {steps[i].d.loopVar} else {});
    ListsFoundNext(steps, i, prev, after, c);
    PastNonAbort(steps, i);
  }

  /** Stopping at attribute `i`, which ends the element or is a `w-for` whose list is found nowhere, follows the rule. */
  lemma StopRuleAt(steps: seq<Step>, i: nat, scopes: seq<Scope>, c: nat)
    requires WellFormed(scopes) && c < |scopes| && i <= FirstAbort(steps) && ListsFound(steps, i, scopes, c)
    requires i < FirstAbort(steps) ==> steps[i].Act? && steps[i].d.For? && Resolve(scopes, c, steps[i].d.listName).None?
    ensures StopRule(steps, i, scopes, c)
  {
  }

  /** The stop rule survives work that changes no context's names. */
  lemma StopRuleKept(steps: seq<Step>, stop: nat, a: seq<Scope>, b: seq<Scope>, c: nat)
    requires WellFormed(a) && WellFormed(b) && c < |a| && ParentsKept(a, b) && KeysKept(a, b)
    requires StopRule(steps, stop, a, c)
    ensures StopRule(steps, stop, b, c)
  {
    ListsFoundByKeys(steps, stop, a, b, c);
    if stop < FirstAbort(steps) {
      ResolveByKeys(a, b, c, steps[stop].d.listName);
    }
  }

  /** `ctxs` are distinct plain contexts with parent `ctx`, all made after the first `n`, in increasing order. */
  ghost predicate ChildContexts(scopes: seq<Scope>, n: nat, ctx: nat, ctxs: seq<nat>)
  {
    (forall i :: 0 <= i < |ctxs| ==>
       n <= ctxs[i] < |scopes| && scopes[ctxs[i]].parent == Some(ctx) && !scopes[ctxs[i]].proxied) &&
    (forall i, j :: 0 <= i < j < |ctxs| ==> ctxs[i] < ctxs[j])
  }

  /** A context made after the others, under `ctx`, extends the list. */
  lemma ChildContextsAppend(prev: seq<Scope>, after: seq<Scope>, n: nat, ctx: nat, ctxs: seq<nat>, k: nat)
    requires ParentsKept(prev, after) && ChildContexts(prev, n, ctx, ctxs) && n <= |prev|
    requires k == |prev| < |after| && after[k].parent == Some(ctx) && !after[k].proxied
    ensures ChildContexts(after, n, ctx, ctxs + [k])
  {
  }

  /** `roots` are distinct root contexts with a notifying state, all made after the first `n`, in increasing order. */
  ghost predicate FreshRoots(scopes: seq<Scope>, n: nat, roots: seq<nat>)
  {
    (forall k :: 0 <= k < |roots| ==>
       n <= roots[k] < |scopes| && scopes[roots[k]].parent == None && scopes[roots[k]].proxied) &&
    (forall k, m :: 0 <= k < m < |roots| ==> roots[k] < roots[m])
  }

  /** Roots made before `prev` stay roots, and the ones made after it come later. */
  lemma FreshRootsAppend(prev: seq<Scope>, after: seq<Scope>, n: nat, roots: seq<nat>, more: seq<nat>)
    requires |prev| <= |after|
    requires forall i :: 0 <= i < |prev| ==> after[i].parent == prev[i].parent && after[i].proxied == prev[i].proxied
    requires FreshRoots(prev, n, roots) && FreshRoots(after, |prev|, more) && n <= |prev|
    ensures FreshRoots(after, n, roots + more)
  {
  }

  /**
   * Each element `elems[i]`, processed in context `ctxs[i]` and stopped at
   * attribute `stops[i]`, has every listener its attributes attach in the logs.
   */
  ghost predicate Attached(elems: seq<Node>, handlers: set<string>, stops: seq<nat>, ctxs: seq<nat>, w: seq<Wiring>, s: seq<Sink>)
  {
    |stops| == |elems| == |ctxs| &&
    forall i ::
      0 <= i < |elems| ==> Applied(Steps(elems[i].tag, elems[i].attrs, handlers), Processed(stops[i], |elems[i].attrs|), ctxs[i], w, s)
  }

  lemma AttachedKept(elems: seq<Node>, handlers: set<string>, stops: seq<nat>, ctxs: seq<nat>,
                     w: seq<Wiring>, s: seq<Sink>, w': seq<Wiring>, s': seq<Sink>)
    requires w <= w' && s <= s' && Attached(elems, handlers, stops, ctxs, w, s)
    ensures Attached(elems, handlers, stops, ctxs, w', s')
  {
    forall i | 0 <= i < |elems|
      ensures Applied(Steps(elems[i].tag, elems[i].attrs, handlers), Processed(stops[i], |elems[i].attrs|), ctxs[i], w', s')
    {
      AppliedKept(Steps(elems[i].tag, elems[i].attrs, handlers), Processed(stops[i], |elems[i].attrs|), ctxs[i], w, s, w', s');
    }
  }

  /** One more element, processed in context `c` after those before it. */
  lemma AttachedNext(elems: seq<Node>, handlers: set<string>, stops: seq<nat>, ctxs: seq<nat>,
                     w: seq<Wiring>, s: seq<Sink>, w': seq<Wiring>, s': seq<Sink>, child: Node, o: Node, stop: nat, c: nat)
    requires w <= w' && s <= s' && Attached(elems, handlers, stops, ctxs, w, s) && SameElement(o, child)
    requires Hooked(w, s, w', s', c + 1,
                    AttrWirings(Steps(child.tag, child.attrs, handlers), Processed(stop, |child.attrs|), c),
                    AttrListeners(Steps(child.tag, child.attrs, handlers), Processed(stop, |child.attrs|), c))
    ensures Attached(elems + [o], handlers, stops + [stop], ctxs + [c], w', s')
  {
    HookedApplied(w, s, w', s', c + 1, Steps(child.tag, child.attrs, handlers), Processed(stop, |child.attrs|), c);
    AttachedKept(elems, handlers, stops, ctxs, w, s, w', s');
  }

  /** Each element `elems[i]`, processed in context `ctxs[i]`, stopped at attribute `stops[i]` by the stop rule. */
  ghost predicate ChildStops(elems: seq<Node>, handlers: set<string>, stops: seq<nat>, ctxs: seq<nat>, scopes: seq<Scope>)
    requires WellFormed(scopes)
  {
    |stops| == |elems| == |ctxs| &&
    forall i :: 0 <= i < |elems| ==>
      ctxs[i] < |scopes| && StopRule(Steps(elems[i].tag, elems[i].attrs, handlers), stops[i], scopes, ctxs[i])
  }

  /** One more element, stopped by the rule in context `c`, after work that changed no earlier context's names. */
  lemma ChildStopsNext(elems: seq<Node>, handlers: set<string>, stops: seq<nat>, ctxs: seq<nat>, a: seq<Scope>, b: seq<Scope>,
                       child: Node, o: Node, stop: nat, c: nat)
    requires WellFormed(a) && WellFormed(b) && ParentsKept(a, b) && KeysKept(a, b)
    requires ChildStops(elems, handlers, stops, ctxs, a) && SameElement(o, child) && c < |b|
    requires StopRule(Steps(child.tag, child.attrs, handlers), stop, b, c)
    ensures ChildStops(elems + [o], handlers, stops + [stop], ctxs + [c], b)
  {
    forall i | 0 <= i < |elems|
      ensures StopRule(Steps(elems[i].tag, elems[i].attrs, handlers), stops[i], b, ctxs[i])
    {
      StopRuleKept(Steps(elems[i].tag, elems[i].attrs, handlers), stops[i], a, b, ctxs[i]);
    }
  }

  /**
   * How one element was walked: the context `ctx` it was processed in, the
   * attribute `stop` its attribute loop stopped at, the children `ins` its
   * child loop ran over (as the attributes left them) and the walk of each.
   */
  datatype Walk = Walk(ctx: nat, stop: nat, ins: seq<Node>, kids: seq<Walk>)

  /**
   * `considerNode` turned `e` into `o` along `walk`, at every depth: the
   * element keeps its tag and attributes, its attribute loop stopped by the
   * stop rule with the listeners of the processed attributes in the logs,
   * and its children are those it had unless a `w-for` ran. When no
   * attribute ended the element, each child was walked in its own plain
   * context under the element's; otherwise the children are left as they are.
   */
  ghost predicate Walked(e: Node, o: Node, walk: Walk, handlers: set<string>,
                         scopes: seq<Scope>, w: seq<Wiring>, s: seq<Sink>)
    requires WellFormed(scopes)
    decreases o, 1
  {
    var steps := Steps(e.tag, e.attrs, handlers);
    SameElement(o, e) && walk.ctx < |scopes| &&
    StopRule(steps, walk.stop, scopes, walk.ctx) &&
    Applied(steps, Processed(walk.stop, |e.attrs|), walk.ctx, w, s) &&
    (NoFor(steps, Processed(walk.stop, |e.attrs|)) ==> walk.ins == e.children) &&
    (walk.stop < |e.attrs| ==> o.children == walk.ins && walk.kids == []) &&
    (walk.stop == |e.attrs| ==>
       (forall i :: 0 <= i < |walk.kids| ==>
          walk.kids[i].ctx < |scopes| && scopes[walk.kids[i].ctx].parent == Some(walk.ctx) &&
          !scopes[walk.kids[i].ctx].proxied) &&
       AllWalked(walk.ins, o.children, walk.kids, handlers, scopes, w, s))
  }

  /** Each `outs[i]` is `ins[i]` walked along `walks[i]`, stated element by element from the last. */
  ghost predicate AllWalked(ins: seq<Node>, outs: seq<Node>, walks: seq<Walk>, handlers: set<string>,
                            scopes: seq<Scope>, w: seq<Wiring>, s: seq<Sink>)
    requires WellFormed(scopes)
    decreases outs, 0
  {
    |ins| == |outs| == |walks| &&
    (|outs| == 0 ||
     (AllWalked(ins[..|outs| - 1], outs[..|outs| - 1], walks[..|outs| - 1], handlers, scopes, w, s) &&
      Walked(ins[|outs| - 1], outs[|outs| - 1], walks[|outs| - 1], handlers, scopes, w, s)))
  }

  lemma {:induction false} AllWalkedAt(ins: seq<Node>, outs: seq<Node>, walks: seq<Walk>, handlers: set<string>,
                                       scopes: seq<Scope>, w: seq<Wiring>, s: seq<Sink>, i: nat)
    requires WellFormed(scopes) && AllWalked(ins, outs, walks, handlers, scopes, w, s) && i < |outs|
    ensures Walked(ins[i], outs[i], walks[i], handlers, scopes, w, s)
    decreases |outs|
  {
    var n := |outs| - 1;
    if i < n {
      AllWalkedAt(ins[..n], outs[..n], walks[..n], handlers, scopes, w, s, i);
      assert ins[..n][i] == ins[i] && outs[..n][i] == outs[i] && walks[..n][i] == walks[i];
    }
  }

  /** A walk stays as stated through work that changes no context's names and only extends the logs. */
  lemma {:induction false} WalkedKept(e: Node, o: Node, walk: Walk, handlers: set<string>, a: seq<Scope>, b: seq<Scope>,
                                      w: seq<Wiring>, s: seq<Sink>, w': seq<Wiring>, s': seq<Sink>)
    requires WellFormed(a) && WellFormed(b) && ParentsKept(a, b) && KeysKept(a, b) && w <= w' && s <= s'
    requires Walked(e, o, walk, handlers, a, w, s)
    ensures Walked(e, o, walk, handlers, b, w', s')
    decreases o, 1
  {
    var steps := Steps(e.tag, e.attrs, handlers);
    StopRuleKept(steps, walk.stop, a, b, walk.ctx);
    AppliedKept(steps, Processed(walk.stop, |e.attrs|), walk.ctx, w, s, w', s');
    if walk.stop == |e.attrs| {
      AllWalkedKept(walk.ins, o.children, walk.kids, handlers, a, b, w, s, w', s');
    }
  }

  lemma {:induction false} AllWalkedKept(ins: seq<Node>, outs: seq<Node>, walks: seq<Walk>, handlers: set<string>,
                                         a: seq<Scope>, b: seq<Scope>, w: seq<Wiring>, s: seq<Sink>, w': seq<Wiring>, s': seq<Sink>)
    requires WellFormed(a) && WellFormed(b) && ParentsKept(a, b) && KeysKept(a, b) && w <= w' && s <= s'
    requires AllWalked(ins, outs, walks, handlers, a, w, s)
    ensures AllWalked(ins, outs, walks, handlers, b, w', s')
    decreases outs, 0
  {
    if |outs| > 0 {
      var n := |outs| - 1;
      AllWalkedKept(ins[..n], outs[..n], walks[..n], handlers, a, b, w, s, w', s');
      WalkedKept(ins[n], outs[n], walks[n], handlers, a, b, w, s, w', s');
    }
  }

  /** One more walked element after a run of them. */
  lemma AllWalkedPush(ins: seq<Node>, outs: seq<Node>, walks: seq<Walk>, e: Node, o: Node, walk: Walk,
                      handlers: set<string>, scopes: seq<Scope>, w: seq<Wiring>, s: seq<Sink>)
    requires WellFormed(scopes)
    requires AllWalked(ins, outs, walks, handlers, scopes, w, s) && Walked(e, o, walk, handlers, scopes, w, s)
    ensures AllWalked(ins + [e], outs + [o], walks + [walk], handlers, scopes, w, s)
  {
    assert (ins + [e])[..|outs|] == ins && (outs + [o])[..|outs|] == outs && (walks + [walk])[..|outs|] == walks;
  }

  /** Appending a non-empty run is appending all of it but its last element, then that element. */
  lemma LastSplit<T>(a: seq<T>, b: seq<T>)
    requires |b| > 0
    ensures a + b[..|b| - 1] + [b[|b| - 1]] == a + b
  {
    assert b[..|b| - 1] + [b[|b| - 1]] == b;
  }

  /** The prefix one longer is the prefix and the next element. */
  lemma PrefixNext<T>(a: seq<T>, i: nat)
    requires i < |a|
    ensures a[..i + 1] == a[..i] + [a[i]]
  {
  }

  /**
   * A single walked element as a run of one. Method contracts state a walk in
   * this form, which keeps the walk's definition folded at the call sites.
   */
  lemma WalkedOne(e: Node, o: Node, walk: Walk, handlers: set<string>, scopes: seq<Scope>, w: seq<Wiring>, s: seq<Sink>)
    requires WellFormed(scopes) && Walked(e, o, walk, handlers, scopes, w, s)
    ensures AllWalked([e], [o], [walk], handlers, scopes, w, s)
  {
    assert [e][..0] == [] && [o][..0] == [] && [walk][..0] == [];
  }

  /** Two runs of walked elements, one after the other. */
  lemma {:induction false} AllWalkedAppend(ins: seq<Node>, outs: seq<Node>, walks: seq<Walk>,
                                           ins': seq<Node>, outs': seq<Node>, walks': seq<Walk>,
                                           handlers: set<string>, scopes: seq<Scope>, w: seq<Wiring>, s: seq<Sink>)
    requires WellFormed(scopes)
    requires AllWalked(ins, outs, walks, handlers, scopes, w, s) && AllWalked(ins', outs', walks', handlers, scopes, w, s)
    ensures AllWalked(ins + ins', outs + outs', walks + walks', handlers, scopes, w, s)
    decreases |outs'|
  {
    if |outs'| == 0 {
      assert ins + ins' == ins && outs + outs' == outs && walks + walks' == walks;
      AllWalkedSame(ins, outs, walks, ins + ins', outs + outs', walks + walks', handlers, scopes, w, s);
    } else {
      var n := |outs'| - 1;
      AllWalkedLast(ins', outs', walks', handlers, scopes, w, s);
      AllWalkedAppend(ins, outs, walks, ins'[..n], outs'[..n], walks'[..n], handlers, scopes, w, s);
      AllWalkedPush(ins + ins'[..n], outs + outs'[..n], walks + walks'[..n], ins'[n], outs'[n], walks'[n], handlers, scopes, w, s);
      LastSplit(ins, ins');
      LastSplit(outs, outs');
      LastSplit(walks, walks');
      AllWalkedSame(ins + ins'[..n] + [ins'[n]], outs + outs'[..n] + [outs'[n]], walks + walks'[..n] + [walks'[n]],
                    ins + ins', outs + outs', walks + walks', handlers, scopes, w, s);
    }
  }

  /** A non-empty run of walks is the run before its last element, then that element's walk. */
  lemma AllWalkedLast(ins: seq<Node>, outs: seq<Node>, walks: seq<Walk>,
                      handlers: set<string>, scopes: seq<Scope>, w: seq<Wiring>, s: seq<Sink>)
    requires WellFormed(scopes) && AllWalked(ins, outs, walks, handlers, scopes, w, s) && |outs| > 0
    ensures |ins| == |outs| == |walks|
    ensures AllWalked(ins[..|outs| - 1], outs[..|outs| - 1], walks[..|outs| - 1], handlers, scopes, w, s)
    ensures Walked(ins[|outs| - 1], outs[|outs| - 1], walks[|outs| - 1], handlers, scopes, w, s)
  {
  }

  /** A run of walks stated over equal sequences. */
  lemma AllWalkedSame(ins: seq<Node>, outs: seq<Node>, walks: seq<Walk>,
                      ins': seq<Node>, outs': seq<Node>, walks': seq<Walk>,
                      handlers: set<string>, scopes: seq<Scope>, w: seq<Wiring>, s: seq<Sink>)
    requires WellFormed(scopes) && AllWalked(ins, outs, walks, handlers, scopes, w, s)
    requires ins == ins' && outs == outs' && walks == walks'
    ensures AllWalked(ins', outs', walks', handlers, scopes, w, s)
  {
  }

  /** Every prefix of a run of walks is a run of walks. */
  lemma {:induction false} AllWalkedTake(ins: seq<Node>, outs: seq<Node>, walks: seq<Walk>, handlers: set<string>,
                                         scopes: seq<Scope>, w: seq<Wiring>, s: seq<Sink>, k: nat)
    requires WellFormed(scopes) && AllWalked(ins, outs, walks, handlers, scopes, w, s) && k <= |outs|
    ensures AllWalked(ins[..k], outs[..k], walks[..k], handlers, scopes, w, s)
    decreases |outs|
  {
    var n := |outs| - 1;
    if k == |outs| {
      assert ins[..k] == ins && outs[..k] == outs && walks[..k] == walks;
      AllWalkedSame(ins, outs, walks, ins[..k], outs[..k], walks[..k], handlers, scopes, w, s);
    } else {
      AllWalkedTake(ins[..n], outs[..n], walks[..n], handlers, scopes, w, s, k);
      assert ins[..n][..k] == ins[..k] && outs[..n][..k] == outs[..k] && walks[..n][..k] == walks[..k];
      AllWalkedSame(ins[..n][..k], outs[..n][..k], walks[..n][..k], ins[..k], outs[..k], walks[..k], handlers, scopes, w, s);
    }
  }

  /**
   * The walks of `n` copies of the templates lay the clones out item-major:
   * each block of `|templates|` clones has the shapes of the templates.
   */
  lemma WalkedLayout(templates: seq<Node>, n: nat, children: seq<Node>, walks: seq<Walk>,
                     handlers: set<string>, scopes: seq<Scope>, w: seq<Wiring>, s: seq<Sink>)
    requires WellFormed(scopes) && AllWalked(Repeat(templates, n), children, walks, handlers, scopes, w, s)
    ensures ItemMajorLayout(children, templates, n)
  {
    AllWalkedShapes(Repeat(templates, n), children, walks, handlers, scopes, w, s);
    RepeatLayout(templates, n, children);
  }

  /** Each walked element keeps the shape of the element it came from. */
  lemma AllWalkedShapes(ins: seq<Node>, outs: seq<Node>, walks: seq<Walk>,
                        handlers: set<string>, scopes: seq<Scope>, w: seq<Wiring>, s: seq<Sink>)
    requires WellFormed(scopes) && AllWalked(ins, outs, walks, handlers, scopes, w, s)
    ensures ClonesOf(outs, ins)
  {
    forall k | 0 <= k < |outs|
      ensures SameElement(outs[k], ins[k])
    {
      AllWalkedAt(ins, outs, walks, handlers, scopes, w, s, k);
      WalkedShape(ins[k], outs[k], walks[k], handlers, scopes, w, s);
    }
  }

  /** Clones of `n` copies of the templates are laid out item-major. */
  lemma {:induction false} RepeatLayout(templates: seq<Node>, n: nat, children: seq<Node>)
    requires ClonesOf(children, Repeat(templates, n))
    ensures ItemMajorLayout(children, templates, n)
    decreases n
  {
    if n == 0 {
      assert |children| == 0;
    } else {
      var r := Repeat(templates, n - 1);
      RepeatNext(templates, n - 1);
      SplitClones(children, r, templates);
      var prefix, block := children[..|r|], children[|r|..];
      RepeatLayout(templates, n - 1, prefix);
      ExtendLayout(prefix, templates, n - 1, block);
    }
  }

  /** Clones of two runs of templates, one after the other, split into clones of each run. */
  lemma SplitClones(children: seq<Node>, first: seq<Node>, second: seq<Node>)
    requires ClonesOf(children, first + second)
    ensures ClonesOf(children[..|first|], first) && ClonesOf(children[|first|..], second)
    ensures children[..|first|] + children[|first|..] == children
  {
    var m := |first|;
    forall j | 0 <= j < |second|
      ensures SameElement(children[m..][j], second[j])
    {
      assert children[m..][j] == children[m + j] && (first + second)[m + j] == second[j];
    }
  }

  /** A walk keeps the element's tag and attributes. */
  lemma WalkedShape(e: Node, o: Node, walk: Walk, handlers: set<string>, scopes: seq<Scope>, w: seq<Wiring>, s: seq<Sink>)
    requires WellFormed(scopes) && Walked(e, o, walk, handlers, scopes, w, s)
    ensures SameElement(o, e)
  {
  }

  /** No attribute of `e` or of any element below it is a `w-for`. */
  ghost predicate ForFree(e: Node, handlers: set<string>)
    decreases e
  {
    NoFor(Steps(e.tag, e.attrs, handlers), |e.attrs|) &&
    forall i :: 0 <= i < |e.children| ==> ForFree(e.children[i], handlers)
  }

  /** Without a `w-for` anywhere in it, the walk gives back the element unchanged, children and all. */
  lemma {:induction false} ForFreeUnchanged(e: Node, o: Node, walk: Walk, handlers: set<string>,
                                            scopes: seq<Scope>, w: seq<Wiring>, s: seq<Sink>)
    requires WellFormed(scopes) && ForFree(e, handlers) && Walked(e, o, walk, handlers, scopes, w, s)
    ensures o == e
    decreases o
  {
    assert walk.ins == e.children;
    if walk.stop == |e.attrs| {
      forall i | 0 <= i < |o.children|
        ensures o.children[i] == e.children[i]
      {
        AllWalkedAt(walk.ins, o.children, walk.kids, handlers, scopes, w, s, i);
        ForFreeUnchanged(e.children[i], o.children[i], walk.kids[i], handlers, scopes, w, s);
      }
    }
    assert o.children == e.children;
  }

  /**
   * `n` copies of `run`, one after another: for the templates, the template
   * each child of a list render was cloned from.
   */
  ghost function Repeat<T>(run: seq<T>, n: nat): seq<T>
  {
    if n == 0 then [] else Repeat(run, n - 1) + run
  }

  /**
   * The listener calls of a render of `items` with `t` templates from a
   * directive context whose state is `s`: item by item, the item is
   * declared under `name` once per clone, and each declaration notifies the
   * listeners of `name` in `s`.
   */
  ghost function RenderCalls(s: Scope, name: string, items: seq<Value>, t: nat): seq<Call>
    decreases |items|
  {
    if items == [] then []
    else RenderCalls(s, name, items[..|items| - 1], t) + Repeat(Notified(s, name, items[|items| - 1]), t)
  }

  /**
   * One more child of the child loop, walked in context `k` after the
   * earlier ones: their stops and walks survive its processing, which changed
   * no earlier context's names, and it joins them.
   */
  lemma ChildWalkNext(children: seq<Node>, i: nat, out: seq<Node>, ctxs: seq<nat>, stops: seq<nat>, walks: seq<Walk>,
                      handlers: set<string>, prev: seq<Scope>, after: seq<Scope>, w: seq<Wiring>, s: seq<Sink>,
                      w': seq<Wiring>, s': seq<Sink>, ctx: nat, o: Node, k: nat, stop: nat, walk: Walk)
    requires WellFormed(prev) && WellFormed(after) && ParentsKept(prev, after) && VarsKept(prev, after, ctx, {})
    requires w <= w' && s <= s' && i < |children| && |out| == |ctxs| == |walks| == i
    requires |stops| == i && AllWalked(children[..i], out, walks, handlers, prev, w, s)
    requires forall m :: 0 <= m < i ==> walks[m].ctx == ctxs[m] && walks[m].stop == stops[m]
    requires AllWalked([children[i]], [o], [walk], handlers, after, w', s') && walk.ctx == k && walk.stop == stop
    ensures AllWalked(children[..i + 1], out + [o], walks + [walk], handlers, after, w', s')
    ensures forall m :: 0 <= m < i + 1 ==>
              (walks + [walk])[m].ctx == (ctxs + [k])[m] && (walks + [walk])[m].stop == (stops + [stop])[m]
  {
    KeysKeptByVarsKept(prev, after, ctx);
    AllWalkedKept(children[..i], out, walks, handlers, prev, after, w, s, w', s');
    AllWalkedAppend(children[..i], out, walks, [children[i]], [o], [walk], handlers, after, w', s');
    PrefixNext(children, i);
  }

  /**
   * The walk of an element from its parts: its own stop and listeners, the
   * children its attribute loop left, and, when no attribute ended it, the
   * walks of those children in child contexts of `ctx`.
   */
  lemma NodeWalked(node: Node, out: Node, stop: nat, kids: seq<Node>, ctxs: seq<nat>, walks: seq<Walk>, handlers: set<string>,
                   scopes: seq<Scope>, n: nat, ctx: nat, w: seq<Wiring>, s: seq<Sink>)
    requires WellFormed(scopes) && ctx < |scopes| && SameElement(out, node)
    requires StopRule(Steps(node.tag, node.attrs, handlers), stop, scopes, ctx)
    requires Applied(Steps(node.tag, node.attrs, handlers), Processed(stop, |node.attrs|), ctx, w, s)
    requires NoFor(Steps(node.tag, node.attrs, handlers), Processed(stop, |node.attrs|)) ==> kids == node.children
    requires stop < |node.attrs| ==> out.children == kids && walks == []
    requires stop == |node.attrs| ==>
             |walks| == |ctxs| && ChildContexts(scopes, n, ctx, ctxs) && (forall i :: 0 <= i < |walks| ==> walks[i].ctx == ctxs[i]) &&
             AllWalked(kids, out.children, walks, handlers, scopes, w, s)
    ensures AllWalked([node], [out], [Walk(ctx, stop, kids, walks)], handlers, scopes, w, s)
    ensures ForFree(node, handlers) ==> out == node
  {
    var walk := Walk(ctx, stop, kids, walks);
    assert Walked(node, out, walk, handlers, scopes, w, s);
    WalkedOne(node, out, walk, handlers, scopes, w, s);
    if ForFree(node, handlers) {
      ForFreeUnchanged(node, out, walk, handlers, scopes, w, s);
    }
  }

  /** Walked elements stopped by the rule in their contexts, with their listeners in the logs. */
  lemma AllWalkedSummary(ins: seq<Node>, outs: seq<Node>, walks: seq<Walk>, handlers: set<string>, stops: seq<nat>, ctxs: seq<nat>,
                         scopes: seq<Scope>, w: seq<Wiring>, s: seq<Sink>)
    requires WellFormed(scopes) && AllWalked(ins, outs, walks, handlers, scopes, w, s) && |stops| == |ctxs| == |outs|
    requires forall m :: 0 <= m < |walks| ==> walks[m].ctx == ctxs[m] && walks[m].stop == stops[m]
    ensures Attached(outs, handlers, stops, ctxs, w, s) && ChildStops(outs, handlers, stops, ctxs, scopes)
  {
    forall m | 0 <= m < |outs|
      ensures ctxs[m] < |scopes| && StopRule(Steps(outs[m].tag, outs[m].attrs, handlers), stops[m], scopes, ctxs[m])
      ensures Applied(Steps(outs[m].tag, outs[m].attrs, handlers), Processed(stops[m], |outs[m].attrs|), ctxs[m], w, s)
    {
      AllWalkedAt(ins, outs, walks, handlers, scopes, w, s, m);
    }
  }

  /**
   * After a first store to `name` in `ctx`, later stores to it change no
   * context's names: `prev` followed a run of stores whose last value was
   * `earlier`, and `after` one more run.
   */
  lemma KeysKeptAfterStores(base: seq<Scope>, prev: seq<Scope>, after: seq<Scope>, ctx: nat, name: string,
                            earlier: Option<Value>, last: Option<Value>)
    requires ctx < |base| <= |prev| && StoredLast(base, ctx, name, earlier) <= prev && StoredLast(prev, ctx, name, last) <= after
    requires last.Some? ==> earlier.Some?
    ensures KeysKept(prev, after)
  {
    if last.Some? {
      assert prev[ctx] == Assigned(base, ctx, name, earlier.value)[ctx];
    }
    KeysKeptByStored(prev, after, ctx, name, last);
  }

  /**
   * The walks of a list render so far, `ins` walked into `outs` in the roots
   * `roots`, survive the next run of clones, whose declaration only
   * overwrites the loop variable, and are followed by that run's walks.
   */
  lemma RenderWalksNext(ins: seq<Node>, outs: seq<Node>, walks: seq<Walk>, roots: seq<nat>,
                        ins': seq<Node>, outs': seq<Node>, walks': seq<Walk>, roots': seq<nat>, handlers: set<string>,
                        base: seq<Scope>, prev: seq<Scope>, after: seq<Scope>, ctx: nat, loopVar: string,
                        earlier: Option<Value>, last: Option<Value>,
                        w: seq<Wiring>, s: seq<Sink>, w': seq<Wiring>, s': seq<Sink>)
    requires WellFormed(prev) && WellFormed(after) && ParentsKept(prev, after) && w <= w' && s <= s'
    requires ctx < |base| <= |prev| && StoredLast(base, ctx, loopVar, earlier) <= prev && StoredLast(prev, ctx, loopVar, last) <= after
    requires |outs| > 0 && last.Some? ==> earlier.Some?
    requires AllWalked(ins, outs, walks, handlers, prev, w, s) && |roots| == |walks|
    requires forall k :: 0 <= k < |walks| ==> walks[k].ctx == roots[k]
    requires AllWalked(ins', outs', walks', handlers, after, w', s') && |roots'| == |walks'|
    requires forall k :: 0 <= k < |walks'| ==> walks'[k].ctx == roots'[k]
    ensures AllWalked(ins + ins', outs + outs', walks + walks', handlers, after, w', s')
    ensures forall k :: 0 <= k < |walks + walks'| ==> (walks + walks')[k].ctx == (roots + roots')[k]
  {
    if |outs| > 0 {
      KeysKeptAfterStores(base, prev, after, ctx, loopVar, earlier, last);
      AllWalkedKept(ins, outs, walks, handlers, prev, after, w, s, w', s');
    } else {
      assert ins == [] && outs == [] && walks == [];
    }
    AllWalkedAppend(ins, outs, walks, ins', outs', walks', handlers, after, w', s');
    RootsAppend(walks, roots, walks', roots');
  }

  /** Runs of nothing are nothing. */
  lemma {:induction false} RepeatNothing<T>(n: nat)
    ensures Repeat<T>([], n) == []
  {
    if n > 0 {
      RepeatNothing<T>(n - 1);
    }
  }

  /**
   * A render calls no listener when the directive's context is a plain
   * object, as the walk's child contexts are, or when nothing listens to the
   * loop variable there.
   */
  lemma {:induction false} RenderCallsSilent(s: Scope, name: string, items: seq<Value>, t: nat)
    requires !s.proxied || ListenersFor(s, name) == []
    ensures RenderCalls(s, name, items, t) == []
    decreases |items|
  {
    if items != [] {
      RenderCallsSilent(s, name, items[..|items| - 1], t);
      RepeatNothing<Call>(t);
    }
  }

  /** One more item appends one more run of the templates. */
  lemma RepeatNext<T>(run: seq<T>, n: nat)
    ensures Repeat(run, n + 1) == Repeat(run, n) + run
  {
  }

  /** Calls `c0` followed by `n` runs of `run`, then one more run, are `c0` and `n + 1` runs. */
  lemma CallsRepeatNext(c0: seq<Call>, run: seq<Call>, n: nat, after: seq<Call>)
    requires after == c0 + Repeat(run, n) + run
    ensures after == c0 + Repeat(run, n + 1)
  {
    RepeatNext(run, n);
  }

  /**
   * One more clone of an item appends the calls of one more declaration: the
   * earlier declarations under `name` in `k` left its listeners as in `base`.
   */
  lemma CloneCallsNext(c0: seq<Call>, base: seq<Scope>, prev: seq<Scope>, k: nat, name: string, earlier: Option<Value>,
                       item: Value, j: nat, mid: seq<Call>, after: seq<Call>)
    requires k < |base| && StoredLast(base, k, name, earlier) <= prev
    requires mid == c0 + Repeat(Notified(base[k], name, item), j)
    requires after == mid + Notified(prev[k], name, item)
    ensures after == c0 + Repeat(Notified(base[k], name, item), j + 1)
  {
    NotifiedAfterStore(base, prev, k, name, earlier, name, item);
    CallsRepeatNext(c0, Notified(base[k], name, item), j, after);
  }

  /** One more item appends its block of declarations' calls, as `base` had the listeners. */
  lemma ItemCallsNext(c0: seq<Call>, base: seq<Scope>, prev: seq<Scope>, k: nat, name: string, earlier: Option<Value>,
                      items: seq<Value>, i: nat, t: nat, mid: seq<Call>, after: seq<Call>)
    requires k < |base| && StoredLast(base, k, name, earlier) <= prev && i < |items|
    requires mid == c0 + RenderCalls(base[k], name, items[..i], t)
    requires after == mid + Repeat(Notified(prev[k], name, items[i]), t)
    ensures after == c0 + RenderCalls(base[k], name, items[..i + 1], t)
  {
    NotifiedAfterStore(base, prev, k, name, earlier, name, items[i]);
    RenderCallsNext(c0, base[k], name, items, i, t, after);
  }

  /** One more item appends its block of declarations' calls. */
  lemma RenderCallsNext(c0: seq<Call>, s: Scope, name: string, items: seq<Value>, i: nat, t: nat, after: seq<Call>)
    requires i < |items|
    requires after == c0 + RenderCalls(s, name, items[..i], t) + Repeat(Notified(s, name, items[i]), t)
    ensures after == c0 + RenderCalls(s, name, items[..i + 1], t)
  {
    assert items[..i + 1][..i] == items[..i];
  }

  /** Walks that start in their roots, run after run, still do so joined. */
  lemma RootsAppend(walks: seq<Walk>, roots: seq<nat>, walks': seq<Walk>, roots': seq<nat>)
    requires |roots| == |walks| && forall k :: 0 <= k < |walks| ==> walks[k].ctx == roots[k]
    requires |roots'| == |walks'| && forall k :: 0 <= k < |walks'| ==> walks'[k].ctx == roots'[k]
    ensures forall k :: 0 <= k < |walks + walks'| ==> (walks + walks')[k].ctx == (roots + roots')[k]
  {
    forall k | 0 <= k < |walks + walks'|
      ensures (walks + walks')[k].ctx == (roots + roots')[k]
    {
      if k >= |walks| {
        assert (walks + walks')[k] == walks'[k - |walks|];
      }
    }
  }

  /** Each element without a `w-for` anywhere in it comes back from its walk unchanged. */
  lemma AllForFreeUnchanged(ins: seq<Node>, outs: seq<Node>, walks: seq<Walk>, handlers: set<string>,
                            scopes: seq<Scope>, w: seq<Wiring>, s: seq<Sink>)
    requires WellFormed(scopes) && AllWalked(ins, outs, walks, handlers, scopes, w, s)
    ensures forall m :: 0 <= m < |outs| && ForFree(ins[m], handlers) ==> outs[m] == ins[m]
  {
    forall m | 0 <= m < |outs| && ForFree(ins[m], handlers)
      ensures outs[m] == ins[m]
    {
      AllWalkedAt(ins, outs, walks, handlers, scopes, w, s, m);
      ForFreeUnchanged(ins[m], outs[m], walks[m], handlers, scopes, w, s);
    }
  }

  class State {
    /** The context arena. */
    var scopes: seq<Scope>
    /** Every listener invocation so far, in order. */
    var calls: seq<Call>
    /** The diagnostic channel. */
    var errors: seq<Diagnostic>
    var wirings: seq<Wiring>
    /** Listener `l` is described by `sinks[l]`. */
    var sinks: seq<Sink>
    /** The names of the registered event handlers. */
    const handlers: set<string>

    ghost predicate Valid()
      reads this
    {
      WellFormed(scopes) &&
      forall j :: 0 <= j < |wirings| ==> wirings[j].ctx < |scopes|
    }

    /**
     * The state after the first `i` items of a list render that started from
     * the arena `base`, the calls `c0` and the hooks `w0`, `s0`: the calls so
     * far are those the declarations of these items make, `children` holds one block of
     * clones per item, each clone walked in its own fresh root `roots[k]`,
     * the last item is declared under the loop variable in `ctx`, and nothing
     * that existed before was touched.
     */
    ghost predicate ItemsRendered(templates: seq<Node>, loopVar: string, ctx: nat, items: seq<Value>, i: nat,
                                  children: seq<Node>, roots: seq<nat>, walks: seq<Walk>,
                                  base: seq<Scope>, c0: seq<Call>, w0: seq<Wiring>, s0: seq<Sink>)
      reads this
    {
      i <= |items| && Valid() && WellFormed(base) && ctx < |base| &&
      calls == c0 + RenderCalls(base[ctx], loopVar, items[..i], |templates|) &&
      ParentsKept(base, scopes) && AddedUnder(scopes, |base|, {}) &&
      |roots| == |children| && ItemMajorLayout(children, templates, i) &&
      w0 <= wirings && s0 <= sinks && Quiet(w0, s0, wirings, sinks, |base|) &&
      FreshRoots(scopes, |base|, roots) &&
      StoredLast(base, ctx, loopVar, if i > 0 && |templates| > 0 then Some(items[i - 1]) else None) <= scopes &&
      AllWalked(Repeat(templates, i), children, walks, handlers, scopes, wirings, sinks) &&
      forall k :: 0 <= k < |walks| ==> walks[k].ctx == roots[k]
    }

    /**
     * The state after the first `j` templates of the clones for one item,
     * begun from the arena `base`, the calls `c0` and the hooks `w0`, `s0`:
     * each declaration of the item notified the listeners of the loop
     * variable in `ctx`, `clones[m]` is template `m` walked along `walks[m]`
     * in the new root `roots[m]`, the item is stored under the loop variable,
     * and nothing that existed before was touched.
     */
    ghost predicate ClonesRendered(templates: seq<Node>, loopVar: string, ctx: nat, item: Value, j: nat,
                                   clones: seq<Node>, roots: seq<nat>, walks: seq<Walk>,
                                   base: seq<Scope>, c0: seq<Call>, w0: seq<Wiring>, s0: seq<Sink>)
      reads this
    {
      j <= |templates| && Valid() && WellFormed(base) && ctx < |base| &&
      calls == c0 + Repeat(Notified(base[ctx], loopVar, item), j) &&
      ParentsKept(base, scopes) && AddedUnder(scopes, |base|, {}) &&
      |clones| == j && |roots| == j && (forall m :: 0 <= m < j ==> SameElement(clones[m], templates[m])) &&
      w0 <= wirings && s0 <= sinks && Quiet(w0, s0, wirings, sinks, |base|) &&
      FreshRoots(scopes, |base|, roots) &&
      StoredLast(base, ctx, loopVar, if j > 0 then Some(item) else None) <= scopes &&
      AllWalked(templates[..j], clones, walks, handlers, scopes, wirings, sinks) &&
      forall m :: 0 <= m < j ==> walks[m].ctx == roots[m]
    }

    /**
     * The local case of `w-for`, run from the arena `before` with the logs
     * `calls0` and `errors0`: listener `id` was called at once with the
     * list's value `v` in `ctx`, and for an array the clones' declarations
     * then notified the listeners of the loop variable there, registered
     * after `id` (`RenderCalls`), with no other call; its last item, if any clone was made, is
     * stored under the loop variable; a non-array is reported and renders
     * nothing; an array renders `children`, the walks `walks` of `|v.items|`
     * copies of the templates.
     */
    ghost predicate LocalListRendered(before: seq<Scope>, calls0: seq<Call>, errors0: seq<Diagnostic>, loopVar: string,
                                      listName: string, templates: seq<Node>, ctx: nat, id: ListenerId,
                                      children: seq<Node>, walks: seq<Walk>)
      reads this
    {
      ctx < |before| && listName in before[ctx].vars && WellFormed(scopes) &&
      var v := before[ctx].vars[listName];
      calls == calls0 + [Call(id, v)] +
               (if v.List? then RenderCalls(Subscribed(before, ctx, listName, id)[ctx], loopVar, v.items, |templates|) else []) &&
      StoredLast(Subscribed(before, ctx, listName, id), ctx, loopVar,
                 if v.List? && |v.items| > 0 && |templates| > 0 then Some(v.items[|v.items| - 1]) else None) <= scopes &&
      (!v.List? ==> children == [] && errors == errors0 + [NotAnArray]) &&
      (v.List? ==> |children| == |v.items| * |templates| &&
                   AllWalked(Repeat(templates, |v.items|), children, walks, handlers, scopes, wirings, sinks))
    }

    constructor (handlers: set<string>)
      ensures Valid() && this.handlers == handlers
      ensures scopes == [] && calls == [] && errors == [] && wirings == [] && sinks == []
    {
      this.handlers := handlers;
      scopes, calls, errors, wirings, sinks := [], [], [], [], [];
    }

    /** `emptyContext()`: a root context whose state is the notifying Proxy. */
    method NewRoot() returns (c: nat)
      requires Valid()
      modifies this
      ensures Valid() && c == |old(scopes)|
      ensures scopes == old(scopes) + [Scope(None, true, map[], map[])]
      ensures calls == old(calls) && errors == old(errors) && wirings == old(wirings) && sinks == old(sinks)
    {
      c := |scopes|;
      scopes := scopes + [Scope(None, true, map[], map[])];
    }

    /** The walk's child context: parent `p`, a plain empty state object. */
    method NewChild(p: nat) returns (c: nat)
      requires Valid() && p < |scopes|
      modifies this
      ensures Valid() && c == |old(scopes)|
      ensures scopes == old(scopes) + [Scope(Some(p), false, map[], map[])]
      ensures calls == old(calls) && errors == old(errors) && wirings == old(wirings) && sinks == old(sinks)
    {
      c := |scopes|;
      scopes := scopes + [Scope(Some(p), false, map[], map[])];
    }

    /**
     * `context.state[name] = v`. On a Proxy state (the `set` trap) the value
     * is stored and then every listener of `name` is called with it, once
     * each, in list order; on a plain object the value is only stored.
     */
    method Write(c: nat, name: string, v: Value)
      requires Valid() && c < |scopes|
      modifies this
      ensures Valid()
      ensures scopes == Assigned(old(scopes), c, name, v)
      ensures calls == old(calls) + Notified(old(scopes)[c], name, v)
      ensures errors == old(errors) && wirings == old(wirings) && sinks == old(sinks)
    {
      var ls := ListenersFor(scopes[c], name);
      var proxied := scopes[c].proxied;
      scopes := Assigned(scopes, c, name, v);
      if proxied {
        var i := 0;
        while i < |ls|
          invariant 0 <= i <= |ls|
          invariant |calls| == |old(calls)| + i && calls[..|old(calls)|] == old(calls)
          invariant forall k :: 0 <= k < i ==> calls[|old(calls)| + k] == Call(ls[k], v)
          invariant scopes == Assigned(old(scopes), c, name, v)
          invariant errors == old(errors) && wirings == old(wirings) && sinks == old(sinks)
        {
          calls := calls + [Call(ls[i], v)];
          i := i + 1;
        }
        assert calls == old(calls) + Notify(ls, v);
      }
    }

    /** `addNewStateVariable`: declares (or overwrites) `name` in `c` itself. */
    method Declare(c: nat, name: string, v: Value)
      requires Valid() && c < |scopes|
      modifies this
      ensures Valid()
      ensures scopes == Assigned(old(scopes), c, name, v)
      ensures calls == old(calls) + Notified(old(scopes)[c], name, v)
      ensures errors == old(errors) && wirings == old(wirings) && sinks == old(sinks)
    {
      Write(c, name, v);
    }

    /**
     * `setValueInContext`: writes `v` in the nearest context from `c` upward
     * that defines `name`; when none does, reports the name and changes nothing.
     */
    method SetValue(c: nat, name: string, v: Value)
      requires Valid() && c < |scopes|
      modifies this
      decreases c
      ensures Valid() && wirings == old(wirings) && sinks == old(sinks)
      ensures Resolve(old(scopes), c, name).None? ==>
              scopes == old(scopes) && calls == old(calls) && errors == old(errors) + [UnresolvedWrite(name)]
      ensures Resolve(old(scopes), c, name).Some? ==>
              var d := Resolve(old(scopes), c, name).value;
              scopes == Assigned(old(scopes), d, name, v) &&
              calls == old(calls) + Notified(old(scopes)[d], name, v) &&
              errors == old(errors)
    {
      if name in scopes[c].vars {
        Write(c, name, v);
      } else if scopes[c].parent.None? {
        errors := errors + [UnresolvedWrite(name)];
      } else {
        SetValue(scopes[c].parent.value, name, v);
      }
    }

    /** `addListenerForSubtree`: appends `l` to the listeners of `name` in `c`. */
    method AddListener(c: nat, name: string, l: ListenerId) returns (added: bool)
      requires Valid() && c < |scopes|
      modifies this
      ensures Valid() && added
      ensures scopes == Subscribed(old(scopes), c, name, l)
      ensures calls == old(calls) && errors == old(errors) && wirings == old(wirings) && sinks == old(sinks)
    {
      scopes := Subscribed(scopes, c, name, l);
      added := true;
    }

    /**
     * `subscribeToContextStateChange`: registers `l` in the nearest context
     * defining `name` and reports whether there was one. Only when that
     * context is `c` itself and `callImmediately` is set is `l` called at
     * once with the current value: the search upward drops the flag.
     */
    method Subscribe(c: nat, name: string, l: ListenerId, callImmediately: bool) returns (ok: bool)
      requires Valid() && c < |scopes|
      modifies this
      decreases c
      ensures Valid() && wirings == old(wirings) && sinks == old(sinks)
      ensures ok <==> Resolve(old(scopes), c, name).Some?
      ensures !ok ==>
              scopes == old(scopes) && calls == old(calls) &&
              errors == old(errors) + [UnresolvedSubscription(name)]
      ensures ok ==>
              var d := Resolve(old(scopes), c, name).value;
              scopes == Subscribed(old(scopes), d, name, l) &&
              errors == old(errors) &&
              calls == old(calls) + (if callImmediately && d == c then [Call(l, old(scopes)[c].vars[name])] else [])
    {
      if name in scopes[c].vars {
        ok := AddListener(c, name, l);
        if callImmediately {
          calls := calls + [Call(l, scopes[c].vars[name])];
        }
      } else if scopes[c].parent.None? {
        errors := errors + [UnresolvedSubscription(name)];
        ok := false;
      } else {
        ok := Subscribe(scopes[c].parent.value, name, l, false);
      }
    }

    /** The input event of a `w-data` element: its value is written to the bound name. */
    method FireInput(w: nat, value: string)
      requires Valid() && w < |wirings| && wirings[w].InputSync?
      modifies this
      ensures Valid() && wirings == old(wirings) && sinks == old(sinks)
      ensures var c, name := wirings[w].ctx, wirings[w].stateName;
              Resolve(old(scopes), c, name).None? ==>
              scopes == old(scopes) && calls == old(calls) && errors == old(errors) + [UnresolvedWrite(name)]
      ensures var c, name := wirings[w].ctx, wirings[w].stateName;
              Resolve(old(scopes), c, name).Some? ==>
              var d := Resolve(old(scopes), c, name).value;
              scopes == Assigned(old(scopes), d, name, Text(value)) &&
              calls == old(calls) + Notified(old(scopes)[d], name, Text(value)) &&
              errors == old(errors)
    {
      SetValue(wirings[w].ctx, wirings[w].stateName, Text(value));
    }

    /**
     * `considerNode`: processes the attributes of `node` in context `ctx`,
     * then, unless an attribute ended the element, each child element in a
     * fresh child context. Returns the element as the walk leaves it and
     * `stop`, the index of the attribute that ended it (or the number of
     * attributes). The listeners attached for `ctx` and the contexts before
     * it are exactly those of the attributes up to `stop`. `kids` are the
     * children as the attributes leave them (the element's own unless a
     * `w-for` replaced them), and the returned element holds one processed
     * child for each. `ctxs` are the child contexts the children were
     * processed in and `stops` where each child stopped; when an attribute
     * ended the element there are none, and no new context hangs below `ctx`
     * or any other context that existed before. `walk` records the whole
     * walk, at every depth (`Walked`); an element with no `w-for` anywhere
     * in it comes back unchanged.
     */
    method ConsiderNode(node: Node, ctx: nat)
      returns (out: Node, stop: nat, ghost kids: seq<Node>, ghost ctxs: seq<nat>, ghost stops: seq<nat>, ghost walk: Walk)
      requires Valid() && ctx < |scopes|
      modifies this
      decreases Depth(node), 12
      ensures old(calls) <= calls && old(errors) <= errors && old(wirings) <= wirings && old(sinks) <= sinks
      ensures Valid() && Grown(old(scopes), scopes, ctx) && AddedUnder(scopes, |old(scopes)|, {ctx})
      ensures SameElement(out, node) && Depth(out) <= Depth(node)
      ensures VarsKept(old(scopes), scopes, ctx, LoopVars(Steps(node.tag, node.attrs, handlers)))
      ensures StoppedFor(Steps(node.tag, node.attrs, handlers), stop, errors)
      ensures StopRule(Steps(node.tag, node.attrs, handlers), stop, scopes, ctx)
      ensures Hooked(old(wirings), old(sinks), wirings, sinks, |old(scopes)|,
                     AttrWirings(Steps(node.tag, node.attrs, handlers), Processed(stop, |node.attrs|), ctx),
                     AttrListeners(Steps(node.tag, node.attrs, handlers), Processed(stop, |node.attrs|), ctx))
      ensures NoFor(Steps(node.tag, node.attrs, handlers), Processed(stop, |node.attrs|)) ==> kids == node.children
      ensures |out.children| == |kids| && forall i :: 0 <= i < |kids| ==> SameElement(out.children[i], kids[i])
      ensures stop < |node.attrs| ==> out.children == kids && ctxs == [] && stops == [] && AddedUnder(scopes, |old(scopes)|, {})
      ensures stop == |node.attrs| ==>
              |ctxs| == |out.children| && ChildContexts(scopes, |old(scopes)|, ctx, ctxs) &&
              Attached(out.children, handlers, stops, ctxs, wirings, sinks) &&
              ChildStops(out.children, handlers, stops, ctxs, scopes)
      ensures walk.ctx == ctx && walk.stop == stop && walk.ins == kids && AllWalked([node], [out], [walk], handlers, scopes, wirings, sinks)
      ensures ForFree(node, handlers) ==> out == node
      ensures Blank(old(scopes), ctx) ==> calls == old(calls)
    {
      ghost var before := scopes;
      var cur;
      cur, stop := RunAttributes(node, ctx);
      kids := cur.children;
      ghost var walks: seq<Walk> := [];
      if stop < |node.attrs| {
        out, ctxs, stops := cur, [], [];
      } else {
        ghost var middle := scopes;
        ghost var (w, s) := (wirings, sinks);
        var walked;
        walked, ctxs, stops, walks := ConsiderChildren(cur.children, ctx, Depth(node));
        GrownTrans(before, middle, scopes, ctx);
        KeysKeptByVarsKept(middle, scopes, ctx);
        StopRuleKept(Steps(node.tag, node.attrs, handlers), stop, middle, scopes, ctx);
        VarsKeptTrans(before, middle, scopes, ctx, LoopVars(Steps(node.tag, node.attrs, handlers)), {});
        HookedQuiet(old(wirings), old(sinks), w, s, wirings, sinks, |before|,
                    AttrWirings(Steps(node.tag, node.attrs, handlers), |node.attrs|, ctx),
                    AttrListeners(Steps(node.tag, node.attrs, handlers), |node.attrs|, ctx));
        out := cur.(children := walked);
      }
      DepthOfAllBelow(out.children, Depth(node));
      HookedApplied(old(wirings), old(sinks), wirings, sinks, |old(scopes)|,
                    Steps(node.tag, node.attrs, handlers), Processed(stop, |node.attrs|), ctx);
      walk := Walk(ctx, stop, kids, walks);
      NodeWalked(node, out, stop, kids, ctxs, walks, handlers, scopes, |old(scopes)|, ctx, wirings, sinks);
    }

    /**
     * The attribute loop of `considerNode`. `stop` is the index of the
     * attribute that ended the element, or the number of attributes. It is
     * the first attribute whose classification ends the element (a `w-data`
     * outside the allow-list, a malformed `w-for`, a `w-on` without event or
     * handler), unless a `w-for` before it named a list found nowhere;
     * either way the reason is the last diagnostic, and every `w-for` before
     * `stop` found its list. The listeners attached for `ctx` and the
     * contexts before it are those of the attributes up to `stop`, in
     * attribute order, so no attribute after `stop` attaches one. Only a
     * `w-for` changes the element.
     */
    method RunAttributes(node: Node, ctx: nat) returns (cur: Node, stop: nat)
      requires Valid() && ctx < |scopes|
      modifies this
      decreases Depth(node), 11
      ensures old(calls) <= calls && old(errors) <= errors && old(wirings) <= wirings && old(sinks) <= sinks
      ensures Valid() && Grown(old(scopes), scopes, ctx) && AddedUnder(scopes, |old(scopes)|, {})
      ensures SameElement(cur, node) && Below(cur.children, Depth(node))
      ensures VarsKept(old(scopes), scopes, ctx, LoopVars(Steps(node.tag, node.attrs, handlers)))
      ensures StoppedFor(Steps(node.tag, node.attrs, handlers), stop, errors)
      ensures StopRule(Steps(node.tag, node.attrs, handlers), stop, scopes, ctx)
      ensures NoFor(Steps(node.tag, node.attrs, handlers), Processed(stop, |node.attrs|)) ==> cur == node
      ensures Hooked(old(wirings), old(sinks), wirings, sinks, |old(scopes)|,
                     AttrWirings(Steps(node.tag, node.attrs, handlers), Processed(stop, |node.attrs|), ctx),
                     AttrListeners(Steps(node.tag, node.attrs, handlers), Processed(stop, |node.attrs|), ctx))
      ensures Blank(old(scopes), ctx) ==> scopes == old(scopes) && calls == old(calls)
    {
      ChildrenBelow(node.children);
      var steps := Steps(node.tag, node.attrs, handlers);
      VarsKeptByPrefix(scopes, scopes, ctx, LoopVars(steps));
      HookedNone(wirings, sinks, |scopes|);
      cur := node;
      var i := 0;
      while i < |node.attrs|
        invariant old(calls) <= calls && old(errors) <= errors && old(wirings) <= wirings && old(sinks) <= sinks
        invariant 0 <= i <= |node.attrs| && i <= FirstAbort(steps)
        invariant Valid() && ctx < |scopes| && Grown(old(scopes), scopes, ctx) && AddedUnder(scopes, |old(scopes)|, {})
        invariant SameElement(cur, node) && Below(cur.children, Depth(node))
        invariant VarsKept(old(scopes), scopes, ctx, LoopVars(steps))
        invariant ListsFound(steps, i, scopes, ctx) && (NoFor(steps, i) ==> cur == node)
        invariant Hooked(old(wirings), old(sinks), wirings, sinks, |old(scopes)|,
                         AttrWirings(steps, i, ctx), AttrListeners(steps, i, ctx))
        invariant Blank(old(scopes), ctx) ==> scopes == old(scopes) && calls == old(calls)
      {
        var ended;
        cur, ended := AttributeTurn(node, steps, i, cur, ctx, old(scopes), old(wirings), old(sinks));
        if ended {
          stop := i;
          return;
        }
        i := i + 1;
      }
      stop := |node.attrs|;
      StopRuleAt(steps, stop, scopes, ctx);
    }

    /**
     * Turn `i` of the attribute loop: attribute `i` is processed after the
     * attributes before it, which began from the arena `base` and the logs
     * `w0`, `s0` and found every list they named. When it ends the element,
     * the loop stops here by the stop rule; otherwise the loop's frame,
     * hooks and found lists extend to it.
     */
    method AttributeTurn(node: Node, steps: seq<Step>, i: nat, cur: Node, ctx: nat,
                         ghost base: seq<Scope>, ghost w0: seq<Wiring>, ghost s0: seq<Sink>)
      returns (next: Node, ended: bool)
      requires steps == Steps(node.tag, node.attrs, handlers) && i < |steps| && i <= FirstAbort(steps)
      requires Valid() && WellFormed(base) && ctx < |base| && Grown(base, scopes, ctx) && AddedUnder(scopes, |base|, {})
      requires SameElement(cur, node) && Below(cur.children, Depth(node))
      requires VarsKept(base, scopes, ctx, LoopVars(steps))
      requires ListsFound(steps, i, scopes, ctx) && (NoFor(steps, i) ==> cur == node)
      requires w0 <= wirings && s0 <= sinks
      requires Hooked(w0, s0, wirings, sinks, |base|, AttrWirings(steps, i, ctx), AttrListeners(steps, i, ctx))
      modifies this
      decreases Depth(node), 10
      ensures old(calls) <= calls && old(errors) <= errors && w0 <= wirings && s0 <= sinks
      ensures Valid() && ctx < |scopes| && SameElement(next, node) && Below(next.children, Depth(node))
      ensures NoFor(steps, i + 1) ==> next == node
      ensures Hooked(w0, s0, wirings, sinks, |base|, AttrWirings(steps, i + 1, ctx), AttrListeners(steps, i + 1, ctx))
      ensures ended ==> scopes == old(scopes) && StoppedFor(steps, i, errors) && StopRule(steps, i, scopes, ctx)
      ensures !ended ==>
              Grown(base, scopes, ctx) && AddedUnder(scopes, |base|, {}) && VarsKept(base, scopes, ctx, LoopVars(steps)) &&
              ListsFound(steps, i + 1, scopes, ctx) && i + 1 <= FirstAbort(steps)
      ensures Blank(old(scopes), ctx) ==> scopes == old(scopes) && calls == old(calls)
    {
      ghost var prev := scopes;
      ghost var (w, s) := (wirings, sinks);
      next, ended := RunStep(steps[i], cur, ctx, Depth(node));
      HookedAttr(w0, s0, w, s, wirings, sinks, |base|, |prev|, steps, i, ctx);
      if ended {
        StopRuleAt(steps, i, scopes, ctx);
      } else {
        AttrScopesTurn(steps, i, base, prev, scopes, ctx);
      }
    }

    /**
     * One attribute of the attribute loop, by its classification: nothing,
     * a diagnostic, the end of the element with a diagnostic, or the
     * directive applied. `ended` says the element's processing stops here:
     * on an abort, and on a `w-for` whose list is defined nowhere.
     */
    method RunStep(step: Step, cur: Node, ctx: nat, ghost bound: nat) returns (next: Node, ended: bool)
      requires Valid() && ctx < |scopes| && Below(cur.children, bound)
      modifies this
      decreases bound, 9
      ensures old(calls) <= calls && old(errors) <= errors && old(wirings) <= wirings && old(sinks) <= sinks
      ensures Valid() && Grown(old(scopes), scopes, ctx) && AddedUnder(scopes, |old(scopes)|, {})
      ensures SameElement(next, cur) && Below(next.children, bound)
      ensures VarsKept(old(scopes), scopes, ctx, if step.Act? && step.d.For? then {step.d.loopVar} else {})
      ensures Hooked(old(wirings), old(sinks), wirings, sinks, |old(scopes)|, StepWirings(step, ctx), StepListeners(step, ctx))
      ensures ended <==> step.Abort? || (step.Act? && step.d.For? && Resolve(old(scopes), ctx, step.d.listName).None?)
      ensures !(step.Act? && step.d.For?) ==> next == cur
      ensures !step.Act? ==>
              next == cur && scopes == old(scopes) && calls == old(calls) && wirings == old(wirings) && sinks == old(sinks) &&
              errors == old(errors) + (if step.Skip? then [] else [step.e])
      ensures ended && step.Act? ==>
              scopes == old(scopes) && |errors| > 0 && errors[|errors| - 1] == ForBindingNotFound(step.d.listName)
      ensures Blank(old(scopes), ctx) ==> scopes == old(scopes) && calls == old(calls)
    {
      next, ended := cur, false;
      match step {
        case Skip =>
          VarsKeptByPrefix(scopes, scopes, ctx, {});
          HookedNone(wirings, sinks, |scopes|);
        case Report(e) =>
          errors := errors + [e];
          VarsKeptByPrefix(scopes, scopes, ctx, {});
          HookedNone(wirings, sinks, |scopes|);
        case Abort(e) =>
          errors := errors + [e];
          VarsKeptByPrefix(scopes, scopes, ctx, {});
          HookedNone(wirings, sinks, |scopes|);
          ended := true;
        case Act(d) =>
          var ok;
          next, ok := Apply(d, cur, ctx, bound);
          ended := !ok;
      }
    }

    /**
     * The effect of one directive on the element `cur` in context `ctx`:
     * `w-data` and `w-on` attach their DOM listener, `w-content` is
     * `ApplyContent` and `w-for` is `ApplyFor`, whose contracts say what they
     * do to the contexts. It fails only when a `w-for` list is defined
     * nowhere up the chain.
     */
    method Apply(d: Directive, cur: Node, ctx: nat, ghost bound: nat) returns (next: Node, ok: bool)
      requires Valid() && ctx < |scopes| && Below(cur.children, bound)
      modifies this
      decreases bound, 8
      ensures old(calls) <= calls && old(errors) <= errors && old(wirings) <= wirings && old(sinks) <= sinks
      ensures Valid() && Grown(old(scopes), scopes, ctx) && AddedUnder(scopes, |old(scopes)|, {})
      ensures SameElement(next, cur) && Below(next.children, bound)
      ensures !d.For? ==> next == cur
      ensures VarsKept(old(scopes), scopes, ctx, if d.For? then {d.loopVar} else {})
      ensures Hooked(old(wirings), old(sinks), wirings, sinks, |old(scopes)|, StepWirings(Act(d), ctx), StepListeners(Act(d), ctx))
      ensures ok <==> !(d.For? && Resolve(old(scopes), ctx, d.listName).None?)
      ensures !ok ==> scopes == old(scopes) && |errors| > 0 && errors[|errors| - 1] == ForBindingNotFound(d.listName)
      ensures d.Data? ==>
              wirings == old(wirings) + [InputSync(ctx, d.stateName)] &&
              scopes == old(scopes) && calls == old(calls) && errors == old(errors) && sinks == old(sinks)
      ensures d.On? ==>
              wirings == old(wirings) + [EventHandler(ctx, d.event, d.handler)] &&
              scopes == old(scopes) && calls == old(calls) && errors == old(errors) && sinks == old(sinks)
      ensures d.Content? ==> sinks == old(sinks) + [TextSink(ctx, d.stateName)] && wirings == old(wirings) && calls == old(calls)
      ensures d.For? ==> old(sinks) + [ListSink(ctx, d.loopVar, cur.children)] <= sinks
      ensures Blank(old(scopes), ctx) ==> scopes == old(scopes) && calls == old(calls)
    {
      next, ok := cur, true;
      ghost var before := scopes;
      match d
      case Data(name) =>
        wirings := wirings + [InputSync(ctx, name)];
        HookedWiring(old(wirings), old(sinks), InputSync(ctx, name), |before|);
        VarsKeptByPrefix(before, scopes, ctx, {});
      case Content(name) =>
        assert StepWirings(Act(d), ctx) == [] && StepListeners(Act(d), ctx) == [OnText(ctx, name)];
        if Blank(before, ctx) {
          BlankResolvesNothing(before, ctx, name);
        }
        ApplyContent(name, ctx);
      case For(loopVar, listName) =>
        if Blank(before, ctx) {
          BlankResolvesNothing(before, ctx, listName);
        }
        ghost var walks;
        next, ok, walks := ApplyFor(loopVar, listName, cur, ctx, bound);
      case On(event, handler) =>
        wirings := wirings + [EventHandler(ctx, event, handler)];
        HookedWiring(old(wirings), old(sinks), EventHandler(ctx, event, handler), |before|);
        VarsKeptByPrefix(before, scopes, ctx, {});
    }

    /**
     * `w-content`: the text listener subscribes, without an immediate call,
     * to the nearest context up the chain that defines the state; when none
     * does, that is reported and nothing is subscribed.
     */
    method ApplyContent(name: string, ctx: nat)
      requires Valid() && ctx < |scopes|
      modifies this
      ensures Valid() && Grown(old(scopes), scopes, ctx) && AddedUnder(scopes, |old(scopes)|, {})
      ensures VarsKept(old(scopes), scopes, ctx, {})
      ensures Hooked(old(wirings), old(sinks), wirings, sinks, |old(scopes)|, [], [OnText(ctx, name)])
      ensures var found := Resolve(old(scopes), ctx, name);
              sinks == old(sinks) + [TextSink(ctx, name)] && wirings == old(wirings) && calls == old(calls) &&
              (found.None? ==> scopes == old(scopes) && errors == old(errors) + [UnresolvedSubscription(name)]) &&
              (found.Some? ==> scopes == Subscribed(old(scopes), found.value, name, |old(sinks)|) && errors == old(errors))
    {
      ghost var before := scopes;
      var id := |sinks|;
      sinks := sinks + [TextSink(ctx, name)];
      HookedSink(old(wirings), old(sinks), TextSink(ctx, name), |before|);
      var subscribed := Subscribe(ctx, name, id, false);
      if subscribed {
        GrownAt(before, scopes, ctx, Resolve(before, ctx, name).value);
        VarsKeptBySubscribed(before, Resolve(before, ctx, name).value, name, id, ctx, {});
      } else {
        VarsKeptByPrefix(before, scopes, ctx, {});
      }
    }

    /**
     * `w-for`: the element's children become the templates, the element is
     * emptied and the list listener subscribes with an immediate call; when
     * the list is defined in `ctx` itself that call renders it. It fails
     * only when the list is defined nowhere up the chain.
     */
    method ApplyFor(loopVar: string, listName: string, cur: Node, ctx: nat, ghost bound: nat) returns (next: Node, ok: bool, ghost walks: seq<Walk>)
      requires Valid() && ctx < |scopes| && Below(cur.children, bound)
      modifies this
      decreases bound, 7
      ensures old(calls) <= calls && old(errors) <= errors && old(wirings) <= wirings && old(sinks) <= sinks
      ensures Valid() && Grown(old(scopes), scopes, ctx) && AddedUnder(scopes, |old(scopes)|, {})
      ensures SameElement(next, cur) && Below(next.children, bound)
      ensures ok <==> Resolve(old(scopes), ctx, listName).Some?
      ensures VarsKept(old(scopes), scopes, ctx, {loopVar})
      ensures Hooked(old(wirings), old(sinks), wirings, sinks, |old(scopes)|, [], [OnList(ctx, loopVar)])
      ensures !ok ==> scopes == old(scopes) && |errors| > 0 && errors[|errors| - 1] == ForBindingNotFound(listName)
      ensures old(sinks) + [ListSink(ctx, loopVar, cur.children)] <= sinks
      ensures Resolve(old(scopes), ctx, listName).None? ==>
              next.children == [] && scopes == old(scopes) && calls == old(calls) &&
              errors == old(errors) + [UnresolvedSubscription(listName), ForBindingNotFound(listName)]
      ensures Resolve(old(scopes), ctx, listName).Some? && listName !in old(scopes)[ctx].vars ==>
              next.children == [] && calls == old(calls) && errors == old(errors) &&
              scopes == Subscribed(old(scopes), Resolve(old(scopes), ctx, listName).value, listName, |old(sinks)|)
      ensures listName in old(scopes)[ctx].vars ==>
              LocalListRendered(old(scopes), old(calls), old(errors), loopVar, listName, cur.children, ctx, |old(sinks)|,
                                next.children, walks)
    {
      next, ok, walks := cur, true, [];
      ghost var before := scopes;
      var templates := cur.children;
      next := cur.(children := []);
      var id := |sinks|;
      sinks := sinks + [ListSink(ctx, loopVar, templates)];
      HookedSink(old(wirings), old(sinks), ListSink(ctx, loopVar, templates), |before|);
      if listName in scopes[ctx].vars {
        // The list is local: the subscription's immediate call renders it.
        assert Resolve(before, ctx, listName) == Some(ctx);
        ghost var (w, s) := (wirings, sinks);
        var rendered;
        rendered, walks := RenderLocalList(loopVar, listName, templates, ctx, id, bound);
        HookedQuiet(old(wirings), old(sinks), w, s, wirings, sinks, |before|, [], [OnList(ctx, loopVar)]);
        next := next.(children := rendered);
      } else {
        ok := Subscribe(ctx, listName, id, true);
        if !ok {
          errors := errors + [ForBindingNotFound(listName)];
          VarsKeptByPrefix(before, scopes, ctx, {loopVar});
          return;
        }
        GrownAt(before, scopes, ctx, Resolve(before, ctx, listName).value);
        VarsKeptBySubscribed(before, Resolve(before, ctx, listName).value, listName, id, ctx, {loopVar});
      }
    }

    /**
     * The local case of `w-for`: registering listener `id` on the list in
     * `ctx` itself calls it at once with the list, which renders the
     * templates into the emptied element (`LocalListRendered`).
     */
    method RenderLocalList(loopVar: string, listName: string, templates: seq<Node>, ctx: nat, id: ListenerId, ghost bound: nat)
      returns (children: seq<Node>, ghost walks: seq<Walk>)
      requires Valid() && ctx < |scopes| && Below(templates, bound) && listName in scopes[ctx].vars
      modifies this
      decreases bound, 6
      ensures old(calls) <= calls && old(errors) <= errors && old(wirings) <= wirings && old(sinks) <= sinks
      ensures Valid() && Grown(old(scopes), scopes, ctx) && AddedUnder(scopes, |old(scopes)|, {})
      ensures Below(children, bound) && VarsKept(old(scopes), scopes, ctx, {loopVar})
      ensures Quiet(old(wirings), old(sinks), wirings, sinks, |old(scopes)|)
      ensures LocalListRendered(old(scopes), old(calls), old(errors), loopVar, listName, templates, ctx, id, children, walks)
    {
      ghost var before := scopes;
      var ok := Subscribe(ctx, listName, id, true);
      assert Resolve(before, ctx, listName) == Some(ctx);
      ghost var subscribed := scopes;
      GrownAt(before, subscribed, ctx, ctx);
      ghost var roots;
      var v := scopes[ctx].vars[listName];
      children, roots, walks := RenderList(templates, loopVar, ctx, v, [], bound);
      GrownTrans(before, subscribed, scopes, ctx);
      VarsKeptBySubscribed(before, ctx, listName, id, ctx, {});
      VarsKeptByStore(before, subscribed, scopes, ctx, loopVar,
                      if v.List? && |v.items| > 0 && |templates| > 0 then Some(v.items[|v.items| - 1]) else None);
    }

    /**
     * `onListUpdate`: a non-array leaves the container's children `current`
     * as they are. An array replaces them by one processed clone of every
     * template per item, item-major; clone `k` is its template walked along
     * `walks[k]`, at every depth, from the new root context `roots[k]`, after
     * the item was declared under the loop variable in the directive's own
     * context `ctx`. Of the contexts that existed before, only `ctx` changes,
     * and only in that variable. Each declaration notifies the listeners of
     * that variable in `ctx`, and those are all the calls the render makes
     * (`RenderCalls`).
     */
    method RenderList(templates: seq<Node>, loopVar: string, ctx: nat, value: Value, current: seq<Node>, ghost bound: nat)
      returns (children: seq<Node>, ghost roots: seq<nat>, ghost walks: seq<Walk>)
      requires Valid() && ctx < |scopes| && Below(templates, bound) && Below(current, bound)
      modifies this
      decreases bound, 5
      ensures old(errors) <= errors && old(wirings) <= wirings && old(sinks) <= sinks
      ensures Valid() && Grown(old(scopes), scopes, ctx) && AddedUnder(scopes, |old(scopes)|, {}) && Below(children, bound)
      ensures Quiet(old(wirings), old(sinks), wirings, sinks, |old(scopes)|)
      ensures !value.List? ==>
              children == current && scopes == old(scopes) && calls == old(calls) &&
              errors == old(errors) + [NotAnArray] && wirings == old(wirings) && sinks == old(sinks)
      ensures value.List? ==>
              |children| == |value.items| * |templates| && ItemMajorLayout(children, templates, |value.items|) &&
              calls == old(calls) + RenderCalls(old(scopes)[ctx], loopVar, value.items, |templates|)
      ensures |roots| == |children| - (if value.List? then 0 else |current|)
      ensures FreshRoots(scopes, |old(scopes)|, roots)
      ensures StoredLast(old(scopes), ctx, loopVar,
                         if value.List? && |value.items| > 0 && |templates| > 0 then Some(value.items[|value.items| - 1]) else None) <= scopes
      ensures |walks| == |roots| && forall k :: 0 <= k < |walks| ==> walks[k].ctx == roots[k]
      ensures value.List? ==> AllWalked(Repeat(templates, |value.items|), children, walks, handlers, scopes, wirings, sinks)
    {
      if !value.List? {
        errors := errors + [NotAnArray];
        children, roots, walks := current, [], [];
        return;
      }
      var items := value.items;
      var t := |templates|;
      children, roots, walks := RenderItems(templates, loopVar, ctx, items, bound);
      LayoutLength(children, templates, |items|);
      GrownByStore(old(scopes), scopes, ctx, loopVar, if |items| > 0 && t > 0 then Some(items[|items| - 1]) else None);
    }

    /**
     * The item loop of `onListUpdate`: one block of clones per item; the
     * clones are the walks of `|items|` copies of the templates, each from
     * its own new root context.
     */
    method RenderItems(templates: seq<Node>, loopVar: string, ctx: nat, items: seq<Value>, ghost bound: nat)
      returns (children: seq<Node>, ghost roots: seq<nat>, ghost walks: seq<Walk>)
      requires Valid() && ctx < |scopes| && Below(templates, bound)
      modifies this
      decreases bound, 4
      ensures calls == old(calls) + RenderCalls(old(scopes)[ctx], loopVar, items, |templates|)
      ensures old(errors) <= errors && old(wirings) <= wirings && old(sinks) <= sinks
      ensures Valid() && ParentsKept(old(scopes), scopes) && AddedUnder(scopes, |old(scopes)|, {}) && Below(children, bound)
      ensures ItemMajorLayout(children, templates, |items|) && |roots| == |children|
      ensures Quiet(old(wirings), old(sinks), wirings, sinks, |old(scopes)|)
      ensures FreshRoots(scopes, |old(scopes)|, roots)
      ensures StoredLast(old(scopes), ctx, loopVar, if |items| > 0 && |templates| > 0 then Some(items[|items| - 1]) else None) <= scopes
      ensures AllWalked(Repeat(templates, |items|), children, walks, handlers, scopes, wirings, sinks) &&
              forall k :: 0 <= k < |walks| ==> walks[k].ctx == roots[k]
    {
      children, roots, walks := [], [], [];
      var i := 0;
      while i < |items|
        invariant old(errors) <= errors && 0 <= i <= |items| && Below(children, bound)
        invariant ItemsRendered(templates, loopVar, ctx, items, i, children, roots, walks,
                                old(scopes), old(calls), old(wirings), old(sinks))
      {
        children, roots, walks := ItemTurn(templates, loopVar, ctx, items, i, bound, children, roots, walks,
                                           old(scopes), old(calls), old(wirings), old(sinks));
        i := i + 1;
      }
      assert items[..i] == items;
    }

    /**
     * The clones for one item: one clone of each template, in order; clone
     * `m` is its template walked along `walks[m]` from the new root context
     * `roots[m]`, after the item was declared under the loop variable in `ctx`.
     * The calls are the notifications of those declarations, one per template.
     */
    method RenderItem(templates: seq<Node>, loopVar: string, ctx: nat, item: Value, ghost bound: nat)
      returns (clones: seq<Node>, ghost roots: seq<nat>, ghost walks: seq<Walk>)
      requires Valid() && ctx < |scopes| && Below(templates, bound)
      modifies this
      decreases bound, 2
      ensures calls == old(calls) + Repeat(Notified(old(scopes)[ctx], loopVar, item), |templates|)
      ensures old(errors) <= errors && old(wirings) <= wirings && old(sinks) <= sinks
      ensures Valid() && ParentsKept(old(scopes), scopes) && AddedUnder(scopes, |old(scopes)|, {}) && Below(clones, bound)
      ensures ClonesOf(clones, templates) && |roots| == |clones|
      ensures Quiet(old(wirings), old(sinks), wirings, sinks, |old(scopes)|)
      ensures FreshRoots(scopes, |old(scopes)|, roots)
      ensures StoredLast(old(scopes), ctx, loopVar, if |templates| > 0 then Some(item) else None) <= scopes
      ensures AllWalked(templates, clones, walks, handlers, scopes, wirings, sinks) &&
              forall m :: 0 <= m < |walks| ==> walks[m].ctx == roots[m]
    {
      clones, roots, walks := [], [], [];
      var j := 0;
      while j < |templates|
        invariant old(errors) <= errors && 0 <= j <= |templates| && Below(clones, bound)
        invariant ClonesRendered(templates, loopVar, ctx, item, j, clones, roots, walks,
                                 old(scopes), old(calls), old(wirings), old(sinks))
      {
        clones, roots, walks := CloneTurn(templates, loopVar, ctx, item, j, bound, clones, roots, walks,
                                          old(scopes), old(calls), old(wirings), old(sinks));
        j := j + 1;
      }
      assert templates[..j] == templates;
    }

    /**
     * One clone of the list render: a new root context `r`, the item declared
     * under the loop variable in `ctx`, and the template processed in `r`.
     * The processing reaches no context that existed before, so the old
     * arena only gains the declaration, and the declaration's notifications
     * are the only calls.
     */
    method RenderClone(template: Node, loopVar: string, ctx: nat, item: Value, ghost bound: nat)
      returns (clone: Node, r: nat, stop: nat, ghost walk: Walk)
      requires Valid() && ctx < |scopes| && Depth(template) < bound
      modifies this
      decreases bound, 0
      ensures calls == old(calls) + Notified(old(scopes)[ctx], loopVar, item)
      ensures old(errors) <= errors && old(wirings) <= wirings && old(sinks) <= sinks
      ensures Valid() && ParentsKept(old(scopes), scopes) && AddedUnder(scopes, |old(scopes)|, {})
      ensures SameElement(clone, template) && Depth(clone) < bound
      ensures r == |old(scopes)| && r < |scopes| && scopes[r].parent == None && scopes[r].proxied
      ensures Assigned(old(scopes), ctx, loopVar, item) <= scopes
      ensures StoppedFor(Steps(template.tag, template.attrs, handlers), stop, errors)
      ensures StopRule(Steps(template.tag, template.attrs, handlers), stop, scopes, r)
      ensures Hooked(old(wirings), old(sinks), wirings, sinks, r + 1,
                     AttrWirings(Steps(template.tag, template.attrs, handlers), Processed(stop, |template.attrs|), r),
                     AttrListeners(Steps(template.tag, template.attrs, handlers), Processed(stop, |template.attrs|), r))
      ensures Quiet(old(wirings), old(sinks), wirings, sinks, |old(scopes)|)
      ensures walk.ctx == r && walk.stop == stop && AllWalked([template], [clone], [walk], handlers, scopes, wirings, sinks)
      ensures ForFree(template, handlers) ==> clone == template
    {
      ghost var before := scopes;
      r := NewRoot();
      assert scopes[ctx] == before[ctx];
      Declare(ctx, loopVar, item);
      ghost var prepared := scopes;
      RootBlankAfterStore(before, prepared, ctx, loopVar, item);
      clone, stop, walk := WalkClone(template, r, bound);
      ParentsKeptTrans(before, prepared, scopes);
    }

    /**
     * The processing of a clone in the root context `r` just made for it. It
     * reaches no context made before `r`, and as nothing is defined along
     * `r`'s chain it finds no list and calls no listener.
     */
    method WalkClone(template: Node, r: nat, ghost bound: nat) returns (clone: Node, stop: nat, ghost walk: Walk)
      requires Valid() && r + 1 == |scopes| && scopes[r].parent == None && Blank(scopes, r) && Depth(template) < bound
      modifies this
      decreases Depth(template), 13
      ensures calls == old(calls) && old(errors) <= errors && old(wirings) <= wirings && old(sinks) <= sinks
      ensures Valid() && ParentsKept(old(scopes), scopes) && AddedUnder(scopes, r, {})
      ensures forall i :: 0 <= i < r ==> scopes[i] == old(scopes)[i]
      ensures SameElement(clone, template) && Depth(clone) < bound
      ensures StoppedFor(Steps(template.tag, template.attrs, handlers), stop, errors)
      ensures StopRule(Steps(template.tag, template.attrs, handlers), stop, scopes, r)
      ensures Hooked(old(wirings), old(sinks), wirings, sinks, r + 1,
                     AttrWirings(Steps(template.tag, template.attrs, handlers), Processed(stop, |template.attrs|), r),
                     AttrListeners(Steps(template.tag, template.attrs, handlers), Processed(stop, |template.attrs|), r))
      ensures Quiet(old(wirings), old(sinks), wirings, sinks, r)
      ensures walk.ctx == r && walk.stop == stop && AllWalked([template], [clone], [walk], handlers, scopes, wirings, sinks)
      ensures ForFree(template, handlers) ==> clone == template
    {
      ghost var prepared := scopes;
      ghost var kids, ctxs, stops;
      clone, stop, kids, ctxs, stops, walk := ConsiderNode(template, r);
      AttrHooksIn(Steps(template.tag, template.attrs, handlers), Processed(stop, |template.attrs|), r);
      HookedNarrow(old(wirings), old(sinks), wirings, sinks, r, r + 1,
                   AttrWirings(Steps(template.tag, template.attrs, handlers), Processed(stop, |template.attrs|), r),
                   AttrListeners(Steps(template.tag, template.attrs, handlers), Processed(stop, |template.attrs|), r));
      forall i | 0 <= i < r
        ensures scopes[i] == prepared[i]
      {
        assert !OnChain(prepared, r, i);
      }
    }

    /** One child of the child loop: a fresh plain context under `ctx`, and the child processed in it. */
    method ConsiderChild(child: Node, ctx: nat, ghost bound: nat) returns (o: Node, k: nat, stop: nat, ghost walk: Walk)
      requires Valid() && ctx < |scopes| && Depth(child) < bound
      modifies this
      decreases bound, 1
      ensures old(calls) <= calls && old(errors) <= errors && old(wirings) <= wirings && old(sinks) <= sinks
      ensures Valid() && Grown(old(scopes), scopes, ctx) && AddedUnder(scopes, |old(scopes)|, {ctx})
      ensures SameElement(o, child) && Depth(o) < bound
      ensures k == |old(scopes)| && k < |scopes| && scopes[k].parent == Some(ctx) && !scopes[k].proxied
      ensures VarsKept(old(scopes), scopes, ctx, {}) && scopes[k].vars.Keys <= LoopVars(Steps(child.tag, child.attrs, handlers))
      ensures StoppedFor(Steps(child.tag, child.attrs, handlers), stop, errors)
      ensures StopRule(Steps(child.tag, child.attrs, handlers), stop, scopes, k)
      ensures Hooked(old(wirings), old(sinks), wirings, sinks, k + 1,
                     AttrWirings(Steps(child.tag, child.attrs, handlers), Processed(stop, |child.attrs|), k),
                     AttrListeners(Steps(child.tag, child.attrs, handlers), Processed(stop, |child.attrs|), k))
      ensures Quiet(old(wirings), old(sinks), wirings, sinks, |old(scopes)|)
      ensures walk.ctx == k && walk.stop == stop && AllWalked([child], [o], [walk], handlers, scopes, wirings, sinks)
      ensures ForFree(child, handlers) ==> o == child
      ensures Blank(old(scopes), ctx) ==> calls == old(calls)
    {
      ghost var before := scopes;
      k := NewChild(ctx);
      ghost var prepared := scopes;
      if Blank(before, ctx) {
        VarsKeptByPrefix(before, prepared, ctx, {});
        BlankKept(before, prepared, ctx);
      }
      ghost var kids, ctxs, stops;
      o, stop, kids, ctxs, stops, walk := ConsiderNode(child, k);
      AttrHooksIn(Steps(child.tag, child.attrs, handlers), Processed(stop, |child.attrs|), k);
      HookedNarrow(old(wirings), old(sinks), wirings, sinks, k, k + 1,
                   AttrWirings(Steps(child.tag, child.attrs, handlers), Processed(stop, |child.attrs|), k),
                   AttrListeners(Steps(child.tag, child.attrs, handlers), Processed(stop, |child.attrs|), k));
      GrownThroughFresh(before, prepared, scopes, ctx, k);
      VarsKeptThroughFresh(before, prepared, scopes, ctx, k, LoopVars(Steps(child.tag, child.attrs, handlers)));
      GainedOnly(prepared, scopes, k, LoopVars(Steps(child.tag, child.attrs, handlers)));
    }

    /**
     * The child loop of `considerNode`: child `i` is processed in the new
     * context `ctxs[i]`, made for it, whose parent is `ctx` and whose state
     * is a plain object, and stops at `stops[i]` by the stop rule there;
     * `walks[i]` records its whole walk.
     */
    method ConsiderChildren(children: seq<Node>, ctx: nat, ghost bound: nat)
      returns (out: seq<Node>, ghost ctxs: seq<nat>, ghost stops: seq<nat>, ghost walks: seq<Walk>)
      requires Valid() && ctx < |scopes| && Below(children, bound)
      modifies this
      decreases bound, 3
      ensures old(calls) <= calls && old(errors) <= errors && old(wirings) <= wirings && old(sinks) <= sinks
      ensures Valid() && Grown(old(scopes), scopes, ctx) && AddedUnder(scopes, |old(scopes)|, {ctx}) && Below(out, bound)
      ensures |out| == |children| && |ctxs| == |children|
      ensures forall i :: 0 <= i < |out| ==> SameElement(out[i], children[i])
      ensures ChildContexts(scopes, |old(scopes)|, ctx, ctxs)
      ensures VarsKept(old(scopes), scopes, ctx, {})
      ensures Attached(out, handlers, stops, ctxs, wirings, sinks)
      ensures ChildStops(out, handlers, stops, ctxs, scopes)
      ensures Quiet(old(wirings), old(sinks), wirings, sinks, |old(scopes)|)
      ensures AllWalked(children, out, walks, handlers, scopes, wirings, sinks) &&
              forall i :: 0 <= i < |walks| ==> walks[i].ctx == ctxs[i]
      ensures forall i :: 0 <= i < |out| && ForFree(children[i], handlers) ==> out[i] == children[i]
      ensures Blank(old(scopes), ctx) ==> calls == old(calls)
    {
      VarsKeptByPrefix(scopes, scopes, ctx, {});
      out, ctxs, stops, walks := [], [], [], [];
      var i := 0;
      while i < |children|
        invariant old(calls) <= calls && old(errors) <= errors && old(wirings) <= wirings && old(sinks) <= sinks
        invariant 0 <= i <= |children|
        invariant Valid() && ctx < |scopes| && Grown(old(scopes), scopes, ctx) && AddedUnder(scopes, |old(scopes)|, {ctx})
        invariant Below(out, bound)
        invariant |out| == i && |ctxs| == i
        invariant forall m :: 0 <= m < i ==> SameElement(out[m], children[m])
        invariant ChildContexts(scopes, |old(scopes)|, ctx, ctxs)
        invariant VarsKept(old(scopes), scopes, ctx, {})
        invariant Quiet(old(wirings), old(sinks), wirings, sinks, |old(scopes)|)
        invariant |stops| == i && AllWalked(children[..i], out, walks, handlers, scopes, wirings, sinks) &&
                  forall m :: 0 <= m < i ==> walks[m].ctx == ctxs[m] && walks[m].stop == stops[m]
        invariant Blank(old(scopes), ctx) ==> calls == old(calls)
      {
        out, ctxs, stops, walks := ChildTurn(children, i, ctx, bound, out, ctxs, stops, walks, old(scopes), old(wirings), old(sinks));
        i := i + 1;
      }
      assert children[..i] == children;
      AllWalkedSummary(children, out, walks, handlers, stops, ctxs, scopes, wirings, sinks);
      AllForFreeUnchanged(children, out, walks, handlers, scopes, wirings, sinks);
    }

    /** One turn of the child loop: child `i` is processed in a new context and joins the children before it. */
    method ChildTurn(children: seq<Node>, i: nat, ctx: nat, ghost bound: nat, out: seq<Node>,
                     ghost ctxs: seq<nat>, ghost stops: seq<nat>, ghost walks: seq<Walk>,
                     ghost base: seq<Scope>, ghost w0: seq<Wiring>, ghost s0: seq<Sink>)
      returns (out': seq<Node>, ghost ctxs': seq<nat>, ghost stops': seq<nat>, ghost walks': seq<Walk>)
      requires i < |children| && Below(children, bound) && Below(out, bound)
      requires Valid() && WellFormed(base) && ctx < |base| && Grown(base, scopes, ctx) && AddedUnder(scopes, |base|, {ctx})
      requires |out| == i && |ctxs| == i && forall m :: 0 <= m < i ==> SameElement(out[m], children[m])
      requires ChildContexts(scopes, |base|, ctx, ctxs) && VarsKept(base, scopes, ctx, {})
      requires w0 <= wirings && s0 <= sinks && Quiet(w0, s0, wirings, sinks, |base|)
      requires |stops| == i && AllWalked(children[..i], out, walks, handlers, scopes, wirings, sinks) &&
               forall m :: 0 <= m < i ==> walks[m].ctx == ctxs[m] && walks[m].stop == stops[m]
      modifies this
      decreases bound, 2
      ensures old(calls) <= calls && old(errors) <= errors && w0 <= wirings && s0 <= sinks
      ensures Valid() && ctx < |scopes| && Grown(base, scopes, ctx) && AddedUnder(scopes, |base|, {ctx}) && Below(out', bound)
      ensures |out'| == i + 1 && |ctxs'| == i + 1 && forall m :: 0 <= m < i + 1 ==> SameElement(out'[m], children[m])
      ensures ChildContexts(scopes, |base|, ctx, ctxs') && VarsKept(base, scopes, ctx, {})
      ensures Quiet(w0, s0, wirings, sinks, |base|)
      ensures |stops'| == i + 1 && AllWalked(children[..i + 1], out', walks', handlers, scopes, wirings, sinks) &&
              forall m :: 0 <= m < i + 1 ==> walks'[m].ctx == ctxs'[m] && walks'[m].stop == stops'[m]
      ensures Blank(base, ctx) ==> calls == old(calls)
    {
      ghost var prev := scopes;
      ghost var (w, s) := (wirings, sinks);
      ghost var walk;
      var o, k, stop;
      if Blank(base, ctx) {
        BlankKept(base, prev, ctx);
      }
      o, k, stop, walk := ConsiderChild(children[i], ctx, bound);
      QuietTrans(w0, s0, w, s, wirings, sinks, |base|, |prev|);
      ChildWalkNext(children, i, out, ctxs, stops, walks, handlers, prev, scopes, w, s, wirings, sinks, ctx, o, k, stop, walk);
      GrownTrans(base, prev, scopes, ctx);
      AddedUnderTrans(prev, scopes, |base|, {ctx}, {ctx});
      VarsKeptTrans(base, prev, scopes, ctx, {}, {});
      ChildContextsAppend(prev, scopes, |base|, ctx, ctxs, k);
      SameElementsAppend(out, children, o);
      BelowAppend(out, [o], bound);
      out', ctxs', stops', walks' := out + [o], ctxs + [k], stops + [stop], walks + [walk];
    }

    /** One turn of the item loop: the clones for item `i` follow the blocks of the items before it. */
    method ItemTurn(templates: seq<Node>, loopVar: string, ctx: nat, items: seq<Value>, i: nat, ghost bound: nat,
                    children: seq<Node>, ghost roots: seq<nat>, ghost walks: seq<Walk>,
                    ghost base: seq<Scope>, ghost c0: seq<Call>, ghost w0: seq<Wiring>, ghost s0: seq<Sink>)
      returns (children': seq<Node>, ghost roots': seq<nat>, ghost walks': seq<Walk>)
      requires i < |items| && Below(templates, bound) && Below(children, bound)
      requires ItemsRendered(templates, loopVar, ctx, items, i, children, roots, walks, base, c0, w0, s0)
      modifies this
      decreases bound, 3
      ensures old(errors) <= errors && Below(children', bound)
      ensures ItemsRendered(templates, loopVar, ctx, items, i + 1, children', roots', walks', base, c0, w0, s0)
    {
      ghost var prev := scopes;
      ghost var earlier := if i > 0 && |templates| > 0 then Some(items[i - 1]) else None;
      ghost var last := if |templates| > 0 then Some(items[i]) else None;
      ghost var (w, s) := (wirings, sinks);
      ghost var mid := calls;
      ghost var rs, ws;
      var clones;
      clones, rs, ws := RenderItem(templates, loopVar, ctx, items[i], bound);
      ItemCallsNext(c0, base, prev, ctx, loopVar, earlier, items, i, |templates|, mid, calls);
      RenderWalksNext(Repeat(templates, i), children, walks, roots, templates, clones, ws, rs, handlers,
                      base, prev, scopes, ctx, loopVar, earlier, last, w, s, wirings, sinks);
      RepeatNext(templates, i);
      QuietTrans(w0, s0, w, s, wirings, sinks, |base|, |prev|);
      AssignedNext(base, prev, scopes, ctx, loopVar, earlier, last);
      ExtendLayout(children, templates, i, clones);
      ParentsKeptTrans(base, prev, scopes);
      AddedUnderTrans(prev, scopes, |base|, {}, {});
      FreshRootsAppend(prev, scopes, |base|, roots, rs);
      BelowAppend(children, clones, bound);
      children', roots', walks' := children + clones, roots + rs, walks + ws;
    }

    /** One turn of the template loop: the clone of template `j` follows the clones before it. */
    method CloneTurn(templates: seq<Node>, loopVar: string, ctx: nat, item: Value, j: nat, ghost bound: nat,
                     clones: seq<Node>, ghost roots: seq<nat>, ghost walks: seq<Walk>,
                     ghost base: seq<Scope>, ghost c0: seq<Call>, ghost w0: seq<Wiring>, ghost s0: seq<Sink>)
      returns (clones': seq<Node>, ghost roots': seq<nat>, ghost walks': seq<Walk>)
      requires j < |templates| && Below(templates, bound) && Below(clones, bound)
      requires ClonesRendered(templates, loopVar, ctx, item, j, clones, roots, walks, base, c0, w0, s0)
      modifies this
      decreases bound, 1
      ensures old(errors) <= errors && Below(clones', bound)
      ensures ClonesRendered(templates, loopVar, ctx, item, j + 1, clones', roots', walks', base, c0, w0, s0)
    {
      ghost var prev := scopes;
      ghost var earlier := if j > 0 then Some(item) else None;
      ghost var (w, s) := (wirings, sinks);
      ghost var mid := calls;
      ghost var walk;
      var clone, r, stop;
      clone, r, stop, walk := RenderClone(templates[j], loopVar, ctx, item, bound);
      CloneCallsNext(c0, base, prev, ctx, loopVar, earlier, item, j, mid, calls);
      RenderWalksNext(templates[..j], clones, walks, roots, [templates[j]], [clone], [walk], [r], handlers,
                      base, prev, scopes, ctx, loopVar, earlier, Some(item), w, s, wirings, sinks);
      PrefixNext(templates, j);
      QuietTrans(w0, s0, w, s, wirings, sinks, |base|, |prev|);
      AssignedNext(base, prev, scopes, ctx, loopVar, earlier, Some(item));
      ParentsKeptTrans(base, prev, scopes);
      AddedUnderTrans(prev, scopes, |base|, {}, {});
      FreshRootsAppend(prev, scopes, |base|, roots, [r]);
      BelowAppend(clones, [clone], bound);
      SameElementsAppend(clones, templates, clone);
      clones', roots', walks' := clones + [clone], roots + [r], walks + [walk];
    }
  }
}
