/**
 * The context (scope) tree, as an arena: context `c` is `scopes[c]`, and a
 * context's parent always has a smaller index, so following parents ends at
 * a root. Every operation on contexts that the binder performs is specified
 * here by a function on the arena.
 */
module Contexts {
  import opened Wrappers
  import DefaultMaps

  /** A value held in a context's local state; the code only ever asks whether it is an array. */
  datatype Value = Text(s: string) | Number(n: int) | List(items: seq<Value>)

  /** A state-change callback, known by the identity it was given when it was created. */
  type ListenerId = nat

  /** One invocation of a listener, with the value it was passed. */
  datatype Call = Call(listener: ListenerId, value: Value)

  /**
   * A context: its parent, whether its state object is the notifying Proxy
   * (contexts made by `emptyContext`) or a plain object (the child contexts
   * of the tree walk), its variables and its per-name listener lists.
   */
  datatype Scope = Scope(
    parent: Option<nat>,
    proxied: bool,
    vars: map<string, Value>,
    listeners: map<string, seq<ListenerId>>)

  ghost predicate WellFormed(scopes: seq<Scope>)
  {
    forall i :: 0 <= i < |scopes| && scopes[i].parent.Some? ==> scopes[i].parent.value < i
  }

  /** The contexts from `c` up to its root: `c`, its parent, its grandparent, ... */
  function Chain(scopes: seq<Scope>, c: nat): (chain: seq<nat>)
    requires WellFormed(scopes) && c < |scopes|
    ensures |chain| >= 1 && chain[0] == c
    ensures forall k :: 0 <= k < |chain| ==> chain[k] <= c
    ensures forall k {:trigger scopes[chain[k]]} :: 0 <= k < |chain| - 1 ==> scopes[chain[k]].parent == Some(chain[k + 1])
    ensures scopes[chain[|chain| - 1]].parent == None
    decreases c
  {
    match scopes[c].parent
    case None => [c]
    case Some(p) => [c] + Chain(scopes, p)
  }

  /**
   * The context a read or write of `name` from `c` reaches: `c` itself
   * when it defines `name`, otherwise the parent's resolution; `None` when
   * the search reaches the root without finding it.
   */
  function Resolve(scopes: seq<Scope>, c: nat, name: string): (r: Option<nat>)
    requires WellFormed(scopes) && c < |scopes|
    ensures r.Some? ==> r.value in Chain(scopes, c) && name in scopes[r.value].vars
    decreases c
  {
    if name in scopes[c].vars then Some(c)
    else match scopes[c].parent
      case None => None
      case Some(p) => Resolve(scopes, p, name)
  }

  /**
   * Resolution finds the nearest defining context on the chain (no context
   * between `c` and it defines the name), and fails exactly when no context
   * on the chain defines the name.
   */
  lemma {:induction false} ResolveNearest(scopes: seq<Scope>, c: nat, name: string)
    requires WellFormed(scopes) && c < |scopes|
    ensures Resolve(scopes, c, name).None? <==>
            forall a :: a in Chain(scopes, c) ==> name !in scopes[a].vars
    ensures Resolve(scopes, c, name).Some? ==>
            forall a :: a in Chain(scopes, c) && a > Resolve(scopes, c, name).value ==> name !in scopes[a].vars
    decreases c
  {
    if name !in scopes[c].vars && scopes[c].parent.Some? {
      ResolveNearest(scopes, scopes[c].parent.value, name);
    }
  }

  /** The arena after `name := v` is stored in context `k`. */
  function Assigned(scopes: seq<Scope>, k: nat, name: string, v: Value): (r: seq<Scope>)
    requires k < |scopes|
    ensures |r| == |scopes|
    ensures r[k].vars == scopes[k].vars[name := v] && r[k].listeners == scopes[k].listeners
    ensures forall i :: 0 <= i < |r| ==> r[i].parent == scopes[i].parent && r[i].proxied == scopes[i].proxied
    ensures forall i :: 0 <= i < |r| && i != k ==> r[i] == scopes[i]
  {
    scopes[k := scopes[k].(vars := scopes[k].vars[name := v])]
  }

  /** The arena after a run of stores of `name` in `k` whose last value was `last`, or untouched when there was none. */
  function StoredLast(scopes: seq<Scope>, k: nat, name: string, last: Option<Value>): (r: seq<Scope>)
    requires k < |scopes|
    ensures |r| == |scopes|
  {
    if last.None? then scopes else Assigned(scopes, k, name, last.value)
  }

  /** A second store of the same name in the same context overrides the first. */
  lemma AssignedTwice(scopes: seq<Scope>, k: nat, name: string, v: Value, w: Value)
    requires k < |scopes|
    ensures Assigned(Assigned(scopes, k, name, v), k, name, w) == Assigned(scopes, k, name, w)
  {
    assert scopes[k].vars[name := v][name := w] == scopes[k].vars[name := w];
  }

  /** Following parents depends only on the parent links of the contexts involved. */
  lemma {:induction false} ChainFrame(a: seq<Scope>, b: seq<Scope>, c: nat)
    requires WellFormed(a) && WellFormed(b) && c < |a| <= |b|
    requires forall i :: 0 <= i < |a| ==> b[i].parent == a[i].parent
    ensures Chain(b, c) == Chain(a, c)
    decreases c
  {
    if a[c].parent.Some? {
      ChainFrame(a, b, a[c].parent.value);
    }
  }

  /**
   * Declaring `name` in context `k` changes no resolution from a context
   * outside `k`'s subtree, and from inside it (from `k` or a descendant)
   * resolution now stops at `k` or nearer: the inner declaration shadows
   * every outer one.
   */
  lemma {:induction false} DeclarationShadows(scopes: seq<Scope>, k: nat, name: string, v: Value, c: nat)
    requires WellFormed(scopes) && k < |scopes| && c < |scopes|
    ensures WellFormed(Assigned(scopes, k, name, v))
    ensures k !in Chain(scopes, c) ==>
            Resolve(Assigned(scopes, k, name, v), c, name) == Resolve(scopes, c, name)
    ensures k in Chain(scopes, c) ==>
            Resolve(Assigned(scopes, k, name, v), c, name).Some? &&
            Resolve(Assigned(scopes, k, name, v), c, name).value >= k
    decreases c
  {
    var after := Assigned(scopes, k, name, v);
    ChainFrame(scopes, after, c);
    if c != k && name !in scopes[c].vars && scopes[c].parent.Some? {
      DeclarationShadows(scopes, k, name, v, scopes[c].parent.value);
    }
  }

  /** The listeners registered for `name` in a context, in registration order. */
  function ListenersFor(s: Scope, name: string): seq<ListenerId>
  {
    if name in s.listeners then s.listeners[name] else []
  }

  /** One call per listener, in list order, each passed `v`. */
  function Notify(ls: seq<ListenerId>, v: Value): (calls: seq<Call>)
    ensures |calls| == |ls|
    ensures forall i :: 0 <= i < |ls| ==> calls[i] == Call(ls[i], v)
  {
    if ls == [] then [] else [Call(ls[0], v)] + Notify(ls[1..], v)
  }

  /** The calls a write of `v` to `name` in `s` makes: none when `s` is a plain object. */
  function Notified(s: Scope, name: string, v: Value): seq<Call>
  {
    if s.proxied then Notify(ListenersFor(s, name), v) else []
  }

  /**
   * The listener lists after `l` is pushed onto the list for `name`, which
   * the lookup with an empty default creates when it is missing: `l` comes
   * last, earlier listeners keep their order, other names are untouched.
   */
  function WithListener(m: map<string, seq<ListenerId>>, name: string, l: ListenerId): (r: map<string, seq<ListenerId>>)
    ensures name in r && r[name] == (if name in m then m[name] else []) + [l]
    ensures forall n :: n != name ==> (n in r <==> n in m)
    ensures forall n :: n in m && n != name ==> r[n] == m[n]
  {
    var got := DefaultMaps.Lookup(m, [], name);
    got.entries[name := got.value + [l]]
  }

  /** The arena after `l` subscribes to `name` in context `k`. */
  function Subscribed(scopes: seq<Scope>, k: nat, name: string, l: ListenerId): (r: seq<Scope>)
    requires k < |scopes|
    ensures |r| == |scopes|
    ensures r[k].vars == scopes[k].vars && r[k].listeners == WithListener(scopes[k].listeners, name, l)
    ensures forall i :: 0 <= i < |r| ==> r[i].parent == scopes[i].parent && r[i].proxied == scopes[i].proxied
    ensures forall i :: 0 <= i < |r| && i != k ==> r[i] == scopes[i]
  {
    scopes[k := scopes[k].(listeners := WithListener(scopes[k].listeners, name, l))]
  }

  /**
   * `after` is `before` after work done from context `c`: contexts may be
   * added, no context's parent or kind changes, and only contexts on `c`'s
   * chain may change their variables or listeners.
   */
  ghost predicate Grown(before: seq<Scope>, after: seq<Scope>, c: nat)
    requires WellFormed(before) && c < |before|
  {
    ParentsKept(before, after) &&
    (forall i :: 0 <= i < |before| && !OnChain(before, c, i) ==> after[i] == before[i])
  }

  /** Whether `i` is reached by following parents from `c`, that is, lies on `Chain(scopes, c)`. */
  ghost predicate OnChain(scopes: seq<Scope>, c: nat, i: nat)
    requires WellFormed(scopes) && c < |scopes|
    decreases c
  {
    i == c || (scopes[c].parent.Some? && OnChain(scopes, scopes[c].parent.value, i))
  }

  lemma {:induction false} OnChainIsChain(scopes: seq<Scope>, c: nat, i: nat)
    requires WellFormed(scopes) && c < |scopes|
    ensures OnChain(scopes, c, i) <==> i in Chain(scopes, c)
    decreases c
  {
    if scopes[c].parent.Some? {
      OnChainIsChain(scopes, scopes[c].parent.value, i);
    }
  }

  /** Being on a chain depends only on the parent links. */
  lemma {:induction false} OnChainFrame(a: seq<Scope>, b: seq<Scope>, c: nat, i: nat)
    requires WellFormed(a) && WellFormed(b) && c < |a| <= |b|
    requires forall j :: 0 <= j < |a| ==> b[j].parent == a[j].parent
    ensures OnChain(b, c, i) == OnChain(a, c, i)
    decreases c
  {
    if a[c].parent.Some? {
      OnChainFrame(a, b, a[c].parent.value, i);
    }
  }

  /** Contexts may be added, and no existing context changes its parent or kind. */
  ghost predicate ParentsKept(before: seq<Scope>, after: seq<Scope>)
  {
    |before| <= |after| &&
    forall i :: 0 <= i < |before| ==>
      after[i].parent == before[i].parent && after[i].proxied == before[i].proxied
  }

  lemma ParentsKeptTrans(a: seq<Scope>, b: seq<Scope>, d: seq<Scope>)
    requires ParentsKept(a, b) && ParentsKept(b, d)
    ensures ParentsKept(a, d)
  {
  }

  /** An arena whose old contexts differ at most by one store in `c` is work from `c`. */
  lemma GrownByStore(before: seq<Scope>, after: seq<Scope>, c: nat, name: string, last: Option<Value>)
    requires WellFormed(before) && c < |before| && ParentsKept(before, after)
    requires StoredLast(before, c, name, last) <= after
    ensures Grown(before, after, c)
  {
    forall i | 0 <= i < |before| && !OnChain(before, c, i)
      ensures after[i] == before[i]
    {
      assert after[i] == StoredLast(before, c, name, last)[i];
    }
  }

  /**
   * From `before` to `after` no context's variables change, except that
   * context `c` may gain or overwrite the variables named in `names`.
   */
  ghost predicate VarsKept(before: seq<Scope>, after: seq<Scope>, c: nat, names: set<string>)
  {
    |before| <= |after| &&
    forall i :: 0 <= i < |before| ==>
      if i == c then after[i].vars - names == before[i].vars - names && before[i].vars.Keys <= after[i].vars.Keys
      else after[i].vars == before[i].vars
  }

  lemma VarsKeptTrans(a: seq<Scope>, b: seq<Scope>, d: seq<Scope>, c: nat, names: set<string>, more: set<string>)
    requires VarsKept(a, b, c, names) && VarsKept(b, d, c, more) && more <= names
    ensures VarsKept(a, d, c, names)
  {
    if c < |a| {
      assert d[c].vars - names == (d[c].vars - more) - names;
      assert b[c].vars - names == (b[c].vars - more) - names;
    }
  }

  /** Old contexts that are untouched keep their variables, whatever context is named. */
  lemma VarsKeptByPrefix(before: seq<Scope>, after: seq<Scope>, c: nat, names: set<string>)
    requires before <= after
    ensures VarsKept(before, after, c, names)
  {
    forall i | 0 <= i < |before|
      ensures after[i] == before[i]
    {
    }
  }

  /** Registering a listener changes no variable. */
  lemma VarsKeptBySubscribed(scopes: seq<Scope>, k: nat, name: string, l: ListenerId, c: nat, names: set<string>)
    requires k < |scopes|
    ensures VarsKept(scopes, Subscribed(scopes, k, name, l), c, names)
  {
  }

  /** After listener registrations only, a store of `name` in `c` (or none) changes only that variable. */
  lemma VarsKeptByStore(before: seq<Scope>, mid: seq<Scope>, after: seq<Scope>, c: nat, name: string, last: Option<Value>)
    requires c < |mid| && |before| == |mid| && VarsKept(before, mid, c, {})
    requires StoredLast(mid, c, name, last) <= after
    ensures VarsKept(before, after, c, {name})
  {
    var stored := StoredLast(mid, c, name, last);
    forall i | 0 <= i < |before|
      ensures after[i] == stored[i]
    {
    }
    assert mid[c].vars - {} == mid[c].vars;
    assert before[c].vars - {} == before[c].vars;
    assert stored[c].vars - {name} == before[c].vars - {name};
  }

  /**
   * Work from a context `k` made after `before`, which may change only `k`'s
   * variables, changes no variable of a context of `before`.
   */
  lemma VarsKeptThroughFresh(before: seq<Scope>, prepared: seq<Scope>, after: seq<Scope>, c: nat, k: nat, names: set<string>)
    requires before <= prepared && |before| <= k && VarsKept(prepared, after, k, names)
    ensures VarsKept(before, after, c, {})
  {
    forall i | 0 <= i < |before|
      ensures after[i].vars == before[i].vars
    {
      assert prepared[i] == before[i];
    }
    if c < |before| {
      assert after[c].vars - {} == after[c].vars;
      assert before[c].vars - {} == before[c].vars;
    }
  }

  /** No context of `before` loses a variable; contexts may be added and values may change. */
  ghost predicate KeysGrow(before: seq<Scope>, after: seq<Scope>)
  {
    |before| <= |after| && forall i :: 0 <= i < |before| ==> before[i].vars.Keys <= after[i].vars.Keys
  }

  /** Every context of `before` defines the same names afterwards; contexts may be added and values may change. */
  ghost predicate KeysKept(before: seq<Scope>, after: seq<Scope>)
  {
    |before| <= |after| && forall i :: 0 <= i < |before| ==> after[i].vars.Keys == before[i].vars.Keys
  }

  lemma KeysGrowByVarsKept(before: seq<Scope>, after: seq<Scope>, c: nat, names: set<string>)
    requires VarsKept(before, after, c, names)
    ensures KeysGrow(before, after)
  {
  }

  lemma KeysKeptByVarsKept(before: seq<Scope>, after: seq<Scope>, c: nat)
    requires VarsKept(before, after, c, {})
    ensures KeysKept(before, after)
  {
    if c < |before| {
      assert after[c].vars - {} == after[c].vars;
      assert before[c].vars - {} == before[c].vars;
    }
  }

  /** Storing to a name the context already defines, or not storing at all, keeps every context's names. */
  lemma KeysKeptByStored(before: seq<Scope>, after: seq<Scope>, k: nat, name: string, last: Option<Value>)
    requires k < |before| && StoredLast(before, k, name, last) <= after
    requires last.Some? ==> name in before[k].vars
    ensures KeysKept(before, after)
  {
    if last.Some? {
      assert after[k] == Assigned(before, k, name, last.value)[k];
    }
  }

  /** A name that resolution from `c` finds is still found once contexts have only gained names. */
  lemma {:induction false} ResolveKept(a: seq<Scope>, b: seq<Scope>, c: nat, name: string)
    requires WellFormed(a) && WellFormed(b) && c < |a| && ParentsKept(a, b) && KeysGrow(a, b)
    requires Resolve(a, c, name).Some?
    ensures Resolve(b, c, name).Some?
    decreases c
  {
    if name !in b[c].vars {
      ResolveKept(a, b, a[c].parent.value, name);
    }
  }

  /** Resolution depends only on the parent links and on which names each context defines. */
  lemma {:induction false} ResolveByKeys(a: seq<Scope>, b: seq<Scope>, c: nat, name: string)
    requires WellFormed(a) && WellFormed(b) && c < |a| && ParentsKept(a, b) && KeysKept(a, b)
    ensures Resolve(b, c, name) == Resolve(a, c, name)
    decreases c
  {
    if name !in a[c].vars && a[c].parent.Some? {
      ResolveByKeys(a, b, a[c].parent.value, name);
    }
  }

  /** A context that started without variables and gained only `names` holds no other variable. */
  lemma GainedOnly(before: seq<Scope>, after: seq<Scope>, c: nat, names: set<string>)
    requires c < |before| && before[c].vars == map[] && VarsKept(before, after, c, names)
    ensures after[c].vars.Keys <= names
  {
    var gained := after[c].vars;
    forall x | x in gained
      ensures x in names
    {
      assert x !in names ==> x in gained - names;
    }
  }

  /**
   * Every context from index `n` on is a root, or has a parent that is itself
   * from `n` on, or one of `extra`: work that added them attached nothing
   * below any other context that existed before.
   */
  ghost predicate AddedUnder(scopes: seq<Scope>, n: nat, extra: set<nat>)
  {
    forall i :: n <= i < |scopes| && scopes[i].parent.Some? ==>
      scopes[i].parent.value >= n || scopes[i].parent.value in extra
  }

  /** Contexts added after `b` under `b`'s new ones or `later` keep the arena added under `extra`. */
  lemma AddedUnderTrans(b: seq<Scope>, d: seq<Scope>, n: nat, extra: set<nat>, later: set<nat>)
    requires n <= |b| <= |d|
    requires forall i :: 0 <= i < |b| ==> d[i].parent == b[i].parent
    requires AddedUnder(b, n, extra) && AddedUnder(d, |b|, later)
    requires forall e :: e in later ==> e >= n || e in extra
    ensures AddedUnder(d, n, extra)
  {
  }

  /** A change confined to one context `d` on `c`'s chain is work from `c`. */
  lemma GrownAt(a: seq<Scope>, b: seq<Scope>, c: nat, d: nat)
    requires WellFormed(a) && c < |a| && |a| == |b| && d in Chain(a, c)
    requires forall i :: 0 <= i < |a| ==> b[i].parent == a[i].parent && b[i].proxied == a[i].proxied
    requires forall i :: 0 <= i < |a| && i != d ==> b[i] == a[i]
    ensures Grown(a, b, c)
  {
    OnChainIsChain(a, c, d);
  }

  lemma GrownTrans(a: seq<Scope>, b: seq<Scope>, d: seq<Scope>, c: nat)
    requires WellFormed(a) && WellFormed(b) && c < |a|
    requires Grown(a, b, c) && Grown(b, d, c)
    ensures Grown(a, d, c)
  {
    forall i | 0 <= i < |a| && !OnChain(a, c, i)
      ensures d[i] == a[i]
    {
      OnChainFrame(a, b, c, i);
    }
  }

  /**
   * Work done from a context `k` made after `a` whose parent is `c` (or
   * which is a root) stays within what work from `c` may do.
   */
  lemma GrownThroughFresh(a: seq<Scope>, b: seq<Scope>, d: seq<Scope>, c: nat, k: nat)
    requires WellFormed(a) && WellFormed(b) && c < |a| <= k < |b|
    requires b[k].parent == Some(c) || b[k].parent == None
    requires Grown(a, b, c) && Grown(b, d, k)
    ensures Grown(a, d, c)
  {
    forall i | 0 <= i < |a| && !OnChain(a, c, i)
      ensures d[i] == a[i]
    {
      OnChainFrame(a, b, c, i);
    }
  }

  /**
   * No context on `c`'s chain defines a variable. The chain of a new root
   * context is blank, and so is that of every walk context below it.
   */
  ghost predicate Blank(scopes: seq<Scope>, c: nat)
    requires WellFormed(scopes) && c < |scopes|
    decreases c
  {
    scopes[c].vars == map[] && (scopes[c].parent.Some? ==> Blank(scopes, scopes[c].parent.value))
  }

  /** Nothing resolves along a blank chain. */
  lemma {:induction false} BlankResolvesNothing(scopes: seq<Scope>, c: nat, name: string)
    requires WellFormed(scopes) && c < |scopes| && Blank(scopes, c)
    ensures Resolve(scopes, c, name).None?
    decreases c
  {
    if scopes[c].parent.Some? {
      BlankResolvesNothing(scopes, scopes[c].parent.value, name);
    }
  }

  /** A new root context stays blank when a variable is stored in an older context. */
  lemma RootBlankAfterStore(scopes: seq<Scope>, after: seq<Scope>, c: nat, name: string, v: Value)
    requires c < |scopes| && after == Assigned(scopes + [Scope(None, true, map[], map[])], c, name, v) && WellFormed(after)
    ensures Blank(after, |scopes|)
  {
    assert after[|scopes|] == Scope(None, true, map[], map[]);
  }

  /** A chain stays blank through work that keeps the parent links and every context's variables. */
  lemma {:induction false} BlankSame(a: seq<Scope>, b: seq<Scope>, c: nat)
    requires WellFormed(a) && WellFormed(b) && c < |a| && Blank(a, c) && ParentsKept(a, b)
    requires forall i :: 0 <= i < |a| ==> b[i].vars == a[i].vars
    ensures Blank(b, c)
    decreases c
  {
    if a[c].parent.Some? {
      BlankSame(a, b, a[c].parent.value);
    }
  }

  /** A chain stays blank through work that keeps the parent links and changes no variable. */
  lemma BlankKept(a: seq<Scope>, b: seq<Scope>, c: nat)
    requires WellFormed(a) && WellFormed(b) && c < |a| && Blank(a, c)
    requires ParentsKept(a, b) && VarsKept(a, b, c, {})
    ensures Blank(b, c)
  {
    forall i | 0 <= i < |a|
      ensures b[i].vars == a[i].vars
    {
      assert b[i].vars == b[i].vars - {} && a[i].vars == a[i].vars - {};
    }
    BlankSame(a, b, c);
  }

  /** A store changes no listener and no kind of state, so later writes in `k` notify as before. */
  lemma NotifiedAfterStore(before: seq<Scope>, after: seq<Scope>, k: nat, name: string, last: Option<Value>,
                           x: string, v: Value)
    requires k < |before| && StoredLast(before, k, name, last) <= after
    ensures Notified(after[k], x, v) == Notified(before[k], x, v)
  {
    assert after[k] == StoredLast(before, k, name, last)[k];
  }
}
