# A verified model of the web-framework binding core

This project models the core of a small reactive DOM-binding layer written in
TypeScript. It covers the **context tree** and the upward name search that
reads, writes and subscribes to state variables. It covers the **directive
processor** (`considerNode`), which reads `w-data`, `w-content`, `w-for` and
`w-on-<event>` attributes, builds one context per element and renders `w-for`
lists. It also covers the **default-valued map** (`DefaultMap`) whose lookup
inserts a default on a miss.

Modules:

- `Wrappers`: `Option` and `Result`.
- `Text`: the JavaScript string operations the processor relies on (`split`
  with a one-character separator, `startsWith`, `toLowerCase`), with `Join`
  as the inverse of `Split`.
- `DefaultMaps`: `DefaultMap` as a class over a `map`, specified by the pure
  function `Lookup`.
- `Contexts`: the context tree as an arena. Context `c` is `scopes[c]`, and a
  parent always has a smaller index, so the tree has no cycles by
  construction. The module defines the chain of ancestors (`Chain`), the
  nearest defining context (`Resolve`), listener notification (`Notify`),
  listener registration (`WithListener`), and the frame predicates: `Grown`
  (work started from context `c` changes only contexts on `c`'s chain),
  `VarsKept` (no variable changes except named ones in one context) and
  `AddedUnder` (new contexts hang only below new contexts or named ones).
  `Blank` says that no context on `c`'s chain defines a variable, as for
  the fresh root a clone is walked in.
- `Listeners`: the DOM listeners (`Wiring`) and the state listeners
  (`Sink`) the walk creates, and the `Hook` each one stands for, naming the
  context of the element it belongs to. A sink is logged when its listener is
  created, before the subscription; whether it was then registered in a
  context is what `Subscribed` records, so a failed subscription still leaves
  its sink. `Hooked` says which hooks a stretch of the logs holds for the
  contexts below a bound, exactly and in order; `AttrWirings` and
  `AttrListeners` give the hooks an element's attributes create.
- `Directives`: attribute-name parsing, the `w-for` value grammar, the
  decision for each attribute (`Classify`), and the index of the attribute
  that ends an element (`FirstAbort`).
- `Binder`: class `State` holds the arena, the listener-call log, the
  diagnostic channel, the attached DOM listeners (`wirings`) and the
  state listeners (`sinks`). Its methods are the source's mutating functions.
  `StopRule` is the attribute loop's stop rule, stated by the lookup from the
  element's context: the loop goes on past every `w-for` whose list is found,
  and stops at the first attribute whose classification ends the element or,
  before it, at a `w-for` whose list is found nowhere. `Walked` states a
  whole walk, at every depth, along a ghost `Walk` record: each element keeps
  its tag and attributes, stops by the stop rule in the context it was
  processed in, has the listeners of its processed attributes in the logs,
  keeps its children unless a `w-for` ran, and, unless an attribute ended
  it, has each child walked in its own plain context below its own.
  `RenderCalls` is the listener calls a `w-for` render makes: item by item,
  one declaration of the loop variable per template, each notifying that
  variable's listeners in the directive's context.

Modelling decisions, following the code:

- A variable is "defined" in a context when its key is present in that
  context's state.
- Contexts made by `emptyContext` have the notifying Proxy as their state: a
  write stores the value and then calls that name's listeners in order. The
  child contexts the walk makes (src/index.ts:375-379) have a plain object as
  their state, so writing to them notifies no one. `Scope.proxied` records
  which kind a context is.
- Each context has one listener map. A missing list counts as empty, which is
  the lookup `DefaultMap(Array)` gives.
- `w-content` subscribes without an immediate call, because the source passes
  no flag. The content is painted only when the variable next changes.
- `w-for` follows the code as written. Each clone is processed in a new
  root context (`emptyContext()`, which has no parent). The item is declared under the loop variable in the
  directive's own context, so after a render that context holds the last
  item.
- The subscription's immediate call does the first render only when the
  list variable is defined in the directive's own context. The upward search
  drops the flag, so a list found in an ancestor is not rendered until it
  next changes.
- After the attributes, the walk processes the element's current children.
  For a `w-for` container these are the clones just rendered, so each clone
  is processed a second time, in a child context of the container's context.
- A listener is an identity, and calling it is recorded in `calls`. The one
  listener body that is carried out is the `w-for` render inside the
  subscription's immediate call (src/index.ts:334-339).
- Diagnostics that the source writes to the console are appended to `errors`.

## Model

| member | source | states |
|---|---|---|
| `Text.Split` | src/index.ts:260 | `s.split(sep)` has one more piece than `s` has separators, and no piece contains the separator |
| `Text.JoinSplit` | src/index.ts:260 | joining the pieces of a split with the separator gives back the original string |
| `Text.SplitJoin` | src/index.ts:293 | splitting the join of separator-free pieces gives back exactly those pieces |
| `Text.StartsWithConcat` | src/index.ts:259 | `s.startsWith(p)` holds exactly when `s` is `p` followed by the rest of `s` |
| `Text.Lower` | src/index.ts:261 | the lower-cased tag name has the same length and no capital letter; each of `A`-`Z` becomes the same letter in lower case, and every other character is kept |
| `Text.LowerIdempotent` | src/index.ts:261 | lower-casing a lower-cased name changes nothing |
| `DefaultMaps.Lookup` | src/util/index.ts:7-12 | after `get(k)`, `k` is present and maps to the returned value; a present key returns its stored value and leaves the map as it was; an absent key returns the default and adds just that key; no other key's entry changes |
| `DefaultMaps.LookupTwice` | src/util/index.ts:7-12 | a second `get` of the same key returns the same value and leaves the map unchanged |
| `DefaultMaps.DefaultMap.constructor` | src/util/index.ts:3-6 | the map keeps the supplied default, a `const` used for every later miss, and starts with the seed entries |
| `DefaultMaps.DefaultMap.Get` | src/util/index.ts:7-12 | `has(key)` holds afterwards; a hit returns the stored value with the map unchanged; a miss inserts the default under `key` and returns it |
| `Contexts.Chain` | src/index.ts:151-157 | the ancestors of `c` start at `c`, follow parent links one step at a time and end at a root; every index on the chain is at most `c` |
| `Contexts.Resolve` | src/index.ts:196-207 | the context a lookup of `name` from `c` reaches lies on `c`'s chain and defines `name` |
| `Contexts.ResolveNearest` | src/index.ts:196-207 | lookup fails exactly when no context on the chain defines the name; when it succeeds, no context nearer to `c` defines the name |
| `Contexts.DeclarationShadows` | src/index.ts:224-226 | declaring a name in context `k` leaves every lookup from outside `k`'s subtree unchanged; from `k` or a descendant, the lookup now stops at `k` or at a nearer context |
| `Contexts.Notify` | src/index.ts:43-48 | a notification calls every listener once, in list order, each with the new value |
| `Contexts.WithListener` | src/index.ts:217-221 | a subscription puts the new listener last in that name's list (creating the list if missing), keeps the earlier listeners in order, and leaves every other name's list unchanged |
| `Contexts.ChainFrame` | src/index.ts:151-157 | the chain of a context depends only on the parent links, so adding contexts or changing state does not change it |
| `Contexts.ResolveKept` | src/index.ts:228-250 | a name the lookup from `c` finds is still found after contexts have been added and existing ones have only gained names |
| `Contexts.ResolveByKeys` | src/index.ts:228-250 | the lookup depends only on the parent links and on which names each context defines, not on the values or the listeners |
| `Directives.ParseAttrName` | src/index.ts:259-260 | a name is a directive exactly when it starts with `w-`, and then its kind contains no `-` |
| `Directives.AttrNameRoundTrip` | src/index.ts:260 | for a `w-` name, the kind and the remaining pieces, joined with `-`, give back the name after `w-` |
| `Directives.KindOfName` | src/index.ts:259-260 | `w-<kind>` followed by nothing or by `-`-separated pieces has kind `<kind>`, and those pieces are the rest |
| `Directives.ParseForConfig` | src/index.ts:293-303 | a `w-for` value parses exactly when it has at most one `:`; otherwise the error is a `BadForConfig` diagnostic. The source logs a fixed message there; the value `BadForConfig` carries is the model's own addition |
| `Directives.ForConfigBare` | src/index.ts:294-299 | a value with no `:` gives the loop variable `iter` over the list named by the whole value |
| `Directives.ForConfigPair` | src/index.ts:294-297 | the value `a:b` gives loop variable `a` over list `b` |
| `Directives.NonDirectiveSkipped` | src/index.ts:259 | an attribute whose name does not start with `w-` has no effect |
| `Directives.DataNeedsAllowedTag` | src/index.ts:266-277 | `w-data` binds its value on tags `input` and `textarea` (compared after lower-casing); on any other tag it reports the tag and ends the element |
| `Directives.ContentBinds` | src/index.ts:282-287 | `w-content` binds the variable named by its value |
| `Directives.ForBinds` | src/index.ts:291-303 | `w-for="list"` binds `iter` over `list`; `w-for="x:list"` binds `x` over `list` |
| `Directives.ForRejectsManyParts` | src/index.ts:300-303 | a `w-for` value with two or more `:` is reported (`BadForConfig`, whose value is the model's addition to the source's fixed message) and ends the element |
| `Directives.OnNeedsEventAndHandler` | src/index.ts:349-362 | `w-on` without an event name ends the element; `w-on-<event>` attaches a registered handler to `<event>` and ends the element when the handler is unknown |
| `Directives.UnknownKindReported` | src/index.ts:365-368 | any other kind is reported and does not end the element |
| `Directives.Classify` | src/index.ts:259-369 | only names starting with `w-` have an effect; `w-data` binds its value only on an allow-listed tag; `w-content` binds its value; `w-for` binds what its value parses to; `w-on` binds a registered handler named by its value to an event without `-`; an unknown kind is only reported; every error that ends the element is a disallowed tag, a malformed `w-for` value, a missing event or an unknown handler (the case lemmas above fix each kind's outcome) |
| `Directives.FirstAbort` | src/index.ts:257-371 | the index of the first attribute that ends the element (or their number): no attribute before it ends the element |
| `Directives.StepAt` | src/index.ts:257-259 | the attribute loop classifies attribute `i` as step `i`, in attribute order |
| `Listeners.AttrHooksIn` | src/index.ts:272-362 | every listener an element's attributes attach (input and event listeners, text and list subscriptions) belongs to the element's own context |
| `Binder.ExtendLayout` | src/index.ts:319-330 | appending one clone of every template, in template order, to the render of `n` items gives the render of `n + 1` items |
| `Binder.LayoutLength` | src/index.ts:319-330 | the render of `n` items over `t` templates has exactly `n * t` children |
| `Binder.LayoutPosition` | src/index.ts:319-330 | child `k` of the render is a clone of template `k % t`, in block `k / t` of the `n` |
| `Binder.State.constructor` | src/index.ts:78-85 | the state starts with no contexts, no diagnostics, no calls and no attached listeners, and with the given handler names |
| `Binder.State.NewRoot` | src/index.ts:53-57 | `emptyContext` adds one root context with an empty notifying state and changes nothing else |
| `Binder.State.NewChild` | src/index.ts:375-379 | a child context is added with parent `p` and an empty plain state, and nothing else changes |
| `Binder.State.Write` | src/index.ts:39-50 | the Proxy `set` trap stores the value in that context only, then appends one call per listener of that name in list order; a plain state only stores |
| `Binder.State.Declare` | src/index.ts:224-226 | `addNewStateVariable` stores the value in that very context, with the same notification as a write |
| `Binder.State.SetValue` | src/index.ts:196-208 | the value is written in the nearest context defining the name, with that context's notification, and no other context changes; when no context defines it, the name is reported and nothing changes |
| `Binder.State.AddListener` | src/index.ts:212-222 | the listener is appended to that name's list in the given context, and the call reports success |
| `Binder.State.Subscribe` | src/index.ts:228-250 | the result is true exactly when some context on the chain defines the name; the listener is then registered in the nearest one. It is called at once, with the current value, only when that context is the starting one and the flag is set. When no context defines the name, the name is reported and nothing changes |
| `Binder.State.FireInput` | src/index.ts:273-276 | the input event of a `w-data` element writes the element's value to the bound name, with exactly the effect of a write |
| `Binder.State.ConsiderNode` | src/index.ts:252-383 | the walk changes only contexts on its own chain (or new ones), never a parent link, and no variable except the element's `w-for` loop variables in its own context; it keeps the element's tag and attributes; logs are only appended to. It stops by the stop rule: past every `w-for` whose list the lookup from the element's context finds, at the first attribute whose classification ends the element or, before it, at a `w-for` whose list is found nowhere, with that reason as the last diagnostic. The DOM and state listeners attached for contexts that existed before are exactly those the processed attributes attach, in attribute order, all for the element's own context, so no attribute after the stop attaches one. When an attribute ended the element, its children are left as the attributes left them and no new context hangs below any context that existed before, so no child was processed. Otherwise the children the attributes left (the element's own children when no processed attribute is a `w-for`) are processed one for one, in order, each keeping its tag and attributes, in its own new plain child context; each child stops by the stop rule in that context, and every listener its processed attributes attach is in the logs for that context. The ghost `walk` records the whole walk of the subtree (`Walked`): the same holds, at every depth, for every descendant in the context it was processed in, so no grandchild is skipped or left unprocessed; an element with no `w-for` anywhere in it comes back unchanged, children and all. Walked from a chain of contexts none of which defines a variable (`Blank`), it calls no listener |
| `Binder.State.RunAttributes` | src/index.ts:257-371 | attribute processing goes on past every `w-for` whose list the lookup from the element's context finds, and stops at the first attribute whose classification ends the element, reporting its reason last, or earlier at a `w-for` whose list is found nowhere, with that failure last. When no processed attribute is a `w-for`, the element comes out unchanged. The listeners attached for existing contexts are exactly those the processed attributes attach, in attribute order, for the element's context: an input listener per `w-data`, a handler per `w-on`, a text listener per `w-content`, a list listener per `w-for`; the attributes after the stop attach none. No new context hangs below an existing one, and only the element's `w-for` loop variables in its own context change. From a chain where no context defines a variable (`Blank`), no context changes and no listener is called |
| `Binder.State.AttributeTurn` | src/index.ts:258-369 | one turn of the attribute loop: the listeners attached so far for existing contexts extend by exactly those of attribute `i`; when it ends the element, no context changes, the stop rule holds with the stop at `i` and its reason is the last diagnostic; otherwise every list named so far, this one's included, is found, and only the element's `w-for` loop variables in its own context change; only a `w-for` changes the element; from a `Blank` chain no context changes and no listener is called |
| `Binder.State.RunStep` | src/index.ts:259-369 | one attribute: a name without `w-` changes nothing; an unknown kind is only reported; a classification that ends the element reports its error and changes nothing else; a directive attaches exactly its own listeners, for the element's context, and only a `w-for` changes the element. The attribute ends the element exactly when its classification does or its `w-for` list is found nowhere, and then that failure is the last diagnostic and no context changes. From a `Blank` chain no context changes and no listener is called |
| `Binder.State.Apply` | src/index.ts:262-369 | `w-data` and `w-on` attach exactly one DOM listener for the element and change nothing else; `w-content` adds exactly one text listener and calls nothing; `w-for` adds its list listener. The listeners attached for existing contexts are exactly the directive's own. It fails, with the failure as the last diagnostic and no context changed, exactly for a `w-for` whose list is found nowhere, and no variable changes except the `w-for` loop variable in `ctx`. From a chain where no context defines a variable (`Blank`) nothing resolves, so no context changes and no listener is called |
| `Binder.State.ApplyContent` | src/index.ts:282-287 | `w-content` adds one text listener for the element and registers it in the nearest context that defines the name, without calling it; when no context defines the name, the name is reported and no context changes; no call is made, no DOM listener is attached and no variable changes |
| `Binder.State.ApplyFor` | src/index.ts:291-345 | the `w-for` case of `Apply`: the same outcomes for a list found nowhere, found in an ancestor and found in `ctx` itself, and no variable changes except the loop variable in `ctx`; when the list is in `ctx`, the element's new children are the `n * t` clones, clone `k` the walk of template `k % t`, and the calls are exactly the list listener's immediate call followed by, per item and per template, the declaration's notification of the loop variable's listeners in `ctx` (`LocalListRendered`, `RenderCalls`) |
| `Binder.State.RenderLocalList` | src/index.ts:333-339 | subscribing where the list is defined calls the list listener at once with the list; after it the listener is registered in `ctx`, the render has `n * t` children (or, for a non-array, none and a report), each clone the walk of its template (`Walked`, at every depth), and of the old contexts only `ctx` changes, by the registration and the last item. The calls are exactly the immediate call and then `RenderCalls` from `ctx` as the registration left it, so a listener of a list that is also the loop variable is called again per clone |
| `Binder.State.RenderList` | src/index.ts:309-331 | a non-array value is reported, the container keeps its children and nothing else changes (no context, call, wiring or listener); an array of `n` items replaces the children with `n` blocks of one clone of every template, `n * t` in all, with one new notifying root context made per clone, clone `k` being the walk of template `k % t` (`Walked`, at every depth) from root `roots[k]`; of the old contexts only the directive's context changes, and only by holding the last item under the loop variable, so its listeners stay as they were; the calls are exactly `RenderCalls`: item by item, one declaration per template, each calling the loop variable's listeners in that context |
| `Binder.State.RenderItems` | src/index.ts:319-330 | the item loop renders `n` blocks, each one clone of every template in template order, with one new root context per clone, every clone walked from its template in its own root; it attaches no listener for a context older than the render, and leaves the directive's context holding the last item under the loop variable; the calls are exactly `RenderCalls` of the items |
| `Binder.State.RenderItem` | src/index.ts:320-329 | one item gives one clone of each template, in order, with one new root context per clone, clone `m` the walk of template `m` from root `roots[m]`, and the directive's context then holds that item under the loop variable; the calls are exactly one notification of the item to the loop variable's listeners in that context per template |
| `Binder.State.RenderClone` | src/index.ts:322-328 | a clone is processed in a new root context with a notifying state: processing stops by the stop rule in that context (past every `w-for` whose list is found from there, at the first attribute that ends the clone or at a `w-for` whose list is found nowhere), with that reason last; the listeners attached for that context or older ones are exactly those its processed attributes attach, for that context, and none is attached for an older context; of the old contexts only the directive's context changes, and only by holding the item under the loop variable. The calls are exactly that declaration's notification of the loop variable's listeners in the directive's context; the clone's walk, from a root that defines nothing but is stored into, calls nobody. The ghost `walk` states the clone's whole walk from that root (`Walked`), and a template with no `w-for` anywhere in it gives back an equal clone |
| `Binder.State.ConsiderChild` | src/index.ts:373-379 | a child is processed in a new plain context `k` with parent `ctx`: processing stops by the stop rule in `k` (past every `w-for` whose list is found from `k`, at the first attribute that ends the child or at a `w-for` whose list is found nowhere), with that reason last, and the listeners attached for `k` or older contexts are exactly those its processed attributes attach, for `k`. Afterwards `k` holds no variable other than the child's own `w-for` loop variables, and no older context gained or lost a variable. The ghost `walk` states the child's whole walk in `k` (`Walked`), and a child with no `w-for` anywhere in it comes back unchanged. Under a `Blank` chain no listener is called |
| `Binder.State.ConsiderChildren` | src/index.ts:373-379 | every child is processed, in order, each keeping its tag and attributes, in its own distinct new plain context whose parent is `ctx`; each stops by the stop rule in its context, and every listener its processed attributes attach is in the logs for that context; no listener is attached for a context that existed before, and no such context changes a variable. Child `i`'s whole walk, at every depth, is `walks[i]` from context `ctxs[i]` (`AllWalked`), and a child with no `w-for` anywhere in it comes back unchanged. Under a `Blank` chain no listener is called |
| `Binder.State.ChildTurn` | src/index.ts:373-379 | one turn of the child loop: child `i` is walked in a new plain context under `ctx` and joins the walks of the children before it, which stay as stated; under a `Blank` chain no listener is called |
| `Binder.State.ItemTurn` | src/index.ts:319-330 | one turn of the item loop: the clones of item `i` follow the blocks before them, each walked in its own new root, and the directive's context then holds item `i`; the calls grow by one notification per template, so they stay `RenderCalls` of the items so far (`ItemsRendered`) |
| `Binder.State.CloneTurn` | src/index.ts:320-329 | one turn of the template loop: the clone of template `j` is walked in a new root and follows the clones before it, whose walks stay as stated; the calls grow by one notification of the item, so they stay that notification repeated once per clone (`ClonesRendered`) |
| `Binder.AllWalkedAt` | src/index.ts:373-380 | in a run of walks, element `i` is walked along `walks[i]` |
| `Binder.WalkedKept` | src/index.ts:373-380 | a walk stays as stated while later work only adds contexts, adds names and appends to the logs, as processing the later siblings does |
| `Binder.AllWalkedKept` | src/index.ts:373-380 | the same for a run of walks |
| `Binder.AllWalkedAppend` | src/index.ts:373-380 | two runs of walks, one after the other, form one run |
| `Binder.AllWalkedTake` | src/index.ts:373-380 | every prefix of a run of walks is a run of walks |
| `Binder.NodeWalked` | src/index.ts:252-383 | the attribute loop's stop, hooks and children, followed by the walks of the children in their own plain contexts, make up the walk of the element; with no `w-for` anywhere in it, the element comes back unchanged |
| `Binder.ForFreeUnchanged` | src/index.ts:252-383 | the walk of an element with no `w-for` anywhere in it returns it unchanged, children and all |
| `Binder.AllForFreeUnchanged` | src/index.ts:373-380 | the same for each element of a run of walks |
| `Binder.RenderWalksNext` | src/index.ts:319-330 | the walks of the clones rendered so far stay as stated while the next run of clones is rendered, and the next run's walks follow them |
| `Binder.WalkedLayout` | src/index.ts:319-330 | clones walked from `n` copies of the templates are laid out item-major: block `b` holds one clone of each template, in template order |
| `Binder.RepeatLayout` | src/index.ts:319-330 | clones that keep the shapes of `n` copies of the templates are laid out item-major |
| `Binder.State.WalkClone` | src/index.ts:325-326 | the clone is processed in the newest context, a root in which no context on its chain defines a variable: it calls no listener, changes no older context, keeps the clone's tag and attributes, stops by the stop rule in that root and is walked along `walk` (`Walked`, at every depth) |
| `Binder.RenderCallsSilent` | src/index.ts:39-50 | a render whose directive context is plain, or in which nothing listens to the loop variable, calls no listener, whatever the items |
| `Binder.CloneCallsNext` | src/index.ts:39-50 | storing the item again in the directive's context before the next clone notifies the same listeners, so the calls stay the item's notification repeated once per clone |
| `Binder.ItemCallsNext` | src/index.ts:39-50 | the notifications of the next item's declarations are those of the context as it was before the render, so the calls stay `RenderCalls` of the items so far |
| `Contexts.BlankResolvesNothing` | src/index.ts:196-207 | a lookup along a chain where no context defines a variable finds nothing |
| `Contexts.RootBlankAfterStore` | src/index.ts:53-57 | a new root context defines nothing, and stays so when the loop variable is then stored in an older context |
| `Contexts.BlankSame` | src/index.ts:196-207 | a chain that defines nothing still defines nothing after work that keeps every parent link and every context's variables |
| `Contexts.BlankKept` | src/index.ts:196-207 | the same, for work that changes no variable of an existing context |
| `Contexts.NotifiedAfterStore` | src/index.ts:224-226 | storing a variable changes no listener and no kind of state, so a later write in that context notifies exactly the listeners it notified before |

## Left out

- DOM manipulation (`innerText`, `innerHTML`, `cloneNode`, `appendChild`) is modelled by values. An element becomes a `Node`, and `considerNode` returns the element as it leaves it. A clone is an equal copy of its template. Node identity and aliasing between DOM nodes are not modelled.
- `addEventListener` (src/index.ts:273, 361) is recorded as a `Wiring`. Firing an input event is `FireInput`. Native event dispatch is not modelled.
- Listener bodies are not run, except the `w-for` render inside the subscription's immediate call. A later change of a list variable is recorded as a call of its list listener. The re-render it would cause is `RenderList` applied to that listener's `ListSink`, but the model does not run it automatically. Text listeners (`node.innerText = newValue`) are recorded only. Re-entrant listener chains are therefore not modelled.
- The Proxy `get` traps that always return `"world"` (src/index.ts:34-37, 60-62) are left out. Definedness is presence of the key.
- The listener lists are modelled as the code evidently means them, not as written. As written, both accesses throw a `TypeError`. The Proxy `set` trap reads `target._listeners[prop]` (src/index.ts:43), and `_listeners` is undefined on the raw target, so every write to a notifying state throws right after it stores. `addListenerForSubtree` runs `state.listeners[propName].push` (src/index.ts:220), and bracket access on the `"world"` stub or on a `Map` gives `undefined`, so every subscription that finds its name throws out of the walk. The model keeps one listener map per context, apart from the variables, with `DefaultMap.get` semantics. So a state variable named `listeners` does not collide with it.
- Directives.Classify: a `w-on` handler is looked up by bracket access on the handlers object (src/index.ts:356-357), which also finds inherited properties. With `w-on-click="toString"` the source attaches `Object.prototype.toString` and goes on. The model knows only the registered names, so it ends the element with `NoHandler("toString")`.
- A variable holding `undefined` counts as undefined in the source. The model has no `undefined` value.
- The early return for a node without attributes (src/index.ts:256) is left out. Every node the walk reaches comes from `children` and is an element, so the model's nodes are all elements.
- `Context.children` is left out. No code ever adds to it; it is always empty.
- `init` (src/index.ts:385-404) is left out. It uses the commented-out `createBinding` and `bindings`. The DOMContentLoaded demo configuration, the global `appState` Proxy, `getAppState`, the dead `addListener` stub and the commented-out dispatch and action code are left out too.
- Console output is left out. Diagnostics become `Diagnostic` values; the log lines are not modelled.
- `toLowerCase` is modelled on ASCII letters only; there is no Unicode case mapping.
- `DefaultMap`'s default constructor builds a fresh value on each miss. The model stores one fixed default value, so the sharing or separateness of mutable default objects is not modelled.
- JavaScript values (`any`) are modelled as text, integers and lists. The code only ever asks whether a value is an array.
- webpack.config.js holds build configuration and no logic.
- Binder.State.ConsiderNode: states the frame (contexts, parents, variables), the shape of the element and of every element below it, where and why each element's processing stopped, which children were processed (one for each child the attributes left, in order, at every depth) and in which contexts, the listeners the element's own attributes attach (exactly) and those each descendant's attributes attach (present in the logs). For an element with a `w-for` it does not sum up which children the attribute loop leaves (`ApplyFor` states that for one directive: none, or the clones walked from `n` copies of the templates); the walk of a clone is stated by `RenderClone` and `RenderList`, not carried through `RunAttributes` into `ConsiderNode`. Nor does it state the complete sequence of diagnostics and listener calls the walk of a subtree produces: it states only that no listener is called from a `Blank` chain, as for a clone's walk; otherwise `ApplyContent` and `ApplyFor` state the calls of one directive.
- Binder.State.RunAttributes: the attributes after the stop attach no listener and the stop reason stays the last diagnostic, but outside a `Blank` chain the contract does not exclude a listener call or a listener registration in an existing context by them, and it lets the loop variables of every `w-for` of the element change, not only those of the processed ones. The calls and registrations of the processed directives are stated by `Apply`, not summed over the attribute list. The stop rule is stated by the lookup in the arena as the walk leaves it. Since the walk only adds names, a list found when its `w-for` ran is still found; but a loop that went on past a `w-for` whose list was missing, and whose later `w-for` then declared that name as a loop variable in the element's context, is not excluded.
- Binder.State.ConsiderChild: does not state that the child was walked from the empty state `NewChild` made; it bounds the child context's final variables by the child's `w-for` loop variables, so a declaration of one of those names before the walk is not excluded.
- Contexts.Resolve: a name counts as defined when the context's own state has the key. The source tests `state[name] !== undefined` (src/index.ts:197, 234), and the child contexts' states are plain objects (src/index.ts:378), so names inherited from `Object.prototype` (`toString`, `constructor`, ...) count as defined there: `w-content="toString"` subscribes in the source, where the model reports `UnresolvedSubscription`.
- Binder.State.SetValue: the same lookup, so a write to an inherited `Object.prototype` name from a plain context is reported as unresolved rather than stored.
- Binder.State.Subscribe: the same lookup, so a subscription to an inherited `Object.prototype` name from a plain context fails instead of registering there.
- Binder.State.RenderLocalList: states each clone's walk but not that the context it was walked in is a new root; `RenderList` states that, and the source's re-renders go through `RenderList` too.
- Binder.State.ApplyFor: the same as `RenderLocalList`; the clones' item-major layout follows from their walks by `WalkedLayout`.
- Binder.State.Apply: the `w-content` case states the listener it adds and that it calls nobody; the `w-for` case states only the listener it adds and that calls are only appended. Its registration and its exact calls (`LocalListRendered`) and renders are stated by `ApplyFor`.
