/**
 * The listeners the tree walk attaches: DOM event listeners (`Wiring`) and
 * state listeners (`Sink`), and what each one is attached for, as a `Hook`
 * that names the context of the element it belongs to. The walk's frame is
 * stated on hooks: which hooks an element's own attributes attach, and which
 * hooks a stretch of the logs holds for the contexts below a bound.
 */
module Listeners {
  import opened Directives

  /** What a state listener does when called: set an element's text, or re-render a `w-for` container. */
  datatype Sink =
    | TextSink(ctx: nat, stateName: string)                      // `w-content`: the element's text
    | ListSink(ctx: nat, loopVar: string, templates: seq<Node>)  // `w-for`: the list render

  /** A DOM event listener attached by the walk. */
  datatype Wiring =
    | InputSync(ctx: nat, stateName: string)                   // `w-data`: on input, write the element's value
    | EventHandler(ctx: nat, event: string, handler: string)   // `w-on-<event>`: the registered handler

  /** A listener, as the directive of an element processed in context `ctx` attaches it. */
  datatype Hook =
    | OnInput(ctx: nat, stateName: string)
    | OnEvent(ctx: nat, event: string, handler: string)
    | OnText(ctx: nat, stateName: string)
    | OnList(ctx: nat, loopVar: string)

  function WiringHook(w: Wiring): (h: Hook)
    ensures h.ctx == w.ctx
  {
    match w
    case InputSync(c, name) => OnInput(c, name)
    case EventHandler(c, event, handler) => OnEvent(c, event, handler)
  }

  function SinkHook(s: Sink): (h: Hook)
    ensures h.ctx == s.ctx
  {
    match s
    case TextSink(c, name) => OnText(c, name)
    case ListSink(c, loopVar, _) => OnList(c, loopVar)
  }

  /** Every DOM listener of the log, in order. */
  function WiringHooks(ws: seq<Wiring>): seq<Hook>
  {
    seq(|ws|, i requires 0 <= i < |ws| => WiringHook(ws[i]))
  }

  /** Every state listener of the log, in order. */
  function SinkHooks(ss: seq<Sink>): seq<Hook>
  {
    seq(|ss|, i requires 0 <= i < |ss| => SinkHook(ss[i]))
  }

  /** The DOM listeners among `w[lo..hi]` that belong to contexts below `n`, in order. */
  function WiringsBelow(w: seq<Wiring>, lo: nat, hi: nat, n: nat): seq<Hook>
    requires lo <= hi <= |w|
    decreases hi - lo
  {
    if hi == lo then [] else WiringsBelow(w, lo, hi - 1, n) + (if w[hi - 1].ctx < n then [WiringHook(w[hi - 1])] else [])
  }

  /** The state listeners among `s[lo..hi]` that belong to contexts below `n`, in order. */
  function SinksBelow(s: seq<Sink>, lo: nat, hi: nat, n: nat): seq<Hook>
    requires lo <= hi <= |s|
    decreases hi - lo
  {
    if hi == lo then [] else SinksBelow(s, lo, hi - 1, n) + (if s[hi - 1].ctx < n then [SinkHook(s[hi - 1])] else [])
  }

  lemma {:induction false} WiringsBelowExtend(w: seq<Wiring>, w': seq<Wiring>, lo: nat, hi: nat, n: nat)
    requires lo <= hi <= |w| && w <= w'
    ensures WiringsBelow(w, lo, hi, n) == WiringsBelow(w', lo, hi, n)
    decreases hi - lo
  {
    if hi > lo {
      WiringsBelowExtend(w, w', lo, hi - 1, n);
    }
  }

  lemma {:induction false} SinksBelowExtend(s: seq<Sink>, s': seq<Sink>, lo: nat, hi: nat, n: nat)
    requires lo <= hi <= |s| && s <= s'
    ensures SinksBelow(s, lo, hi, n) == SinksBelow(s', lo, hi, n)
    decreases hi - lo
  {
    if hi > lo {
      SinksBelowExtend(s, s', lo, hi - 1, n);
    }
  }

  lemma {:induction false} WiringsBelowSplit(w: seq<Wiring>, lo: nat, mid: nat, hi: nat, n: nat)
    requires lo <= mid <= hi <= |w|
    ensures WiringsBelow(w, lo, hi, n) == WiringsBelow(w, lo, mid, n) + WiringsBelow(w, mid, hi, n)
    decreases hi - mid
  {
    if hi > mid {
      WiringsBelowSplit(w, lo, mid, hi - 1, n);
    }
  }

  lemma {:induction false} SinksBelowSplit(s: seq<Sink>, lo: nat, mid: nat, hi: nat, n: nat)
    requires lo <= mid <= hi <= |s|
    ensures SinksBelow(s, lo, hi, n) == SinksBelow(s, lo, mid, n) + SinksBelow(s, mid, hi, n)
    decreases hi - mid
  {
    if hi > mid {
      SinksBelowSplit(s, lo, mid, hi - 1, n);
    }
  }

  /** Under a larger bound the same hooks, all below `n`: then under `n` as well. */
  lemma {:induction false} WiringsBelowLower(w: seq<Wiring>, lo: nat, hi: nat, n: nat, m: nat)
    requires lo <= hi <= |w| && n <= m
    requires forall h :: h in WiringsBelow(w, lo, hi, m) ==> h.ctx < n
    ensures WiringsBelow(w, lo, hi, n) == WiringsBelow(w, lo, hi, m)
    decreases hi - lo
  {
    if hi > lo {
      WiringsBelowLower(w, lo, hi - 1, n, m);
    }
  }

  lemma {:induction false} SinksBelowLower(s: seq<Sink>, lo: nat, hi: nat, n: nat, m: nat)
    requires lo <= hi <= |s| && n <= m
    requires forall h :: h in SinksBelow(s, lo, hi, m) ==> h.ctx < n
    ensures SinksBelow(s, lo, hi, n) == SinksBelow(s, lo, hi, m)
    decreases hi - lo
  {
    if hi > lo {
      SinksBelowLower(s, lo, hi - 1, n, m);
    }
  }

  /** Under a larger bound only hooks from `n` on: then none under `n`. */
  lemma {:induction false} WiringsBelowNone(w: seq<Wiring>, lo: nat, hi: nat, n: nat, m: nat)
    requires lo <= hi <= |w| && n <= m
    requires forall h :: h in WiringsBelow(w, lo, hi, m) ==> n <= h.ctx
    ensures WiringsBelow(w, lo, hi, n) == []
    decreases hi - lo
  {
    if hi > lo {
      WiringsBelowNone(w, lo, hi - 1, n, m);
    }
  }

  lemma {:induction false} SinksBelowNone(s: seq<Sink>, lo: nat, hi: nat, n: nat, m: nat)
    requires lo <= hi <= |s| && n <= m
    requires forall h :: h in SinksBelow(s, lo, hi, m) ==> n <= h.ctx
    ensures SinksBelow(s, lo, hi, n) == []
    decreases hi - lo
  {
    if hi > lo {
      SinksBelowNone(s, lo, hi - 1, n, m);
    }
  }

  /** The filtered hooks are hooks of the log. */
  lemma {:induction false} WiringsBelowSub(w: seq<Wiring>, lo: nat, hi: nat, n: nat)
    requires lo <= hi <= |w|
    ensures forall h :: h in WiringsBelow(w, lo, hi, n) ==> h in WiringHooks(w)
    decreases hi - lo
  {
    if hi > lo {
      WiringsBelowSub(w, lo, hi - 1, n);
      assert WiringHooks(w)[hi - 1] == WiringHook(w[hi - 1]);
    }
  }

  lemma {:induction false} SinksBelowSub(s: seq<Sink>, lo: nat, hi: nat, n: nat)
    requires lo <= hi <= |s|
    ensures forall h :: h in SinksBelow(s, lo, hi, n) ==> h in SinkHooks(s)
    decreases hi - lo
  {
    if hi > lo {
      SinksBelowSub(s, lo, hi - 1, n);
      assert SinkHooks(s)[hi - 1] == SinkHook(s[hi - 1]);
    }
  }

  /**
   * Between the logs `w0`, `s0` and their extensions `w`, `s`, the DOM
   * listeners and the state listeners attached for contexts below `n` are
   * exactly `ws` and `ls`, in the order they were attached.
   */
  ghost predicate Hooked(w0: seq<Wiring>, s0: seq<Sink>, w: seq<Wiring>, s: seq<Sink>, n: nat, ws: seq<Hook>, ls: seq<Hook>)
  {
    |w0| <= |w| && |s0| <= |s| &&
    WiringsBelow(w, |w0|, |w|, n) == ws && SinksBelow(s, |s0|, |s|, n) == ls
  }

  lemma HookedNone(w: seq<Wiring>, s: seq<Sink>, n: nat)
    ensures Hooked(w, s, w, s, n, [], [])
  {
  }

  /** Appending a DOM listener of a context below `n` attaches exactly it. */
  lemma HookedWiring(w: seq<Wiring>, s: seq<Sink>, x: Wiring, n: nat)
    requires x.ctx < n
    ensures Hooked(w, s, w + [x], s, n, [WiringHook(x)], [])
  {
    assert WiringsBelow(w + [x], |w|, |w|, n) == [];
  }

  /** Appending a state listener of a context below `n` attaches exactly it. */
  lemma HookedSink(w: seq<Wiring>, s: seq<Sink>, x: Sink, n: nat)
    requires x.ctx < n
    ensures Hooked(w, s, w, s + [x], n, [], [SinkHook(x)])
  {
    assert SinksBelow(s + [x], |s|, |s|, n) == [];
  }

  /** Two stretches of the logs: the second's hooks below `m`, all of them below `n <= m`, follow the first's. */
  lemma HookedTrans(w0: seq<Wiring>, s0: seq<Sink>, wp: seq<Wiring>, sp: seq<Sink>, w: seq<Wiring>, s: seq<Sink>,
                    n: nat, m: nat, ws: seq<Hook>, ls: seq<Hook>, ws': seq<Hook>, ls': seq<Hook>)
    requires w0 <= wp <= w && s0 <= sp <= s && n <= m
    requires Hooked(w0, s0, wp, sp, n, ws, ls) && Hooked(wp, sp, w, s, m, ws', ls')
    requires forall h :: h in ws' ==> h.ctx < n
    requires forall h :: h in ls' ==> h.ctx < n
    ensures Hooked(w0, s0, w, s, n, ws + ws', ls + ls')
  {
    WiringsBelowSplit(w, |w0|, |wp|, |w|, n);
    SinksBelowSplit(s, |s0|, |sp|, |s|, n);
    WiringsBelowExtend(wp, w, |w0|, |wp|, n);
    SinksBelowExtend(sp, s, |s0|, |sp|, n);
    WiringsBelowLower(w, |wp|, |w|, n, m);
    SinksBelowLower(s, |sp|, |s|, n, m);
  }

  /**
   * Between the logs `w0`, `s0` and their extensions `w`, `s`, no DOM
   * listener and no state listener was attached for a context below `n`.
   */
  ghost predicate Quiet(w0: seq<Wiring>, s0: seq<Sink>, w: seq<Wiring>, s: seq<Sink>, n: nat)
  {
    |w0| <= |w| && |s0| <= |s| &&
    (forall j :: |w0| <= j < |w| ==> n <= w[j].ctx) &&
    (forall j :: |s0| <= j < |s| ==> n <= s[j].ctx)
  }

  /** Two quiet stretches make a quiet one; a quiet stretch is quiet under a smaller bound too. */
  lemma QuietTrans(w0: seq<Wiring>, s0: seq<Sink>, wp: seq<Wiring>, sp: seq<Sink>, w: seq<Wiring>, s: seq<Sink>, n: nat, m: nat)
    requires wp <= w && sp <= s && n <= m
    requires Quiet(w0, s0, wp, sp, n) && Quiet(wp, sp, w, s, m)
    ensures Quiet(w0, s0, w, s, n)
  {
  }

  /** A DOM listener of a context below `n` in the stretch is among the filtered hooks. */
  lemma {:induction false} WiringsBelowHas(w: seq<Wiring>, lo: nat, hi: nat, n: nat, j: nat)
    requires lo <= j < hi <= |w| && w[j].ctx < n
    ensures WiringHook(w[j]) in WiringsBelow(w, lo, hi, n)
    decreases hi - lo
  {
    if j < hi - 1 {
      WiringsBelowHas(w, lo, hi - 1, n, j);
    }
  }

  lemma {:induction false} SinksBelowHas(s: seq<Sink>, lo: nat, hi: nat, n: nat, j: nat)
    requires lo <= j < hi <= |s| && s[j].ctx < n
    ensures SinkHook(s[j]) in SinksBelow(s, lo, hi, n)
    decreases hi - lo
  {
    if j < hi - 1 {
      SinksBelowHas(s, lo, hi - 1, n, j);
    }
  }

  /** A stretch without DOM listeners below `n` filters to nothing. */
  lemma {:induction false} WiringsBelowQuiet(w: seq<Wiring>, lo: nat, hi: nat, n: nat)
    requires lo <= hi <= |w| && forall j :: lo <= j < hi ==> n <= w[j].ctx
    ensures WiringsBelow(w, lo, hi, n) == []
    decreases hi - lo
  {
    if hi > lo {
      WiringsBelowQuiet(w, lo, hi - 1, n);
    }
  }

  lemma {:induction false} SinksBelowQuiet(s: seq<Sink>, lo: nat, hi: nat, n: nat)
    requires lo <= hi <= |s| && forall j :: lo <= j < hi ==> n <= s[j].ctx
    ensures SinksBelow(s, lo, hi, n) == []
    decreases hi - lo
  {
    if hi > lo {
      SinksBelowQuiet(s, lo, hi - 1, n);
    }
  }

  /** Hooks that all belong to contexts from `n` on leave nothing below `n`. */
  lemma HookedNarrow(w0: seq<Wiring>, s0: seq<Sink>, w: seq<Wiring>, s: seq<Sink>, n: nat, m: nat, ws: seq<Hook>, ls: seq<Hook>)
    requires n <= m && Hooked(w0, s0, w, s, m, ws, ls)
    requires forall h :: h in ws ==> n <= h.ctx
    requires forall h :: h in ls ==> n <= h.ctx
    ensures Quiet(w0, s0, w, s, n)
  {
    forall j | |w0| <= j < |w| ensures n <= w[j].ctx {
      if w[j].ctx < n {
        WiringsBelowHas(w, |w0|, |w|, m, j);
      }
    }
    forall j | |s0| <= j < |s| ensures n <= s[j].ctx {
      if s[j].ctx < n {
        SinksBelowHas(s, |s0|, |s|, m, j);
      }
    }
  }

  /** A stretch that attaches nothing below `n` after one that attached `ws` and `ls`. */
  lemma HookedQuiet(w0: seq<Wiring>, s0: seq<Sink>, wp: seq<Wiring>, sp: seq<Sink>, w: seq<Wiring>, s: seq<Sink>,
                    n: nat, ws: seq<Hook>, ls: seq<Hook>)
    requires w0 <= wp <= w && s0 <= sp <= s
    requires Hooked(w0, s0, wp, sp, n, ws, ls) && Quiet(wp, sp, w, s, n)
    ensures Hooked(w0, s0, w, s, n, ws, ls)
  {
    WiringsBelowQuiet(w, |wp|, |w|, n);
    SinksBelowQuiet(s, |sp|, |s|, n);
    HookedTrans(w0, s0, wp, sp, w, s, n, n, ws, ls, [], []);
  }

  /** The DOM listeners attribute step `step` attaches to an element processed in context `c`. */
  function StepWirings(step: Step, c: nat): (hs: seq<Hook>)
    ensures forall h :: h in hs ==> h.ctx == c
  {
    if step.Act? && step.d.Data? then [OnInput(c, step.d.stateName)]
    else if step.Act? && step.d.On? then [OnEvent(c, step.d.event, step.d.handler)]
    else []
  }

  /** The state listeners attribute step `step` attaches for an element processed in context `c`. */
  function StepListeners(step: Step, c: nat): (hs: seq<Hook>)
    ensures forall h :: h in hs ==> h.ctx == c
  {
    if step.Act? && step.d.Content? then [OnText(c, step.d.stateName)]
    else if step.Act? && step.d.For? then [OnList(c, step.d.loopVar)]
    else []
  }

  /** How many attributes the attribute loop got to when it stopped at `stop`: the one it stopped at counts. */
  function Processed(stop: nat, count: nat): nat
  {
    if stop < count then stop + 1 else count
  }

  /** The DOM listeners the first `n` steps of an element processed in context `c` attach, in attribute order. */
  function AttrWirings(steps: seq<Step>, n: nat, c: nat): seq<Hook>
    requires n <= |steps|
  {
    if n == 0 then [] else AttrWirings(steps, n - 1, c) + StepWirings(steps[n - 1], c)
  }

  /** The state listeners the first `n` steps of an element processed in context `c` attach, in attribute order. */
  function AttrListeners(steps: seq<Step>, n: nat, c: nat): seq<Hook>
    requires n <= |steps|
  {
    if n == 0 then [] else AttrListeners(steps, n - 1, c) + StepListeners(steps[n - 1], c)
  }

  /** Every listener the attributes of an element processed in `c` attach belongs to `c`. */
  lemma {:induction false} AttrHooksIn(steps: seq<Step>, n: nat, c: nat)
    requires n <= |steps|
    ensures forall h :: h in AttrWirings(steps, n, c) ==> h.ctx == c
    ensures forall h :: h in AttrListeners(steps, n, c) ==> h.ctx == c
  {
    if n > 0 {
      AttrHooksIn(steps, n - 1, c);
    }
  }

  /** One more attribute's listeners, attached after those of the attributes before it. */
  lemma HookedAttr(w0: seq<Wiring>, s0: seq<Sink>, wp: seq<Wiring>, sp: seq<Sink>, w: seq<Wiring>, s: seq<Sink>, n: nat, m: nat,
                   steps: seq<Step>, i: nat, c: nat)
    requires i < |steps| && c < n <= m && w0 <= wp <= w && s0 <= sp <= s
    requires Hooked(w0, s0, wp, sp, n, AttrWirings(steps, i, c), AttrListeners(steps, i, c))
    requires Hooked(wp, sp, w, s, m, StepWirings(steps[i], c), StepListeners(steps[i], c))
    ensures Hooked(w0, s0, w, s, n, AttrWirings(steps, i + 1, c), AttrListeners(steps, i + 1, c))
  {
    HookedTrans(w0, s0, wp, sp, w, s, n, m, AttrWirings(steps, i, c), AttrListeners(steps, i, c),
                StepWirings(steps[i], c), StepListeners(steps[i], c));
  }

  /**
   * The logs hold every listener that the first `upto` attributes of an
   * element processed in context `c` attach.
   */
  ghost predicate Applied(steps: seq<Step>, upto: nat, c: nat, w: seq<Wiring>, s: seq<Sink>)
  {
    upto <= |steps| &&
    (forall h :: h in AttrWirings(steps, upto, c) ==> h in WiringHooks(w)) &&
    (forall h :: h in AttrListeners(steps, upto, c) ==> h in SinkHooks(s))
  }

  /** What a stretch of the logs attached is in the logs. */
  lemma HookedApplied(w0: seq<Wiring>, s0: seq<Sink>, w: seq<Wiring>, s: seq<Sink>, n: nat, steps: seq<Step>, upto: nat, c: nat)
    requires upto <= |steps| && Hooked(w0, s0, w, s, n, AttrWirings(steps, upto, c), AttrListeners(steps, upto, c))
    ensures Applied(steps, upto, c, w, s)
  {
    WiringsBelowSub(w, |w0|, |w|, n);
    SinksBelowSub(s, |s0|, |s|, n);
  }

  /** The logs only grow, so what they hold stays. */
  lemma AppliedKept(steps: seq<Step>, upto: nat, c: nat, w: seq<Wiring>, s: seq<Sink>, w': seq<Wiring>, s': seq<Sink>)
    requires w <= w' && s <= s' && Applied(steps, upto, c, w, s)
    ensures Applied(steps, upto, c, w', s')
  {
    forall h | h in WiringHooks(w) ensures h in WiringHooks(w') {
      var i :| 0 <= i < |w| && WiringHooks(w)[i] == h;
      assert WiringHooks(w')[i] == h;
    }
    forall h | h in SinkHooks(s) ensures h in SinkHooks(s') {
      var i :| 0 <= i < |s| && SinkHooks(s)[i] == h;
      assert SinkHooks(s')[i] == h;
    }
  }
}
