/** The attach/detach/cache/mount lifecycle of rendered components and the view
    pool that recycles views. Components live in an arena: each has a kind (the
    custom attribute, custom element or view whose prototype supplies the
    lifecycle functions), a set of capability hooks, the list of child
    components it walks and the list of bindables it binds. Calls into the
    lifecycle coordinator, into the hooks and into the DOM are recorded as
    events appended to a log. */
module Templating {

  datatype Option<T> = None | Some(value: T)

  /** An operation that either succeeds or throws a numbered framework error. */
  datatype Result<T> = Success(value: T) | Failure(code: nat)

  /** The bits of a component's `$state` that this part of the runtime reads or writes. */
  datatype StateFlag = IsAttaching | IsAttached | IsDetaching | IsMounted | IsCached | IsBound

  /** The `LifecycleFlags` bits that this part of the runtime reads or adds. */
  datatype LifecycleFlag = FromAttach | FromDetach | FromCache | FromBind | ParentUnmountQueued | FromStopTask

  /** The capability bits of `$hooks`. */
  datatype Hook = HasAttaching | HasAttached | HasDetaching | HasDetached | HasCaching

  type States = set<StateFlag>
  type Flags = set<LifecycleFlag>

  /** Which prototype supplies `$attach`, `$detach` and `$cache`. */
  datatype Kind = Attribute | Element | View

  /** The fixed shape of a component: its kind, its hooks, its child components
      (the `$componentHead`/`$nextComponent` list) and its bindables (the
      `$bindableHead`/`$nextBind` list). */
  datatype Component = Component(kind: Kind, hooks: set<Hook>, children: seq<nat>, bindables: seq<nat>)

  /** A render location: an identity and whether it has a parent node. */
  datatype Location = Location(id: nat, hasParent: bool)

  /** A binding scope, known only by its identity. */
  datatype Scope = Scope(id: nat)

  /** What rendering a template into a fresh view gives it: its child
      components, its bindables, and whether it produced any nodes. */
  datatype Rendering = Rendering(children: seq<nat>, bindables: seq<nat>, hasNodes: bool)

  /** A call made on the lifecycle coordinator, on a hook or on the DOM. */
  datatype Event =
    | BeginAttach | EndAttach(flags: Flags)
    | Attaching(c: nat, flags: Flags) | EnqueueAttached(c: nat) | EnqueueMount(c: nat)
    | BeginDetach | EndDetach(flags: Flags)
    | Detaching(c: nat, flags: Flags) | EnqueueDetached(c: nat) | EnqueueUnmount(c: nat)
    | Caching(c: nat, flags: Flags)
    | Project(c: nat) | Take(c: nat) | InsertBefore(c: nat, at: Option<Location>) | Remove(c: nat)
    | Bind(c: nat, flags: Flags, scope: Option<Scope>)
    | Render(c: nat)

  /** Every child and bindable index is in range, and every child comes earlier
      in the arena than its parent, so the component graph has no cycle. */
  ghost predicate WellFormed(w: seq<Component>)
  {
    (forall c, i :: 0 <= c < |w| && 0 <= i < |w[c].children| ==> w[c].children[i] < c) &&
    (forall c, i :: 0 <= c < |w| && 0 <= i < |w[c].bindables| ==> w[c].bindables[i] < |w|)
  }

  /** The states of every component, and the log, after an operation. */
  datatype Outcome = Outcome(states: seq<States>, log: seq<Event>)

  /** A hook call or enqueue that happens only when its capability bit is set. */
  function Hooked(enabled: bool, e: Event): seq<Event>
  {
    if enabled then [e] else []
  }

  /** The state bits after the attach step: `isAttached` added, `isAttaching` removed. */
  function AttachedBits(s: States): (r: States)
    ensures IsAttached in r && IsAttaching !in r
    ensures forall b :: b != IsAttached && b != IsAttaching ==> (b in r <==> b in s)
  {
    s + {IsAttached} - {IsAttaching}
  }

  /** The state bits after the detach step: `isAttached` and `isDetaching` removed. */
  function DetachedBits(s: States): (r: States)
    ensures IsAttached !in r && IsDetaching !in r
    ensures forall b :: b != IsAttached && b != IsDetaching ==> (b in r <==> b in s)
  {
    s - {IsAttached, IsDetaching}
  }

  // ---------------------------------------------------------------------------
  // $attach
  // ---------------------------------------------------------------------------

  /** `$attach` on component c: the function its kind's prototype supplies. */
  function AttachOf(w: seq<Component>, st: seq<States>, log: seq<Event>, c: nat, flags: Flags): (r: Outcome)
    requires WellFormed(w) && c < |w| && |st| == |w|
    ensures |r.states| == |w|
    decreases c, 2, 0
  {
    match w[c].kind
    case Attribute => AttachAttributeOf(w, st, log, c, flags)
    case Element => AttachElementOf(w, st, log, c, flags)
    case View => AttachViewOf(w, st, log, c, flags)
  }

  /** `$attachAttribute`. */
  function AttachAttributeOf(w: seq<Component>, st: seq<States>, log: seq<Event>, c: nat, flags: Flags): (r: Outcome)
    requires c < |w| && |st| == |w|
    ensures |r.states| == |w|
  {
    if IsAttached in st[c] then Outcome(st, log)
    else
      var f := flags + {FromAttach};
      var h := w[c].hooks;
      Outcome(st[c := AttachedBits(st[c] + {IsAttaching})],
              log + [BeginAttach] + Hooked(HasAttaching in h, Attaching(c, f))
              + Hooked(HasAttached in h, EnqueueAttached(c)) + [EndAttach(f)])
  }

  /** `$attachElement`: the children are attached after the `attaching` hook
      and before the mount is enqueued. */
  function AttachElementOf(w: seq<Component>, st: seq<States>, log: seq<Event>, c: nat, flags: Flags): (r: Outcome)
    requires WellFormed(w) && c < |w| && |st| == |w|
    ensures |r.states| == |w|
    decreases c, 1, 0
  {
    if IsAttached in st[c] then Outcome(st, log)
    else
      var f := flags + {FromAttach};
      var h := w[c].hooks;
      var o := AttachChildren(w, st[c := st[c] + {IsAttaching}],
                              log + [BeginAttach] + Hooked(HasAttaching in h, Attaching(c, f)),
                              c, |w[c].children|, f);
      Outcome(o.states[c := AttachedBits(o.states[c])],
              o.log + [EnqueueMount(c)] + Hooked(HasAttached in h, EnqueueAttached(c)) + [EndAttach(f)])
  }

  /** `$attachView`: like an element but without coordinator brackets or hooks. */
  function AttachViewOf(w: seq<Component>, st: seq<States>, log: seq<Event>, c: nat, flags: Flags): (r: Outcome)
    requires WellFormed(w) && c < |w| && |st| == |w|
    ensures |r.states| == |w|
    decreases c, 1, 0
  {
    if IsAttached in st[c] then Outcome(st, log)
    else
      var o := AttachChildren(w, st[c := st[c] + {IsAttaching}], log, c, |w[c].children|, flags + {FromAttach});
      Outcome(o.states[c := AttachedBits(o.states[c])], o.log + [EnqueueMount(c)])
  }

  /** The first k children of p attached head to tail, each from the states and
      log the previous one left. */
  function AttachChildren(w: seq<Component>, st: seq<States>, log: seq<Event>, p: nat, k: nat, flags: Flags): (r: Outcome)
    requires WellFormed(w) && p < |w| && |st| == |w| && k <= |w[p].children|
    ensures |r.states| == |w|
    decreases p, 0, k
  {
    if k == 0 then Outcome(st, log)
    else
      var o := AttachChildren(w, st, log, p, k - 1, flags);
      AttachOf(w, o.states, o.log, w[p].children[k - 1], flags)
  }

  // ---------------------------------------------------------------------------
  // $detach
  // ---------------------------------------------------------------------------

  /** Whether a detaching element or view enqueues its own unmount: when no
      parent unmount is queued yet, or when the application is stopping. */
  predicate UnmountGuard(flags: Flags)
  {
    ParentUnmountQueued !in flags || FromStopTask in flags
  }

  /** The flags an element or view passes to its children: `parentUnmountQueued`
      is added when it enqueued its own unmount. */
  function ChildFlags(f: Flags): (r: Flags)
    ensures ParentUnmountQueued in r
    ensures FromStopTask in r <==> FromStopTask in f
  {
    if UnmountGuard(f) then f + {ParentUnmountQueued} else f
  }

  /** The source tests the guard on a bit mask,
      `((flags & parentUnmountQueued) ^ parentUnmountQueued) | (flags & fromStopTask)`;
      for any two distinct single-bit masks p and s and any other bits, that
      value is non-zero exactly when `UnmountGuard` holds of the flag set. */
  lemma UnmountGuardBits(flags: Flags, rest: bv32, p: bv32, s: bv32)
    requires p != 0 && p & (p - 1) == 0 && s != 0 && s & (s - 1) == 0 && p != s
    requires rest & (p | s) == 0
    ensures var x := rest | (if ParentUnmountQueued in flags then p else 0)
                          | (if FromStopTask in flags then s else 0);
            (((x & p) ^ p) | (x & s)) != 0 <==> UnmountGuard(flags)
  {
  }

  /** `$detach` on component c: the function its kind's prototype supplies. */
  function DetachOf(w: seq<Component>, st: seq<States>, log: seq<Event>, c: nat, flags: Flags): (r: Outcome)
    requires WellFormed(w) && c < |w| && |st| == |w|
    ensures |r.states| == |w|
    decreases c, 2, 0
  {
    match w[c].kind
    case Attribute => DetachAttributeOf(w, st, log, c, flags)
    case Element => DetachElementOf(w, st, log, c, flags)
    case View => DetachViewOf(w, st, log, c, flags)
  }

  /** `$detachAttribute`. */
  function DetachAttributeOf(w: seq<Component>, st: seq<States>, log: seq<Event>, c: nat, flags: Flags): (r: Outcome)
    requires c < |w| && |st| == |w|
    ensures |r.states| == |w|
  {
    if IsAttached !in st[c] then Outcome(st, log)
    else
      var f := flags + {FromDetach};
      var h := w[c].hooks;
      Outcome(st[c := DetachedBits(st[c] + {IsDetaching})],
              log + [BeginDetach] + Hooked(HasDetaching in h, Detaching(c, f))
              + Hooked(HasDetached in h, EnqueueDetached(c)) + [EndDetach(f)])
  }

  /** `$detachElement`: the unmount is enqueued before the `detaching` hook,
      and the children are detached before the element's bits are cleared. */
  function DetachElementOf(w: seq<Component>, st: seq<States>, log: seq<Event>, c: nat, flags: Flags): (r: Outcome)
    requires WellFormed(w) && c < |w| && |st| == |w|
    ensures |r.states| == |w|
    decreases c, 1, 0
  {
    if IsAttached !in st[c] then Outcome(st, log)
    else
      var f0 := flags + {FromDetach};
      var f := ChildFlags(f0);
      var h := w[c].hooks;
      var o := DetachChildren(w, st[c := st[c] + {IsDetaching}],
                              log + [BeginDetach] + Hooked(UnmountGuard(f0), EnqueueUnmount(c))
                              + Hooked(HasDetaching in h, Detaching(c, f)),
                              c, 0, f);
      Outcome(o.states[c := DetachedBits(o.states[c])],
              o.log + Hooked(HasDetached in h, EnqueueDetached(c)) + [EndDetach(f)])
  }

  /** `$detachView`: like an element but without coordinator brackets or hooks. */
  function DetachViewOf(w: seq<Component>, st: seq<States>, log: seq<Event>, c: nat, flags: Flags): (r: Outcome)
    requires WellFormed(w) && c < |w| && |st| == |w|
    ensures |r.states| == |w|
    decreases c, 1, 0
  {
    if IsAttached !in st[c] then Outcome(st, log)
    else
      var f0 := flags + {FromDetach};
      var o := DetachChildren(w, st[c := st[c] + {IsDetaching}], log + Hooked(UnmountGuard(f0), EnqueueUnmount(c)),
                              c, 0, ChildFlags(f0));
      Outcome(o.states[c := DetachedBits(o.states[c])], o.log)
  }

  /** The children of p from position i to the end detached tail to head, the
      child at position i last. */
  function DetachChildren(w: seq<Component>, st: seq<States>, log: seq<Event>, p: nat, i: nat, flags: Flags): (r: Outcome)
    requires WellFormed(w) && p < |w| && |st| == |w| && i <= |w[p].children|
    ensures |r.states| == |w|
    decreases p, 0, |w[p].children| - i
  {
    if i == |w[p].children| then Outcome(st, log)
    else
      var o := DetachChildren(w, st, log, p, i + 1, flags);
      DetachOf(w, o.states, o.log, w[p].children[i], flags)
  }

  // ---------------------------------------------------------------------------
  // $cache
  // ---------------------------------------------------------------------------

  /** `$cacheAttribute`, `$cacheElement` or `$cacheView` on component c: no state
      changes, only the `caching` hooks of the subtree, children tail to head. */
  function CacheOf(w: seq<Component>, log: seq<Event>, c: nat, flags: Flags): (r: seq<Event>)
    requires WellFormed(w) && c < |w|
    decreases c, 1, 0
  {
    var f := flags + {FromCache};
    match w[c].kind
    case Attribute => log + Hooked(HasCaching in w[c].hooks, Caching(c, f))
    case Element => CacheChildren(w, log + Hooked(HasCaching in w[c].hooks, Caching(c, f)), c, 0, f)
    case View => CacheChildren(w, log, c, 0, f)
  }

  /** The children of p from position i to the end cached tail to head. */
  function CacheChildren(w: seq<Component>, log: seq<Event>, p: nat, i: nat, flags: Flags): (r: seq<Event>)
    requires WellFormed(w) && p < |w| && i <= |w[p].children|
    decreases p, 0, |w[p].children| - i
  {
    if i == |w[p].children| then log
    else CacheOf(w, CacheChildren(w, log, p, i + 1, flags), w[p].children[i], flags)
  }


  // ---------------------------------------------------------------------------
  // Properties of the lifecycle steps
  // ---------------------------------------------------------------------------

  /** The log r continues the log `log`: calls are only ever appended. */
  ghost predicate Extends(log: seq<Event>, r: seq<Event>)
  {
    |log| <= |r| && r[..|log|] == log
  }

  /** Appending events extends a log. */
  lemma ExtendsSuffix(a: seq<Event>, b: seq<Event>, c: seq<Event>)
    ensures Extends(a, a + b) && Extends(a, a + b + c)
  {
    assert (a + b)[..|a|] == a;
    assert (a + b + c)[..|a|] == a;
  }

  lemma ExtendsTrans(a: seq<Event>, b: seq<Event>, c: seq<Event>)
    requires Extends(a, b) && Extends(b, c)
    ensures Extends(a, c)
  {
    assert c[..|a|] == c[..|b|][..|a|];
  }

  /** Whether a hook call or enqueue in the log was allowed by the capability
      bits of the component it names. */
  ghost predicate Allowed(w: seq<Component>, e: Event)
  {
    match e
    case Attaching(c, _) => c < |w| && HasAttaching in w[c].hooks
    case EnqueueAttached(c) => c < |w| && HasAttached in w[c].hooks
    case Detaching(c, _) => c < |w| && HasDetaching in w[c].hooks
    case EnqueueDetached(c) => c < |w| && HasDetached in w[c].hooks
    case Caching(c, _) => c < |w| && HasCaching in w[c].hooks
    case _ => true
  }

  /** Every hook call and attached/detached enqueue in the log is allowed. */
  ghost predicate Gated(w: seq<Component>, log: seq<Event>)
  {
    forall i :: 0 <= i < |log| ==> Allowed(w, log[i])
  }

  /** One more allowed event keeps a log gated. */
  lemma GatedSnoc(w: seq<Component>, log: seq<Event>, e: Event)
    requires Gated(w, log) && Allowed(w, e)
    ensures Gated(w, log + [e])
  {
  }

  /** A hook call made only when enabled, which then allows it, keeps a log gated. */
  lemma GatedHooked(w: seq<Component>, log: seq<Event>, enabled: bool, e: Event)
    requires Gated(w, log) && (enabled ==> Allowed(w, e))
    ensures Gated(w, log + Hooked(enabled, e))
  {
    if enabled {
      GatedSnoc(w, log, e);
    } else {
      assert log + Hooked(enabled, e) == log;
    }
  }

  /** What is tallied over a log: how deeply nested the open `beginAttach` or
      `beginDetach` brackets are, or how many unmounts were enqueued. */
  datatype Measure = AttachNesting | DetachNesting | UnmountsQueued

  function Weight(e: Event, m: Measure): int
  {
    match m
    case AttachNesting => if e.BeginAttach? then 1 else if e.EndAttach? then -1 else 0
    case DetachNesting => if e.BeginDetach? then 1 else if e.EndDetach? then -1 else 0
    case UnmountsQueued => if e.EnqueueUnmount? then 1 else 0
  }

  /** The sum of the weights of the log's events. */
  function Tally(log: seq<Event>, m: Measure): (n: int)
    ensures m == UnmountsQueued ==> 0 <= n
  {
    if log == [] then 0 else Tally(log[..|log| - 1], m) + Weight(log[|log| - 1], m)
  }

  lemma TallySnoc(log: seq<Event>, e: Event, m: Measure)
    ensures Tally(log + [e], m) == Tally(log, m) + Weight(e, m)
  {
    assert (log + [e])[..|log|] == log;
  }

  lemma TallyHooked(log: seq<Event>, enabled: bool, e: Event, m: Measure)
    ensures Tally(log + Hooked(enabled, e), m) == Tally(log, m) + (if enabled then Weight(e, m) else 0)
  {
    if enabled {
      TallySnoc(log, e, m);
    } else {
      assert log + Hooked(enabled, e) == log;
    }
  }

  /** Attach only appends to the log and leaves every component above c alone. */
  lemma {:induction false} AttachFrame(w: seq<Component>, st: seq<States>, log: seq<Event>, c: nat, flags: Flags)
    requires WellFormed(w) && c < |w| && |st| == |w|
    ensures Extends(log, AttachOf(w, st, log, c, flags).log)
    ensures forall i :: c < i < |w| ==> AttachOf(w, st, log, c, flags).states[i] == st[i]
    decreases c, 1, 0
  {
    if IsAttached !in st[c] {
      var f := flags + {FromAttach};
      var st1 := st[c := st[c] + {IsAttaching}];
      var h := w[c].hooks;
      match w[c].kind
      case Attribute =>
      case Element =>
        var log1 := log + [BeginAttach] + Hooked(HasAttaching in h, Attaching(c, f));
        AttachChildrenFrame(w, st1, log1, c, |w[c].children|, f);
        var o := AttachChildren(w, st1, log1, c, |w[c].children|, f);
        ExtendsTrans(log, log1, o.log);
        ExtendsSuffix(o.log, [EnqueueMount(c)] + Hooked(HasAttached in h, EnqueueAttached(c)), [EndAttach(f)]);
        assert AttachOf(w, st, log, c, flags) == AttachElementOf(w, st, log, c, flags);
        ExtendsTrans(log, o.log, AttachOf(w, st, log, c, flags).log);
      case View =>
        AttachChildrenFrame(w, st1, log, c, |w[c].children|, f);
    }
  }

  lemma {:induction false} AttachChildrenFrame(w: seq<Component>, st: seq<States>, log: seq<Event>, p: nat, k: nat, flags: Flags)
    requires WellFormed(w) && p < |w| && |st| == |w| && k <= |w[p].children|
    ensures Extends(log, AttachChildren(w, st, log, p, k, flags).log)
    ensures forall i :: p <= i < |w| ==> AttachChildren(w, st, log, p, k, flags).states[i] == st[i]
    decreases p, 0, k
  {
    if k > 0 {
      AttachChildrenFrame(w, st, log, p, k - 1, flags);
      var o := AttachChildren(w, st, log, p, k - 1, flags);
      AttachFrame(w, o.states, o.log, w[p].children[k - 1], flags);
      ExtendsTrans(log, o.log, AttachChildren(w, st, log, p, k, flags).log);
    }
  }


  /** Attach on an attached component changes nothing and calls nothing; on any
      other it leaves the component attached and not attaching with its other
      bits as they were, and an attribute or element brackets its calls
      between one `beginAttach` and one `endAttach`. */
  lemma {:induction false} AttachMarks(w: seq<Component>, st: seq<States>, log: seq<Event>, c: nat, flags: Flags)
    requires WellFormed(w) && c < |w| && |st| == |w|
    ensures var r := AttachOf(w, st, log, c, flags);
            (IsAttached in st[c] ==> r == Outcome(st, log))
            && (IsAttached !in st[c] ==> r.states[c] == AttachedBits(st[c]))
            && (IsAttached !in st[c] && w[c].kind != View ==>
                  |r.log| > |log| && r.log[|log|] == BeginAttach && r.log[|r.log| - 1] == EndAttach(flags + {FromAttach}))
  {
    if IsAttached !in st[c] {
      var f := flags + {FromAttach};
      var st1 := st[c := st[c] + {IsAttaching}];
      var h := w[c].hooks;
      assert AttachedBits(st1[c]) == AttachedBits(st[c]);
      match w[c].kind
      case Attribute =>
      case Element =>
        var log1 := log + [BeginAttach] + Hooked(HasAttaching in h, Attaching(c, f));
        AttachChildrenFrame(w, st1, log1, c, |w[c].children|, f);
        var o := AttachChildren(w, st1, log1, c, |w[c].children|, f);
        assert o.log[|log|] == o.log[..|log1|][|log|] == log1[|log|];
      case View =>
        AttachChildrenFrame(w, st1, log, c, |w[c].children|, f);
    }
  }

  /** Detach undoes attach: a component that was neither attached nor in the
      middle of attaching or detaching gets its own state bits back. */
  lemma AttachDetachRoundTrip(w: seq<Component>, st: seq<States>, log: seq<Event>, c: nat, flags: Flags, flags': Flags)
    requires WellFormed(w) && c < |w| && |st| == |w|
    requires IsAttached !in st[c] && IsAttaching !in st[c] && IsDetaching !in st[c]
    ensures var a := AttachOf(w, st, log, c, flags);
            DetachOf(w, a.states, a.log, c, flags').states[c] == st[c]
  {
    AttachMarks(w, st, log, c, flags);
    var a := AttachOf(w, st, log, c, flags);
    DetachMarks(w, a.states, a.log, c, flags');
    assert DetachedBits(AttachedBits(st[c])) == st[c];
  }

  /** Attach calls `attaching` and enqueues `attached` only for components whose
      hooks include them. */
  lemma {:induction false} AttachGated(w: seq<Component>, st: seq<States>, log: seq<Event>, c: nat, flags: Flags)
    requires WellFormed(w) && c < |w| && |st| == |w| && Gated(w, log)
    ensures Gated(w, AttachOf(w, st, log, c, flags).log)
    decreases c, 1, 0
  {
    if IsAttached !in st[c] {
      var f := flags + {FromAttach};
      var st1 := st[c := st[c] + {IsAttaching}];
      var h := w[c].hooks;
      var log1 := log + [BeginAttach] + Hooked(HasAttaching in h, Attaching(c, f));
      match w[c].kind
      case Attribute =>
        GatedSnoc(w, log, BeginAttach);
        GatedHooked(w, log + [BeginAttach], HasAttaching in h, Attaching(c, f));
        GatedHooked(w, log1, HasAttached in h, EnqueueAttached(c));
        GatedSnoc(w, log1 + Hooked(HasAttached in h, EnqueueAttached(c)), EndAttach(f));
      case Element =>
        GatedSnoc(w, log, BeginAttach);
        GatedHooked(w, log + [BeginAttach], HasAttaching in h, Attaching(c, f));
        AttachChildrenGated(w, st1, log1, c, |w[c].children|, f);
        var o := AttachChildren(w, st1, log1, c, |w[c].children|, f);
        GatedSnoc(w, o.log, EnqueueMount(c));
        GatedHooked(w, o.log + [EnqueueMount(c)], HasAttached in h, EnqueueAttached(c));
        GatedSnoc(w, o.log + [EnqueueMount(c)] + Hooked(HasAttached in h, EnqueueAttached(c)), EndAttach(f));
      case View =>
        AttachChildrenGated(w, st1, log, c, |w[c].children|, f);
        var o := AttachChildren(w, st1, log, c, |w[c].children|, f);
        GatedSnoc(w, o.log, EnqueueMount(c));
    }
  }

  lemma {:induction false} AttachChildrenGated(w: seq<Component>, st: seq<States>, log: seq<Event>, p: nat, k: nat, flags: Flags)
    requires WellFormed(w) && p < |w| && |st| == |w| && k <= |w[p].children| && Gated(w, log)
    ensures Gated(w, AttachChildren(w, st, log, p, k, flags).log)
    decreases p, 0, k
  {
    if k > 0 {
      AttachChildrenGated(w, st, log, p, k - 1, flags);
      var o := AttachChildren(w, st, log, p, k - 1, flags);
      AttachGated(w, o.states, o.log, w[p].children[k - 1], flags);
    }
  }

  /** The log b continues the log a, and no log in between closes more
      brackets of measure m than were open at a: every prefix of b at least
      as long as a tallies at least as high as a. */
  ghost predicate NeverBelow(a: seq<Event>, b: seq<Event>, m: Measure)
  {
    Extends(a, b) && forall k | |a| <= k <= |b| :: Tally(b[..k], m) >= Tally(a, m)
  }

  lemma NeverBelowRefl(a: seq<Event>, m: Measure)
    ensures NeverBelow(a, a, m)
  {
    assert a[..|a|] == a;
  }

  /** One more event that does not take the tally below a's keeps b above a. */
  lemma NeverBelowSnoc(a: seq<Event>, b: seq<Event>, e: Event, m: Measure)
    requires NeverBelow(a, b, m) && Tally(b, m) + Weight(e, m) >= Tally(a, m)
    ensures NeverBelow(a, b + [e], m)
  {
    var b' := b + [e];
    assert b'[..|a|] == b[..|a|];
    forall k | |a| <= k <= |b'|
      ensures Tally(b'[..k], m) >= Tally(a, m)
    {
      if k <= |b| {
        assert b'[..k] == b[..k];
      } else {
        assert b'[..k] == b';
        TallySnoc(b, e, m);
      }
    }
  }

  lemma NeverBelowHooked(a: seq<Event>, b: seq<Event>, enabled: bool, e: Event, m: Measure)
    requires NeverBelow(a, b, m) && (enabled ==> Tally(b, m) + Weight(e, m) >= Tally(a, m))
    ensures NeverBelow(a, b + Hooked(enabled, e), m)
  {
    if enabled {
      NeverBelowSnoc(a, b, e, m);
    } else {
      assert b + Hooked(enabled, e) == b;
    }
  }

  /** A stretch that stays above b, after a stretch that ended no lower than
      it began, stays above a. */
  lemma NeverBelowTrans(a: seq<Event>, b: seq<Event>, c: seq<Event>, m: Measure)
    requires NeverBelow(a, b, m) && NeverBelow(b, c, m) && Tally(b, m) >= Tally(a, m)
    ensures NeverBelow(a, c, m)
  {
    ExtendsTrans(a, b, c);
    forall k | |a| <= k <= |c|
      ensures Tally(c[..k], m) >= Tally(a, m)
    {
      if k <= |b| {
        assert c[..k] == c[..|b|][..k];
      }
    }
  }

  /** Over a whole attach, every `beginAttach` is matched by a later
      `endAttach`: the nesting depth returns to where it started and never
      drops below it in between. */
  lemma {:induction false} AttachBalanced(w: seq<Component>, st: seq<States>, log: seq<Event>, c: nat, flags: Flags)
    requires WellFormed(w) && c < |w| && |st| == |w|
    ensures Tally(AttachOf(w, st, log, c, flags).log, AttachNesting) == Tally(log, AttachNesting)
    ensures NeverBelow(log, AttachOf(w, st, log, c, flags).log, AttachNesting)
    decreases c, 1, 0
  {
    var m := AttachNesting;
    if IsAttached in st[c] {
      NeverBelowRefl(log, m);
    } else {
      var f := flags + {FromAttach};
      var st1 := st[c := st[c] + {IsAttaching}];
      var h := w[c].hooks;
      var log1 := log + [BeginAttach] + Hooked(HasAttaching in h, Attaching(c, f));
      match w[c].kind
      case Attribute =>
        AttributeAttachBalanced(log, c, f, h);
      case Element =>
        AttachOpens(log, c, f, h);
        AttachChildrenBalanced(w, st1, log1, c, |w[c].children|, f);
        var o := AttachChildren(w, st1, log1, c, |w[c].children|, f);
        NeverBelowTrans(log, log1, o.log, m);
        ElementAttachBalanced(log, o.log, c, f, h);
        assert AttachOf(w, st, log, c, flags) == AttachElementOf(w, st, log, c, flags);
      case View =>
        AttachChildrenBalanced(w, st1, log, c, |w[c].children|, f);
        var o := AttachChildren(w, st1, log, c, |w[c].children|, f);
        TallySnoc(o.log, EnqueueMount(c), m);
        NeverBelowSnoc(log, o.log, EnqueueMount(c), m);
        assert AttachOf(w, st, log, c, flags) == AttachViewOf(w, st, log, c, flags);
    }
  }

  /** An attribute's calls form one bracket. */
  lemma AttributeAttachBalanced(log: seq<Event>, c: nat, f: Flags, h: set<Hook>)
    ensures var r := log + [BeginAttach] + Hooked(HasAttaching in h, Attaching(c, f))
                     + Hooked(HasAttached in h, EnqueueAttached(c)) + [EndAttach(f)];
            Tally(r, AttachNesting) == Tally(log, AttachNesting) && NeverBelow(log, r, AttachNesting)
  {
    var m := AttachNesting;
    AttachOpens(log, c, f, h);
    var log1 := log + [BeginAttach] + Hooked(HasAttaching in h, Attaching(c, f));
    var log2 := log1 + Hooked(HasAttached in h, EnqueueAttached(c));
    TallyHooked(log1, HasAttached in h, EnqueueAttached(c), m);
    NeverBelowHooked(log, log1, HasAttached in h, EnqueueAttached(c), m);
    TallySnoc(log2, EndAttach(f), m);
    NeverBelowSnoc(log, log2, EndAttach(f), m);
  }

  /** The opening of an attribute's or element's bracket: one level deeper. */
  lemma AttachOpens(log: seq<Event>, c: nat, f: Flags, h: set<Hook>)
    ensures var log1 := log + [BeginAttach] + Hooked(HasAttaching in h, Attaching(c, f));
            Tally(log1, AttachNesting) == Tally(log, AttachNesting) + 1 && NeverBelow(log, log1, AttachNesting)
  {
    var m := AttachNesting;
    NeverBelowRefl(log, m);
    TallySnoc(log, BeginAttach, m);
    NeverBelowSnoc(log, log, BeginAttach, m);
    TallyHooked(log + [BeginAttach], HasAttaching in h, Attaching(c, f), m);
    NeverBelowHooked(log, log + [BeginAttach], HasAttaching in h, Attaching(c, f), m);
  }

  /** The element's own calls around those of its children. */
  lemma ElementAttachBalanced(log: seq<Event>, inner: seq<Event>, c: nat, f: Flags, h: set<Hook>)
    requires Tally(inner, AttachNesting) == Tally(log, AttachNesting) + 1
    requires NeverBelow(log, inner, AttachNesting)
    ensures var r := inner + [EnqueueMount(c)] + Hooked(HasAttached in h, EnqueueAttached(c)) + [EndAttach(f)];
            Tally(r, AttachNesting) == Tally(log, AttachNesting) && NeverBelow(log, r, AttachNesting)
  {
    var m := AttachNesting;
    var inner1 := inner + [EnqueueMount(c)];
    TallySnoc(inner, EnqueueMount(c), m);
    NeverBelowSnoc(log, inner, EnqueueMount(c), m);
    TallyHooked(inner1, HasAttached in h, EnqueueAttached(c), m);
    NeverBelowHooked(log, inner1, HasAttached in h, EnqueueAttached(c), m);
    TallySnoc(inner1 + Hooked(HasAttached in h, EnqueueAttached(c)), EndAttach(f), m);
    NeverBelowSnoc(log, inner1 + Hooked(HasAttached in h, EnqueueAttached(c)), EndAttach(f), m);
  }

  lemma {:induction false} AttachChildrenBalanced(w: seq<Component>, st: seq<States>, log: seq<Event>, p: nat, k: nat, flags: Flags)
    requires WellFormed(w) && p < |w| && |st| == |w| && k <= |w[p].children|
    ensures Tally(AttachChildren(w, st, log, p, k, flags).log, AttachNesting) == Tally(log, AttachNesting)
    ensures NeverBelow(log, AttachChildren(w, st, log, p, k, flags).log, AttachNesting)
    decreases p, 0, k
  {
    if k == 0 {
      NeverBelowRefl(log, AttachNesting);
    } else {
      AttachChildrenBalanced(w, st, log, p, k - 1, flags);
      var o := AttachChildren(w, st, log, p, k - 1, flags);
      AttachBalanced(w, o.states, o.log, w[p].children[k - 1], flags);
      NeverBelowTrans(log, o.log, AttachOf(w, o.states, o.log, w[p].children[k - 1], flags).log, AttachNesting);
    }
  }

  /** Detach only appends to the log and leaves every component above c alone. */
  lemma {:induction false} DetachFrame(w: seq<Component>, st: seq<States>, log: seq<Event>, c: nat, flags: Flags)
    requires WellFormed(w) && c < |w| && |st| == |w|
    ensures Extends(log, DetachOf(w, st, log, c, flags).log)
    ensures forall i :: c < i < |w| ==> DetachOf(w, st, log, c, flags).states[i] == st[i]
    decreases c, 1, 0
  {
    if IsAttached in st[c] {
      var f0 := flags + {FromDetach};
      var st1 := st[c := st[c] + {IsDetaching}];
      var f := ChildFlags(f0);
      var h := w[c].hooks;
      match w[c].kind
      case Attribute =>
        var log1 := log + [BeginDetach] + Hooked(HasDetaching in h, Detaching(c, f0));
        ExtendsSuffix(log, [BeginDetach], Hooked(HasDetaching in h, Detaching(c, f0)));
        ExtendsSuffix(log1, Hooked(HasDetached in h, EnqueueDetached(c)), [EndDetach(f0)]);
        ExtendsTrans(log, log1, DetachOf(w, st, log, c, flags).log);
      case Element =>
        var log0 := log + [BeginDetach] + Hooked(UnmountGuard(f0), EnqueueUnmount(c));
        var log1 := log0 + Hooked(HasDetaching in h, Detaching(c, f));
        ExtendsSuffix(log, [BeginDetach], Hooked(UnmountGuard(f0), EnqueueUnmount(c)));
        ExtendsSuffix(log0, Hooked(HasDetaching in h, Detaching(c, f)), []);
        ExtendsTrans(log, log0, log1);
        DetachChildrenFrame(w, st1, log1, c, 0, f);
        var o := DetachChildren(w, st1, log1, c, 0, f);
        ExtendsTrans(log, log1, o.log);
        ExtendsSuffix(o.log, Hooked(HasDetached in h, EnqueueDetached(c)), [EndDetach(f)]);
        ExtendsTrans(log, o.log, DetachOf(w, st, log, c, flags).log);
      case View =>
        var log1 := log + Hooked(UnmountGuard(f0), EnqueueUnmount(c));
        ExtendsSuffix(log, Hooked(UnmountGuard(f0), EnqueueUnmount(c)), []);
        DetachChildrenFrame(w, st1, log1, c, 0, f);
        var o := DetachChildren(w, st1, log1, c, 0, f);
        ExtendsTrans(log, log1, o.log);
    }
  }

  lemma {:induction false} DetachChildrenFrame(w: seq<Component>, st: seq<States>, log: seq<Event>, p: nat, i: nat, flags: Flags)
    requires WellFormed(w) && p < |w| && |st| == |w| && i <= |w[p].children|
    ensures Extends(log, DetachChildren(w, st, log, p, i, flags).log)
    ensures forall n :: p <= n < |w| ==> DetachChildren(w, st, log, p, i, flags).states[n] == st[n]
    decreases p, 0, |w[p].children| - i
  {
    if i < |w[p].children| {
      DetachChildrenFrame(w, st, log, p, i + 1, flags);
      var o := DetachChildren(w, st, log, p, i + 1, flags);
      DetachFrame(w, o.states, o.log, w[p].children[i], flags);
      ExtendsTrans(log, o.log, DetachChildren(w, st, log, p, i, flags).log);
    }
  }

  /** Detach acts only on an attached component; it leaves it neither attached
      nor detaching with its other bits as they were, and an attribute or
      element opens its calls with `beginDetach` and closes them with `endDetach`. */
  lemma {:induction false} DetachMarks(w: seq<Component>, st: seq<States>, log: seq<Event>, c: nat, flags: Flags)
    requires WellFormed(w) && c < |w| && |st| == |w|
    ensures var r := DetachOf(w, st, log, c, flags);
            (IsAttached !in st[c] ==> r == Outcome(st, log))
            && (IsAttached in st[c] ==> r.states[c] == DetachedBits(st[c]))
            && (IsAttached in st[c] && w[c].kind != View ==>
                  |r.log| > |log| && r.log[|log|] == BeginDetach
                  && r.log[|r.log| - 1] == EndDetach(if w[c].kind == Attribute then flags + {FromDetach}
                                                     else ChildFlags(flags + {FromDetach})))
  {
    if IsAttached in st[c] {
      var f0 := flags + {FromDetach};
      var st1 := st[c := st[c] + {IsDetaching}];
      var h := w[c].hooks;
      var f := ChildFlags(f0);
      assert DetachedBits(st1[c]) == DetachedBits(st[c]);
      match w[c].kind
      case Attribute =>
      case Element =>
        var log1 := log + [BeginDetach] + Hooked(UnmountGuard(f0), EnqueueUnmount(c)) + Hooked(HasDetaching in h, Detaching(c, f));
        DetachChildrenFrame(w, st1, log1, c, 0, f);
        var o := DetachChildren(w, st1, log1, c, 0, f);
        assert o.log[|log|] == o.log[..|log1|][|log|] == log1[|log|];
      case View =>
        var log1 := log + Hooked(UnmountGuard(f0), EnqueueUnmount(c));
        DetachChildrenFrame(w, st1, log1, c, 0, f);
    }
  }

  /** An attached element or view enqueues its own unmount, right after its
      `beginDetach` if it has one, exactly when no parent unmount is queued or
      the application is stopping. */
  lemma DetachEnqueuesUnmount(w: seq<Component>, st: seq<States>, log: seq<Event>, c: nat, flags: Flags)
    requires WellFormed(w) && c < |w| && |st| == |w| && IsAttached in st[c]
    ensures w[c].kind == Element ==>
              Extends(log + [BeginDetach] + Hooked(UnmountGuard(flags + {FromDetach}), EnqueueUnmount(c)),
                      DetachOf(w, st, log, c, flags).log)
    ensures w[c].kind == View ==>
              Extends(log + Hooked(UnmountGuard(flags + {FromDetach}), EnqueueUnmount(c)),
                      DetachOf(w, st, log, c, flags).log)
  {
    var f0 := flags + {FromDetach};
    var st1 := st[c := st[c] + {IsDetaching}];
    var f := ChildFlags(f0);
    match w[c].kind
    case Attribute =>
    case Element =>
      var h := w[c].hooks;
      var log0 := log + [BeginDetach] + Hooked(UnmountGuard(f0), EnqueueUnmount(c));
      var log1 := log0 + Hooked(HasDetaching in h, Detaching(c, f));
      ExtendsSuffix(log0, Hooked(HasDetaching in h, Detaching(c, f)), []);
      DetachChildrenFrame(w, st1, log1, c, 0, f);
      var o := DetachChildren(w, st1, log1, c, 0, f);
      ExtendsTrans(log0, log1, o.log);
      var r := o.log + Hooked(HasDetached in h, EnqueueDetached(c)) + [EndDetach(f)];
      assert DetachElementOf(w, st, log, c, flags).log == r;
      ExtendsSuffix(o.log, Hooked(HasDetached in h, EnqueueDetached(c)), [EndDetach(f)]);
      ExtendsTrans(log0, o.log, r);
    case View =>
      var log0 := log + Hooked(UnmountGuard(f0), EnqueueUnmount(c));
      DetachChildrenFrame(w, st1, log0, c, 0, f);
      assert DetachViewOf(w, st, log, c, flags).log == DetachChildren(w, st1, log0, c, 0, f).log;
  }

  /** Detach calls `detaching` and enqueues `detached` only for components whose
      hooks include them. */
  lemma {:induction false} DetachGated(w: seq<Component>, st: seq<States>, log: seq<Event>, c: nat, flags: Flags)
    requires WellFormed(w) && c < |w| && |st| == |w| && Gated(w, log)
    ensures Gated(w, DetachOf(w, st, log, c, flags).log)
    decreases c, 1, 0
  {
    if IsAttached in st[c] {
      var f0 := flags + {FromDetach};
      var st1 := st[c := st[c] + {IsDetaching}];
      var h := w[c].hooks;
      var f := ChildFlags(f0);
      match w[c].kind
      case Attribute =>
        var log1 := log + [BeginDetach] + Hooked(HasDetaching in h, Detaching(c, f0));
        GatedSnoc(w, log, BeginDetach);
        GatedHooked(w, log + [BeginDetach], HasDetaching in h, Detaching(c, f0));
        GatedHooked(w, log1, HasDetached in h, EnqueueDetached(c));
        GatedSnoc(w, log1 + Hooked(HasDetached in h, EnqueueDetached(c)), EndDetach(f0));
      case Element =>
        var log0 := log + [BeginDetach] + Hooked(UnmountGuard(f0), EnqueueUnmount(c));
        var log1 := log0 + Hooked(HasDetaching in h, Detaching(c, f));
        GatedSnoc(w, log, BeginDetach);
        GatedHooked(w, log + [BeginDetach], UnmountGuard(f0), EnqueueUnmount(c));
        GatedHooked(w, log0, HasDetaching in h, Detaching(c, f));
        DetachChildrenGated(w, st1, log1, c, 0, f);
        var o := DetachChildren(w, st1, log1, c, 0, f);
        GatedHooked(w, o.log, HasDetached in h, EnqueueDetached(c));
        GatedSnoc(w, o.log + Hooked(HasDetached in h, EnqueueDetached(c)), EndDetach(f));
      case View =>
        GatedHooked(w, log, UnmountGuard(f0), EnqueueUnmount(c));
        DetachChildrenGated(w, st1, log + Hooked(UnmountGuard(f0), EnqueueUnmount(c)), c, 0, f);
    }
  }

  lemma {:induction false} DetachChildrenGated(w: seq<Component>, st: seq<States>, log: seq<Event>, p: nat, i: nat, flags: Flags)
    requires WellFormed(w) && p < |w| && |st| == |w| && i <= |w[p].children| && Gated(w, log)
    ensures Gated(w, DetachChildren(w, st, log, p, i, flags).log)
    decreases p, 0, |w[p].children| - i
  {
    if i < |w[p].children| {
      DetachChildrenGated(w, st, log, p, i + 1, flags);
      var o := DetachChildren(w, st, log, p, i + 1, flags);
      DetachGated(w, o.states, o.log, w[p].children[i], flags);
    }
  }

  /** Over a whole detach, every `beginDetach` is matched by a later
      `endDetach`: the nesting depth returns to where it started and never
      drops below it in between. */
  lemma {:induction false} DetachBalanced(w: seq<Component>, st: seq<States>, log: seq<Event>, c: nat, flags: Flags)
    requires WellFormed(w) && c < |w| && |st| == |w|
    ensures Tally(DetachOf(w, st, log, c, flags).log, DetachNesting) == Tally(log, DetachNesting)
    ensures NeverBelow(log, DetachOf(w, st, log, c, flags).log, DetachNesting)
    decreases c, 1, 0
  {
    var m := DetachNesting;
    if IsAttached !in st[c] {
      NeverBelowRefl(log, m);
    } else {
      var f0 := flags + {FromDetach};
      var st1 := st[c := st[c] + {IsDetaching}];
      var h := w[c].hooks;
      var f := ChildFlags(f0);
      var q := UnmountGuard(f0);
      match w[c].kind
      case Attribute =>
        AttributeDetachBalanced(log, c, f0, h);
      case Element =>
        var log1 := log + [BeginDetach] + Hooked(q, EnqueueUnmount(c)) + Hooked(HasDetaching in h, Detaching(c, f));
        DetachOpens(log, c, q, f, h);
        DetachChildrenBalanced(w, st1, log1, c, 0, f);
        var o := DetachChildren(w, st1, log1, c, 0, f);
        NeverBelowTrans(log, log1, o.log, m);
        ElementDetachBalanced(log, o.log, c, f, h);
        assert DetachOf(w, st, log, c, flags) == DetachElementOf(w, st, log, c, flags);
      case View =>
        var log1 := log + Hooked(q, EnqueueUnmount(c));
        NeverBelowRefl(log, m);
        TallyHooked(log, q, EnqueueUnmount(c), m);
        NeverBelowHooked(log, log, q, EnqueueUnmount(c), m);
        DetachChildrenBalanced(w, st1, log1, c, 0, f);
        NeverBelowTrans(log, log1, DetachChildren(w, st1, log1, c, 0, f).log, m);
        assert DetachOf(w, st, log, c, flags) == DetachViewOf(w, st, log, c, flags);
    }
  }

  /** An attribute's calls form one bracket. */
  lemma AttributeDetachBalanced(log: seq<Event>, c: nat, f: Flags, h: set<Hook>)
    ensures var r := log + [BeginDetach] + Hooked(HasDetaching in h, Detaching(c, f))
                     + Hooked(HasDetached in h, EnqueueDetached(c)) + [EndDetach(f)];
            Tally(r, DetachNesting) == Tally(log, DetachNesting) && NeverBelow(log, r, DetachNesting)
  {
    var m := DetachNesting;
    var log1 := log + [BeginDetach] + Hooked(HasDetaching in h, Detaching(c, f));
    var log2 := log1 + Hooked(HasDetached in h, EnqueueDetached(c));
    NeverBelowRefl(log, m);
    TallySnoc(log, BeginDetach, m);
    NeverBelowSnoc(log, log, BeginDetach, m);
    TallyHooked(log + [BeginDetach], HasDetaching in h, Detaching(c, f), m);
    NeverBelowHooked(log, log + [BeginDetach], HasDetaching in h, Detaching(c, f), m);
    TallyHooked(log1, HasDetached in h, EnqueueDetached(c), m);
    NeverBelowHooked(log, log1, HasDetached in h, EnqueueDetached(c), m);
    TallySnoc(log2, EndDetach(f), m);
    NeverBelowSnoc(log, log2, EndDetach(f), m);
  }

  /** The opening of an element's bracket: one level deeper. */
  lemma DetachOpens(log: seq<Event>, c: nat, q: bool, f: Flags, h: set<Hook>)
    ensures var log1 := log + [BeginDetach] + Hooked(q, EnqueueUnmount(c)) + Hooked(HasDetaching in h, Detaching(c, f));
            Tally(log1, DetachNesting) == Tally(log, DetachNesting) + 1 && NeverBelow(log, log1, DetachNesting)
  {
    var m := DetachNesting;
    var log0 := log + [BeginDetach] + Hooked(q, EnqueueUnmount(c));
    NeverBelowRefl(log, m);
    TallySnoc(log, BeginDetach, m);
    NeverBelowSnoc(log, log, BeginDetach, m);
    TallyHooked(log + [BeginDetach], q, EnqueueUnmount(c), m);
    NeverBelowHooked(log, log + [BeginDetach], q, EnqueueUnmount(c), m);
    TallyHooked(log0, HasDetaching in h, Detaching(c, f), m);
    NeverBelowHooked(log, log0, HasDetaching in h, Detaching(c, f), m);
  }

  /** The element's own calls around those of its children. */
  lemma ElementDetachBalanced(log: seq<Event>, inner: seq<Event>, c: nat, f: Flags, h: set<Hook>)
    requires Tally(inner, DetachNesting) == Tally(log, DetachNesting) + 1
    requires NeverBelow(log, inner, DetachNesting)
    ensures var r := inner + Hooked(HasDetached in h, EnqueueDetached(c)) + [EndDetach(f)];
            Tally(r, DetachNesting) == Tally(log, DetachNesting) && NeverBelow(log, r, DetachNesting)
  {
    var m := DetachNesting;
    TallyHooked(inner, HasDetached in h, EnqueueDetached(c), m);
    NeverBelowHooked(log, inner, HasDetached in h, EnqueueDetached(c), m);
    TallySnoc(inner + Hooked(HasDetached in h, EnqueueDetached(c)), EndDetach(f), m);
    NeverBelowSnoc(log, inner + Hooked(HasDetached in h, EnqueueDetached(c)), EndDetach(f), m);
  }

  lemma {:induction false} DetachChildrenBalanced(w: seq<Component>, st: seq<States>, log: seq<Event>, p: nat, i: nat, flags: Flags)
    requires WellFormed(w) && p < |w| && |st| == |w| && i <= |w[p].children|
    ensures Tally(DetachChildren(w, st, log, p, i, flags).log, DetachNesting) == Tally(log, DetachNesting)
    ensures NeverBelow(log, DetachChildren(w, st, log, p, i, flags).log, DetachNesting)
    decreases p, 0, |w[p].children| - i
  {
    if i == |w[p].children| {
      NeverBelowRefl(log, DetachNesting);
    } else {
      DetachChildrenBalanced(w, st, log, p, i + 1, flags);
      var o := DetachChildren(w, st, log, p, i + 1, flags);
      DetachBalanced(w, o.states, o.log, w[p].children[i], flags);
      NeverBelowTrans(log, o.log, DetachOf(w, o.states, o.log, w[p].children[i], flags).log, DetachNesting);
    }
  }

  /** Outside application stop, a detach enqueues exactly one unmount, that of
      the component itself, when it is an attached element or view and no
      parent unmount is queued; otherwise none at all, however deep the subtree. */
  lemma {:induction false} DetachUnmounts(w: seq<Component>, st: seq<States>, log: seq<Event>, c: nat, flags: Flags)
    requires WellFormed(w) && c < |w| && |st| == |w| && FromStopTask !in flags
    ensures Tally(DetachOf(w, st, log, c, flags).log, UnmountsQueued)
            == Tally(log, UnmountsQueued)
               + (if IsAttached in st[c] && w[c].kind != Attribute && ParentUnmountQueued !in flags then 1 else 0)
    decreases c, 1, 0
  {
    if IsAttached in st[c] {
      var f0 := flags + {FromDetach};
      var st1 := st[c := st[c] + {IsDetaching}];
      var h := w[c].hooks;
      var f := ChildFlags(f0);
      var q := UnmountGuard(f0);
      var m := UnmountsQueued;
      match w[c].kind
      case Attribute =>
        AttributeDetachUnmounts(log, c, f0, h);
      case Element =>
        var log1 := log + [BeginDetach] + Hooked(q, EnqueueUnmount(c)) + Hooked(HasDetaching in h, Detaching(c, f));
        DetachChildrenUnmounts(w, st1, log1, c, 0, f);
        var o := DetachChildren(w, st1, log1, c, 0, f);
        ElementDetachUnmounts(log, o.log, c, q, f, h);
      case View =>
        var log1 := log + Hooked(q, EnqueueUnmount(c));
        TallyHooked(log, q, EnqueueUnmount(c), m);
        DetachChildrenUnmounts(w, st1, log1, c, 0, f);
    }
  }

  lemma AttributeDetachUnmounts(log: seq<Event>, c: nat, f: Flags, h: set<Hook>)
    ensures Tally(log + [BeginDetach] + Hooked(HasDetaching in h, Detaching(c, f))
                  + Hooked(HasDetached in h, EnqueueDetached(c)) + [EndDetach(f)], UnmountsQueued)
            == Tally(log, UnmountsQueued)
  {
    var m := UnmountsQueued;
    var log1 := log + [BeginDetach] + Hooked(HasDetaching in h, Detaching(c, f));
    TallySnoc(log, BeginDetach, m);
    TallyHooked(log + [BeginDetach], HasDetaching in h, Detaching(c, f), m);
    TallyHooked(log1, HasDetached in h, EnqueueDetached(c), m);
    TallySnoc(log1 + Hooked(HasDetached in h, EnqueueDetached(c)), EndDetach(f), m);
  }

  /** The element's own calls around those of its children. */
  lemma ElementDetachUnmounts(log: seq<Event>, inner: seq<Event>, c: nat, q: bool, f: Flags, h: set<Hook>)
    requires Tally(inner, UnmountsQueued)
             == Tally(log + [BeginDetach] + Hooked(q, EnqueueUnmount(c)) + Hooked(HasDetaching in h, Detaching(c, f)), UnmountsQueued)
    ensures Tally(inner + Hooked(HasDetached in h, EnqueueDetached(c)) + [EndDetach(f)], UnmountsQueued)
            == Tally(log, UnmountsQueued) + (if q then 1 else 0)
  {
    var m := UnmountsQueued;
    TallySnoc(log, BeginDetach, m);
    TallyHooked(log + [BeginDetach], q, EnqueueUnmount(c), m);
    TallyHooked(log + [BeginDetach] + Hooked(q, EnqueueUnmount(c)), HasDetaching in h, Detaching(c, f), m);
    TallyHooked(inner, HasDetached in h, EnqueueDetached(c), m);
    TallySnoc(inner + Hooked(HasDetached in h, EnqueueDetached(c)), EndDetach(f), m);
  }

  /** Children handed `parentUnmountQueued` outside application stop enqueue no unmount. */
  lemma {:induction false} DetachChildrenUnmounts(w: seq<Component>, st: seq<States>, log: seq<Event>, p: nat, i: nat, flags: Flags)
    requires WellFormed(w) && p < |w| && |st| == |w| && i <= |w[p].children|
    requires FromStopTask !in flags && ParentUnmountQueued in flags
    ensures Tally(DetachChildren(w, st, log, p, i, flags).log, UnmountsQueued) == Tally(log, UnmountsQueued)
    decreases p, 0, |w[p].children| - i
  {
    if i < |w[p].children| {
      DetachChildrenUnmounts(w, st, log, p, i + 1, flags);
      var o := DetachChildren(w, st, log, p, i + 1, flags);
      DetachUnmounts(w, o.states, o.log, w[p].children[i], flags);
    }
  }

  /** Attach walks the children head to tail: of two detached attribute
      children with only an `attaching` hook, the first is attached, calls
      its hook and closes its bracket before the second begins. */
  lemma {:induction false} AttachHeadToTail(w: seq<Component>, st: seq<States>, log: seq<Event>, p: nat, flags: Flags)
    requires WellFormed(w) && p < |w| && |st| == |w| && |w[p].children| == 2
    requires var a := w[p].children[0]; var b := w[p].children[1];
             a != b && w[a].kind == Attribute && w[b].kind == Attribute
             && w[a].hooks == {HasAttaching} && w[b].hooks == {HasAttaching}
             && IsAttached !in st[a] && IsAttached !in st[b]
    ensures var a := w[p].children[0]; var b := w[p].children[1]; var f := flags + {FromAttach};
            var r := AttachChildren(w, st, log, p, 2, flags);
            r.log == log + [BeginAttach, Attaching(a, f), EndAttach(f), BeginAttach, Attaching(b, f), EndAttach(f)]
            && IsAttached in r.states[a] && IsAttached in r.states[b]
  {
    var a := w[p].children[0];
    var b := w[p].children[1];
    var f := flags + {FromAttach};
    var o1 := AttachChildren(w, st, log, p, 1, flags);
    assert AttachChildren(w, st, log, p, 0, flags) == Outcome(st, log);
    assert o1 == AttachOf(w, st, log, a, flags);
    assert o1 == AttachAttributeOf(w, st, log, a, flags);
    assert o1.log == log + [BeginAttach, Attaching(a, f), EndAttach(f)];
    assert o1.states[b] == st[b];
    var o2 := AttachAttributeOf(w, o1.states, o1.log, b, flags);
    assert AttachOf(w, o1.states, o1.log, b, flags) == o2;
    assert AttachChildren(w, st, log, p, 2, flags) == o2;
  }

  /** Detach walks the children tail to head: of two attached attribute
      children with only a `detaching` hook, the second is detached, calls its
      hook and closes its bracket before the first begins. */
  lemma {:induction false} DetachTailToHead(w: seq<Component>, st: seq<States>, log: seq<Event>, p: nat, flags: Flags)
    requires WellFormed(w) && p < |w| && |st| == |w| && |w[p].children| == 2
    requires var a := w[p].children[0]; var b := w[p].children[1];
             a != b && w[a].kind == Attribute && w[b].kind == Attribute
             && w[a].hooks == {HasDetaching} && w[b].hooks == {HasDetaching}
             && IsAttached in st[a] && IsAttached in st[b]
    ensures var a := w[p].children[0]; var b := w[p].children[1]; var f := flags + {FromDetach};
            var r := DetachChildren(w, st, log, p, 0, flags);
            r.log == log + [BeginDetach, Detaching(b, f), EndDetach(f), BeginDetach, Detaching(a, f), EndDetach(f)]
            && IsAttached !in r.states[a] && IsAttached !in r.states[b]
  {
    var a := w[p].children[0];
    var b := w[p].children[1];
    var f := flags + {FromDetach};
    assert DetachChildren(w, st, log, p, 2, flags) == Outcome(st, log);
    var o1 := DetachChildren(w, st, log, p, 1, flags);
    assert o1 == DetachOf(w, st, log, b, flags);
    assert o1 == DetachAttributeOf(w, st, log, b, flags);
    assert o1.log == log + [BeginDetach, Detaching(b, f), EndDetach(f)];
    assert o1.states[a] == st[a];
    var o2 := DetachAttributeOf(w, o1.states, o1.log, a, flags);
    assert DetachOf(w, o1.states, o1.log, a, flags) == o2;
    assert DetachChildren(w, st, log, p, 0, flags) == o2;
  }

  /** Children are cached tail to head: of two attribute children with a
      `caching` hook, the second is asked first. */
  lemma {:induction false} CacheTailToHead(w: seq<Component>, log: seq<Event>, p: nat, flags: Flags)
    requires WellFormed(w) && p < |w| && |w[p].children| == 2
    requires var a := w[p].children[0]; var b := w[p].children[1];
             w[a].kind == Attribute && w[b].kind == Attribute
             && w[a].hooks == {HasCaching} && w[b].hooks == {HasCaching}
    ensures var a := w[p].children[0]; var b := w[p].children[1]; var f := flags + {FromCache};
            CacheChildren(w, log, p, 0, flags) == log + [Caching(b, f), Caching(a, f)]
  {
    var a := w[p].children[0];
    var b := w[p].children[1];
    var f := flags + {FromCache};
    assert CacheChildren(w, log, p, 2, flags) == log;
    var l1 := CacheChildren(w, log, p, 1, flags);
    assert l1 == CacheOf(w, log, b, flags);
    assert l1 == log + [Caching(b, f)];
    assert CacheChildren(w, log, p, 0, flags) == CacheOf(w, l1, a, flags);
    assert CacheOf(w, l1, a, flags) == l1 + [Caching(a, f)];
  }

  /** Cache only appends to the log. */
  lemma {:induction false} CacheFrame(w: seq<Component>, log: seq<Event>, c: nat, flags: Flags)
    requires WellFormed(w) && c < |w|
    ensures Extends(log, CacheOf(w, log, c, flags))
    decreases c, 1, 0
  {
    var f := flags + {FromCache};
    match w[c].kind
    case Attribute =>
    case Element =>
      var log1 := log + Hooked(HasCaching in w[c].hooks, Caching(c, f));
      CacheChildrenFrame(w, log1, c, 0, f);
      ExtendsTrans(log, log1, CacheOf(w, log, c, flags));
    case View =>
      CacheChildrenFrame(w, log, c, 0, f);
  }

  lemma {:induction false} CacheChildrenFrame(w: seq<Component>, log: seq<Event>, p: nat, i: nat, flags: Flags)
    requires WellFormed(w) && p < |w| && i <= |w[p].children|
    ensures Extends(log, CacheChildren(w, log, p, i, flags))
    decreases p, 0, |w[p].children| - i
  {
    if i < |w[p].children| {
      CacheChildrenFrame(w, log, p, i + 1, flags);
      var l := CacheChildren(w, log, p, i + 1, flags);
      CacheFrame(w, l, w[p].children[i], flags);
      ExtendsTrans(log, l, CacheChildren(w, log, p, i, flags));
    }
  }

  /** Cache calls `caching` only on components whose hooks include it. */
  lemma {:induction false} CacheGated(w: seq<Component>, log: seq<Event>, c: nat, flags: Flags)
    requires WellFormed(w) && c < |w| && Gated(w, log)
    ensures Gated(w, CacheOf(w, log, c, flags))
    decreases c, 1, 0
  {
    var f := flags + {FromCache};
    match w[c].kind
    case Attribute =>
    case Element =>
      CacheChildrenGated(w, log + Hooked(HasCaching in w[c].hooks, Caching(c, f)), c, 0, f);
    case View =>
      CacheChildrenGated(w, log, c, 0, f);
  }

  lemma {:induction false} CacheChildrenGated(w: seq<Component>, log: seq<Event>, p: nat, i: nat, flags: Flags)
    requires WellFormed(w) && p < |w| && i <= |w[p].children| && Gated(w, log)
    ensures Gated(w, CacheChildren(w, log, p, i, flags))
    decreases p, 0, |w[p].children| - i
  {
    if i < |w[p].children| {
      CacheChildrenGated(w, log, p, i + 1, flags);
      CacheGated(w, CacheChildren(w, log, p, i + 1, flags), w[p].children[i], flags);
    }
  }

  // ---------------------------------------------------------------------------
  // The arena of components
  // ---------------------------------------------------------------------------

  /** The rendered components with the per-instance fields the lifecycle
      updates, and the log of calls made on the coordinator, hooks and DOM. */
  class Host {
    var components: seq<Component>
    var states: seq<States>
    var isFree: seq<bool>
    var locations: seq<Option<Location>>
    var scopes: seq<Option<Scope>>
    /** Whether `lockScope` has replaced the component's `$bind` by `lockedBind`. */
    var locked: seq<bool>
    var log: seq<Event>

    ghost predicate Valid()
      reads this
    {
      WellFormed(components) && |states| == |components| && |isFree| == |components|
      && |locations| == |components| && |scopes| == |components| && |locked| == |components|
    }

    /** An arena of the given components, none attached, mounted or bound. */
    constructor(w: seq<Component>)
      requires WellFormed(w)
      ensures Valid() && components == w && log == []
      ensures forall c :: 0 <= c < |w| ==> states[c] == {} && !isFree[c] && locations[c] == None
      ensures forall c :: 0 <= c < |w| ==> scopes[c] == None && !locked[c]
    {
      components := w;
      states := seq(|w|, _ => {});
      isFree := seq(|w|, _ => false);
      locations := seq(|w|, _ => None);
      scopes := seq(|w|, _ => None);
      locked := seq(|w|, _ => false);
      log := [];
    }

    /** `$attach`, dispatched on the component's kind. */
    method Attach(c: nat, flags: Flags)
      requires Valid() && c < |components|
      modifies this`states, this`log
      ensures Valid()
      ensures Outcome(states, log) == AttachOf(components, old(states), old(log), c, flags)
      decreases c, 2
    {
      match components[c].kind
      case Attribute => AttachAttribute(c, flags);
      case Element => AttachElement(c, flags);
      case View => AttachView(c, flags);
    }

    method AttachAttribute(c: nat, flags: Flags)
      requires Valid() && c < |components| && components[c].kind == Attribute
      modifies this`states, this`log
      ensures Valid()
      ensures Outcome(states, log) == AttachAttributeOf(components, old(states), old(log), c, flags)
      decreases c, 1
    {
      if IsAttached in states[c] {
        return;
      }
      log := log + [BeginAttach];
      states := states[c := states[c] + {IsAttaching}];
      var f := flags + {FromAttach};
      var h := components[c].hooks;
      log := log + Hooked(HasAttaching in h, Attaching(c, f));
      states := states[c := AttachedBits(states[c])];
      log := log + Hooked(HasAttached in h, EnqueueAttached(c));
      log := log + [EndAttach(f)];
    }

    method AttachElement(c: nat, flags: Flags)
      requires Valid() && c < |components| && components[c].kind == Element
      modifies this`states, this`log
      ensures Valid()
      ensures Outcome(states, log) == AttachElementOf(components, old(states), old(log), c, flags)
      decreases c, 1
    {
      if IsAttached in states[c] {
        return;
      }
      log := log + [BeginAttach];
      states := states[c := states[c] + {IsAttaching}];
      var f := flags + {FromAttach};
      var h := components[c].hooks;
      log := log + Hooked(HasAttaching in h, Attaching(c, f));
      AttachEach(c, f);
      log := log + [EnqueueMount(c)];
      states := states[c := AttachedBits(states[c])];
      log := log + Hooked(HasAttached in h, EnqueueAttached(c));
      log := log + [EndAttach(f)];
    }

    method AttachView(c: nat, flags: Flags)
      requires Valid() && c < |components| && components[c].kind == View
      modifies this`states, this`log
      ensures Valid()
      ensures Outcome(states, log) == AttachViewOf(components, old(states), old(log), c, flags)
      decreases c, 1
    {
      if IsAttached in states[c] {
        return;
      }
      states := states[c := states[c] + {IsAttaching}];
      var f := flags + {FromAttach};
      AttachEach(c, f);
      log := log + [EnqueueMount(c)];
      states := states[c := AttachedBits(states[c])];
    }

    /** The walk from `$componentHead` along `$nextComponent`. */
    method AttachEach(p: nat, f: Flags)
      requires Valid() && p < |components|
      modifies this`states, this`log
      ensures Valid()
      ensures Outcome(states, log) == AttachChildren(components, old(states), old(log), p, |components[p].children|, f)
      decreases p, 0
    {
      var kids := components[p].children;
      var k := 0;
      while k < |kids|
        invariant k <= |kids| && Valid()
        invariant Outcome(states, log) == AttachChildren(components, old(states), old(log), p, k, f)
      {
        Attach(kids[k], f);
        k := k + 1;
      }
    }

    /** `$detach`, dispatched on the component's kind. */
    method Detach(c: nat, flags: Flags)
      requires Valid() && c < |components|
      modifies this`states, this`log
      ensures Valid()
      ensures Outcome(states, log) == DetachOf(components, old(states), old(log), c, flags)
      decreases c, 2
    {
      match components[c].kind
      case Attribute => DetachAttribute(c, flags);
      case Element => DetachElement(c, flags);
      case View => DetachView(c, flags);
    }

    method DetachAttribute(c: nat, flags: Flags)
      requires Valid() && c < |components| && components[c].kind == Attribute
      modifies this`states, this`log
      ensures Valid()
      ensures Outcome(states, log) == DetachAttributeOf(components, old(states), old(log), c, flags)
      decreases c, 1
    {
      if IsAttached in states[c] {
        log := log + [BeginDetach];
        states := states[c := states[c] + {IsDetaching}];
        var f := flags + {FromDetach};
        var h := components[c].hooks;
        log := log + Hooked(HasDetaching in h, Detaching(c, f));
        states := states[c := DetachedBits(states[c])];
        log := log + Hooked(HasDetached in h, EnqueueDetached(c));
        log := log + [EndDetach(f)];
      }
    }

    method DetachElement(c: nat, flags: Flags)
      requires Valid() && c < |components| && components[c].kind == Element
      modifies this`states, this`log
      ensures Valid()
      ensures Outcome(states, log) == DetachElementOf(components, old(states), old(log), c, flags)
      decreases c, 1
    {
      if IsAttached in states[c] {
        log := log + [BeginDetach];
        states := states[c := states[c] + {IsDetaching}];
        var f := flags + {FromDetach};
        var queue := UnmountGuard(f);
        log := log + Hooked(queue, EnqueueUnmount(c));
        if queue {
          f := f + {ParentUnmountQueued};
        }
        var h := components[c].hooks;
        log := log + Hooked(HasDetaching in h, Detaching(c, f));
        DetachEach(c, f);
        states := states[c := DetachedBits(states[c])];
        log := log + Hooked(HasDetached in h, EnqueueDetached(c));
        log := log + [EndDetach(f)];
      }
    }

    method DetachView(c: nat, flags: Flags)
      requires Valid() && c < |components| && components[c].kind == View
      modifies this`states, this`log
      ensures Valid()
      ensures Outcome(states, log) == DetachViewOf(components, old(states), old(log), c, flags)
      decreases c, 1
    {
      if IsAttached in states[c] {
        states := states[c := states[c] + {IsDetaching}];
        var f := flags + {FromDetach};
        var queue := UnmountGuard(f);
        log := log + Hooked(queue, EnqueueUnmount(c));
        if queue {
          f := f + {ParentUnmountQueued};
        }
        DetachEach(c, f);
        states := states[c := DetachedBits(states[c])];
      }
    }

    /** The walk from `$componentTail` back along `$prevComponent`. */
    method DetachEach(p: nat, f: Flags)
      requires Valid() && p < |components|
      modifies this`states, this`log
      ensures Valid()
      ensures Outcome(states, log) == DetachChildren(components, old(states), old(log), p, 0, f)
      decreases p, 0
    {
      var kids := components[p].children;
      var i: nat := |kids|;
      while i > 0
        invariant i <= |kids| && Valid()
        invariant Outcome(states, log) == DetachChildren(components, old(states), old(log), p, i, f)
      {
        i := i - 1;
        Detach(kids[i], f);
      }
    }

    /** `$cache`, dispatched on the component's kind. */
    method Cache(c: nat, flags: Flags)
      requires Valid() && c < |components|
      modifies this`log
      ensures log == CacheOf(components, old(log), c, flags)
      decreases c, 2
    {
      match components[c].kind
      case Attribute => CacheAttribute(c, flags);
      case Element => CacheElement(c, flags);
      case View => CacheView(c, flags);
    }

    method CacheAttribute(c: nat, flags: Flags)
      requires Valid() && c < |components| && components[c].kind == Attribute
      modifies this`log
      ensures log == CacheOf(components, old(log), c, flags)
      decreases c, 1
    {
      var f := flags + {FromCache};
      log := log + Hooked(HasCaching in components[c].hooks, Caching(c, f));
    }

    method CacheElement(c: nat, flags: Flags)
      requires Valid() && c < |components| && components[c].kind == Element
      modifies this`log
      ensures log == CacheOf(components, old(log), c, flags)
      decreases c, 1
    {
      var f := flags + {FromCache};
      log := log + Hooked(HasCaching in components[c].hooks, Caching(c, f));
      CacheEach(c, f);
    }

    method CacheView(c: nat, flags: Flags)
      requires Valid() && c < |components| && components[c].kind == View
      modifies this`log
      ensures log == CacheOf(components, old(log), c, flags)
      decreases c, 1
    {
      var f := flags + {FromCache};
      CacheEach(c, f);
    }

    /** The walk from `$componentTail` back along `$prevComponent`. */
    method CacheEach(p: nat, f: Flags)
      requires Valid() && p < |components|
      modifies this`log
      ensures log == CacheChildren(components, old(log), p, 0, f)
      decreases p, 0
    {
      var kids := components[p].children;
      var i: nat := |kids|;
      while i > 0
        invariant i <= |kids|
        invariant log == CacheChildren(components, old(log), p, i, f)
      {
        i := i - 1;
        Cache(kids[i], f);
      }
    }

    /** `$mountElement`: project the nodes unless already mounted. */
    method MountElement(c: nat, flags: Flags)
      requires Valid() && c < |components| && components[c].kind == Element
      modifies this`states, this`log
      ensures Valid()
      ensures IsMounted in old(states[c]) ==> states == old(states) && log == old(log)
      ensures IsMounted !in old(states[c]) ==>
                states == old(states)[c := old(states[c]) + {IsMounted}] && log == old(log) + [Project(c)]
    {
      if IsMounted !in states[c] {
        states := states[c := states[c] + {IsMounted}];
        log := log + [Project(c)];
      }
    }

    /** `$unmountElement`: take the nodes back when mounted. */
    method UnmountElement(c: nat, flags: Flags)
      requires Valid() && c < |components| && components[c].kind == Element
      modifies this`states, this`log
      ensures Valid()
      ensures IsMounted !in old(states[c]) ==> states == old(states) && log == old(log)
      ensures IsMounted in old(states[c]) ==>
                states == old(states)[c := old(states[c]) - {IsMounted}] && log == old(log) + [Take(c)]
    {
      if IsMounted in states[c] {
        states := states[c := states[c] - {IsMounted}];
        log := log + [Take(c)];
      }
    }

    /** `$mountView`: insert the nodes before the held location unless already mounted. */
    method MountView(c: nat, flags: Flags)
      requires Valid() && c < |components| && components[c].kind == View
      modifies this`states, this`log
      ensures Valid()
      ensures IsMounted in old(states[c]) ==> states == old(states) && log == old(log)
      ensures IsMounted !in old(states[c]) ==>
                states == old(states)[c := old(states[c]) + {IsMounted}]
                && log == old(log) + [InsertBefore(c, locations[c])]
    {
      if IsMounted !in states[c] {
        states := states[c := states[c] + {IsMounted}];
        log := log + [InsertBefore(c, locations[c])];
      }
    }

    /** A fresh `View`: no state bits, not free, no location and no scope, with
        the components and bindables rendering gave it. */
    method NewView(rendered: Rendering) returns (v: nat)
      requires Valid()
      requires forall i :: 0 <= i < |rendered.children| ==> rendered.children[i] < |components|
      requires forall i :: 0 <= i < |rendered.bindables| ==> rendered.bindables[i] < |components|
      modifies this
      ensures Valid() && v == |old(components)|
      ensures components == old(components) + [Component(View, {}, rendered.children, rendered.bindables)]
      ensures states == old(states) + [{}] && isFree == old(isFree) + [false]
      ensures locations == old(locations) + [None] && scopes == old(scopes) + [None] && locked == old(locked) + [false]
      ensures log == old(log) + [Render(v)]
    {
      v := |components|;
      var w := components + [Component(View, {}, rendered.children, rendered.bindables)];
      assert forall c :: 0 <= c < |components| ==> w[c] == components[c];
      components := w;
      states := states + [{}];
      isFree := isFree + [false];
      locations := locations + [None];
      scopes := scopes + [None];
      locked := locked + [false];
      log := log + [Render(v)];
    }

    /** `$unmountView`: when mounted, remove the nodes and, if the view was
        released (free), offer it back to its factory; true exactly when the
        factory took it. */
    method UnmountView(v: nat, flags: Flags, factory: ViewFactory) returns (r: bool)
      requires Valid() && factory.Valid() && v < |components| && components[v].kind == View
      modifies this`states, this`log, this`isFree, factory
      ensures Valid() && factory.Valid()
      ensures factory.cacheSize == old(factory.cacheSize) && factory.isCaching == old(factory.isCaching)
      ensures r <==> IsMounted in old(states[v]) && old(isFree[v]) && old(factory.CanReturnToCache())
      ensures IsMounted !in old(states[v]) ==>
                states == old(states) && log == old(log) && isFree == old(isFree) && factory.cache == old(factory.cache)
      ensures IsMounted in old(states[v]) ==>
                isFree == old(isFree)[v := false]
                && states == old(states)[v := if r then old(states[v]) - {IsMounted} + {IsCached} else old(states[v]) - {IsMounted}]
                && log == (if r then CacheOf(components, old(log) + [Remove(v)], v, {}) else old(log) + [Remove(v)])
                && factory.cache == (if r then Some(old(factory.cache).value + [v]) else old(factory.cache))
    {
      if IsMounted in states[v] {
        states := states[v := states[v] - {IsMounted}];
        log := log + [Remove(v)];
        if isFree[v] {
          isFree := isFree[v := false];
          var cached := factory.TryReturnToCache(this, v);
          if cached {
            states := states[v := states[v] + {IsCached}];
            return true;
          }
        }
        return false;
      }
      return false;
    }

    /** `hold`: remember the render location, which must have a parent node (error 60). */
    method Hold(v: nat, location: Location, flags: Flags) returns (r: Result<()>)
      requires Valid() && v < |components|
      modifies this`locations
      ensures Valid()
      ensures !location.hasParent ==> r == Failure(60) && locations == old(locations)
      ensures location.hasParent ==> r == Success(()) && locations == old(locations)[v := Some(location)]
    {
      if !location.hasParent {
        return Failure(60);
      }
      locations := locations[v := Some(location)];
      return Success(());
    }

    /** `lockScope`: fix the scope and make `lockedBind` the view's `$bind`. */
    method LockScope(v: nat, scope: Scope)
      requires Valid() && v < |components|
      modifies this`scopes, this`locked
      ensures Valid()
      ensures scopes == old(scopes)[v := Some(scope)] && locked == old(locked)[v := true]
    {
      scopes := scopes[v := Some(scope)];
      locked := locked[v := true];
    }

    /** `release`: mark the view free; an attached view only reports whether
        its factory has room, any other view is unmounted. */
    method Release(v: nat, flags: Flags, factory: ViewFactory) returns (r: bool)
      requires Valid() && factory.Valid() && v < |components| && components[v].kind == View
      modifies this`states, this`log, this`isFree, factory
      ensures Valid() && factory.Valid()
      ensures factory.cacheSize == old(factory.cacheSize) && factory.isCaching == old(factory.isCaching)
      ensures IsAttached in old(states[v]) ==>
                r == old(factory.CanReturnToCache()) && isFree == old(isFree)[v := true]
                && states == old(states) && log == old(log) && factory.cache == old(factory.cache)
      ensures IsAttached !in old(states[v]) ==>
                (r <==> IsMounted in old(states[v]) && old(factory.CanReturnToCache()))
                && isFree == old(isFree)[v := IsMounted !in old(states[v])]
                && factory.cache == (if r then Some(old(factory.cache).value + [v]) else old(factory.cache))
      ensures IsAttached !in old(states[v]) && IsMounted !in old(states[v]) ==>
                states == old(states) && log == old(log)
      ensures IsAttached !in old(states[v]) && IsMounted in old(states[v]) ==>
                states == old(states)[v := if r then old(states[v]) - {IsMounted} + {IsCached} else old(states[v]) - {IsMounted}]
                && log == (if r then CacheOf(components, old(log) + [Remove(v)], v, {}) else old(log) + [Remove(v)])
    {
      isFree := isFree[v := true];
      if IsAttached in states[v] {
        return factory.CanReturnToCache();
      }
      r := UnmountView(v, flags, factory);
    }

    /** `lockedBind`: unless already bound, bind every bindable head to tail
        with the locked scope, then mark the view bound. */
    method LockedBind(v: nat, flags: Flags)
      requires Valid() && v < |components|
      modifies this`states, this`log
      ensures Valid()
      ensures IsBound in old(states[v]) ==> states == old(states) && log == old(log)
      ensures IsBound !in old(states[v]) ==>
                states == old(states)[v := old(states[v]) + {IsBound}]
                && log == BindAll(old(log), components[v].bindables, flags + {FromBind}, scopes[v])
    {
      if IsBound in states[v] {
        return;
      }
      var f := flags + {FromBind};
      var scope := scopes[v];
      var bs := components[v].bindables;
      var k := 0;
      while k < |bs|
        invariant k <= |bs| && states == old(states)
        invariant log == BindAll(old(log), bs[..k], f, scope)
      {
        assert bs[..k + 1][..k] == bs[..k];
        log := log + [Bind(bs[k], f, scope)];
        k := k + 1;
      }
      assert bs[..k] == bs;
      states := states[v := states[v] + {IsBound}];
    }
  }

  /** Every bindable bound in order with the same flags and scope, appended to the log. */
  function BindAll(log: seq<Event>, bs: seq<nat>, f: Flags, scope: Option<Scope>): (r: seq<Event>)
    ensures |r| == |log| + |bs| && r[..|log|] == log
    ensures forall i :: 0 <= i < |bs| ==> r[|log| + i] == Bind(bs[i], f, scope)
  {
    if bs == [] then log
    else BindAll(log, bs[..|bs| - 1], f, scope) + [Bind(bs[|bs| - 1], f, scope)]
  }

  // ---------------------------------------------------------------------------
  // ViewFactory
  // ---------------------------------------------------------------------------

  const MaxCacheSize: int := 0xFFFF

  /** The argument of `setCacheSize`: `'*'` or a number. */
  datatype SizeArg = Star | Num(n: int)

  /** JavaScript truthiness of the argument. */
  predicate Truthy(size: SizeArg)
  {
    size.Star? || size.n != 0
  }

  /** The number a truthy argument stands for. */
  function SizeValue(size: SizeArg): (r: int)
    ensures size.Star? ==> r == MaxCacheSize
    ensures size.Num? ==> r == size.n
  {
    match size
    case Star => MaxCacheSize
    case Num(n) => n
  }

  /** The `cacheSize` after `setCacheSize(size, doNotOverrideIfAlreadySet)`. */
  function NewCacheSize(current: int, size: SizeArg, doNotOverrideIfAlreadySet: bool): (r: int)
    ensures r == current || r == SizeValue(size)
    ensures !Truthy(size) ==> r == current
    ensures Truthy(size) ==> (r == SizeValue(size) <== current == -1 || !doNotOverrideIfAlreadySet)
    ensures current != -1 && doNotOverrideIfAlreadySet ==> r == current
  {
    if Truthy(size) && (current == -1 || !doNotOverrideIfAlreadySet) then SizeValue(size) else current
  }

  /** The pool of views a factory keeps for reuse, bounded by `cacheSize`. */
  class ViewFactory {
    const name: string
    var isCaching: bool
    var cache: Option<seq<nat>>
    var cacheSize: int

    /** A cache list exists exactly when the size is positive, and never holds more than it. */
    ghost predicate Valid()
      reads this
    {
      (cache.Some? <==> cacheSize > 0) && isCaching == (cacheSize > 0)
      && (cache.Some? ==> |cache.value| <= cacheSize)
    }

    /** Every cached view is a component of the host. */
    ghost predicate CachedIn(host: Host)
      reads this, host
    {
      cache.Some? ==> forall i :: 0 <= i < |cache.value| ==> cache.value[i] < |host.components|
    }

    constructor(name: string)
      ensures Valid() && this.name == name
      ensures !isCaching && cacheSize == -1 && cache == None
    {
      this.name := name;
      isCaching := false;
      cacheSize := -1;
      cache := None;
    }

    /** `setCacheSize`: possibly take a new size, then start from an empty list
        when the size is positive and from none otherwise. */
    method SetCacheSize(size: SizeArg, doNotOverrideIfAlreadySet: bool)
      modifies this
      ensures Valid()
      ensures cacheSize == NewCacheSize(old(cacheSize), size, doNotOverrideIfAlreadySet)
      ensures cache == (if cacheSize > 0 then Some([]) else None)
    {
      if Truthy(size) {
        var n := SizeValue(size);
        if cacheSize == -1 || !doNotOverrideIfAlreadySet {
          cacheSize := n;
        }
      }
      if cacheSize > 0 {
        cache := Some([]);
      } else {
        cache := None;
      }
      isCaching := cacheSize > 0;
    }

    /** `canReturnToCache`: there is a list and it has room. */
    predicate CanReturnToCache()
      reads this
    {
      cache.Some? && |cache.value| < cacheSize
    }

    /** `tryReturnToCache`: when there is room, run the view's `$cache` and push it. */
    method TryReturnToCache(host: Host, v: nat) returns (r: bool)
      requires Valid() && host.Valid() && v < |host.components|
      modifies this, host`log
      ensures Valid() && host.Valid()
      ensures cacheSize == old(cacheSize) && isCaching == old(isCaching)
      ensures r == old(CanReturnToCache())
      ensures r ==> cache == Some(old(cache).value + [v]) && host.log == CacheOf(host.components, old(host.log), v, {})
      ensures !r ==> cache == old(cache) && host.log == old(host.log)
      ensures old(CachedIn(host)) ==> CachedIn(host)
    {
      if CanReturnToCache() {
        host.Cache(v, {});
        cache := Some(cache.value + [v]);
        return true;
      }
      return false;
    }

    /** `create`: reuse the most recently cached view, clearing its `isCached`
        bit, or make and render a fresh one, which must have nodes (error 90). */
    method Create(host: Host, rendered: Rendering) returns (r: Result<nat>)
      requires Valid() && host.Valid() && CachedIn(host)
      requires forall i :: 0 <= i < |rendered.children| ==> rendered.children[i] < |host.components|
      requires forall i :: 0 <= i < |rendered.bindables| ==> rendered.bindables[i] < |host.components|
      modifies this, host
      ensures Valid() && host.Valid() && CachedIn(host)
      ensures cacheSize == old(cacheSize) && isCaching == old(isCaching)
      ensures old(cache.Some? && |cache.value| > 0) ==>
                var v := old(cache.value[|cache.value| - 1]);
                r == Success(v) && cache == Some(old(cache.value[..|cache.value| - 1]))
                && host.states == old(host.states)[v := old(host.states[v]) - {IsCached}]
                && host.components == old(host.components) && host.log == old(host.log)
                && host.isFree == old(host.isFree) && host.locations == old(host.locations)
                && host.scopes == old(host.scopes) && host.locked == old(host.locked)
      ensures !old(cache.Some? && |cache.value| > 0) ==>
                var v := |old(host.components)|;
                r == (if rendered.hasNodes then Success(v) else Failure(90)) && cache == old(cache)
                && host.components == old(host.components) + [Component(View, {}, rendered.children, rendered.bindables)]
                && host.states == old(host.states) + [{}] && host.log == old(host.log) + [Render(v)]
                && host.isFree == old(host.isFree) + [false] && host.locations == old(host.locations) + [None]
                && host.scopes == old(host.scopes) + [None] && host.locked == old(host.locked) + [false]
    {
      if cache.Some? && |cache.value| > 0 {
        var v := cache.value[|cache.value| - 1];
        cache := Some(cache.value[..|cache.value| - 1]);
        host.states := host.states[v := host.states[v] - {IsCached}];
        return Success(v);
      }
      var v := host.NewView(rendered);
      if !rendered.hasNodes {
        return Failure(90);
      }
      return Success(v);
    }
  }

  /** A factory sized 3 with an empty cache accepts three returned views and
      refuses the fourth. */
  method CacheOfThree(host: Host, a: nat, b: nat, c: nat, d: nat) returns (r: seq<bool>)
    requires host.Valid() && a < |host.components| && b < |host.components|
    requires c < |host.components| && d < |host.components|
    modifies host`log
    ensures r == [true, true, true, false]
  {
    var factory := new ViewFactory("view");
    factory.SetCacheSize(Num(3), false);
    var r1 := factory.TryReturnToCache(host, a);
    var r2 := factory.TryReturnToCache(host, b);
    var r3 := factory.TryReturnToCache(host, c);
    var r4 := factory.TryReturnToCache(host, d);
    r := [r1, r2, r3, r4];
  }

  /** Releasing four mounted, detached views into a factory sized 3: the first
      three are unmounted into the pool and the fourth is refused. */
  method ReleaseFourMounted(host: Host, a: nat, b: nat, c: nat, d: nat) returns (r: seq<bool>)
    requires host.Valid()
    requires a < |host.components| && b < |host.components| && c < |host.components| && d < |host.components|
    requires a != b && a != c && a != d && b != c && b != d && c != d
    requires host.components[a].kind == View && host.components[b].kind == View
    requires host.components[c].kind == View && host.components[d].kind == View
    requires IsMounted in host.states[a] && IsAttached !in host.states[a]
    requires IsMounted in host.states[b] && IsAttached !in host.states[b]
    requires IsMounted in host.states[c] && IsAttached !in host.states[c]
    requires IsMounted in host.states[d] && IsAttached !in host.states[d]
    modifies host`states, host`log, host`isFree
    ensures r == [true, true, true, false]
  {
    var factory := new ViewFactory("view");
    factory.SetCacheSize(Num(3), false);
    var r1 := host.Release(a, {}, factory);
    var r2 := host.Release(b, {}, factory);
    var r3 := host.Release(c, {}, factory);
    var r4 := host.Release(d, {}, factory);
    r := [r1, r2, r3, r4];
  }

  /** Releasing four attached views into a factory sized 3 only asks whether
      there is room, and there always is: nothing enters the pool until the
      views are unmounted. */
  method ReleaseFourAttached(host: Host, a: nat, b: nat, c: nat, d: nat) returns (r: seq<bool>)
    requires host.Valid()
    requires a < |host.components| && b < |host.components| && c < |host.components| && d < |host.components|
    requires host.components[a].kind == View && host.components[b].kind == View
    requires host.components[c].kind == View && host.components[d].kind == View
    requires IsAttached in host.states[a] && IsAttached in host.states[b]
    requires IsAttached in host.states[c] && IsAttached in host.states[d]
    modifies host`states, host`log, host`isFree
    ensures r == [true, true, true, true]
  {
    var factory := new ViewFactory("view");
    factory.SetCacheSize(Num(3), false);
    var r1 := host.Release(a, {}, factory);
    var r2 := host.Release(b, {}, factory);
    var r3 := host.Release(c, {}, factory);
    var r4 := host.Release(d, {}, factory);
    r := [r1, r2, r3, r4];
  }

  /** The pool is a stack: a view that `tryReturnToCache` accepts is the one the
      next `create` hands back, with its `isCached` bit cleared, and no template
      is rendered for it. */
  method ReturnThenCreate(factory: ViewFactory, host: Host, v: nat, rendered: Rendering)
    returns (returned: bool, r: Result<nat>)
    requires factory.Valid() && host.Valid() && factory.CachedIn(host) && v < |host.components|
    requires forall i :: 0 <= i < |rendered.children| ==> rendered.children[i] < |host.components|
    requires forall i :: 0 <= i < |rendered.bindables| ==> rendered.bindables[i] < |host.components|
    modifies factory, host
    ensures factory.Valid() && host.Valid() && v < |host.components|
    ensures returned ==> r == Success(v) && IsCached !in host.states[v]
  {
    returned := factory.TryReturnToCache(host, v);
    r := factory.Create(host, rendered);
  }
}
