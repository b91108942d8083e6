# Aurelia templating core: attribute patterns, the attach lifecycle and the view pool

This project models three parts of the Aurelia runtime and compiler, and proves
properties of the model.

**Attribute patterns** (module `AttributePattern`, `attribute_pattern.dfy`).
The syntax interpreter of the template compiler recognises attribute names such
as `value.bind`, `:value` or `@click` by matching them against registered
pattern definitions (`PART.PART`, `:PART`, `@PART`).
- `parse` splits a definition into static, dynamic (`PART`) and symbol segments.
- `add` threads each segment's character specifications through a trie of states. The trie is held as an arena of nodes in the `SyntaxInterpreter` class. The last state becomes an endpoint carrying the segment census.
- `interpret` walks the trie character by character. While it walks, it records the characters of each pattern's current part in an `Interpretation` object and closes a part at each symbol. At the end it ranks the surviving states and reports the pattern and parts of the best one.

The model proves these properties:
- `parse` loses no character.
- `PART` is recognised only where a run starts.
- `add` keeps children and pattern lists distinct and marks as an endpoint the state it reaches and no other. That state may already be an endpoint, when a pattern is registered twice.
- Scanning the children reports exactly the matching ones, while the part cursor `j` runs on across siblings.
- The comparator is a ranking, and the reported state is a top-ranked one.
- Walking stops changing anything once no state survives.
- The shipped `:PART` pattern reads `:value` as the part `value`.

**The attach lifecycle** (module `Templating`, `templating.dfy`, first part).
Custom attributes, custom elements and views share the `$attach`, `$detach`,
`$cache`, `$mount` and `$unmount` functions that their prototypes supply.
Components live in an arena (the `Host` class) with their `$state` bits. Calls
into the lifecycle coordinator, into the capability hooks and into the DOM
are appended to an event log.
- Each operation is a method on `Host` and is proved equal to a specification function over `(states, log)`.
- About those functions the model proves:
  - the idempotence guards;
  - that hooks and enqueues happen only when the capability bit is set;
  - that every `beginAttach`/`beginDetach` is matched by a later `end` call: the nesting depth returns to where it started and never drops below it in between;
  - that children are visited head to tail on attach and tail to head on detach and cache;
  - the rule for when a detached element or view enqueues its own unmount;
  - that attach followed by detach restores the component's state bits.

**Views and the view pool** (`Templating`, second part).
- `View`'s `hold`, `lockScope`, `release` and `lockedBind` are methods on `Host`.
- The `ViewFactory` is a class. It holds the pool (a stack of view indices bounded by `cacheSize`) and has `setCacheSize`, `canReturnToCache`, `tryReturnToCache` and `create`.
- The framework errors 60 (`hold` on a location without a parent) and 90 (a rendered view without nodes) are `Failure` results.

Where the prose description of the framework and the code differ, the model follows the code:
- `release` of a view that is still attached only asks `canReturnToCache` and pushes nothing. Four releases of attached views into a pool of size 3 therefore all answer `true` (`ReleaseFourAttached`). The pattern "three accepted, the fourth refused" holds for `tryReturnToCache` (`CacheOfThree`) and for releasing mounted, detached views (`ReleaseFourMounted`).
- `$unmountView` always returns a boolean. There is no third "undefined" answer.
- `setCacheSize` always replaces the pool by a fresh empty list (or none), so views already pooled are dropped.
- When several states tie at the top rank, the state reported is the first of them in walk order (`TopOf`), which is what a stable sort puts first.

## Model

| member | source | states |
|---|---|---|
| AttributePattern.Dispatch | packages/jit/src/attribute-pattern.ts:33-55 | the `has` variant chosen is inverted exactly when the spec is inverted, and is the none/single/multiple variant exactly for 0, 1 or more characters |
| AttributePattern.Has | packages/jit/src/attribute-pattern.ts:65-87 | a non-inverted spec accepts exactly its characters; an inverted one accepts exactly the characters not in it (all six variants) |
| AttributePattern.Equals | packages/jit/src/attribute-pattern.ts:58-63 | two specs are equal iff chars, repeat, isSymbol and isInverted all agree |
| AttributePattern.Specs | packages/jit/src/attribute-pattern.ts:227-278 | a static segment yields one spec per character; a dynamic or symbol segment yields exactly one |
| AttributePattern.Count | packages/jit/src/attribute-pattern.ts:280-290 | the census counts every segment exactly once |
| AttributePattern.Parse | packages/jit/src/attribute-pattern.ts:396-434 | the loop emits exactly the segments of the recursive segment definition and the census of those segments |
| AttributePattern.SegmentsReconstruct | packages/jit/src/attribute-pattern.ts:396-434 | concatenating the segments' texts gives back the whole pattern: no character is lost or duplicated |
| AttributePattern.SegmentsWellFormed | packages/jit/src/attribute-pattern.ts:396-434 | static runs are non-empty, symbol-free and do not begin with `PART`; dynamic segments carry the definition's symbols; symbol segments are one symbol character; a static run is followed by a symbol unless it ends the pattern |
| AttributePattern.PartOnlyStartsARun | packages/jit/src/attribute-pattern.ts:407-414 | `PART` is dynamic only at the start of a run: `fooPART` is one static segment, `PART.PART` is dynamic, symbol, dynamic |
| AttributePattern.SyntaxInterpreter.constructor | packages/jit/src/attribute-pattern.ts:306-309 | a new interpreter holds only the root state, with no spec, children or patterns |
| AttributePattern.ChildFromFacts | packages/jit/src/attribute-pattern.ts:162-173 | `findChild` returns a child among the state's next states, and returns null iff no next state has an equal spec |
| AttributePattern.SyntaxInterpreter.FindChild | packages/jit/src/attribute-pattern.ts:162-173 | the loop returns the first child with an equal spec, or none |
| AttributePattern.AppendStateFacts | packages/jit/src/attribute-pattern.ts:175-189 | `append` adds the pattern to the parent's list only if absent, reuses an existing equal child, otherwise adds exactly one new child holding the pattern that loops to itself iff the spec repeats; no other state changes |
| AttributePattern.AppendKeepsInvariants | packages/jit/src/attribute-pattern.ts:175-189 | `append` keeps next-state specs pairwise distinct and pattern lists duplicate-free |
| AttributePattern.SyntaxInterpreter.Append | packages/jit/src/attribute-pattern.ts:175-189 | the arena after `append` and the state returned are those of the append specification |
| AttributePattern.ThreadConcat | packages/jit/src/attribute-pattern.ts:328-333 | threading the specs of two segment lists one after the other equals threading their concatenation |
| AttributePattern.SyntaxInterpreter.AppendEach | packages/jit/src/attribute-pattern.ts:328-333 | the segment loop with its callback ends on the state, and with the trie, of the threading specification |
| AttributePattern.MarkEndpoint | packages/jit/src/attribute-pattern.ts:334-335 | marking sets the census and the endpoint bit on the current state and leaves every other state as it was |
| AttributePattern.AddMarksEndpoint | packages/jit/src/attribute-pattern.ts:322-336 | after `add`, the state reached is an endpoint carrying the pattern's census and is not the root when the pattern has characters; earlier endpoints stay endpoints and no other state becomes one |
| AttributePattern.AddKeepsInvariants | packages/jit/src/attribute-pattern.ts:322-336 | `add` keeps children distinct and pattern lists duplicate-free |
| AttributePattern.SyntaxInterpreter.AddDefinition | packages/jit/src/attribute-pattern.ts:322-336 | the trie after `add(def)` is the add specification of the old trie |
| AttributePattern.SyntaxInterpreter.AddDefinitions | packages/jit/src/attribute-pattern.ts:313-321 | `add(defs)` adds each definition in order and keeps the trie's invariants |
| AttributePattern.AddAllKeepsEndpoints | packages/jit/src/attribute-pattern.ts:313-321 | adding more definitions never unmarks an endpoint |
| AttributePattern.AppendRecord | packages/jit/src/attribute-pattern.ts:120-127 | `append` starts or extends the pattern's current part with the character; other patterns' records are untouched |
| AttributePattern.NextRecord | packages/jit/src/attribute-pattern.ts:129-140 | `next` moves a pending current part to the end of the pattern's parts list and clears it, and does nothing when no part is pending |
| AttributePattern.PatternOfInterp | packages/jit/src/attribute-pattern.ts:92-99 | the pattern getter answers null exactly when the stored pattern is the empty string |
| AttributePattern.SetPattern | packages/jit/src/attribute-pattern.ts:100-108 | setting null stores "" and empty parts; setting a value stores it and takes its parts from the record, which is undefined when none were collected |
| AttributePattern.Interpretation.constructor | packages/jit/src/attribute-pattern.ts:113-118 | a new interpretation has no pattern, empty parts and empty records |
| AttributePattern.Interpretation.Pattern | packages/jit/src/attribute-pattern.ts:92-99 | the getter reads the pattern as the pure getter does |
| AttributePattern.Interpretation.SetPatternTo | packages/jit/src/attribute-pattern.ts:100-108 | the setter leaves the object in the state the pure setter gives |
| AttributePattern.Interpretation.Append | packages/jit/src/attribute-pattern.ts:120-127 | the object's records become the pure `append` of the old records |
| AttributePattern.Interpretation.Next | packages/jit/src/attribute-pattern.ts:129-140 | the object's records become the pure `next` of the old records |
| AttributePattern.Matching | packages/jit/src/attribute-pattern.ts:191-217 | the matching children are exactly the next states whose spec accepts the character, in order |
| AttributePattern.ScanFindsMatching | packages/jit/src/attribute-pattern.ts:191-217 | the children `findMatches` reports are exactly the matching children |
| AttributePattern.SecondChildSkipped | packages/jit/src/attribute-pattern.ts:191-217 | because the cursor `j` is never reset, a second matching child with no more patterns than the first records nothing |
| AttributePattern.SyntaxInterpreter.FindMatches | packages/jit/src/attribute-pattern.ts:191-217 | the loop returns the children of the scan specification and leaves the interpretation's records as that scan does |
| AttributePattern.SyntaxInterpreter.GetNextStates | packages/jit/src/attribute-pattern.ts:383-394 | the next states are the concatenated matches of every state, in order, with the records threaded through them |
| AttributePattern.CompareIsRanking | packages/jit/src/attribute-pattern.ts:349-371 | the comparator is negative, positive or zero exactly when the first state outranks, is outranked by or ties with the second (endpoints first, then more statics, dynamics, symbols) |
| AttributePattern.TopOf | packages/jit/src/attribute-pattern.ts:349-373 | the state chosen is not outranked by any survivor, strictly outranks every earlier survivor, and is an endpoint iff some survivor is |
| AttributePattern.SyntaxInterpreter.TopState | packages/jit/src/attribute-pattern.ts:349-373 | the loop finds the first top-ranked state |
| AttributePattern.PatternOf | packages/jit/src/attribute-pattern.ts:150-152 | a state's pattern is its first pattern when it is an endpoint and null otherwise |
| AttributePattern.WalkStaysEmpty | packages/jit/src/attribute-pattern.ts:342-347 | once no state survives, reading further characters changes nothing (the early `break`) |
| AttributePattern.WalkFromNothing | packages/jit/src/attribute-pattern.ts:342-347 | one more character after an empty step changes nothing |
| AttributePattern.SingleStep | packages/jit/src/attribute-pattern.ts:342-347 | one step from a single state with a single matching child moves to that child and extends, or closes, the child's patterns' parts |
| AttributePattern.InterpretResolvesTop | packages/jit/src/attribute-pattern.ts:338-381 | `interpret` reports no pattern when nothing survives or the top state is not an endpoint, otherwise the top endpoint's first pattern; the top is an endpoint iff some survivor is |
| AttributePattern.SyntaxInterpreter.Report | packages/jit/src/attribute-pattern.ts:373-379 | the last part is closed unless the top state is a symbol, then the pattern is set |
| AttributePattern.SyntaxInterpreter.Interpret | packages/jit/src/attribute-pattern.ts:338-381 | the interpretation returned is the interpret specification of the current trie and the name, and the trie is unchanged |
| AttributePattern.ColonPartTrie | packages/jit/src/attribute-pattern.ts:498-505 | registering `:PART` with symbol `:` builds a root, a `:` symbol state and a repeating inverted `:` endpoint with census (0, 1, 1) |
| AttributePattern.ColonPartRegistered | packages/jit/src/attribute-pattern.ts:498-505 | the trie built from `:PART` has the shape the reading lemmas need |
| AttributePattern.ColonPartReadsRun | packages/jit/src/attribute-pattern.ts:498-505 | any name `:` followed by a colon-free run reads as pattern `:PART` with that run as its only part |
| AttributePattern.ColonPartReadsValue | packages/jit/src/attribute-pattern.ts:498-505 | `:value` reads as pattern `:PART` with parts `["value"]` |
| Templating.AttachedBits | packages/runtime/src/templating/lifecycle-attach.ts:35-36 | after the attach step `isAttached` is set, `isAttaching` is cleared and every other bit is kept |
| Templating.DetachedBits | packages/runtime/src/templating/lifecycle-attach.ts:130 | after the detach step `isAttached` and `isDetaching` are cleared and every other bit is kept |
| Templating.AttachMarks | packages/runtime/src/templating/lifecycle-attach.ts:14-111 | `$attach` on an attached component does nothing; otherwise it leaves the component attached and, for attributes and elements, opens with `beginAttach` and closes with `endAttach` carrying `fromAttach` |
| Templating.AttachFrame | packages/runtime/src/templating/lifecycle-attach.ts:14-111 | `$attach` only appends to the log and changes no component later in the arena than the one attached (children always come earlier) |
| Templating.AttachGated | packages/runtime/src/templating/lifecycle-attach.ts:30-40 | every `attaching` call and `enqueueAttached` made under an attach is made for a component with that capability bit |
| Templating.AttachBalanced | packages/runtime/src/templating/lifecycle-attach.ts:23-83 | the calls an attach appends are properly nested: the `beginAttach`/`endAttach` depth ends where it started and no intermediate log drops below it, so each `endAttach` closes an earlier `beginAttach` |
| Templating.AttachHeadToTail | packages/runtime/src/templating/lifecycle-attach.ts:68-72 | children are attached head to tail: for two attribute children the log shows the first child's attach bracket before the second's |
| Templating.DetachMarks | packages/runtime/src/templating/lifecycle-attach.ts:115-207 | `$detach` on a detached component does nothing; otherwise it clears the attached bits and, for attributes and elements, opens with `beginDetach` and closes with `endDetach`, whose flags carry `fromDetach` and, for an element, `parentUnmountQueued` |
| Templating.DetachFrame | packages/runtime/src/templating/lifecycle-attach.ts:115-207 | `$detach` only appends to the log and changes no component later in the arena than the one detached (children always come earlier) |
| Templating.DetachGated | packages/runtime/src/templating/lifecycle-attach.ts:125-174 | every `detaching` call and `enqueueDetached` is made for a component with that capability bit |
| Templating.DetachBalanced | packages/runtime/src/templating/lifecycle-attach.ts:119-176 | the calls a detach appends are properly nested: the `beginDetach`/`endDetach` depth ends where it started and no intermediate log drops below it, so each `endDetach` closes an earlier `beginDetach` |
| Templating.DetachTailToHead | packages/runtime/src/templating/lifecycle-attach.ts:163-167 | children are detached tail to head: for two attribute children the second child's detach bracket comes first |
| Templating.UnmountGuardBits | packages/runtime/src/templating/lifecycle-attach.ts:154 | the bit expression of the guard is non-zero exactly when `parentUnmountQueued` is absent or `fromStopTask` is present |
| Templating.DetachEnqueuesUnmount | packages/runtime/src/templating/lifecycle-attach.ts:154-157 | an attached element, right after `beginDetach`, and an attached view (lines 192-195), first thing, enqueue their own unmount exactly when the guard holds |
| Templating.DetachUnmounts | packages/runtime/src/templating/lifecycle-attach.ts:142-207 | a detach outside a stop task enqueues exactly one unmount, for the component itself, when it is an attached element or view whose parent has not queued one, and none for its descendants |
| Templating.AttachDetachRoundTrip | packages/runtime/src/templating/lifecycle-attach.ts:14-207 | attaching a quiescent component and then detaching it restores its state bits |
| Templating.CacheTailToHead | packages/runtime/src/templating/lifecycle-attach.ts:227-231 | children are cached tail to head: for two attribute children with the caching hook, the second child's `caching` call comes first, each with `fromCache` |
| Templating.CacheFrame | packages/runtime/src/templating/lifecycle-attach.ts:210-244 | `$cache` only appends to the log |
| Templating.CacheGated | packages/runtime/src/templating/lifecycle-attach.ts:213-225 | every `caching` call is made for a component with the caching capability |
| Templating.Host.constructor | packages/runtime/src/templating/view.ts:42-66 | a new arena has every component detached, unmounted, unbound, not free, without location or scope |
| Templating.Host.Attach | packages/runtime/src/templating/view.ts:183-191 | `$attach` dispatches on the prototype the component's kind supplies |
| Templating.Host.AttachAttribute | packages/runtime/src/templating/lifecycle-attach.ts:14-44 | the new states and log are those of the attribute attach specification |
| Templating.Host.AttachElement | packages/runtime/src/templating/lifecycle-attach.ts:48-86 | the new states and log are those of the element attach specification |
| Templating.Host.AttachView | packages/runtime/src/templating/lifecycle-attach.ts:89-111 | the new states and log are those of the view attach specification |
| Templating.Host.AttachEach | packages/runtime/src/templating/lifecycle-attach.ts:68-72 | the child loop attaches every child head to tail, as the fold specification does |
| Templating.Host.Detach | packages/runtime/src/templating/view.ts:183-191 | `$detach` dispatches on the prototype the component's kind supplies |
| Templating.Host.DetachAttribute | packages/runtime/src/templating/lifecycle-attach.ts:115-138 | the new states and log are those of the attribute detach specification |
| Templating.Host.DetachElement | packages/runtime/src/templating/lifecycle-attach.ts:142-179 | the new states and log are those of the element detach specification |
| Templating.Host.DetachView | packages/runtime/src/templating/lifecycle-attach.ts:182-207 | the new states and log are those of the view detach specification |
| Templating.Host.DetachEach | packages/runtime/src/templating/lifecycle-attach.ts:163-167 | the child loop detaches every child tail to head, as the fold specification does |
| Templating.Host.Cache | packages/runtime/src/templating/view.ts:183-191 | `$cache` dispatches on the prototype and appends the cache specification's events |
| Templating.Host.CacheAttribute | packages/runtime/src/templating/lifecycle-attach.ts:210-217 | the log gains the `caching` call when the hook is present, and nothing else changes |
| Templating.Host.CacheElement | packages/runtime/src/templating/lifecycle-attach.ts:220-233 | the element's own `caching` call comes before its children's, walked tail to head |
| Templating.Host.CacheView | packages/runtime/src/templating/lifecycle-attach.ts:236-244 | the view caches its children tail to head |
| Templating.Host.CacheEach | packages/runtime/src/templating/lifecycle-attach.ts:227-231 | the child loop caches every child tail to head, as the fold specification does |
| Templating.Host.MountElement | packages/runtime/src/templating/lifecycle-attach.ts:247-254 | mounting an unmounted element sets `isMounted` and projects it; a mounted one is left alone |
| Templating.Host.UnmountElement | packages/runtime/src/templating/lifecycle-attach.ts:257-264 | unmounting a mounted element clears `isMounted` and takes its nodes; an unmounted one is left alone |
| Templating.Host.MountView | packages/runtime/src/templating/lifecycle-attach.ts:270-277 | mounting an unmounted view sets `isMounted` and inserts its nodes before its location; a mounted one is left alone |
| Templating.Host.UnmountView | packages/runtime/src/templating/lifecycle-attach.ts:287-306 | the result is true iff the view was mounted, free and the pool had room; then it is cached, pushed and marked `isCached`; a mounted view always loses `isMounted` and its nodes and is no longer free; an unmounted view is left alone |
| Templating.Host.NewView | packages/runtime/src/templating/view.ts:158-159 | a new view is added at the end of the arena in its initial state and the template is rendered into it |
| Templating.Host.Hold | packages/runtime/src/templating/view.ts:68-73 | holding a location without a parent fails with error 60 and changes nothing; otherwise the location is stored |
| Templating.Host.LockScope | packages/runtime/src/templating/view.ts:75-78 | the scope is stored and `$bind` becomes `lockedBind` |
| Templating.Host.Release | packages/runtime/src/templating/view.ts:80-87 | release marks the view free; an attached view only asks whether the pool has room; a detached view is unmounted and the result is whether it entered the pool |
| Templating.Host.LockedBind | packages/runtime/src/templating/view.ts:167-181 | a bound view is left alone; otherwise every bindable is bound in order with `fromBind` and the locked scope, and the view becomes bound |
| Templating.BindAll | packages/runtime/src/templating/view.ts:174-178 | the log gains exactly one bind per bindable, in list order, with the given flags and scope |
| Templating.SizeValue | packages/runtime/src/templating/view.ts:114-118 | `'*'` stands for the maximum cache size 0xFFFF and an integer for itself |
| Templating.NewCacheSize | packages/runtime/src/templating/view.ts:113-123 | a falsy size keeps the old size; a truthy one replaces it when none was set or overriding is allowed, and never otherwise |
| Templating.ViewFactory.constructor | packages/runtime/src/templating/view.ts:102-110 | a new factory has size -1, no pool and is not caching |
| Templating.ViewFactory.SetCacheSize | packages/runtime/src/templating/view.ts:112-132 | the size becomes the new size, the pool becomes a fresh empty list iff the size is positive, and caching is on iff the size is positive |
| Templating.ViewFactory.TryReturnToCache | packages/runtime/src/templating/view.ts:134-146 | a view is accepted iff a pool exists and is below `cacheSize`; then it is cached and pushed, otherwise nothing changes; the pool never exceeds `cacheSize` |
| Templating.ViewFactory.Create | packages/runtime/src/templating/view.ts:148-164 | a non-empty pool hands back its last view with `isCached` cleared and every other field of every view, its held location and locked scope included, unchanged; otherwise a new view, not free and without location or scope, is rendered and error 90 is raised when it has no nodes |
| Templating.CacheOfThree | packages/runtime/src/templating/view.ts:134-146 | with cache size 3, four returns answer true, true, true, false |
| Templating.ReleaseFourMounted | packages/runtime/src/templating/view.ts:80-87 | with cache size 3, releasing four mounted, detached views answers true, true, true, false |
| Templating.ReleaseFourAttached | packages/runtime/src/templating/view.ts:80-87 | with cache size 3, releasing four attached views answers true four times, since none enters the pool |
| Templating.ReturnThenCreate | packages/runtime/src/templating/view.ts:138-155 | a view accepted into the pool is the view the next `create` returns, with `isCached` cleared |

## Left out

- Tracer and Profiler calls: they only observe.
- The lifecycle coordinator (`beginAttach`, `enqueueMount`, `endDetach`, …), the capability hooks (`attaching`, `detached`, `caching`, …) and the DOM projector and node operations: each is recorded as an event in the log, and what it does is not part of this model.
- `template.render`: a `Rendering` parameter (children, bindables, whether nodes were produced) stands for it.
- `$bindView`/`$unbindView` and the bindables' own `$bind`: a bindable's `$bind` is a logged event. `lockScope` records that `$bind` was replaced by `lockedBind`, and `lockedBind` is modelled on its own.
- The numeric values of `LifecycleFlags`, `State` and `Hooks`: flags are sets of named bits. `UnmountGuardBits` proves the unmount guard's bit expression for any two distinct single bits.
- SetCacheSize (with NewCacheSize and SizeValue): sizes are integers. Fractional sizes such as 2.5 and `Infinity` are not modelled. With them the source's pool can outgrow `cacheSize`: `canReturnToCache` compares `length < cacheSize`, so size 2.5 lets the pool reach 3, and `Infinity` leaves it unbounded. The bound `|cache| <= cacheSize` in `ViewFactory.Valid` holds only for integer sizes. A NaN size is falsy and behaves like 0, as modelled.
- `setCacheSize` with a numeric string (`parseInt`): the size argument is `'*'` or an integer.
- The view's `cache` field: the factory is passed to `release` and `$unmountView` as a parameter.
- The View constructor's list pointers and lifecycle reference: lists are sequences in the arena.
- The full order of `states.sort`: only its first element is used, and `TopOf` finds it.
- `SyntaxInterpreter.Interpret`: requires a non-empty name, because `interpret('')` dereferences the root state's missing character spec.
- `validatePrototype`, the `attributePattern` decorator, dependency-injection registration (attribute-pattern.ts lines 437-477), and the concrete pattern classes: `:PART` appears only as a worked example.
- listener.ts, with.ts, nav.ts, book.ts and aurelia.d.ts are not part of this model.
- AttachHeadToTail: proves the visiting order on two attribute children only. The general order is the definition of the child fold, which `Host.AttachEach` is proved against.
- DetachTailToHead: proves the visiting order on two attribute children only. The general order is the definition of the child fold, which `Host.DetachEach` is proved against.
- CacheTailToHead: proves the visiting order on two attribute children only. The general order is the definition of the child fold, which `Host.CacheEach` is proved against.
- DetachUnmounts: covers only detaches without `fromStopTask`. Under a stop task every element and view enqueues its unmount, as `DetachEnqueuesUnmount` states per component.
- AttachMarks: states only the component's own outer brackets. The nesting of inner brackets is covered by `AttachBalanced`.
- DetachMarks: states only the component's own outer brackets. The nesting of inner brackets is covered by `DetachBalanced`.
- Characters are Unicode scalar values (Dafny's `char`), not the UTF-16 code units that `charAt`, `length` and `indexOf` work on. A character outside the Basic Multilingual Plane is one step of `interpret` and one character of a spec in the model, but a surrogate pair in the code. Surrogate pairs are not modelled.
- The interpretation's `currentRecord` and `partsRecord` are modelled as maps that start empty. In the code they are plain objects, so a pattern named like an inherited property (`constructor`, `toString`) would find a value that is not `undefined`. Such names are not modelled.
