/** The attribute-syntax interpreter: character specifications, the parse of a
    pattern such as `PART.PART` into segments, the shared trie of states built
    from the registered patterns, and the walk that interprets an attribute name. */
module AttributePattern {

  datatype Option<T> = None | Some(value: T)

  /** A registered pattern definition: the pattern text and its symbol characters. */
  datatype PatternDef = PatternDef(pattern: string, symbols: string)

  // ---------------------------------------------------------------------------
  // CharSpec
  // ---------------------------------------------------------------------------

  /** A character-class predicate. Two specs are interchangeable exactly when
      all four fields agree. */
  datatype CharSpec = CharSpec(chars: string, repeat: bool, isSymbol: bool, isInverted: bool)

  /** The six specialised membership tests chosen when a spec is constructed. */
  datatype HasCase =
    | NoneOf | SingleOf | MultipleOf
    | NoneInverse | SingleInverse | MultipleInverse

  function Dispatch(spec: CharSpec): (k: HasCase)
    ensures spec.isInverted <==> k in {NoneInverse, SingleInverse, MultipleInverse}
    ensures (k == NoneOf || k == NoneInverse) <==> |spec.chars| == 0
    ensures (k == SingleOf || k == SingleInverse) <==> |spec.chars| == 1
  {
    if spec.isInverted then
      match |spec.chars|
      case 0 => NoneInverse
      case 1 => SingleInverse
      case _ => MultipleInverse
    else
      match |spec.chars|
      case 0 => NoneOf
      case 1 => SingleOf
      case _ => MultipleOf
  }

  /** `has(ch)`, evaluated through the case the constructor selected. A plain
      spec holds exactly the characters it lists; an inverted one holds all others. */
  function Has(spec: CharSpec, ch: char): (r: bool)
    ensures !spec.isInverted ==> (r <==> ch in spec.chars)
    ensures spec.isInverted ==> (r <==> ch !in spec.chars)
  {
    match Dispatch(spec)
    case NoneOf => false
    case SingleOf => spec.chars == [ch]
    case MultipleOf => ch in spec.chars
    case NoneInverse => true
    case SingleInverse => spec.chars != [ch]
    case MultipleInverse => ch !in spec.chars
  }

  /** `equals`: field-by-field comparison, which is structural equality. */
  function Equals(a: CharSpec, b: CharSpec): (r: bool)
    ensures r <==> a == b
  {
    a.chars == b.chars && a.repeat == b.repeat
    && a.isSymbol == b.isSymbol && a.isInverted == b.isInverted
  }

  // ---------------------------------------------------------------------------
  // Segments and their census
  // ---------------------------------------------------------------------------

  /** A parsed piece of a pattern. A dynamic segment remembers the pattern's
      symbols, which its spec excludes. */
  datatype Segment = Static(text: string) | Dynamic(symbols: string) | Symbol(text: string)

  /** `SegmentTypes`: how many segments of each kind a pattern has. */
  datatype SegmentTypes = SegmentTypes(statics: nat, dynamics: nat, symbols: nat)

  const Part: string := "PART"

  function Text(seg: Segment): string
  {
    match seg
    case Static(t) => t
    case Dynamic(_) => Part
    case Symbol(t) => t
  }

  /** The specs a segment hands to `eachChar`, in order. */
  function Specs(seg: Segment): (r: seq<CharSpec>)
    ensures seg.Static? ==> |r| == |seg.text|
    ensures !seg.Static? ==> |r| == 1
  {
    match seg
    case Static(t) => seq(|t|, i requires 0 <= i < |t| => CharSpec([t[i]], false, false, false))
    case Dynamic(sy) => [CharSpec(sy, true, false, true)]
    case Symbol(t) => [CharSpec(t, false, true, false)]
  }

  function Concat(segs: seq<Segment>): string
  {
    if segs == [] then [] else Text(segs[0]) + Concat(segs[1..])
  }

  function AllSpecs(segs: seq<Segment>): seq<CharSpec>
  {
    if segs == [] then [] else AllSpecs(segs[..|segs| - 1]) + Specs(segs[|segs| - 1])
  }

  /** The census after one more segment of seg's kind. */
  function Tally(t: SegmentTypes, seg: Segment): SegmentTypes
  {
    match seg
    case Static(_) => t.(statics := t.statics + 1)
    case Dynamic(_) => t.(dynamics := t.dynamics + 1)
    case Symbol(_) => t.(symbols := t.symbols + 1)
  }

  function Count(segs: seq<Segment>): (t: SegmentTypes)
    ensures t.statics + t.dynamics + t.symbols == |segs|
  {
    if segs == [] then SegmentTypes(0, 0, 0)
    else Tally(Count(segs[..|segs| - 1]), segs[|segs| - 1])
  }

  // ---------------------------------------------------------------------------
  // parse
  // ---------------------------------------------------------------------------

  /** Does `PART` start at position i of p? (`slice(i, i + 4)` clamps at the end.) */
  predicate PartAt(p: string, i: nat)
  {
    i + 4 <= |p| && p[i..i + 4] == Part
  }

  /** The segments the scan emits from loop state (start, i) to the end:
      a symbol character closes the pending static run, or is itself a
      symbol segment; `PART` is recognised only where a run would start. */
  function ParseFrom(p: string, symbols: string, start: nat, i: nat): seq<Segment>
    requires start <= i <= |p|
    decreases |p| - i, i - start
  {
    if i == |p| then
      (if start != i then [Static(p[start..i])] else [])
    else if p[i] !in symbols then
      if i == start && p[i] == 'P' && PartAt(p, i) then
        [Dynamic(symbols)] + ParseFrom(p, symbols, i + 4, i + 4)
      else
        ParseFrom(p, symbols, start, i + 1)
    else if i != start then
      [Static(p[start..i])] + ParseFrom(p, symbols, i, i)
    else
      [Symbol(p[i..i + 1])] + ParseFrom(p, symbols, i + 1, i + 1)
  }

  function Segments(def: PatternDef): seq<Segment>
  {
    ParseFrom(def.pattern, def.symbols, 0, 0)
  }

  /** Appending one segment: the census grows by its kind, and the pending
      segments regroup. */
  lemma Emit(segs: seq<Segment>, seg: Segment, rest: seq<Segment>)
    ensures Count(segs + [seg]) == Tally(Count(segs), seg)
    ensures segs + ([seg] + rest) == (segs + [seg]) + rest
  {
    assert (segs + [seg])[..|segs|] == segs;
  }

  /** `parse`: the scan over i and start, pushing segments and counting kinds. */
  method Parse(def: PatternDef) returns (segs: seq<Segment>, types: SegmentTypes)
    ensures segs == Segments(def)
    ensures types == Count(segs)
  {
    var pattern := def.pattern;
    var len := |pattern|;
    var i, start := 0, 0;
    segs, types := [], SegmentTypes(0, 0, 0);
    while i < len
      invariant start <= i <= len
      invariant segs + ParseFrom(pattern, def.symbols, start, i) == Segments(def)
      invariant types == Count(segs)
      decreases len - i, i - start
    {
      var c := pattern[i];
      if c !in def.symbols {
        if i == start && c == 'P' && i + 4 <= len && pattern[i..i + 4] == Part {
          UnfoldPart(pattern, def.symbols, i);
          Emit(segs, Dynamic(def.symbols), ParseFrom(pattern, def.symbols, i + 4, i + 4));
          segs := segs + [Dynamic(def.symbols)];
          types := types.(dynamics := types.dynamics + 1);
          i := i + 4;
          start := i;
        } else {
          UnfoldSkip(pattern, def.symbols, start, i);
          i := i + 1;
        }
      } else if i != start {
        UnfoldStatic(pattern, def.symbols, start, i);
        Emit(segs, Static(pattern[start..i]), ParseFrom(pattern, def.symbols, i, i));
        segs := segs + [Static(pattern[start..i])];
        types := types.(statics := types.statics + 1);
        start := i;
      } else {
        UnfoldSymbol(pattern, def.symbols, i);
        Emit(segs, Symbol(pattern[i..i + 1]), ParseFrom(pattern, def.symbols, i + 1, i + 1));
        segs := segs + [Symbol(pattern[start..i + 1])];
        types := types.(symbols := types.symbols + 1);
        i := i + 1;
        start := i;
      }
    }
    UnfoldEnd(pattern, def.symbols, start);
    if start != i {
      Emit(segs, Static(pattern[start..i]), []);
      segs := segs + [Static(pattern[start..i])];
      types := types.(statics := types.statics + 1);
    }
  }

  // One step of the scan, one lemma per branch.

  lemma UnfoldPart(p: string, symbols: string, i: nat)
    requires i < |p| && p[i] !in symbols && p[i] == 'P' && PartAt(p, i)
    ensures ParseFrom(p, symbols, i, i) == [Dynamic(symbols)] + ParseFrom(p, symbols, i + 4, i + 4)
  {
  }

  lemma UnfoldSkip(p: string, symbols: string, start: nat, i: nat)
    requires start <= i < |p| && p[i] !in symbols && !(i == start && p[i] == 'P' && PartAt(p, i))
    ensures ParseFrom(p, symbols, start, i) == ParseFrom(p, symbols, start, i + 1)
  {
  }

  lemma UnfoldStatic(p: string, symbols: string, start: nat, i: nat)
    requires start < i < |p| && p[i] in symbols
    ensures ParseFrom(p, symbols, start, i) == [Static(p[start..i])] + ParseFrom(p, symbols, i, i)
  {
  }

  lemma UnfoldSymbol(p: string, symbols: string, i: nat)
    requires i < |p| && p[i] in symbols
    ensures ParseFrom(p, symbols, i, i) == [Symbol(p[i..i + 1])] + ParseFrom(p, symbols, i + 1, i + 1)
  {
  }

  lemma UnfoldEnd(p: string, symbols: string, start: nat)
    requires start <= |p|
    ensures ParseFrom(p, symbols, start, |p|) == if start < |p| then [Static(p[start..|p|])] + [] else []
  {
  }

  /** Every character of the pattern lands in exactly one segment's text: the
      segments, read back, are the pattern. */
  lemma {:induction false} ParseFromReconstructs(p: string, symbols: string, start: nat, i: nat)
    requires start <= i <= |p|
    ensures Concat(ParseFrom(p, symbols, start, i)) == p[start..]
    decreases |p| - i, i - start
  {
    if i == |p| {
      ReconstructEnd(p, symbols, start);
    } else if p[i] !in symbols {
      if i == start && p[i] == 'P' && PartAt(p, i) {
        ParseFromReconstructs(p, symbols, i + 4, i + 4);
        ReconstructPart(p, symbols, i);
      } else {
        ParseFromReconstructs(p, symbols, start, i + 1);
      }
    } else if i != start {
      ParseFromReconstructs(p, symbols, i, i);
      ReconstructStatic(p, symbols, start, i);
    } else {
      ParseFromReconstructs(p, symbols, i + 1, i + 1);
      ReconstructSymbol(p, symbols, i);
    }
  }

  lemma ReconstructEnd(p: string, symbols: string, start: nat)
    requires start <= |p|
    ensures Concat(ParseFrom(p, symbols, start, |p|)) == p[start..]
  {
    UnfoldEnd(p, symbols, start);
    if start != |p| {
      ConcatCons(Static(p[start..]), []);
    }
  }

  lemma ReconstructPart(p: string, symbols: string, i: nat)
    requires i < |p| && p[i] !in symbols && p[i] == 'P' && PartAt(p, i)
    requires Concat(ParseFrom(p, symbols, i + 4, i + 4)) == p[i + 4..]
    ensures Concat(ParseFrom(p, symbols, i, i)) == p[i..]
  {
    var rest := ParseFrom(p, symbols, i + 4, i + 4);
    UnfoldPart(p, symbols, i);
    ConcatCons(Dynamic(symbols), rest);
    assert p[i..] == p[i..i + 4] + p[i + 4..];
  }

  lemma ReconstructStatic(p: string, symbols: string, start: nat, i: nat)
    requires start < i < |p| && p[i] in symbols
    requires Concat(ParseFrom(p, symbols, i, i)) == p[i..]
    ensures Concat(ParseFrom(p, symbols, start, i)) == p[start..]
  {
    var rest := ParseFrom(p, symbols, i, i);
    UnfoldStatic(p, symbols, start, i);
    ConcatCons(Static(p[start..i]), rest);
    assert p[start..] == p[start..i] + p[i..];
  }

  lemma ReconstructSymbol(p: string, symbols: string, i: nat)
    requires i < |p| && p[i] in symbols
    requires Concat(ParseFrom(p, symbols, i + 1, i + 1)) == p[i + 1..]
    ensures Concat(ParseFrom(p, symbols, i, i)) == p[i..]
  {
    var rest := ParseFrom(p, symbols, i + 1, i + 1);
    UnfoldSymbol(p, symbols, i);
    ConcatCons(Symbol(p[i..i + 1]), rest);
    assert p[i..] == p[i..i + 1] + p[i + 1..];
  }

  lemma ConcatCons(seg: Segment, rest: seq<Segment>)
    ensures Concat([seg] + rest) == Text(seg) + Concat(rest)
  {
    assert ([seg] + rest)[1..] == rest;
  }

  lemma SegmentsReconstruct(def: PatternDef)
    ensures Concat(Segments(def)) == def.pattern
  {
    ParseFromReconstructs(def.pattern, def.symbols, 0, 0);
  }

  /** The shape of each segment: a static run is non-empty, holds no symbol
      and never begins with `PART`; a symbol segment is one declared symbol;
      a dynamic segment excludes exactly the declared symbols. */
  predicate WellFormedSegment(seg: Segment, symbols: string)
  {
    match seg
    case Static(t) => |t| > 0 && !PartAt(t, 0) && forall k | 0 <= k < |t| :: t[k] !in symbols
    case Dynamic(sy) => sy == symbols
    case Symbol(t) => |t| == 1 && t[0] in symbols
  }

  /** Static runs are maximal: each is followed by a symbol, or ends the pattern. */
  predicate WellFormed(segs: seq<Segment>, symbols: string)
  {
    && (forall k | 0 <= k < |segs| :: WellFormedSegment(segs[k], symbols))
    && (forall k | 0 <= k < |segs| - 1 :: segs[k].Static? ==> segs[k + 1].Symbol?)
  }

  /** The run pending at loop state (start, i) is symbol-free and, if begun,
      did not begin with `PART`. */
  predicate PendingRun(p: string, symbols: string, start: nat, i: nat)
    requires start <= i <= |p|
  {
    && (forall k | start <= k < i :: p[k] !in symbols)
    && (start < i ==> !(p[start] == 'P' && PartAt(p, start)))
  }

  lemma {:induction false} ParseFromWellFormed(p: string, symbols: string, start: nat, i: nat)
    requires start <= i <= |p|
    requires PendingRun(p, symbols, start, i)
    ensures WellFormed(ParseFrom(p, symbols, start, i), symbols)
    ensures start < i && ParseFrom(p, symbols, start, i) != [] ==> ParseFrom(p, symbols, start, i)[0].Static?
    decreases |p| - i, i - start
  {
    var segs := ParseFrom(p, symbols, start, i);
    if i == |p| {
      if start != i {
        StaticRunWellFormed(p, symbols, start, i);
      }
    } else if p[i] !in symbols {
      if i == start && p[i] == 'P' && PartAt(p, i) {
        ParseFromWellFormed(p, symbols, i + 4, i + 4);
      } else {
        ParseFromWellFormed(p, symbols, start, i + 1);
      }
    } else if i != start {
      StaticRunWellFormed(p, symbols, start, i);
      ParseFromWellFormed(p, symbols, i, i);
      var rest := ParseFrom(p, symbols, i, i);
      assert rest == [Symbol(p[i..i + 1])] + ParseFrom(p, symbols, i + 1, i + 1);
    } else {
      ParseFromWellFormed(p, symbols, i + 1, i + 1);
    }
  }

  lemma StaticRunWellFormed(p: string, symbols: string, start: nat, i: nat)
    requires start < i <= |p|
    requires PendingRun(p, symbols, start, i)
    ensures WellFormedSegment(Static(p[start..i]), symbols)
  {
  }

  lemma SegmentsWellFormed(def: PatternDef)
    ensures WellFormed(Segments(def), def.symbols)
  {
    ParseFromWellFormed(def.pattern, def.symbols, 0, 0);
  }

  /** `PART` in the middle of a run is literal text: `fooPART` is one static segment. */
  lemma PartOnlyStartsARun()
    ensures Segments(PatternDef("fooPART", ".")) == [Static("fooPART")]
    ensures Segments(PatternDef("PART.PART", ".")) == [Dynamic("."), Symbol("."), Dynamic(".")]
  {
    var p := "fooPART";
    assert p[0] == 'f' && p[1] == 'o' && p[2] == 'o' && p[3] == 'P';
    assert p[4] == 'A' && p[5] == 'R' && p[6] == 'T';
    calc {
      ParseFrom(p, ".", 0, 0);
      ParseFrom(p, ".", 0, 1);
      ParseFrom(p, ".", 0, 2);
      ParseFrom(p, ".", 0, 3);
      ParseFrom(p, ".", 0, 4);
      ParseFrom(p, ".", 0, 5);
      ParseFrom(p, ".", 0, 6);
      ParseFrom(p, ".", 0, 7);
      [Static(p[0..7])];
      { assert p[0..7] == p; }
      [Static(p)];
    }
    var q := "PART.PART";
    assert PartAt(q, 0) && PartAt(q, 5);
    assert q[4..5] == ".";
  }

  // ---------------------------------------------------------------------------
  // The trie of states, as an arena: node 0 is the root, a child is an index,
  // and a repeating node lists its own index among its children.
  // ---------------------------------------------------------------------------

  datatype Node = Node(
    spec: Option<CharSpec>,       // None only for the root
    next: seq<nat>,               // nextStates
    patterns: seq<string>,        // every pattern whose path passes through
    isEndpoint: bool,
    types: Option<SegmentTypes>)  // set when the node becomes an endpoint

  type Trie = seq<Node>

  const Root: nat := 0

  function EmptyTrie(): (t: Trie)
    ensures ValidTrie(t)
  {
    [Node(None, [], [], false, None)]
  }

  predicate ValidTrie(t: Trie)
  {
    && |t| > 0 && t[Root].spec.None?
    && (forall n | 1 <= n < |t| :: t[n].spec.Some? && |t[n].patterns| > 0)
    && (forall n, k | 0 <= n < |t| && 0 <= k < |t[n].next| :: 1 <= t[n].next[k] < |t|)
    && (forall n | 0 <= n < |t| :: t[n].isEndpoint ==> t[n].types.Some?)
  }

  /** No node has two children with structurally equal specs. */
  predicate DistinctChildren(t: Trie)
    requires ValidTrie(t)
  {
    forall n, a, b | 0 <= n < |t| && 0 <= a < b < |t[n].next| ::
      t[t[n].next[a]].spec != t[t[n].next[b]].spec
  }

  predicate NoDup(ps: seq<string>)
  {
    forall a, b | 0 <= a < b < |ps| :: ps[a] != ps[b]
  }

  predicate PatternsDistinct(t: Trie)
  {
    forall n | 0 <= n < |t| :: NoDup(t[n].patterns)
  }

  predicate ChildrenIn(t: Trie, kids: seq<nat>)
  {
    forall k | 0 <= k < |kids| :: 1 <= kids[k] < |t|
  }

  /** `findChild`: the first child, from position i on, whose spec equals `spec`. */
  function ChildFrom(t: Trie, kids: seq<nat>, spec: CharSpec, i: nat): (r: Option<nat>)
    requires ValidTrie(t) && ChildrenIn(t, kids) && i <= |kids|
    ensures r.Some? ==> 1 <= r.value < |t| && t[r.value].spec == Some(spec)
    decreases |kids| - i
  {
    if i == |kids| then None
    else if Equals(spec, t[kids[i]].spec.value) then Some(kids[i])
    else ChildFrom(t, kids, spec, i + 1)
  }

  /** `findChild` finds a child from position i on exactly when one of them
      has an equal spec. */
  lemma {:induction false} ChildFromFacts(t: Trie, kids: seq<nat>, spec: CharSpec, i: nat)
    requires ValidTrie(t) && ChildrenIn(t, kids) && i <= |kids|
    ensures ChildFrom(t, kids, spec, i).Some? ==> ChildFrom(t, kids, spec, i).value in kids[i..]
    ensures ChildFrom(t, kids, spec, i).None? <==> forall k | i <= k < |kids| :: t[kids[k]].spec != Some(spec)
    decreases |kids| - i
  {
    if i < |kids| {
      ChildFromFacts(t, kids, spec, i + 1);
      assert kids[i..] == [kids[i]] + kids[i + 1..];
    }
  }

  function FindChildOf(t: Trie, parent: nat, spec: CharSpec): Option<nat>
    requires ValidTrie(t) && parent < |t|
  {
    ChildFrom(t, t[parent].next, spec, 0)
  }

  datatype Step = Step(trie: Trie, state: nat)

  /** The first half of `append`: the parent records the pattern, once. */
  function RecordPattern(t: Trie, parent: nat, pattern: string): (t1: Trie)
    requires ValidTrie(t) && parent < |t|
    ensures ValidTrie(t1) && |t1| == |t|
  {
    var node := t[parent];
    if pattern in node.patterns then t else t[parent := node.(patterns := node.patterns + [pattern])]
  }

  /** The second half of `append` when no child matches: one new node at the
      end of the arena, seeded with the pattern, looping to itself if it repeats. */
  function NewChild(t: Trie, parent: nat, spec: CharSpec, pattern: string): (r: Step)
    requires ValidTrie(t) && parent < |t|
    ensures ValidTrie(r.trie) && |r.trie| == |t| + 1 && r.state == |t|
  {
    var n := |t|;
    var child := Node(Some(spec), if spec.repeat then [n] else [], [pattern], false, None);
    var t2 := t[parent := t[parent].(next := t[parent].next + [n])] + [child];
    assert forall m, k | 0 <= m < |t2| && 0 <= k < |t2[m].next| :: 1 <= t2[m].next[k] < |t2| by {
      forall m, k | 0 <= m < |t2| && 0 <= k < |t2[m].next|
        ensures 1 <= t2[m].next[k] < |t2|
      {
        if m < n && m != parent {
          assert t2[m] == t[m];
        } else if m == parent && k < |t[parent].next| {
          assert t2[m].next[k] == t[parent].next[k];
        }
      }
    }
    Step(t2, n)
  }

  /** `State.append` on node `parent`: record the pattern on the parent (once),
      then reuse the child whose spec equals `spec`, or add one new child. */
  function AppendState(t: Trie, parent: nat, spec: CharSpec, pattern: string): (r: Step)
    requires ValidTrie(t) && parent < |t|
    ensures ValidTrie(r.trie) && |t| <= |r.trie| && 1 <= r.state < |r.trie|
  {
    var t1 := RecordPattern(t, parent, pattern);
    assert FindChildOf(t1, parent, spec) == FindChildOf(t, parent, spec) by {
      SameSpecsSameChild(t, t1, t[parent].next, spec, 0);
    }
    match FindChildOf(t, parent, spec)
    case Some(c) => Step(t1, c)
    case None => NewChild(t1, parent, spec, pattern)
  }

  /** What `append` does: the parent records the pattern once, the state
      reached carries `spec` and is the parent's existing child with that spec
      or a new last node, and no other node changes. */
  lemma AppendStateFacts(t: Trie, parent: nat, spec: CharSpec, pattern: string)
    requires ValidTrie(t) && parent < |t|
    ensures var r := AppendState(t, parent, spec, pattern);
      && r.trie[r.state].spec == Some(spec)
      && r.state in r.trie[parent].next
      && pattern in r.trie[parent].patterns
      && r.trie[parent].patterns ==
           (if pattern in t[parent].patterns then t[parent].patterns else t[parent].patterns + [pattern])
      && (FindChildOf(t, parent, spec).Some? ==>
            |r.trie| == |t| && r.state == FindChildOf(t, parent, spec).value
            && r.trie[parent].next == t[parent].next)
      && (FindChildOf(t, parent, spec).None? ==>
            && |r.trie| == |t| + 1 && r.state == |t|
            && r.trie[parent].next == t[parent].next + [|t|]
            && r.trie[|t|] == Node(Some(spec), if spec.repeat then [|t|] else [], [pattern], false, None))
      && (forall n | 0 <= n < |t| && n != parent :: r.trie[n] == t[n])
      && (forall n | 0 <= n < |t| ::
            r.trie[n].spec == t[n].spec && r.trie[n].isEndpoint == t[n].isEndpoint && r.trie[n].types == t[n].types)
  {
    var t1 := RecordPattern(t, parent, pattern);
    SameSpecsSameChild(t, t1, t[parent].next, spec, 0);
    ChildFromFacts(t, t[parent].next, spec, 0);
    assert t[parent].next[0..] == t[parent].next;
  }

  /** With no child of an equal spec, `append` adds a new child after
      recording the pattern. */
  lemma AppendStateNew(t: Trie, parent: nat, spec: CharSpec, pattern: string)
    requires ValidTrie(t) && parent < |t| && FindChildOf(t, parent, spec).None?
    ensures AppendState(t, parent, spec, pattern) == NewChild(RecordPattern(t, parent, pattern), parent, spec, pattern)
  {
  }

  /** `append` keeps every existing node's spec, endpoint flag and census,
      and any node it adds is not an endpoint. */
  lemma AppendStatePreserves(t: Trie, parent: nat, spec: CharSpec, pattern: string)
    requires ValidTrie(t) && parent < |t|
    ensures var r := AppendState(t, parent, spec, pattern);
      && (forall n | 0 <= n < |t| ::
            r.trie[n].spec == t[n].spec && r.trie[n].isEndpoint == t[n].isEndpoint && r.trie[n].types == t[n].types)
      && (forall n | |t| <= n < |r.trie| :: !r.trie[n].isEndpoint)
  {
    var t1 := RecordPattern(t, parent, pattern);
    assert forall n | 0 <= n < |t| ::
      t1[n].spec == t[n].spec && t1[n].isEndpoint == t[n].isEndpoint && t1[n].types == t[n].types;
  }

  /** The state `append` returns carries the spec it was given. */
  lemma AppendStateTarget(t: Trie, parent: nat, spec: CharSpec, pattern: string)
    requires ValidTrie(t) && parent < |t|
    ensures var r := AppendState(t, parent, spec, pattern);
      1 <= r.state < |r.trie| && r.trie[r.state].spec == Some(spec)
  {
    var t1 := RecordPattern(t, parent, pattern);
    assert forall n | 0 <= n < |t| :: t1[n].spec == t[n].spec;
  }

  /** `findChild` only looks at the children's specs. */
  lemma {:induction false} SameSpecsSameChild(t: Trie, t': Trie, kids: seq<nat>, spec: CharSpec, i: nat)
    requires ValidTrie(t) && ValidTrie(t') && |t| == |t'| && ChildrenIn(t, kids) && i <= |kids|
    requires forall n | 0 <= n < |t| :: t'[n].spec == t[n].spec
    ensures ChildFrom(t', kids, spec, i) == ChildFrom(t, kids, spec, i)
    decreases |kids| - i
  {
    if i < |kids| {
      SameSpecsSameChild(t, t', kids, spec, i + 1);
    }
  }

  /** `append` never gives a node two children with equal specs. */
  lemma AppendKeepsChildrenDistinct(t: Trie, parent: nat, spec: CharSpec, pattern: string)
    requires ValidTrie(t) && parent < |t| && DistinctChildren(t)
    ensures DistinctChildren(AppendState(t, parent, spec, pattern).trie)
  {
    var t1 := RecordPattern(t, parent, pattern);
    SameShapeDistinct(t, t1);
    if FindChildOf(t, parent, spec).None? {
      SameSpecsSameChild(t, t1, t[parent].next, spec, 0);
      ChildFromFacts(t1, t1[parent].next, spec, 0);
      NewChildDistinct(t1, parent, spec, pattern);
    }
  }

  /** Recording a pattern changes no node's children or spec. */
  lemma SameShapeDistinct(t: Trie, t1: Trie)
    requires ValidTrie(t) && DistinctChildren(t) && ValidTrie(t1) && |t1| == |t|
    requires forall m | 0 <= m < |t| :: t1[m].next == t[m].next && t1[m].spec == t[m].spec
    ensures DistinctChildren(t1)
  {
  }

  /** A new child whose spec no sibling has keeps the children distinct. */
  lemma NewChildDistinct(t: Trie, parent: nat, spec: CharSpec, pattern: string)
    requires ValidTrie(t) && parent < |t| && DistinctChildren(t)
    requires forall k | 0 <= k < |t[parent].next| :: t[t[parent].next[k]].spec != Some(spec)
    ensures DistinctChildren(NewChild(t, parent, spec, pattern).trie)
  {
    var r := NewChild(t, parent, spec, pattern).trie;
    var n := |t|;
    forall m, a, b | 0 <= m < |r| && 0 <= a < b < |r[m].next|
      ensures r[r[m].next[a]].spec != r[r[m].next[b]].spec
    {
      if m != n {
        var kids := t[m].next;
        assert r[m].next[a] == kids[a] && r[r[m].next[a]].spec == t[kids[a]].spec;
        if b < |kids| {
          assert r[m].next[b] == kids[b] && r[r[m].next[b]].spec == t[kids[b]].spec;
        } else {
          assert m == parent && r[m].next[b] == n;
        }
      }
    }
  }

  /** `append` never records a pattern twice on a node. */
  lemma AppendKeepsPatternsDistinct(t: Trie, parent: nat, spec: CharSpec, pattern: string)
    requires ValidTrie(t) && parent < |t| && PatternsDistinct(t)
    ensures PatternsDistinct(AppendState(t, parent, spec, pattern).trie)
  {
    AppendStateFacts(t, parent, spec, pattern);
  }

  lemma AppendKeepsInvariants(t: Trie, parent: nat, spec: CharSpec, pattern: string)
    requires ValidTrie(t) && parent < |t|
    ensures DistinctChildren(t) ==> DistinctChildren(AppendState(t, parent, spec, pattern).trie)
    ensures PatternsDistinct(t) ==> PatternsDistinct(AppendState(t, parent, spec, pattern).trie)
  {
    if DistinctChildren(t) { AppendKeepsChildrenDistinct(t, parent, spec, pattern); }
    if PatternsDistinct(t) { AppendKeepsPatternsDistinct(t, parent, spec, pattern); }
  }

  // ---------------------------------------------------------------------------
  // add
  // ---------------------------------------------------------------------------

  /** The current state threaded through `append` for each spec in turn,
      starting at state s. */
  function Thread(t: Trie, s: nat, specs: seq<CharSpec>, pattern: string): (r: Step)
    requires ValidTrie(t) && s < |t|
    ensures ValidTrie(r.trie) && |t| <= |r.trie| && r.state < |r.trie|
    ensures specs == [] ==> r == Step(t, s)
    decreases |specs|
  {
    if specs == [] then Step(t, s)
    else
      var r := Thread(t, s, specs[..|specs| - 1], pattern);
      AppendState(r.trie, r.state, specs[|specs| - 1], pattern)
  }

  /** Threading ends on a node for the last spec. */
  lemma ThreadEndsOnSpec(t: Trie, s: nat, specs: seq<CharSpec>, pattern: string)
    requires ValidTrie(t) && s < |t|
    ensures var r := Thread(t, s, specs, pattern);
            specs != [] ==> 1 <= r.state && r.trie[r.state].spec == Some(specs[|specs| - 1])
  {
    if specs != [] {
      var r := Thread(t, s, specs[..|specs| - 1], pattern);
      AppendStateTarget(r.trie, r.state, specs[|specs| - 1], pattern);
    }
  }

  /** Threading never changes an existing node's spec, endpoint flag or
      census, and adds no endpoint. */
  lemma {:induction false} ThreadKeepsNodes(t: Trie, s: nat, specs: seq<CharSpec>, pattern: string)
    requires ValidTrie(t) && s < |t|
    ensures var r := Thread(t, s, specs, pattern);
      && (forall n | 0 <= n < |t| ::
            r.trie[n].spec == t[n].spec && r.trie[n].isEndpoint == t[n].isEndpoint && r.trie[n].types == t[n].types)
      && (forall n | |t| <= n < |r.trie| :: !r.trie[n].isEndpoint)
    decreases |specs|
  {
    if specs != [] {
      ThreadKeepsNodes(t, s, specs[..|specs| - 1], pattern);
      var r := Thread(t, s, specs[..|specs| - 1], pattern);
      AppendStatePreserves(r.trie, r.state, specs[|specs| - 1], pattern);
    }
  }

  lemma {:induction false} ThreadKeepsInvariants(t: Trie, s: nat, specs: seq<CharSpec>, pattern: string)
    requires ValidTrie(t) && s < |t|
    ensures DistinctChildren(t) ==> DistinctChildren(Thread(t, s, specs, pattern).trie)
    ensures PatternsDistinct(t) ==> PatternsDistinct(Thread(t, s, specs, pattern).trie)
    decreases |specs|
  {
    if specs != [] {
      var r := Thread(t, s, specs[..|specs| - 1], pattern);
      ThreadKeepsInvariants(t, s, specs[..|specs| - 1], pattern);
      AppendKeepsInvariants(r.trie, r.state, specs[|specs| - 1], pattern);
    }
  }

  /** Threading one more spec is one more `append`. */
  lemma ThreadOneMore(t: Trie, s: nat, specs: seq<CharSpec>, k: nat, pattern: string)
    requires ValidTrie(t) && s < |t| && k < |specs|
    ensures var r := Thread(t, s, specs[..k], pattern);
            Thread(t, s, specs[..k + 1], pattern) == AppendState(r.trie, r.state, specs[k], pattern)
  {
    assert specs[..k + 1][..k] == specs[..k];
  }

  /** A non-empty thread ends with one `append` of its last spec. */
  lemma ThreadLast(t: Trie, s: nat, specs: seq<CharSpec>, pattern: string)
    requires ValidTrie(t) && s < |t| && specs != []
    ensures var r := Thread(t, s, specs[..|specs| - 1], pattern);
            Thread(t, s, specs, pattern) == AppendState(r.trie, r.state, specs[|specs| - 1], pattern)
  {
  }

  /** Threading a then b is threading b from where a ended. */
  lemma {:induction false} ThreadConcat(t: Trie, s: nat, a: seq<CharSpec>, b: seq<CharSpec>, pattern: string)
    requires ValidTrie(t) && s < |t|
    ensures var r := Thread(t, s, a, pattern);
            Thread(t, s, a + b, pattern) == Thread(r.trie, r.state, b, pattern)
    decreases |b|
  {
    if b == [] {
      assert a + b == a;
    } else {
      var b' := b[..|b| - 1];
      ThreadConcat(t, s, a, b', pattern);
      var ab := a + b;
      assert ab[..|ab| - 1] == a + b' && ab[|ab| - 1] == b[|b| - 1];
      var r := Thread(t, s, a, pattern);
      ThreadLast(t, s, ab, pattern);
      ThreadLast(r.trie, r.state, b, pattern);
    }
  }

  datatype Added = Added(trie: Trie, endpoint: nat)

  /** `add(def)`: thread the pattern's specs through the trie, then mark the
      node reached as an endpoint carrying the pattern's segment census. */
  function Add(t: Trie, def: PatternDef): (r: Added)
    requires ValidTrie(t)
    ensures ValidTrie(r.trie) && |t| <= |r.trie| && r.endpoint < |r.trie|
  {
    var segs := Segments(def);
    var s := Thread(t, Root, AllSpecs(segs), def.pattern);
    Added(MarkEndpoint(s.trie, s.state, Count(segs)), s.state)
  }

  /** After `add(def)` the node reached is an endpoint carrying the pattern's
      census (never the root unless the pattern has no characters), every
      earlier endpoint is still one, and no other endpoint appears. */
  lemma AddMarksEndpoint(t: Trie, def: PatternDef)
    requires ValidTrie(t)
    ensures var r := Add(t, def);
      && r.trie[r.endpoint].isEndpoint && r.trie[r.endpoint].types == Some(Count(Segments(def)))
      && (AllSpecs(Segments(def)) != [] ==> 1 <= r.endpoint)
      && (forall n | 0 <= n < |t| && t[n].isEndpoint :: r.trie[n].isEndpoint)
      && (forall n | 0 <= n < |r.trie| && n != r.endpoint && r.trie[n].isEndpoint :: n < |t| && t[n].isEndpoint)
  {
    var segs := Segments(def);
    ThreadKeepsNodes(t, Root, AllSpecs(segs), def.pattern);
    ThreadEndsOnSpec(t, Root, AllSpecs(segs), def.pattern);
  }

  /** `currentState.types = types; currentState.isEndpoint = true`. */
  function MarkEndpoint(t: Trie, n: nat, types: SegmentTypes): (r: Trie)
    requires ValidTrie(t) && n < |t|
    ensures ValidTrie(r) && |r| == |t|
    ensures r[n] == t[n].(types := Some(types), isEndpoint := true)
    ensures forall m | 0 <= m < |t| && m != n :: r[m] == t[m]
  {
    var r := t[n := t[n].(types := Some(types), isEndpoint := true)];
    assert forall m | 0 <= m < |t| :: r[m].next == t[m].next && r[m].spec == t[m].spec && r[m].patterns == t[m].patterns;
    r
  }

  /** `add(defs)`: each definition in order. */
  function AddAll(t: Trie, defs: seq<PatternDef>): (r: Trie)
    requires ValidTrie(t)
    ensures ValidTrie(r) && |t| <= |r|
    decreases |defs|
  {
    if defs == [] then t else AddAll(Add(t, defs[0]).trie, defs[1..])
  }

  /** Registering more definitions never unmarks an endpoint. */
  lemma {:induction false} AddAllKeepsEndpoints(t: Trie, defs: seq<PatternDef>)
    requires ValidTrie(t)
    ensures forall n | 0 <= n < |t| && t[n].isEndpoint :: AddAll(t, defs)[n].isEndpoint
    decreases |defs|
  {
    if defs != [] {
      AddMarksEndpoint(t, defs[0]);
      AddAllKeepsEndpoints(Add(t, defs[0]).trie, defs[1..]);
    }
  }

  /** Marking an endpoint touches neither children nor patterns. */
  lemma AddKeepsInvariants(t: Trie, def: PatternDef)
    requires ValidTrie(t)
    ensures DistinctChildren(t) ==> DistinctChildren(Add(t, def).trie)
    ensures PatternsDistinct(t) ==> PatternsDistinct(Add(t, def).trie)
  {
    var s := Thread(t, Root, AllSpecs(Segments(def)), def.pattern);
    ThreadKeepsInvariants(t, Root, AllSpecs(Segments(def)), def.pattern);
    MarkKeepsInvariants(s.trie, s.state, Count(Segments(def)));
  }

  lemma MarkKeepsInvariants(t: Trie, n: nat, types: SegmentTypes)
    requires ValidTrie(t) && n < |t|
    ensures DistinctChildren(t) ==> DistinctChildren(MarkEndpoint(t, n, types))
    ensures PatternsDistinct(t) ==> PatternsDistinct(MarkEndpoint(t, n, types))
  {
    var r := MarkEndpoint(t, n, types);
    assert forall m | 0 <= m < |r| :: r[m].next == t[m].next && r[m].spec == t[m].spec && r[m].patterns == t[m].patterns;
  }

  // ---------------------------------------------------------------------------
  // Interpretation records
  // ---------------------------------------------------------------------------

  /** `currentRecord` (a missing key is `undefined`) and `partsRecord`. */
  datatype Records = Records(current: map<string, string>, parts: map<string, seq<string>>)

  function PartsOf(parts: map<string, seq<string>>, pattern: string): seq<string>
  {
    if pattern in parts then parts[pattern] else []
  }

  /** `append(pattern, ch)`: extend the in-progress part of `pattern`, and nothing else. */
  function AppendRecord(r: Records, pattern: string, ch: char): (r': Records)
    ensures pattern in r'.current
    ensures r'.current[pattern] == (if pattern in r.current then r.current[pattern] else "") + [ch]
    ensures forall q | q != pattern :: (q in r'.current <==> q in r.current)
    ensures forall q | q != pattern && q in r.current :: r'.current[q] == r.current[q]
    ensures r'.parts == r.parts
  {
    if pattern !in r.current then r.(current := r.current[pattern := [ch]])
    else r.(current := r.current[pattern := r.current[pattern] + [ch]])
  }

  /** `next(pattern)`: move the in-progress part of `pattern` to the end of its
      completed parts and clear it; without one, nothing changes. */
  function NextRecord(r: Records, pattern: string): (r': Records)
    ensures pattern !in r.current ==> r' == r
    ensures pattern in r.current ==>
      && pattern !in r'.current
      && pattern in r'.parts && r'.parts[pattern] == PartsOf(r.parts, pattern) + [r.current[pattern]]
    ensures forall q | q != pattern :: (q in r'.current <==> q in r.current)
    ensures forall q | q != pattern && q in r.current :: r'.current[q] == r.current[q]
    ensures forall q | q != pattern :: (q in r'.parts <==> q in r.parts)
    ensures forall q | q != pattern && q in r.parts :: r'.parts[q] == r.parts[q]
  {
    if pattern in r.current then
      Records(r.current - {pattern}, r.parts[pattern := PartsOf(r.parts, pattern) + [r.current[pattern]]])
    else r
  }

  /** What an Interpretation holds: its records, `_pattern` ("" reads as null)
      and `parts` (None where the source leaves it `undefined`). */
  datatype Interp = Interp(rec: Records, patternValue: string, parts: Option<seq<string>>)

  const Fresh: Interp := Interp(Records(map[], map[]), "", Some([]))

  /** The `pattern` getter. */
  function PatternOfInterp(i: Interp): (r: Option<string>)
    ensures r.None? <==> i.patternValue == ""
  {
    if i.patternValue == "" then None else Some(i.patternValue)
  }

  /** The `pattern` setter: null clears the parts; a pattern string selects its
      completed parts. */
  function SetPattern(r: Records, value: Option<string>): (i: Interp)
    ensures i.rec == r
    ensures value.None? ==> PatternOfInterp(i).None? && i.parts == Some([])
    ensures value.Some? && value.value != "" ==> PatternOfInterp(i) == value
    ensures value.Some? ==> (i.parts.Some? <==> value.value in r.parts)
    ensures value.Some? && value.value in r.parts ==> i.parts == Some(r.parts[value.value])
  {
    match value
    case None => Interp(r, "", Some([]))
    case Some(v) => Interp(r, v, if v in r.parts then Some(r.parts[v]) else None)
  }

  // ---------------------------------------------------------------------------
  // interpret, as functions of the trie and the name
  // ---------------------------------------------------------------------------

  predicate StatesIn(t: Trie, states: seq<nat>)
  {
    forall k | 0 <= k < |states| :: states[k] < |t|
  }

  /** The inner loop of `findMatches` for a symbol child: close the part of
      each of patterns[lo..hi). */
  function CloseAll(ps: seq<string>, lo: nat, hi: nat, r: Records): Records
    requires hi <= |ps|
    decreases hi
  {
    if hi <= lo then r else NextRecord(CloseAll(ps, lo, hi - 1, r), ps[hi - 1])
  }

  /** The inner loop of `findMatches` for any other child: extend the part of
      each of patterns[lo..hi) with ch. */
  function ExtendAll(ps: seq<string>, lo: nat, hi: nat, ch: char, r: Records): Records
    requires hi <= |ps|
    decreases hi
  {
    if hi <= lo then r else AppendRecord(ExtendAll(ps, lo, hi - 1, ch, r), ps[hi - 1], ch)
  }

  function Max(a: nat, b: nat): nat
  {
    if a < b then b else a
  }

  /** The children whose spec holds ch, in order. */
  function Matching(t: Trie, kids: seq<nat>, ch: char): (r: seq<nat>)
    requires ValidTrie(t) && ChildrenIn(t, kids)
    ensures ChildrenIn(t, r) && |r| <= |kids|
    ensures forall k | 0 <= k < |r| :: Has(t[r[k]].spec.value, ch)
    ensures forall k | 0 <= k < |kids| :: Has(t[kids[k]].spec.value, ch) ==> kids[k] in r
  {
    if kids == [] then []
    else
      var rest := Matching(t, kids[..|kids| - 1], ch);
      var c := kids[|kids| - 1];
      assert forall k | 0 <= k < |kids| - 1 :: kids[..|kids| - 1][k] == kids[k];
      if Has(t[c].spec.value, ch) then rest + [c] else rest
  }

  /** `findMatches` after its first n children: the children matched so far,
      the counter j that is never reset between children, and the records. */
  datatype Scan = Scan(found: seq<nat>, j: nat, rec: Records)

  function ScanChildren(t: Trie, kids: seq<nat>, n: nat, ch: char, r: Records): (s: Scan)
    requires ValidTrie(t) && ChildrenIn(t, kids) && n <= |kids|
    ensures ChildrenIn(t, s.found)
    decreases n
  {
    if n == 0 then Scan([], 0, r)
    else
      var s := ScanChildren(t, kids, n - 1, ch, r);
      var c := kids[n - 1];
      var spec := t[c].spec.value;
      if Has(spec, ch) then
        var ps := t[c].patterns;
        Scan(s.found + [c], Max(s.j, |ps|),
             if spec.isSymbol then CloseAll(ps, s.j, |ps|, s.rec) else ExtendAll(ps, s.j, |ps|, ch, s.rec))
      else s
  }

  /** The children `findMatches` returns are exactly those whose spec holds ch,
      in order, whatever the records. */
  lemma {:induction false} ScanFindsMatching(t: Trie, kids: seq<nat>, n: nat, ch: char, r: Records)
    requires ValidTrie(t) && ChildrenIn(t, kids) && n <= |kids|
    ensures ScanChildren(t, kids, n, ch, r).found == Matching(t, kids[..n], ch)
    decreases n
  {
    if n > 0 {
      ScanFindsMatching(t, kids, n - 1, ch, r);
      assert kids[..n][..n - 1] == kids[..n - 1];
    }
  }

  /** Because j is not reset, a second matching child whose pattern list is no
      longer than the first one's has none of its parts extended: only the
      first child's patterns receive ch. */
  lemma SecondChildSkipped(t: Trie, c1: nat, c2: nat, ch: char, r: Records)
    requires ValidTrie(t) && 1 <= c1 < |t| && 1 <= c2 < |t|
    requires Has(t[c1].spec.value, ch) && Has(t[c2].spec.value, ch)
    requires !t[c1].spec.value.isSymbol && !t[c2].spec.value.isSymbol
    requires |t[c2].patterns| <= |t[c1].patterns|
    ensures var s := ScanChildren(t, [c1, c2], 2, ch, r);
            s.found == [c1, c2]
            && s.rec == ExtendAll(t[c1].patterns, 0, |t[c1].patterns|, ch, r)
  {
    var s1 := ScanChildren(t, [c1, c2], 1, ch, r);
    assert ScanChildren(t, [c1, c2], 0, ch, r) == Scan([], 0, r);
    assert s1 == Scan([c1], |t[c1].patterns|, ExtendAll(t[c1].patterns, 0, |t[c1].patterns|, ch, r));
  }

  /** The active states and the records after one character. */
  datatype Active = Active(states: seq<nat>, rec: Records)

  /** `getNextStates` after its first m states: the matches of each state, concatenated. */
  function NextStates(t: Trie, states: seq<nat>, m: nat, ch: char, r: Records): (a: Active)
    requires ValidTrie(t) && StatesIn(t, states) && m <= |states|
    ensures ChildrenIn(t, a.states)
    decreases m
  {
    if m == 0 then Active([], r)
    else
      var a := NextStates(t, states, m - 1, ch, r);
      var kids := t[states[m - 1]].next;
      var sc := ScanChildren(t, kids, |kids|, ch, a.rec);
      Active(a.states + sc.found, sc.rec)
  }

  /** The walk after the first i characters of the name, from the root. */
  function WalkTo(t: Trie, name: string, i: nat): (a: Active)
    requires ValidTrie(t) && i <= |name|
    ensures StatesIn(t, a.states)
    ensures i > 0 ==> ChildrenIn(t, a.states)
  {
    if i == 0 then Active([Root], Fresh.rec)
    else
      var a := WalkTo(t, name, i - 1);
      NextStates(t, a.states, |a.states|, name[i - 1], a.rec)
  }

  function TypesOf(n: Node): SegmentTypes
  {
    match n.types
    case Some(x) => x
    case None => SegmentTypes(0, 0, 0)
  }

  /** The comparator handed to `sort`: negative when a goes first. */
  function Compare(a: Node, b: Node): int
  {
    if a.isEndpoint && !b.isEndpoint then -1
    else if !a.isEndpoint && b.isEndpoint then 1
    else if !a.isEndpoint then 0
    else
      var at, bt := TypesOf(a), TypesOf(b);
      if at.statics != bt.statics then bt.statics - at.statics
      else if at.dynamics != bt.dynamics then bt.dynamics - at.dynamics
      else if at.symbols != bt.symbols then bt.symbols - at.symbols
      else 0
  }

  /** The ranking: endpoints first, then more statics, then more dynamics,
      then more symbols. */
  predicate Outranks(a: Node, b: Node)
  {
    if a.isEndpoint != b.isEndpoint then a.isEndpoint
    else if !a.isEndpoint then false
    else
      var at, bt := TypesOf(a), TypesOf(b);
      at.statics > bt.statics
      || (at.statics == bt.statics && at.dynamics > bt.dynamics)
      || (at.statics == bt.statics && at.dynamics == bt.dynamics && at.symbols > bt.symbols)
  }

  /** The comparator is consistent: its sign is the ranking, in both directions. */
  lemma CompareIsRanking(a: Node, b: Node)
    ensures Compare(a, b) < 0 <==> Outranks(a, b)
    ensures Compare(a, b) > 0 <==> Outranks(b, a)
    ensures Compare(a, b) == 0 <==> !Outranks(a, b) && !Outranks(b, a)
  {
  }

  /** The first of the states that a stable sort by `Compare` would put at the
      head: nothing outranks it, and it outranks every state before it. */
  function TopOf(t: Trie, states: seq<nat>, n: nat): (k: nat)
    requires StatesIn(t, states) && 0 < n <= |states|
    ensures k < n
    ensures forall m | 0 <= m < n :: !Outranks(t[states[m]], t[states[k]])
    ensures forall m | 0 <= m < k :: Outranks(t[states[k]], t[states[m]])
    ensures (exists m | 0 <= m < n :: t[states[m]].isEndpoint) <==> t[states[k]].isEndpoint
    decreases n
  {
    if n == 1 then 0
    else
      var b := TopOf(t, states, n - 1);
      CompareIsRanking(t[states[n - 1]], t[states[b]]);
      if Compare(t[states[n - 1]], t[states[b]]) < 0 then n - 1 else b
  }

  /** `State.pattern`: the first recorded pattern, for an endpoint. */
  function PatternOf(t: Trie, s: nat): (p: Option<string>)
    requires ValidTrie(t) && 1 <= s < |t|
    ensures p.Some? <==> t[s].isEndpoint
    ensures p.Some? ==> p.value == t[s].patterns[0]
  {
    if t[s].isEndpoint then Some(t[s].patterns[0]) else None
  }

  /** A record key: a null pattern is looked up as the string "null". */
  function Key(p: Option<string>): string
  {
    match p
    case Some(v) => v
    case None => "null"
  }

  /** The end of `interpret`: the top-ranked survivor's pattern, with its last
      part closed unless that survivor is a symbol. */
  function Resolve(t: Trie, a: Active): (i: Interp)
    requires ValidTrie(t) && ChildrenIn(t, a.states)
  {
    if a.states == [] then Interp(a.rec, "", Some([]))
    else
      var top := a.states[TopOf(t, a.states, |a.states|)];
      var p := PatternOf(t, top);
      var r := if !t[top].spec.value.isSymbol then NextRecord(a.rec, Key(p)) else a.rec;
      SetPattern(r, p)
  }

  /** `interpret(name)`; the source dereferences the root's missing spec on "". */
  function InterpretOf(t: Trie, name: string): Interp
    requires ValidTrie(t) && |name| > 0
  {
    Resolve(t, WalkTo(t, name, |name|))
  }

  /** Once no state is active, later characters change nothing: stopping the
      walk early gives the same result as reading the whole name. */
  lemma {:induction false} WalkStaysEmpty(t: Trie, name: string, i: nat, k: nat)
    requires ValidTrie(t) && i <= k <= |name|
    requires WalkTo(t, name, i).states == []
    ensures WalkTo(t, name, k) == WalkTo(t, name, i)
    decreases k
  {
    if k > i {
      WalkStaysEmpty(t, name, i, k - 1);
      assert WalkTo(t, name, k - 1).states == [];
      WalkFromNothing(t, name, k);
    }
  }

  /** One character read with no live state leaves the walk as it was. */
  lemma WalkFromNothing(t: Trie, name: string, k: nat)
    requires ValidTrie(t) && 0 < k <= |name|
    requires WalkTo(t, name, k - 1).states == []
    ensures WalkTo(t, name, k) == WalkTo(t, name, k - 1)
  {
    var a := WalkTo(t, name, k - 1);
    assert NextStates(t, a.states, 0, name[k - 1], a.rec) == Active([], a.rec);
  }

  /** The result names a pattern only when the top-ranked survivor is an
      endpoint, and then it is that endpoint's first pattern; an endpoint
      among the survivors is always the top-ranked one. */
  lemma InterpretResolvesTop(t: Trie, name: string)
    requires ValidTrie(t) && |name| > 0
    ensures var a := WalkTo(t, name, |name|);
            var i := InterpretOf(t, name);
            && (a.states == [] ==> PatternOfInterp(i).None? && i.parts == Some([]))
            && (a.states != [] ==>
                  var top := a.states[TopOf(t, a.states, |a.states|)];
                  && (PatternOfInterp(i).Some? ==> t[top].isEndpoint && PatternOfInterp(i) == Some(t[top].patterns[0]))
                  && (!t[top].isEndpoint ==> PatternOfInterp(i).None? && i.parts == Some([]))
                  && ((exists m | 0 <= m < |a.states| :: t[a.states[m]].isEndpoint) <==> t[top].isEndpoint))
  {
  }

  // ---------------------------------------------------------------------------
  // Worked examples
  // ---------------------------------------------------------------------------

  /** One step of the walk from a single active state with a single matching
      child: the child becomes the only active state and its patterns are fed. */
  lemma SingleStep(t: Trie, name: string, i: nat, s: nat, c: nat, r: Records)
    requires ValidTrie(t) && i < |name| && s < |t| && 1 <= c < |t|
    requires WalkTo(t, name, i) == Active([s], r)
    requires t[s].next == [c] && Has(t[c].spec.value, name[i])
    ensures var ps := t[c].patterns;
            WalkTo(t, name, i + 1) ==
              Active([c], if t[c].spec.value.isSymbol then CloseAll(ps, 0, |ps|, r) else ExtendAll(ps, 0, |ps|, name[i], r))
  {
    assert WalkTo(t, name, i + 1) == NextStates(t, [s], 1, name[i], r);
    assert NextStates(t, [s], 0, name[i], r) == Active([], r);
  }

  /** The scan of `:PART` with symbols `:`. */
  lemma ColonPartParse()
    ensures Segments(PatternDef(":PART", ":")) == [Symbol(":"), Dynamic(":")]
  {
    var p := ":PART";
    assert PartAt(p, 1) && p[0..1] == ":";
  }

  /** `:PART` with symbols `:` is a symbol segment and a dynamic segment. */
  lemma ColonPartSegments()
    ensures Segments(PatternDef(":PART", ":")) == [Symbol(":"), Dynamic(":")]
    ensures AllSpecs(Segments(PatternDef(":PART", ":")))
         == [CharSpec(":", false, true, false), CharSpec(":", true, false, true)]
    ensures Count(Segments(PatternDef(":PART", ":"))) == SegmentTypes(0, 1, 1)
  {
    ColonPartParse();
    var segs := [Symbol(":"), Dynamic(":")];
    assert segs[..1] == [Symbol(":")];
    assert segs[..1][..0] == [];
  }

  /** The first `append` of `:PART`: the root gets a new symbol child. */
  lemma ColonPartFirstAppend()
    ensures AppendState(EmptyTrie(), Root, CharSpec(":", false, true, false), ":PART")
         == Step([Node(None, [1], [":PART"], false, None),
                  Node(Some(CharSpec(":", false, true, false)), [], [":PART"], false, None)], 1)
  {
    var p := ":PART";
    var sym := CharSpec(":", false, true, false);
    var e1 := [Node(None, [], [p], false, None)];
    var e := EmptyTrie();
    assert e[Root].patterns + [p] == [p];
    var u := e[Root := e[Root].(patterns := e[Root].patterns + [p])];
    assert |u| == 1 && u[0] == e1[0];
    assert RecordPattern(e, Root, p) == e1;
    assert FindChildOf(e1, Root, sym) == None;
    var r := NewChild(e1, Root, sym, p);
    assert |r.trie| == 2 && r.trie[0] == Node(None, [1], [p], false, None);
  }

  /** The second `append` of `:PART`: the symbol node gets a new self-looping
      dynamic child. */
  lemma ColonPartSecondAppend(t1: Trie)
    requires t1 == [Node(None, [1], [":PART"], false, None),
                    Node(Some(CharSpec(":", false, true, false)), [], [":PART"], false, None)]
    ensures ValidTrie(t1)
    ensures AppendState(t1, 1, CharSpec(":", true, false, true), ":PART")
         == Step([Node(None, [1], [":PART"], false, None),
                  Node(Some(CharSpec(":", false, true, false)), [2], [":PART"], false, None),
                  Node(Some(CharSpec(":", true, false, true)), [2], [":PART"], false, None)], 2)
  {
    var p := ":PART";
    var dyn := CharSpec(":", true, false, true);
    assert t1[1].next == [] && t1[1].next + [|t1|] == [2];
    AppendStateNew(t1, 1, dyn, p);
    assert RecordPattern(t1, 1, p) == t1;
    var t2 := t1[1 := t1[1].(next := [2])] + [Node(Some(dyn), [2], [p], false, None)];
    assert NewChild(t1, 1, dyn, p) == Step(t2, 2);
  }

  /** A record whose in-progress part for p has grown by `part`. */
  function Collect(r: Records, p: string, part: string): Records
    requires p in r.current
  {
    r.(current := r.current[p := r.current[p] + part])
  }

  lemma CollectMore(r: Records, p: string, part: string, ch: char)
    requires p in r.current
    ensures AppendRecord(Collect(r, p, part), p, ch) == Collect(r, p, part + [ch])
  {
    assert r.current[p] + part + [ch] == r.current[p] + (part + [ch]);
  }

  /** A node that loops to itself and holds one pattern collects a run of
      characters its spec accepts into that pattern's in-progress part. */
  lemma {:induction false} RunCollects(t: Trie, name: string, i: nat, k: nat, c: nat, r: Records)
    requires ValidTrie(t) && i <= k <= |name| && 1 <= c < |t|
    requires t[c].next == [c] && |t[c].patterns| == 1 && !t[c].spec.value.isSymbol
    requires t[c].patterns[0] in r.current
    requires WalkTo(t, name, i) == Active([c], r)
    requires forall m | i <= m < k :: Has(t[c].spec.value, name[m])
    ensures WalkTo(t, name, k) == Active([c], Collect(r, t[c].patterns[0], name[i..k]))
    decreases k
  {
    if k == i {
      CollectNothing(r, t[c].patterns[0], name[i..k]);
    } else {
      var p := t[c].patterns[0];
      RunCollects(t, name, i, k - 1, c, r);
      CollectOneMore(r, p, name, i, k);
      RunStep(t, name, k - 1, c, Collect(r, p, name[i..k - 1]), Collect(r, p, name[i..k]));
    }
  }

  lemma CollectNothing(r: Records, p: string, part: string)
    requires p in r.current && part == []
    ensures Collect(r, p, part) == r
  {
    assert r.current[p] + part == r.current[p];
    assert r.current[p := r.current[p]] == r.current;
  }

  lemma CollectOneMore(r: Records, p: string, name: string, i: nat, k: nat)
    requires p in r.current && i < k <= |name|
    ensures AppendRecord(Collect(r, p, name[i..k - 1]), p, name[k - 1]) == Collect(r, p, name[i..k])
  {
    CollectMore(r, p, name[i..k - 1], name[k - 1]);
    assert name[i..k - 1] + [name[k - 1]] == name[i..k];
  }

  /** One step on a self-looping single-pattern node extends that pattern's
      in-progress part by the character read. */
  lemma RunStep(t: Trie, name: string, m: nat, c: nat, r1: Records, r2: Records)
    requires ValidTrie(t) && m < |name| && 1 <= c < |t|
    requires t[c].next == [c] && |t[c].patterns| == 1 && !t[c].spec.value.isSymbol
    requires WalkTo(t, name, m) == Active([c], r1)
    requires Has(t[c].spec.value, name[m])
    requires AppendRecord(r1, t[c].patterns[0], name[m]) == r2
    ensures WalkTo(t, name, m + 1) == Active([c], r2)
  {
    SingleStep(t, name, m, c, c, r1);
    assert ExtendAll(t[c].patterns, 0, 1, name[m], r1) == r2;
  }


  /** The trie built from `:PART` (symbols `:`): a symbol node for `:` and a
      self-looping dynamic node that is the endpoint. */
  lemma ColonPartTrie()
    ensures AddAll(EmptyTrie(), [PatternDef(":PART", ":")]) == [
      Node(None, [1], [":PART"], false, None),
      Node(Some(CharSpec(":", false, true, false)), [2], [":PART"], false, None),
      Node(Some(CharSpec(":", true, false, true)), [2], [":PART"], true, Some(SegmentTypes(0, 1, 1)))]
  {
    AddAllOne(EmptyTrie(), PatternDef(":PART", ":"));
    ColonPartAdded();
  }

  lemma AddAllOne(t: Trie, def: PatternDef)
    requires ValidTrie(t)
    ensures AddAll(t, [def]) == Add(t, def).trie
  {
    assert [def][1..] == [];
  }

  /** `add` of `:PART` on an empty trie. */
  lemma ColonPartAdded()
    ensures Add(EmptyTrie(), PatternDef(":PART", ":")).trie == [
      Node(None, [1], [":PART"], false, None),
      Node(Some(CharSpec(":", false, true, false)), [2], [":PART"], false, None),
      Node(Some(CharSpec(":", true, false, true)), [2], [":PART"], true, Some(SegmentTypes(0, 1, 1)))]
  {
    ColonPartSegments();
    ColonPartThreaded();
  }

  /** Threading the two specs of `:PART` through an empty trie. */
  lemma ColonPartThreaded()
    ensures Thread(EmptyTrie(), Root, [CharSpec(":", false, true, false), CharSpec(":", true, false, true)], ":PART")
         == Step([Node(None, [1], [":PART"], false, None),
                  Node(Some(CharSpec(":", false, true, false)), [2], [":PART"], false, None),
                  Node(Some(CharSpec(":", true, false, true)), [2], [":PART"], false, None)], 2)
  {
    var sym := CharSpec(":", false, true, false);
    var dyn := CharSpec(":", true, false, true);
    ColonPartFirstAppend();
    var t1 := [Node(None, [1], [":PART"], false, None), Node(Some(sym), [], [":PART"], false, None)];
    ColonPartSecondAppend(t1);
    var e := EmptyTrie();
    assert [sym][..0] == [];
    assert Thread(e, Root, [sym], ":PART") == Step(t1, 1);
    assert [sym, dyn][..1] == [sym];
  }

  /** The shape of the `:PART` trie: root, then a `:` symbol node, then a
      self-looping dynamic endpoint, each carrying the pattern. */
  predicate ColonPartShape(t: Trie)
  {
    && ValidTrie(t) && |t| == 3
    && t[0].next == [1] && t[1].next == [2] && t[2].next == [2]
    && t[1].spec == Some(CharSpec(":", false, true, false)) && t[1].patterns == [":PART"]
    && t[2].spec == Some(CharSpec(":", true, false, true)) && t[2].patterns == [":PART"] && t[2].isEndpoint
  }

  /** Reading the `:` and the first character after it: the symbol node
      closes nothing, and the dynamic node starts the part. */
  lemma ColonPartOpens(t: Trie, name: string)
    requires ColonPartShape(t)
    requires |name| >= 2 && name[0] == ':' && name[1] != ':'
    ensures WalkTo(t, name, 2) == Active([2], Records(map[":PART" := [name[1]]], map[]))
  {
    var r0 := Records(map[], map[]);
    SingleStep(t, name, 0, 0, 1, r0);
    assert NextRecord(r0, ":PART") == r0;
    assert Has(t[2].spec.value, name[1]);
    SingleStep(t, name, 1, 1, 2, r0);
    assert ExtendAll(t[2].patterns, 0, 1, name[1], r0) == AppendRecord(r0, ":PART", name[1]);
  }

  /** Reading the rest of the run: the dynamic node collects it. */
  lemma ColonPartCollects(t: Trie, name: string)
    requires ColonPartShape(t)
    requires |name| >= 2 && name[0] == ':' && forall m | 1 <= m < |name| :: name[m] != ':'
    ensures WalkTo(t, name, |name|)
         == Active([2], Collect(Records(map[":PART" := [name[1]]], map[]), ":PART", name[2..|name|]))
  {
    ColonPartOpens(t, name);
    var r1 := Records(map[":PART" := [name[1]]], map[]);
    assert forall m | 2 <= m < |name| :: Has(t[2].spec.value, name[m]);
    RunCollects(t, name, 2, |name|, 2, r1);
  }

  /** The part collected after the `:` is the whole rest of the name. */
  lemma ColonPartCollected(name: string)
    requires |name| >= 2
    ensures Collect(Records(map[":PART" := [name[1]]], map[]), ":PART", name[2..|name|])
         == Records(map[":PART" := name[1..]], map[])
  {
    var rest := name[2..|name|];
    assert [name[1]] + rest == name[1..];
    assert map[":PART" := [name[1]]][":PART" := [name[1]] + rest] == map[":PART" := name[1..]];
  }

  /** Ending on the dynamic endpoint with part v in progress: v is closed and
      becomes the one part of `:PART`. */
  lemma ColonPartResolves(t: Trie, v: string)
    requires ColonPartShape(t)
    ensures Resolve(t, Active([2], Records(map[":PART" := v], map[])))
         == Interp(Records(map[], map[":PART" := [v]]), ":PART", Some([v]))
  {
    var a := Active([2], Records(map[":PART" := v], map[]));
    assert TopOf(t, a.states, 1) == 0;
    assert PatternOf(t, 2) == Some(":PART");
    assert map[":PART" := v] - {":PART"} == map[];
    assert PartsOf(map[], ":PART") + [v] == [v];
  }

  /** The `:PART` trie reads `:` followed by any run without `:` as the
      pattern `:PART` with that run as its one part. */
  lemma ColonPartReadsRun(t: Trie, name: string)
    requires ColonPartShape(t)
    requires |name| >= 2 && name[0] == ':' && forall m | 1 <= m < |name| :: name[m] != ':'
    ensures InterpretOf(t, name) == Interp(Records(map[], map[":PART" := [name[1..]]]), ":PART", Some([name[1..]]))
  {
    ColonPartCollects(t, name);
    ColonPartCollected(name);
    ColonPartResolves(t, name[1..]);
  }

  /** `:value` read by the `:PART` pattern: the pattern is `:PART` and its one
      part is `value`. */
  lemma ColonPartReadsValue(t: Trie)
    requires ColonPartShape(t)
    ensures InterpretOf(t, ":value")
         == Interp(Records(map[], map[":PART" := ["value"]]), ":PART", Some(["value"]))
  {
    var name := ":value";
    assert name[1..] == "value";
    ColonPartReadsRun(t, name);
  }

  /** Registering `:PART` with the symbol `:` into an empty interpreter builds
      a trie of the `:PART` shape. */
  lemma ColonPartRegistered()
    ensures ColonPartShape(AddAll(EmptyTrie(), [PatternDef(":PART", ":")]))
  {
    ColonPartTrie();
  }

  // ---------------------------------------------------------------------------
  // The objects
  // ---------------------------------------------------------------------------

  class Interpretation {
    var currentRecord: map<string, string>
    var partsRecord: map<string, seq<string>>
    var patternValue: string
    var parts: Option<seq<string>>

    function Value(): Interp
      reads this
    {
      Interp(Records(currentRecord, partsRecord), patternValue, parts)
    }

    constructor ()
      ensures Value() == Fresh
    {
      patternValue := "";
      parts := Some([]);
      currentRecord := map[];
      partsRecord := map[];
    }

    /** The `pattern` getter. */
    function Pattern(): (r: Option<string>)
      reads this
      ensures r == PatternOfInterp(Value())
    {
      if patternValue == "" then None else Some(patternValue)
    }

    /** The `pattern` setter. */
    method SetPatternTo(value: Option<string>)
      modifies this
      ensures Value() == SetPattern(old(Value().rec), value)
    {
      match value
      case None =>
        patternValue := "";
        parts := Some([]);
      case Some(v) =>
        patternValue := v;
        parts := if v in partsRecord then Some(partsRecord[v]) else None;
    }

    method Append(pattern: string, ch: char)
      modifies this
      ensures Value() == old(Value()).(rec := AppendRecord(old(Value().rec), pattern, ch))
    {
      if pattern !in currentRecord {
        currentRecord := currentRecord[pattern := [ch]];
      } else {
        currentRecord := currentRecord[pattern := currentRecord[pattern] + [ch]];
      }
    }

    method Next(pattern: string)
      modifies this
      ensures Value() == old(Value()).(rec := NextRecord(old(Value().rec), pattern))
    {
      if pattern in currentRecord {
        if pattern !in partsRecord {
          assert PartsOf(partsRecord, pattern) + [currentRecord[pattern]] == [currentRecord[pattern]];
          partsRecord := partsRecord[pattern := [currentRecord[pattern]]];
        } else {
          partsRecord := partsRecord[pattern := partsRecord[pattern] + [currentRecord[pattern]]];
        }
        currentRecord := currentRecord - {pattern};
      }
    }
  }

  class SyntaxInterpreter {
    var nodes: Trie

    ghost predicate Valid()
      reads this
    {
      ValidTrie(nodes) && DistinctChildren(nodes) && PatternsDistinct(nodes)
    }

    constructor ()
      ensures Valid() && nodes == EmptyTrie()
    {
      nodes := EmptyTrie();
    }

    /** `State.findChild` on node `parent`. */
    method FindChild(parent: nat, spec: CharSpec) returns (child: Option<nat>)
      requires ValidTrie(nodes) && parent < |nodes|
      ensures child == FindChildOf(nodes, parent, spec)
    {
      var kids := nodes[parent].next;
      var i := 0;
      while i < |kids|
        invariant 0 <= i <= |kids|
        invariant ChildFrom(nodes, kids, spec, i) == ChildFrom(nodes, kids, spec, 0)
      {
        if Equals(spec, nodes[kids[i]].spec.value) {
          return Some(kids[i]);
        }
        i := i + 1;
      }
      return None;
    }

    /** `State.append` on node `parent`. */
    method Append(parent: nat, spec: CharSpec, pattern: string) returns (state: nat)
      requires ValidTrie(nodes) && parent < |nodes|
      modifies this
      ensures Step(nodes, state) == AppendState(old(nodes), parent, spec, pattern)
    {
      var node := nodes[parent];
      if pattern !in node.patterns {
        nodes := nodes[parent := node.(patterns := node.patterns + [pattern])];
      }
      assert nodes == RecordPattern(old(nodes), parent, pattern);
      var found := FindChild(parent, spec);
      assert found == FindChildOf(old(nodes), parent, spec) by {
        SameSpecsSameChild(old(nodes), nodes, old(nodes)[parent].next, spec, 0);
      }
      match found
      case Some(c) =>
        state := c;
      case None =>
        ghost var t1 := nodes;
        state := |nodes|;
        var child := Node(Some(spec), if spec.repeat then [state] else [], [pattern], false, None);
        nodes := nodes[parent := nodes[parent].(next := nodes[parent].next + [state])] + [child];
        assert Step(nodes, state) == NewChild(t1, parent, spec, pattern);
    }

    /** One segment's `eachChar(callback)`: `append` each of its specs in
        turn, starting from state `current`. */
    method AppendEach(current: nat, specs: seq<CharSpec>, pattern: string) returns (last: nat)
      requires ValidTrie(nodes) && current < |nodes|
      modifies this
      ensures Step(nodes, last) == Thread(old(nodes), current, specs, pattern)
    {
      last := current;
      var k := 0;
      assert specs[..k] == [];
      while k < |specs|
        invariant 0 <= k <= |specs|
        invariant Step(nodes, last) == Thread(old(nodes), current, specs[..k], pattern)
      {
        ThreadOneMore(old(nodes), current, specs, k, pattern);
        last := Append(last, specs[k], pattern);
        k := k + 1;
      }
      assert specs[..k] == specs;
    }

    /** `add(def)`: parse, thread every segment's specs through `append`,
        then mark the last state an endpoint. */
    method AddDefinition(def: PatternDef)
      requires ValidTrie(nodes)
      modifies this
      ensures nodes == Add(old(nodes), def).trie
    {
      var segs, types := Parse(def);
      var current := Root;
      var i := 0;
      assert AllSpecs(segs[..i]) == [];
      while i < |segs|
        invariant 0 <= i <= |segs|
        invariant Step(nodes, current) == Thread(old(nodes), Root, AllSpecs(segs[..i]), def.pattern)
      {
        assert AllSpecs(segs[..i + 1]) == AllSpecs(segs[..i]) + Specs(segs[i]) by {
          assert segs[..i + 1][..i] == segs[..i];
        }
        ThreadConcat(old(nodes), Root, AllSpecs(segs[..i]), Specs(segs[i]), def.pattern);
        current := AppendEach(current, Specs(segs[i]), def.pattern);
        i := i + 1;
      }
      assert segs[..i] == segs;
      ghost var threaded := nodes;
      assert Step(threaded, current) == Thread(old(nodes), Root, AllSpecs(Segments(def)), def.pattern);
      nodes := nodes[current := nodes[current].(types := Some(types), isEndpoint := true)];
      assert nodes == MarkEndpoint(threaded, current, Count(Segments(def)));
      assert nodes == Add(old(nodes), def).trie;
    }

    /** `add(defs)`: each definition in order. */
    method AddDefinitions(defs: seq<PatternDef>)
      requires Valid()
      modifies this
      ensures Valid()
      ensures nodes == AddAll(old(nodes), defs)
    {
      var i := 0;
      while i < |defs|
        invariant 0 <= i <= |defs| && Valid()
        invariant AddAll(nodes, defs[i..]) == AddAll(old(nodes), defs)
      {
        assert defs[i..][1..] == defs[i + 1..];
        AddKeepsInvariants(nodes, defs[i]);
        AddDefinition(defs[i]);
        i := i + 1;
      }
    }

    /** The inner loop of `findMatches` for a symbol child: `next` for each
        pattern from position j on. */
    static method CloseParts(ps: seq<string>, j: nat, interp: Interpretation) returns (j': nat)
      modifies interp
      ensures j' == Max(j, |ps|)
      ensures interp.Value() == old(interp.Value()).(rec := CloseAll(ps, j, |ps|, old(interp.Value().rec)))
    {
      j' := j;
      ghost var v0 := interp.Value();
      while j' < |ps|
        invariant j <= j' && (j' == j || j' <= |ps|)
        invariant j' <= |ps| ==> interp.Value() == v0.(rec := CloseAll(ps, j, j', v0.rec))
        invariant |ps| < j' ==> interp.Value() == v0
      {
        interp.Next(ps[j']);
        j' := j' + 1;
      }
    }

    /** The inner loop of `findMatches` for any other child: `append` ch to
        each pattern from position j on. */
    static method ExtendParts(ps: seq<string>, j: nat, ch: char, interp: Interpretation) returns (j': nat)
      modifies interp
      ensures j' == Max(j, |ps|)
      ensures interp.Value() == old(interp.Value()).(rec := ExtendAll(ps, j, |ps|, ch, old(interp.Value().rec)))
    {
      j' := j;
      ghost var v0 := interp.Value();
      while j' < |ps|
        invariant j <= j' && (j' == j || j' <= |ps|)
        invariant j' <= |ps| ==> interp.Value() == v0.(rec := ExtendAll(ps, j, j', ch, v0.rec))
        invariant |ps| < j' ==> interp.Value() == v0
      {
        interp.Append(ps[j'], ch);
        j' := j' + 1;
      }
    }

    /** `State.findMatches`: every child whose spec holds ch, feeding the
        interpretation from the shared counter j. */
    method FindMatches(state: nat, ch: char, interp: Interpretation) returns (results: seq<nat>)
      requires ValidTrie(nodes) && state < |nodes|
      modifies interp
      ensures var sc := ScanChildren(nodes, nodes[state].next, |nodes[state].next|, ch, old(interp.Value().rec));
              results == sc.found && interp.Value() == old(interp.Value()).(rec := sc.rec)
    {
      var kids := nodes[state].next;
      ghost var r := interp.Value().rec;
      results := [];
      var j := 0;
      var i := 0;
      while i < |kids|
        invariant 0 <= i <= |kids|
        invariant ScanChildren(nodes, kids, i, ch, r) == Scan(results, j, interp.Value().rec)
        invariant interp.Value() == old(interp.Value()).(rec := interp.Value().rec)
      {
        var child := kids[i];
        var spec := nodes[child].spec.value;
        if Has(spec, ch) {
          results := results + [child];
          var ps := nodes[child].patterns;
          if spec.isSymbol {
            j := CloseParts(ps, j, interp);
          } else {
            j := ExtendParts(ps, j, ch, interp);
          }
        }
        i := i + 1;
      }
    }

    /** `getNextStates`: the matches of every active state, in order. */
    method GetNextStates(states: seq<nat>, ch: char, interp: Interpretation) returns (next: seq<nat>)
      requires ValidTrie(nodes) && StatesIn(nodes, states)
      modifies interp
      ensures var a := NextStates(nodes, states, |states|, ch, old(interp.Value().rec));
              next == a.states && interp.Value() == old(interp.Value()).(rec := a.rec)
    {
      ghost var r0 := interp.Value().rec;
      next := [];
      var m := 0;
      while m < |states|
        invariant 0 <= m <= |states|
        invariant NextStates(nodes, states, m, ch, r0) == Active(next, interp.Value().rec)
        invariant interp.Value() == old(interp.Value()).(rec := interp.Value().rec)
      {
        ghost var a := NextStates(nodes, states, m, ch, r0);
        var found := FindMatches(states[m], ch, interp);
        assert NextStates(nodes, states, m + 1, ch, r0) == Active(a.states + found, interp.Value().rec);
        next := next + found;
        m := m + 1;
      }
    }

    /** The head of `states` once sorted stably by the comparator. */
    method TopState(states: seq<nat>) returns (k: nat)
      requires StatesIn(nodes, states) && |states| > 0
      ensures k == TopOf(nodes, states, |states|)
    {
      k := 0;
      var n := 1;
      while n < |states|
        invariant 1 <= n <= |states|
        invariant k == TopOf(nodes, states, n)
      {
        if Compare(nodes[states[n]], nodes[states[k]]) < 0 {
          k := n;
        }
        n := n + 1;
      }
    }

    /** The end of `interpret`: sort the survivors, close the top one's last
        part unless it is a symbol, and set the pattern. */
    method Report(states: seq<nat>, interp: Interpretation)
      requires ValidTrie(nodes) && ChildrenIn(nodes, states)
      requires interp.Value().patternValue == "" && interp.Value().parts == Some([])
      modifies interp
      ensures interp.Value() == Resolve(nodes, Active(states, old(interp.Value().rec)))
    {
      if |states| > 0 {
        var k := TopState(states);
        var state := states[k];
        var p := PatternOf(nodes, state);
        if !nodes[state].spec.value.isSymbol {
          interp.Next(Key(p));
        }
        interp.SetPatternTo(p);
      }
    }

    /** `interpret(name)`: walk the trie until the name is read or no state
        is left, then report the top-ranked survivor. */
    method Interpret(name: string) returns (interp: Interpretation)
      requires ValidTrie(nodes) && |name| > 0
      ensures fresh(interp)
      ensures interp.Value() == InterpretOf(nodes, name)
    {
      interp := new Interpretation();
      var states := [Root];
      var i := 0;
      while i < |name|
        invariant 0 <= i <= |name|
        invariant WalkTo(nodes, name, i) == Active(states, interp.Value().rec)
        invariant interp.Value().patternValue == "" && interp.Value().parts == Some([])
        invariant i > 0 ==> ChildrenIn(nodes, states)
      {
        ghost var a := WalkTo(nodes, name, i);
        assert WalkTo(nodes, name, i + 1) == NextStates(nodes, a.states, |a.states|, name[i], a.rec);
        assert StatesIn(nodes, states);
        states := GetNextStates(states, name[i], interp);
        assert WalkTo(nodes, name, i + 1) == Active(states, interp.Value().rec);
        assert interp.Value().patternValue == "" && interp.Value().parts == Some([]);
        i := i + 1;
        if |states| == 0 {
          WalkStaysEmpty(nodes, name, i, |name|);
          break;
        }
      }
      assert WalkTo(nodes, name, |name|) == Active(states, interp.Value().rec);
      Report(states, interp);
    }
  }
}
