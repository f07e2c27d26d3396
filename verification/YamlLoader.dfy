/** The lenient YAML loader of the schema compiler: an event receiver with a node stack and a key
    stack (`LenientLoader` in crates/vdsm-schema/build.rs), proved to evaluate document trees. */
module YamlLoader {
  import opened Prelude

  /** A loaded value. A mapping is a finite map: the order of its keys is not modelled. */
  datatype Yaml =
    | BadValue
    | Scalar(text: string)
    | Array(items: seq<Yaml>)
    | Hash(entries: map<Yaml, Yaml>)

  /** What a scalar's text, style and tag stand for. */
  datatype Atom = Bad | Text(text: string)

  function AtomValue(a: Atom): Yaml {
    match a
    case Bad => BadValue
    case Text(text) => Scalar(text)
  }

  datatype Event =
    | Quiet
    | DocumentEnd
    | SequenceStart(aid: nat)
    | SequenceEnd
    | MappingStart(aid: nat)
    | MappingEnd
    | ScalarEvent(node: Atom, aid: nat)
    | Alias(id: nat)

  datatype Node = Node(value: Yaml, aid: nat)

  type Anchors = map<nat, Yaml>

  datatype State = State(docs: seq<Yaml>, docStack: seq<Node>, keyStack: seq<Yaml>, anchors: Anchors)

  const START: State := State([], [], [], map[])

  function Last<T>(s: seq<T>): T
    requires s != []
  {
    s[|s| - 1]
  }

  function Front<T>(s: seq<T>): seq<T>
    requires s != []
  {
    s[..|s| - 1]
  }

  // ------------------------------------------------------------ the event machine

  /** `insert_node` after the anchor is recorded; `None` where the source would panic. */
  function Attach(s: State, n: Node): Option<State> {
    if s.docStack == [] then Some(s.(docStack := [n]))
    else
      var parent := Last(s.docStack);
      match parent.value
      case Array(items) =>
        Some(s.(docStack := Front(s.docStack) + [parent.(value := Array(items + [n.value]))]))
      case Hash(entries) =>
        if s.keyStack == [] then None
        else if Last(s.keyStack) == BadValue then
          Some(s.(keyStack := Front(s.keyStack) + [n.value]))
        else
          Some(s.(docStack := Front(s.docStack)
                              + [parent.(value := Hash(entries[Last(s.keyStack) := n.value]))],
                  keyStack := Front(s.keyStack) + [BadValue]))
      case _ => None
  }

  function Record(anchors: Anchors, aid: nat, v: Yaml): Anchors {
    if aid > 0 then anchors[aid := v] else anchors
  }

  function InsertNode(s: State, n: Node): Option<State> {
    Attach(s.(anchors := Record(s.anchors, n.aid, n.value)), n)
  }

  function Resolve(anchors: Anchors, id: nat): Yaml {
    if id in anchors then anchors[id] else BadValue
  }

  /** `on_event`; `None` where the source would panic. */
  function Step(s: State, ev: Event): Option<State> {
    match ev
    case Quiet => Some(s)
    case DocumentEnd =>
      if |s.docStack| == 0 then Some(s.(docs := s.docs + [BadValue]))
      else if |s.docStack| == 1 then Some(s.(docs := s.docs + [s.docStack[0].value], docStack := []))
      else None
    case SequenceStart(aid) => Some(s.(docStack := s.docStack + [Node(Array([]), aid)]))
    case SequenceEnd =>
      if s.docStack == [] then None
      else InsertNode(s.(docStack := Front(s.docStack)), Last(s.docStack))
    case MappingStart(aid) =>
      Some(s.(docStack := s.docStack + [Node(Hash(map[]), aid)], keyStack := s.keyStack + [BadValue]))
    case MappingEnd =>
      if s.keyStack == [] || s.docStack == [] then None
      else InsertNode(s.(docStack := Front(s.docStack), keyStack := Front(s.keyStack)), Last(s.docStack))
    case ScalarEvent(node, aid) => InsertNode(s, Node(AtomValue(node), aid))
    case Alias(id) => InsertNode(s, Node(Resolve(s.anchors, id), 0))
  }

  function Run(s: State, evs: seq<Event>): Option<State>
    decreases |evs|
  {
    if evs == [] then Some(s)
    else
      match Step(s, evs[0])
      case None => None
      case Some(s') => Run(s', evs[1..])
  }

  // ------------------------------------------------------- trees and their meaning

  datatype Tree =
    | Leaf(node: Atom, aid: nat)
    | Seq(items: seq<Tree>, aid: nat)
    | Map(pairs: seq<Pair>, aid: nat)
    | Ref(id: nat)

  datatype Pair = Pair(key: Tree, val: Tree)

  function Events(t: Tree): seq<Event> {
    match t
    case Leaf(node, aid) => [ScalarEvent(node, aid)]
    case Seq(items, aid) => [SequenceStart(aid)] + ItemEvents(items) + [SequenceEnd]
    case Map(pairs, aid) => [MappingStart(aid)] + PairEvents(pairs) + [MappingEnd]
    case Ref(id) => [Alias(id)]
  }

  function ItemEvents(ts: seq<Tree>): seq<Event> {
    if ts == [] then [] else Events(ts[0]) + ItemEvents(ts[1..])
  }

  function PairEvents(ps: seq<Pair>): seq<Event> {
    if ps == [] then [] else EntryEvents(ps[0]) + PairEvents(ps[1..])
  }

  function EntryEvents(p: Pair): seq<Event> {
    Events(p.key) + Events(p.val)
  }

  datatype Value = Value(v: Yaml, anchors: Anchors)
  datatype Values = Values(vs: seq<Yaml>, anchors: Anchors)
  datatype Entry = Entry(kv: (Yaml, Yaml), anchors: Anchors)
  datatype Pairs = Pairs(ps: seq<(Yaml, Yaml)>, anchors: Anchors)

  /** The value of a tree, read in document order: an anchor names a node once the node is complete
      and an alias stands for the node its anchor named last. */
  function Eval(t: Tree, a: Anchors): Value {
    match t
    case Leaf(node, aid) => Value(AtomValue(node), Record(a, aid, AtomValue(node)))
    case Seq(items, aid) =>
      var r := EvalItems(items, a);
      Value(Array(r.vs), Record(r.anchors, aid, Array(r.vs)))
    case Map(pairs, aid) =>
      var r := EvalPairs(pairs, a);
      Value(Hash(MapOf(r.ps)), Record(r.anchors, aid, Hash(MapOf(r.ps))))
    case Ref(id) => Value(Resolve(a, id), a)
  }

  function EvalItems(ts: seq<Tree>, a: Anchors): Values {
    if ts == [] then Values([], a)
    else
      var first := Eval(ts[0], a);
      var rest := EvalItems(ts[1..], first.anchors);
      Values([first.v] + rest.vs, rest.anchors)
  }

  function EvalPairs(ps: seq<Pair>, a: Anchors): Pairs {
    if ps == [] then Pairs([], a)
    else
      var first := EvalEntry(ps[0], a);
      var rest := EvalPairs(ps[1..], first.anchors);
      Pairs([first.kv] + rest.ps, rest.anchors)
  }

  function EvalEntry(p: Pair, a: Anchors): Entry {
    var k := Eval(p.key, a);
    var v := Eval(p.val, k.anchors);
    Entry((k.v, v.v), v.anchors)
  }

  /** A mapping from its entries: the last entry with a key wins. */
  function MapOf(ps: seq<(Yaml, Yaml)>): map<Yaml, Yaml> {
    if ps == [] then map[] else MapOf(Front(ps))[Last(ps).0 := Last(ps).1]
  }

  /** No mapping key anywhere in the tree evaluates to `BadValue`. */
  predicate GoodKeys(t: Tree, a: Anchors) {
    match t
    case Leaf(_, _) => true
    case Seq(items, _) => GoodItems(items, a)
    case Map(pairs, _) => GoodPairs(pairs, a)
    case Ref(_) => true
  }

  predicate GoodItems(ts: seq<Tree>, a: Anchors) {
    ts == [] || (GoodKeys(ts[0], a) && GoodItems(ts[1..], Eval(ts[0], a).anchors))
  }

  predicate GoodPairs(ps: seq<Pair>, a: Anchors) {
    ps == [] || (GoodEntry(ps[0], a) && GoodPairs(ps[1..], EvalEntry(ps[0], a).anchors))
  }

  predicate GoodEntry(p: Pair, a: Anchors) {
    var k := Eval(p.key, a);
    GoodKeys(p.key, a) && k.v != BadValue && GoodKeys(p.val, k.anchors)
  }

  // ------------------------------------------------- what the loader makes of a tree

  /** A mapping being filled: the key waiting for its value (`BadValue` when none is) and the entries. */
  datatype Filling = Filling(key: Yaml, entries: map<Yaml, Yaml>)

  const EMPTY: Filling := Filling(BadValue, map[])

  function Fill(f: Filling, v: Yaml): Filling {
    if f.key == BadValue then Filling(v, f.entries) else Filling(BadValue, f.entries[f.key := v])
  }

  datatype Filled = Filled(f: Filling, anchors: Anchors)

  /** Like `Eval`, except that a mapping takes its keys and values one by one: a `BadValue` where a key
      is due is passed over, and what follows moves up. */
  function Loaded(t: Tree, a: Anchors): Value {
    match t
    case Leaf(node, aid) => Value(AtomValue(node), Record(a, aid, AtomValue(node)))
    case Seq(items, aid) =>
      var r := LoadedItems(items, a);
      Value(Array(r.vs), Record(r.anchors, aid, Array(r.vs)))
    case Map(pairs, aid) =>
      var r := LoadedPairs(pairs, a, EMPTY);
      Value(Hash(r.f.entries), Record(r.anchors, aid, Hash(r.f.entries)))
    case Ref(id) => Value(Resolve(a, id), a)
  }

  function LoadedItems(ts: seq<Tree>, a: Anchors): Values {
    if ts == [] then Values([], a)
    else
      var first := Loaded(ts[0], a);
      var rest := LoadedItems(ts[1..], first.anchors);
      Values([first.v] + rest.vs, rest.anchors)
  }

  function LoadedPairs(ps: seq<Pair>, a: Anchors, f: Filling): Filled {
    if ps == [] then Filled(f, a)
    else
      var first := LoadedEntry(ps[0], a, f);
      LoadedPairs(ps[1..], first.anchors, first.f)
  }

  function LoadedEntry(p: Pair, a: Anchors, f: Filling): Filled {
    var k := Loaded(p.key, a);
    var v := Loaded(p.val, k.anchors);
    Filled(Fill(Fill(f, k.v), v.v), v.anchors)
  }

  lemma {:induction false} RunAppend(s: State, a: seq<Event>, b: seq<Event>)
    ensures Run(s, a + b) == match Run(s, a) case None => None case Some(s') => Run(s', b)
    decreases |a|
  {
    if a == [] {
      assert a + b == b;
    } else {
      assert (a + b)[0] == a[0] && (a + b)[1..] == a[1..] + b;
      match Step(s, a[0])
      case None =>
      case Some(s') => RunAppend(s', a[1..], b);
    }
  }

  lemma RunOne(s: State, ev: Event)
    ensures Run(s, [ev]) == Step(s, ev)
  {
    assert [ev][1..] == [];
  }

  function AidOf(t: Tree): nat {
    if t.Ref? then 0 else t.aid
  }

  /** Where a completed node may go: the top of the document, a sequence, or a mapping with a key slot. */
  predicate CanAttach(s: State) {
    || s.docStack == []
    || Last(s.docStack).value.Array?
    || (Last(s.docStack).value.Hash? && s.keyStack != [])
  }

  /** The events of any tree do to the stacks exactly what inserting its finished value does. */
  lemma {:induction false} RunTree(s: State, t: Tree)
    requires CanAttach(s)
    ensures var r := Loaded(t, s.anchors);
            Run(s, Events(t)) == Attach(s.(anchors := r.anchors), Node(r.v, AidOf(t)))
    decreases t, 1
  {
    match t
    case Leaf(node, aid) => RunOne(s, ScalarEvent(node, aid));
    case Ref(id) => RunOne(s, Alias(id));
    case Seq(items, aid) => RunSeq(s, items, aid);
    case Map(pairs, aid) => RunMap(s, pairs, aid);
  }

  lemma {:induction false} RunSeq(s: State, items: seq<Tree>, aid: nat)
    requires CanAttach(s)
    ensures var t := Seq(items, aid);
            var r := Loaded(t, s.anchors);
            Run(s, Events(t)) == Attach(s.(anchors := r.anchors), Node(r.v, aid))
    decreases items, 1
  {
    var open := s.(docStack := s.docStack + [Node(Array([]), aid)]);
    RunOne(s, SequenceStart(aid));
    RunAppend(s, [SequenceStart(aid)], ItemEvents(items));
    RunItems(open, s.docStack, [], aid, items);
    RunAppend(s, [SequenceStart(aid)] + ItemEvents(items), [SequenceEnd]);
    var r := LoadedItems(items, s.anchors);
    assert [] + r.vs == r.vs;
    EndSeq(s, Node(Array(r.vs), aid), r.anchors);
  }

  lemma EndSeq(s: State, n: Node, a: Anchors)
    ensures Run(s.(docStack := s.docStack + [n], anchors := a), [SequenceEnd]) == InsertNode(s.(anchors := a), n)
  {
    var full := s.(docStack := s.docStack + [n], anchors := a);
    RunOne(full, SequenceEnd);
    assert Front(full.docStack) == s.docStack;
  }

  lemma {:induction false} RunMap(s: State, pairs: seq<Pair>, aid: nat)
    requires CanAttach(s)
    ensures var t := Map(pairs, aid);
            var r := Loaded(t, s.anchors);
            Run(s, Events(t)) == Attach(s.(anchors := r.anchors), Node(r.v, aid))
    decreases pairs, 1
  {
    var open := Mapping(s, s.docStack, s.keyStack, aid, Filled(EMPTY, s.anchors));
    RunOne(s, MappingStart(aid));
    RunAppend(s, [MappingStart(aid)], PairEvents(pairs));
    RunPairs(open, s.docStack, s.keyStack, aid, EMPTY, pairs);
    RunAppend(s, [MappingStart(aid)] + PairEvents(pairs), [MappingEnd]);
    EndMap(s, aid, LoadedPairs(pairs, s.anchors, EMPTY));
  }

  /** `s` with a mapping in progress on top of its stacks. */
  function Mapping(s: State, base: seq<Node>, keys: seq<Yaml>, aid: nat, r: Filled): State {
    s.(docStack := base + [Node(Hash(r.f.entries), aid)], keyStack := keys + [r.f.key], anchors := r.anchors)
  }

  lemma EndMap(s: State, aid: nat, r: Filled)
    ensures Run(Mapping(s, s.docStack, s.keyStack, aid, r), [MappingEnd]) ==
            InsertNode(s.(anchors := r.anchors), Node(Hash(r.f.entries), aid))
  {
    var full := Mapping(s, s.docStack, s.keyStack, aid, r);
    RunOne(full, MappingEnd);
    assert Front(full.docStack) == s.docStack && Front(full.keyStack) == s.keyStack;
  }

  /** Items go to the end of the sequence on top of the stack. */
  lemma {:induction false} RunItems(s: State, base: seq<Node>, vs: seq<Yaml>, aid: nat, ts: seq<Tree>)
    requires s.docStack == base + [Node(Array(vs), aid)]
    ensures var r := LoadedItems(ts, s.anchors);
            Run(s, ItemEvents(ts)) ==
            Some(s.(docStack := base + [Node(Array(vs + r.vs), aid)], anchors := r.anchors))
    decreases ts, 0
  {
    if ts == [] {
      assert vs + [] == vs;
    } else {
      var first := Loaded(ts[0], s.anchors);
      RunTree(s, ts[0]);
      var next := s.(docStack := base + [Node(Array(vs + [first.v]), aid)], anchors := first.anchors);
      assert Front(s.docStack) == base;
      RunAppend(s, Events(ts[0]), ItemEvents(ts[1..]));
      RunItems(next, base, vs + [first.v], aid, ts[1..]);
      assert vs + [first.v] + LoadedItems(ts[1..], first.anchors).vs == vs + LoadedItems(ts, s.anchors).vs;
    }
  }

  /** A finished node, as key or as value, goes into the mapping on top of the stacks. */
  lemma {:induction false} RunInto(s: State, base: seq<Node>, keys: seq<Yaml>, aid: nat, f: Filling, t: Tree)
    requires s == Mapping(s, base, keys, aid, Filled(f, s.anchors))
    ensures var r := Loaded(t, s.anchors);
            Run(s, Events(t)) == Some(Mapping(s, base, keys, aid, Filled(Fill(f, r.v), r.anchors)))
    decreases t, 2
  {
    assert Front(s.docStack) == base && Front(s.keyStack) == keys;
    RunTree(s, t);
  }

  lemma {:induction false} RunEntry(s: State, base: seq<Node>, keys: seq<Yaml>, aid: nat, f: Filling, p: Pair)
    requires s == Mapping(s, base, keys, aid, Filled(f, s.anchors))
    ensures Run(s, EntryEvents(p)) == Some(Mapping(s, base, keys, aid, LoadedEntry(p, s.anchors, f)))
    decreases p
  {
    var k := Loaded(p.key, s.anchors);
    RunInto(s, base, keys, aid, f, p.key);
    RunAppend(s, Events(p.key), Events(p.val));
    RunInto(Mapping(s, base, keys, aid, Filled(Fill(f, k.v), k.anchors)), base, keys, aid, Fill(f, k.v), p.val);
  }

  lemma {:induction false} RunPairs(s: State, base: seq<Node>, keys: seq<Yaml>, aid: nat, f: Filling, ps: seq<Pair>)
    requires s == Mapping(s, base, keys, aid, Filled(f, s.anchors))
    ensures Run(s, PairEvents(ps)) == Some(Mapping(s, base, keys, aid, LoadedPairs(ps, s.anchors, f)))
    decreases ps, 0
  {
    if ps != [] {
      var first := LoadedEntry(ps[0], s.anchors, f);
      RunEntry(s, base, keys, aid, f, ps[0]);
      RunAppend(s, EntryEvents(ps[0]), PairEvents(ps[1..]));
      RunPairs(Mapping(s, base, keys, aid, first), base, keys, aid, first.f, ps[1..]);
    }
  }

  // ----------------------------------------------------- with good keys it evaluates

  /** Where no key is `BadValue`, what the loader makes of a tree is its value. */
  lemma {:induction false} LoadedIsValue(t: Tree, a: Anchors)
    requires GoodKeys(t, a)
    ensures Loaded(t, a) == Eval(t, a)
    decreases t, 1
  {
    match t
    case Seq(items, _) => LoadedItemsAreValues(items, a);
    case Map(pairs, _) =>
      LoadedPairsAreEntries(pairs, a, []);
      assert [] + EvalPairs(pairs, a).ps == EvalPairs(pairs, a).ps;
    case _ =>
  }

  lemma {:induction false} LoadedItemsAreValues(ts: seq<Tree>, a: Anchors)
    requires GoodItems(ts, a)
    ensures LoadedItems(ts, a) == EvalItems(ts, a)
    decreases ts, 0
  {
    if ts != [] {
      LoadedIsValue(ts[0], a);
      LoadedItemsAreValues(ts[1..], Eval(ts[0], a).anchors);
    }
  }

  lemma {:induction false} LoadedPairsAreEntries(ps: seq<Pair>, a: Anchors, done: seq<(Yaml, Yaml)>)
    requires GoodPairs(ps, a)
    ensures var r := EvalPairs(ps, a);
            LoadedPairs(ps, a, Filling(BadValue, MapOf(done)))
            == Filled(Filling(BadValue, MapOf(done + r.ps)), r.anchors)
    decreases ps, 0
  {
    if ps == [] {
      assert done + [] == done;
    } else {
      var first := EvalEntry(ps[0], a);
      LoadedEntryIsEntry(ps[0], a, done);
      LoadedPairsAreEntries(ps[1..], first.anchors, done + [first.kv]);
      assert done + [first.kv] + EvalPairs(ps[1..], first.anchors).ps == done + EvalPairs(ps, a).ps;
    }
  }

  lemma {:induction false} LoadedEntryIsEntry(p: Pair, a: Anchors, done: seq<(Yaml, Yaml)>)
    requires GoodEntry(p, a)
    ensures var r := EvalEntry(p, a);
            LoadedEntry(p, a, Filling(BadValue, MapOf(done)))
            == Filled(Filling(BadValue, MapOf(done + [r.kv])), r.anchors)
    decreases p
  {
    LoadedIsValue(p.key, a);
    LoadedIsValue(p.val, Eval(p.key, a).anchors);
    assert Front(done + [EvalEntry(p, a).kv]) == done;
  }

  // ------------------------------------------------------------- whole streams

  function DocumentEvents(ts: seq<Tree>): seq<Event> {
    if ts == [] then [] else [Quiet] + Events(ts[0]) + [DocumentEnd] + DocumentEvents(ts[1..])
  }

  function StreamEvents(ts: seq<Tree>): seq<Event> {
    [Quiet] + DocumentEvents(ts) + [Quiet]
  }

  lemma RunDocument(s: State, t: Tree)
    requires s.docStack == [] && s.keyStack == []
    ensures var r := Loaded(t, s.anchors);
            Run(s, [Quiet] + Events(t) + [DocumentEnd]) ==
            Some(s.(docs := s.docs + [r.v], anchors := r.anchors))
  {
    RunOne(s, Quiet);
    RunAppend(s, [Quiet], Events(t));
    RunTree(s, t);
    RunAppend(s, [Quiet] + Events(t), [DocumentEnd]);
    var r := Loaded(t, s.anchors);
    RunOne(s.(docStack := [Node(r.v, AidOf(t))], anchors := r.anchors), DocumentEnd);
  }

  lemma {:induction false} RunDocuments(s: State, ts: seq<Tree>)
    requires s.docStack == [] && s.keyStack == []
    ensures var r := LoadedItems(ts, s.anchors);
            Run(s, DocumentEvents(ts)) == Some(s.(docs := s.docs + r.vs, anchors := r.anchors))
    decreases |ts|
  {
    if ts == [] {
      assert s.docs + [] == s.docs;
    } else {
      var first := Loaded(ts[0], s.anchors);
      RunDocument(s, ts[0]);
      var next := s.(docs := s.docs + [first.v], anchors := first.anchors);
      RunAppend(s, [Quiet] + Events(ts[0]) + [DocumentEnd], DocumentEvents(ts[1..]));
      RunDocuments(next, ts[1..]);
      assert s.docs + [first.v] + LoadedItems(ts[1..], first.anchors).vs == s.docs + LoadedItems(ts, s.anchors).vs;
    }
  }

  /** Whole streams of any documents: the loader never panics, ends with both stacks empty, and holds
      what it makes of each document. */
  lemma NeverPanics(ts: seq<Tree>)
    ensures var r := LoadedItems(ts, map[]);
            Run(START, StreamEvents(ts)) == Some(State(r.vs, [], [], r.anchors))
  {
    RunOne(START, Quiet);
    RunAppend(START, [Quiet], DocumentEvents(ts));
    RunDocuments(START, ts);
    RunAppend(START, [Quiet] + DocumentEvents(ts), [Quiet]);
    var r := LoadedItems(ts, map[]);
    assert [] + r.vs == r.vs;
    RunOne(State(r.vs, [], [], r.anchors), Quiet);
  }

  /** For documents whose mapping keys are not `BadValue` it holds exactly the documents' values. */
  lemma LoadsDocuments(ts: seq<Tree>)
    requires GoodItems(ts, map[])
    ensures var r := EvalItems(ts, map[]);
            Run(START, StreamEvents(ts)) == Some(State(r.vs, [], [], r.anchors))
  {
    NeverPanics(ts);
    LoadedItemsAreValues(ts, map[]);
  }

  /** A document without a node is a `BadValue`. */
  lemma EmptyDocument(s: State)
    requires s.docStack == []
    ensures Run(s, [Quiet, DocumentEnd]) == Some(s.(docs := s.docs + [BadValue]))
  {
    assert [Quiet, DocumentEnd] == [Quiet] + [DocumentEnd];
    RunOne(s, Quiet);
    RunOne(s, DocumentEnd);
    RunAppend(s, [Quiet], [DocumentEnd]);
  }

  /** Mappings begun and not ended. */
  function Open(evs: seq<Event>): int {
    if evs == [] then 0
    else Open(Front(evs)) + Opens(Last(evs))
  }

  function Opens(ev: Event): int {
    if ev.MappingStart? then 1 else if ev.MappingEnd? then -1 else 0
  }

  lemma StepDepth(s: State, ev: Event)
    requires Step(s, ev).Some?
    ensures |Step(s, ev).value.keyStack| == |s.keyStack| + Opens(ev)
  {
  }

  lemma {:induction false} KeyDepth(s: State, evs: seq<Event>)
    requires Run(s, evs).Some?
    ensures |Run(s, evs).value.keyStack| == |s.keyStack| + Open(evs)
    decreases |evs|
  {
    if evs != [] {
      var front, ev := Front(evs), Last(evs);
      assert evs == front + [ev];
      RunAppend(s, front, [ev]);
      KeyDepth(s, front);
      RunOne(Run(s, front).value, ev);
      StepDepth(Run(s, front).value, ev);
    }
  }

  /** At every point of every stream the loader is still running and its key stack is as deep as the
      number of open mappings. */
  lemma KeyStackTracksMappings(ts: seq<Tree>, n: nat)
    requires n <= |StreamEvents(ts)|
    ensures var r := Run(START, StreamEvents(ts)[..n]);
            r.Some? && |r.value.keyStack| == Open(StreamEvents(ts)[..n])
  {
    var evs := StreamEvents(ts);
    NeverPanics(ts);
    assert evs == evs[..n] + evs[n..];
    RunAppend(START, evs[..n], evs[n..]);
    KeyDepth(START, evs[..n]);
  }

  /** A mapping has exactly the keys of its entries, each with the value of its last entry. */
  lemma {:induction false} LastWins(ps: seq<(Yaml, Yaml)>, i: nat)
    requires i < |ps| && forall j :: i < j < |ps| ==> ps[j].0 != ps[i].0
    ensures ps[i].0 in MapOf(ps) && MapOf(ps)[ps[i].0] == ps[i].1
    decreases |ps|
  {
    if i < |ps| - 1 {
      LastWins(Front(ps), i);
    }
  }

  lemma {:induction false} OnlyEntries(ps: seq<(Yaml, Yaml)>, k: Yaml)
    requires k in MapOf(ps)
    ensures exists i :: 0 <= i < |ps| && ps[i].0 == k
  {
    if Last(ps).0 != k {
      OnlyEntries(Front(ps), k);
      var i :| 0 <= i < |Front(ps)| && Front(ps)[i].0 == k;
      assert ps[i].0 == k;
    }
  }

  // --------------------------------------------------------- what an alias stands for

  datatype Named = Named(aid: nat, v: Yaml)

  /** The nodes of a tree in the order in which they are complete, each with its anchor. */
  function Log(t: Tree, a: Anchors): seq<Named>
    decreases t, 1
  {
    match t
    case Leaf(node, aid) => [Named(aid, AtomValue(node))]
    case Seq(items, aid) => LogItems(items, a) + [Named(aid, Eval(t, a).v)]
    case Map(pairs, aid) => LogPairs(pairs, a) + [Named(aid, Eval(t, a).v)]
    case Ref(id) => []
  }

  function LogItems(ts: seq<Tree>, a: Anchors): seq<Named>
    decreases ts, 0
  {
    if ts == [] then [] else Log(ts[0], a) + LogItems(ts[1..], Eval(ts[0], a).anchors)
  }

  function LogPairs(ps: seq<Pair>, a: Anchors): seq<Named>
    decreases ps, 0
  {
    if ps == [] then [] else LogEntry(ps[0], a) + LogPairs(ps[1..], EvalEntry(ps[0], a).anchors)
  }

  function LogEntry(p: Pair, a: Anchors): seq<Named>
    decreases p
  {
    Log(p.key, a) + Log(p.val, Eval(p.key, a).anchors)
  }

  /** The last node with the anchor, `otherwise` when there is none. */
  function LastNamed(log: seq<Named>, id: nat, otherwise: Yaml): Yaml {
    if log == [] then otherwise
    else if Last(log).aid == id then Last(log).v
    else LastNamed(Front(log), id, otherwise)
  }

  lemma {:induction false} LastNamedConcat(a: seq<Named>, b: seq<Named>, id: nat, otherwise: Yaml)
    ensures LastNamed(a + b, id, otherwise) == LastNamed(b, id, LastNamed(a, id, otherwise))
    decreases |b|
  {
    if b == [] {
      assert a + b == a;
    } else {
      assert Last(a + b) == Last(b) && Front(a + b) == a + Front(b);
      LastNamedConcat(a, Front(b), id, otherwise);
    }
  }

  /** What an anchor number stands for in a map of anchors. */
  function Meant(a: Anchors, id: nat): Yaml {
    if id in a then a[id] else BadValue
  }

  lemma {:induction false} TreeAnchors(t: Tree, a: Anchors, id: nat)
    requires id > 0
    ensures Meant(Eval(t, a).anchors, id) == LastNamed(Log(t, a), id, Meant(a, id))
    decreases t, 1
  {
    match t
    case Leaf(node, aid) => OneNamed([], Named(aid, AtomValue(node)), id, Meant(a, id));
    case Ref(_) =>
    case Seq(items, aid) =>
      ItemAnchors(items, a, id);
      OneNamed(LogItems(items, a), Named(aid, Eval(t, a).v), id, Meant(a, id));
    case Map(pairs, aid) =>
      PairAnchors(pairs, a, id);
      OneNamed(LogPairs(pairs, a), Named(aid, Eval(t, a).v), id, Meant(a, id));
  }

  lemma OneNamed(log: seq<Named>, n: Named, id: nat, otherwise: Yaml)
    ensures LastNamed(log + [n], id, otherwise) == if n.aid == id then n.v else LastNamed(log, id, otherwise)
    ensures [] + [n] == [n]
  {
    assert Last(log + [n]) == n && Front(log + [n]) == log;
  }

  lemma {:induction false} ItemAnchors(ts: seq<Tree>, a: Anchors, id: nat)
    requires id > 0
    ensures Meant(EvalItems(ts, a).anchors, id) == LastNamed(LogItems(ts, a), id, Meant(a, id))
    decreases ts, 0
  {
    if ts != [] {
      var a' := Eval(ts[0], a).anchors;
      TreeAnchors(ts[0], a, id);
      ItemAnchors(ts[1..], a', id);
      LastNamedConcat(Log(ts[0], a), LogItems(ts[1..], a'), id, Meant(a, id));
    }
  }

  lemma {:induction false} PairAnchors(ps: seq<Pair>, a: Anchors, id: nat)
    requires id > 0
    ensures Meant(EvalPairs(ps, a).anchors, id) == LastNamed(LogPairs(ps, a), id, Meant(a, id))
    decreases ps, 0
  {
    if ps != [] {
      var a' := EvalEntry(ps[0], a).anchors;
      EntryAnchors(ps[0], a, id);
      PairAnchors(ps[1..], a', id);
      LastNamedConcat(LogEntry(ps[0], a), LogPairs(ps[1..], a'), id, Meant(a, id));
    }
  }

  lemma {:induction false} EntryAnchors(p: Pair, a: Anchors, id: nat)
    requires id > 0
    ensures Meant(EvalEntry(p, a).anchors, id) == LastNamed(LogEntry(p, a), id, Meant(a, id))
    decreases p
  {
    var a' := Eval(p.key, a).anchors;
    TreeAnchors(p.key, a, id);
    TreeAnchors(p.val, a', id);
    LastNamedConcat(Log(p.key, a), Log(p.val, a'), id, Meant(a, id));
  }

  /** An alias stands for the last complete node with its anchor among all that stand before it, in this
      document or an earlier one, and for `BadValue` when there is none: `before` are the trees up to
      the one it stands in, `done` the items before it in that one. */
  lemma AliasMeans(before: seq<Tree>, done: seq<Tree>, id: nat)
    requires id > 0
    ensures var a := EvalItems(done, EvalItems(before, map[]).anchors).anchors;
            Eval(Ref(id), a).v
            == LastNamed(LogItems(before, map[]) + LogItems(done, EvalItems(before, map[]).anchors), id, BadValue)
  {
    var a := EvalItems(before, map[]).anchors;
    ItemAnchors(before, map[], id);
    ItemAnchors(done, a, id);
    LastNamedConcat(LogItems(before, map[]), LogItems(done, a), id, BadValue);
  }

  // -------------------------------------------------- why keys must not be BadValue

  /** No mapping in the value, at any depth, has a `BadValue` key. */
  predicate Keyed(y: Yaml) {
    match y
    case Array(items) => forall i :: 0 <= i < |items| ==> Keyed(items[i])
    case Hash(entries) => forall k :: k in entries ==> k != BadValue && Keyed(k) && Keyed(entries[k])
    case _ => true
  }

  /** No mapping the loader holds, at any depth, has one. */
  predicate KeyedState(s: State) {
    && (forall i :: 0 <= i < |s.docs| ==> Keyed(s.docs[i]))
    && (forall i :: 0 <= i < |s.docStack| ==> Keyed(s.docStack[i].value))
    && (forall i :: 0 <= i < |s.keyStack| ==> Keyed(s.keyStack[i]))
    && (forall id :: id in s.anchors ==> Keyed(s.anchors[id]))
  }

  lemma AttachKeyed(s: State, n: Node)
    requires KeyedState(s) && Keyed(n.value) && Attach(s, n).Some?
    ensures KeyedState(Attach(s, n).value)
  {
  }

  lemma StepKeyed(s: State, ev: Event)
    requires KeyedState(s) && Step(s, ev).Some?
    ensures KeyedState(Step(s, ev).value)
  {
    match ev
    case SequenceEnd => PopKeyed(s, s.(docStack := Front(s.docStack)));
    case MappingEnd => PopKeyed(s, s.(docStack := Front(s.docStack), keyStack := Front(s.keyStack)));
    case ScalarEvent(node, aid) => InsertKeyed(s, Node(AtomValue(node), aid));
    case Alias(id) => InsertKeyed(s, Node(Resolve(s.anchors, id), 0));
    case _ =>
  }

  lemma PopKeyed(s: State, popped: State)
    requires KeyedState(s) && s.docStack != [] && InsertNode(popped, Last(s.docStack)).Some?
    requires popped.docs == s.docs && popped.docStack == Front(s.docStack) && popped.anchors == s.anchors
    requires popped.keyStack <= s.keyStack
    ensures KeyedState(InsertNode(popped, Last(s.docStack)).value)
  {
    InsertKeyed(popped, Last(s.docStack));
  }

  lemma InsertKeyed(s: State, n: Node)
    requires KeyedState(s) && Keyed(n.value) && InsertNode(s, n).Some?
    ensures KeyedState(InsertNode(s, n).value)
  {
    AttachKeyed(s.(anchors := Record(s.anchors, n.aid, n.value)), n);
  }

  lemma {:induction false} RunKeyed(s: State, evs: seq<Event>)
    requires KeyedState(s) && Run(s, evs).Some?
    ensures KeyedState(Run(s, evs).value)
    decreases |evs|
  {
    if evs != [] {
      StepKeyed(s, evs[0]);
      RunKeyed(Step(s, evs[0]).value, evs[1..]);
    }
  }

  /** So documents whose values have a `BadValue` key anywhere are never loaded right. */
  lemma RightOnlyIfKeyed(ts: seq<Tree>)
    requires Run(START, StreamEvents(ts)) == Some(State(EvalItems(ts, map[]).vs, [], [], EvalItems(ts, map[]).anchors))
    ensures forall i :: 0 <= i < |EvalItems(ts, map[]).vs| ==> Keyed(EvalItems(ts, map[]).vs[i])
  {
    RunKeyed(START, StreamEvents(ts));
  }

  /** The keys and values of a mapping are themselves free of `BadValue` keys. */
  predicate GoodInside(ps: seq<Pair>, a: Anchors) {
    || ps == []
    || (&& GoodKeys(ps[0].key, a) && GoodKeys(ps[0].val, Eval(ps[0].key, a).anchors)
        && GoodInside(ps[1..], EvalEntry(ps[0], a).anchors))
  }

  lemma {:induction false} BadKeyShows(ps: seq<Pair>, a: Anchors)
    requires GoodInside(ps, a) && !GoodPairs(ps, a)
    ensures exists i :: 0 <= i < |EvalPairs(ps, a).ps| && EvalPairs(ps, a).ps[i].0 == BadValue
  {
    var r := EvalPairs(ps, a).ps;
    if Eval(ps[0].key, a).v == BadValue {
      assert r[0].0 == BadValue;
    } else {
      var a' := EvalEntry(ps[0], a).anchors;
      BadKeyShows(ps[1..], a');
      var rest := EvalPairs(ps[1..], a').ps;
      var i :| 0 <= i < |rest| && rest[i].0 == BadValue;
      assert r[i + 1].0 == BadValue;
    }
  }

  lemma {:induction false} EntryPresent(ps: seq<(Yaml, Yaml)>, i: nat)
    requires i < |ps|
    ensures ps[i].0 in MapOf(ps)
  {
    if i < |ps| - 1 {
      EntryPresent(Front(ps), i);
    }
  }

  /** For a document that is a mapping of well-keyed keys and values, the loader is right if and
      only if none of the mapping's own keys is `BadValue`. */
  lemma MappingLoadsExactly(pairs: seq<Pair>, aid: nat)
    requires GoodInside(pairs, map[])
    ensures var r := Eval(Map(pairs, aid), map[]);
            Run(START, StreamEvents([Map(pairs, aid)])) == Some(State([r.v], [], [], r.anchors))
            <==> GoodPairs(pairs, map[])
  {
    var t := Map(pairs, aid);
    var r := Eval(t, map[]);
    if GoodPairs(pairs, map[]) {
      assert EvalItems([t], map[]) == Values([r.v], r.anchors) by {
        assert [t][1..] == [];
        assert [r.v] + [] == [r.v];
      }
      assert GoodItems([t], map[]);
      LoadsDocuments([t]);
    } else if Run(START, StreamEvents([t])) == Some(State([r.v], [], [], r.anchors)) {
      RunKeyed(START, StreamEvents([t]));
      assert Keyed(Run(START, StreamEvents([t])).value.docs[0]);
      BadKeyShows(pairs, map[]);
      var ps := EvalPairs(pairs, map[]).ps;
      var i :| 0 <= i < |ps| && ps[i].0 == BadValue;
      EntryPresent(ps, i);
    }
  }

  /** One that is not loaded right: an alias without an anchor where a key is due is passed over, its
      value becomes a key, and the next key that key's value. */
  lemma {:induction false} AliasKeyShifts(id: nat, x: string, k: string, v: string)
    ensures var t := Map([Pair(Ref(id), Leaf(Text(x), 0)), Pair(Leaf(Text(k), 0), Leaf(Text(v), 0))], 0);
            && Run(START, StreamEvents([t])) == Some(State([Hash(map[Scalar(x) := Scalar(k)])], [], [], map[]))
            && Eval(t, map[]).v == Hash(map[BadValue := Scalar(x), Scalar(k) := Scalar(v)])
  {
    var p, q := Pair(Ref(id), Leaf(Text(x), 0)), Pair(Leaf(Text(k), 0), Leaf(Text(v), 0));
    var t := Map([p, q], 0);
    ShiftedLoad(p, q, x, k, v);
    ShiftedEval(p, q, x, k, v);
    NeverPanics([t]);
    assert [t][1..] == [];
    var h := Hash(map[Scalar(x) := Scalar(k)]);
    assert LoadedItems([t], map[]) == Values([h] + [], map[]);
    assert [h] + [] == [h];
  }

  lemma {:induction false} ShiftedLoad(p: Pair, q: Pair, x: string, k: string, v: string)
    requires LoadedEntry(p, map[], EMPTY) == Filled(Filling(Scalar(x), map[]), map[])
    requires LoadedEntry(q, map[], Filling(Scalar(x), map[]))
             == Filled(Filling(Scalar(v), map[Scalar(x) := Scalar(k)]), map[])
    ensures Loaded(Map([p, q], 0), map[]) == Value(Hash(map[Scalar(x) := Scalar(k)]), map[])
  {
    assert [p, q][1..] == [q] && [q][1..] == [];
    assert LoadedPairs([p, q], map[], EMPTY) == LoadedPairs([q], map[], Filling(Scalar(x), map[]));
  }

  lemma {:induction false} ShiftedEval(p: Pair, q: Pair, x: string, k: string, v: string)
    requires EvalEntry(p, map[]) == Entry((BadValue, Scalar(x)), map[])
    requires EvalEntry(q, map[]) == Entry((Scalar(k), Scalar(v)), map[])
    ensures Eval(Map([p, q], 0), map[]).v == Hash(map[BadValue := Scalar(x), Scalar(k) := Scalar(v)])
  {
    assert [p, q][1..] == [q] && [q][1..] == [];
    var a, b := (BadValue, Scalar(x)), (Scalar(k), Scalar(v));
    assert EvalPairs([q], map[]).ps == [b];
    assert EvalPairs([p, q], map[]).ps == [a] + [b];
    assert Front([a, b]) == [a] && Front([a]) == [];
    assert MapOf([a]) == map[a.0 := a.1];
  }
}
