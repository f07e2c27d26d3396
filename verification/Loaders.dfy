/** The loader as the schema compiler runs it: four fields updated event by event
    (crates/vdsm-schema/build.rs). */
module Loaders {
  import opened YamlLoader

  class LenientLoader {
    var docs: seq<Yaml>
    var docStack: seq<Node>
    var keyStack: seq<Yaml>
    var anchorMap: Anchors

    ghost function Abs(): State
      reads this
    {
      State(docs, docStack, keyStack, anchorMap)
    }

    constructor ()
      ensures Abs() == START
    {
      docs, docStack, keyStack, anchorMap := [], [], [], map[];
    }

    /** `ok` is false where the source would panic. */
    method Insert(node: Node) returns (ok: bool)
      modifies this
      ensures ok == InsertNode(old(Abs()), node).Some?
      ensures ok ==> Abs() == InsertNode(old(Abs()), node).value
    {
      if node.aid > 0 {
        anchorMap := anchorMap[node.aid := node.value];
      }
      if docStack == [] {
        docStack := [node];
        return true;
      }
      var parent := docStack[|docStack| - 1];
      match parent.value {
        case Array(items) =>
          docStack := docStack[..|docStack| - 1] + [Node(Array(items + [node.value]), parent.aid)];
        case Hash(entries) =>
          if keyStack == [] {
            return false;
          }
          var key := keyStack[|keyStack| - 1];
          if key == BadValue {
            keyStack := keyStack[..|keyStack| - 1] + [node.value];
          } else {
            keyStack := keyStack[..|keyStack| - 1] + [BadValue];
            docStack := docStack[..|docStack| - 1] + [Node(Hash(entries[key := node.value]), parent.aid)];
          }
        case _ =>
          return false;
      }
      return true;
    }

    method OnEvent(ev: Event) returns (ok: bool)
      modifies this
      ensures ok == Step(old(Abs()), ev).Some?
      ensures ok ==> Abs() == Step(old(Abs()), ev).value
    {
      ok := true;
      match ev {
        case Quiet =>
        case DocumentEnd =>
          if |docStack| == 0 {
            docs := docs + [BadValue];
          } else if |docStack| == 1 {
            docs := docs + [docStack[0].value];
            docStack := [];
          } else {
            ok := false;
          }
        case SequenceStart(aid) =>
          docStack := docStack + [Node(Array([]), aid)];
        case SequenceEnd =>
          ok := PopAndInsert();
        case MappingStart(aid) =>
          docStack := docStack + [Node(Hash(map[]), aid)];
          keyStack := keyStack + [BadValue];
        case MappingEnd =>
          if keyStack == [] {
            return false;
          }
          keyStack := keyStack[..|keyStack| - 1];
          ok := PopAndInsert();
        case ScalarEvent(atom, aid) =>
          ok := Insert(Node(AtomValue(atom), aid));
        case Alias(id) =>
          ok := Insert(Node(if id in anchorMap then anchorMap[id] else BadValue, 0));
      }
    }

    method PopAndInsert() returns (ok: bool)
      modifies this
      ensures var s := old(Abs());
              if s.docStack == [] then !ok
              else
                var r := InsertNode(s.(docStack := Front(s.docStack)), Last(s.docStack));
                ok == r.Some? && (ok ==> Abs() == r.value)
    {
      if docStack == [] {
        return false;
      }
      var node := docStack[|docStack| - 1];
      docStack := docStack[..|docStack| - 1];
      ok := Insert(node);
    }

    /** Feeds a whole event stream. */
    method Load(evs: seq<Event>) returns (ok: bool)
      modifies this
      ensures ok == Run(old(Abs()), evs).Some?
      ensures ok ==> Abs() == Run(old(Abs()), evs).value
    {
      for i := 0 to |evs|
        invariant Run(Abs(), evs[i..]) == Run(old(Abs()), evs)
      {
        assert evs[i..][1..] == evs[i + 1..];
        ok := OnEvent(evs[i]);
        if !ok {
          return;
        }
      }
      ok := true;
    }
  }

  /** Loading the event stream of any documents succeeds, with their values where no mapping key is
      `BadValue`. */
  method LoadDocuments(ts: seq<Tree>) returns (docs: seq<Yaml>)
    ensures docs == LoadedItems(ts, map[]).vs
    ensures GoodItems(ts, map[]) ==> docs == EvalItems(ts, map[]).vs
  {
    var loader := new LenientLoader();
    NeverPanics(ts);
    if GoodItems(ts, map[]) {
      LoadedItemsAreValues(ts, map[]);
    }
    var ok := loader.Load(StreamEvents(ts));
    docs := loader.docs;
  }
}
