/**
 * The bounded check of document.py that a value built of lists and dictionaries, possibly shared or
 * cyclic, is plain JSON. The containers are heap objects and are recognised by identity.
 */
module JsonGraph {
  import opened Prelude

  /** `Unsupported` is a value of any other Python type. */
  datatype Value =
    | Null | Text(text: string) | Truth(truth: bool) | Number(number: int) | Float(finite: bool)
    | Ref(node: Container)
    | Unsupported

  /** A list, or a dictionary whose keys stand beside its values in iteration order. */
  class Container {
    const isDict: bool
    var keys: seq<Value>
    var items: seq<Value>
  }

  /** The `active` set shared by all recursive calls. */
  class ActiveSet {
    var nodes: set<Container>

    constructor ()
      ensures nodes == {}
    {
      nodes := {};
    }
  }

  datatype Error = TooDeep | NotFinite | Recursive | KeyNotString | UnsupportedType

  const MAX_DEPTH: nat := 128

  // ---- the reference reading: the unfolding of the graph ------------------------------------------

  predicate In(heap: set<Container>, v: Value) {
    v.Ref? ==> v.node in heap
  }

  ghost predicate Closed(heap: set<Container>)
    reads heap
  {
    forall n :: n in heap ==>
      && (n.isDict ==> |n.keys| == |n.items|)
      && forall i :: 0 <= i < |n.items| ==> In(heap, n.items[i])
  }

  function Children(heap: set<Container>, v: Value): seq<Value>
    requires In(heap, v)
    reads heap
  {
    if v.Ref? then v.node.items else []
  }

  ghost predicate TextKeys(n: Container)
    reads n
  {
    n.isDict ==> forall i :: 0 <= i < |n.keys| ==> n.keys[i].Text?
  }

  /** What one node may be. */
  ghost predicate Allowed(heap: set<Container>, v: Value)
    requires In(heap, v)
    reads heap
  {
    match v
    case Float(finite) => finite
    case Ref(n) => TextKeys(n)
    case Unsupported => false
    case _ => true
  }

  /** The value a path of child positions leads to. */
  function At(heap: set<Container>, v: Value, path: seq<nat>): Option<Value>
    requires Closed(heap) && In(heap, v)
    reads heap
    decreases |path|
  {
    if path == [] then Some(v)
    else if path[0] < |Children(heap, v)| then At(heap, Children(heap, v)[path[0]], path[1..])
    else None
  }

  /** Every node of the unfolding is allowed and lies no deeper than the limit. */
  ghost predicate PlainUnfolding(heap: set<Container>, v: Value, depth: nat)
    requires Closed(heap) && In(heap, v)
    reads heap
  {
    forall path: seq<nat> :: At(heap, v, path).Some? ==> PlainAt(heap, v, path, depth)
  }

  ghost predicate PlainAt(heap: set<Container>, v: Value, path: seq<nat>, depth: nat)
    requires Closed(heap) && In(heap, v) && At(heap, v, path).Some?
    reads heap
  {
    depth + |path| <= MAX_DEPTH && In(heap, At(heap, v, path).value) && Allowed(heap, At(heap, v, path).value)
  }

  /** The same, by recursion on the depth left. */
  ghost predicate Fine(heap: set<Container>, v: Value, depth: nat)
    requires Closed(heap) && In(heap, v)
    reads heap
    decreases MAX_DEPTH + 1 - depth
  {
    && depth <= MAX_DEPTH && Allowed(heap, v)
    && forall i :: 0 <= i < |Children(heap, v)| ==> Fine(heap, Children(heap, v)[i], depth + 1)
  }

  lemma {:induction false} FinePathsArePlain(heap: set<Container>, v: Value, depth: nat, path: seq<nat>)
    requires Closed(heap) && In(heap, v) && Fine(heap, v, depth) && At(heap, v, path).Some?
    ensures PlainAt(heap, v, path, depth)
    decreases |path|
  {
    if path != [] {
      FinePathsArePlain(heap, Children(heap, v)[path[0]], depth + 1, path[1..]);
    }
  }

  lemma {:induction false} PlainUnfoldingIsFine(heap: set<Container>, v: Value, depth: nat)
    requires Closed(heap) && In(heap, v) && PlainUnfolding(heap, v, depth)
    ensures Fine(heap, v, depth)
    decreases MAX_DEPTH + 1 - depth
  {
    assert At(heap, v, []) == Some(v) && PlainAt(heap, v, [], depth);
    forall i | 0 <= i < |Children(heap, v)| ensures Fine(heap, Children(heap, v)[i], depth + 1) {
      var child := Children(heap, v)[i];
      forall path: seq<nat> | At(heap, child, path).Some? ensures PlainAt(heap, child, path, depth + 1) {
        assert ([i as nat] + path)[1..] == path;
        assert At(heap, v, [i as nat] + path) == At(heap, child, path);
        assert PlainAt(heap, v, [i as nat] + path, depth);
      }
      PlainUnfoldingIsFine(heap, child, depth + 1);
    }
  }

  lemma {:induction false} FineIffPlainUnfolding(heap: set<Container>, v: Value, depth: nat)
    requires Closed(heap) && In(heap, v)
    ensures Fine(heap, v, depth) <==> PlainUnfolding(heap, v, depth)
  {
    if Fine(heap, v, depth) {
      forall path: seq<nat> | At(heap, v, path).Some? ensures PlainAt(heap, v, path, depth) {
        FinePathsArePlain(heap, v, depth, path);
      }
    } else if PlainUnfolding(heap, v, depth) {
      PlainUnfoldingIsFine(heap, v, depth);
    }
  }

  // ---- cycles -------------------------------------------------------------------------------------

  /** Each value is a child of the one before. */
  ghost predicate Chain(heap: set<Container>, chain: seq<Value>)
    reads heap
  {
    && (forall i :: 0 <= i < |chain| ==> In(heap, chain[i]))
    && forall i :: 0 <= i < |chain| - 1 ==> chain[i + 1] in Children(heap, chain[i])
  }

  lemma {:induction false} FineAlongChain(heap: set<Container>, chain: seq<Value>, i: nat, k: nat, depth: nat)
    requires Closed(heap) && Chain(heap, chain) && i <= k < |chain| && Fine(heap, chain[i], depth)
    ensures Fine(heap, chain[k], depth + (k - i))
    decreases k - i
  {
    if i < k {
      var j :| 0 <= j < |Children(heap, chain[i])| && Children(heap, chain[i])[j] == chain[i + 1];
      FineAlongChain(heap, chain, i + 1, k, depth + 1);
    }
  }

  /** A value that occurs below itself is never fine: it could be pumped past the limit. */
  lemma {:induction false} CycleIsNotFine(heap: set<Container>, chain: seq<Value>, i: nat, k: nat, depth: nat)
    requires Closed(heap) && Chain(heap, chain) && i < k < |chain| && chain[i] == chain[k]
    ensures !Fine(heap, chain[k], depth)
    decreases MAX_DEPTH + 1 - depth
  {
    if Fine(heap, chain[k], depth) {
      FineAlongChain(heap, chain, i, k, depth);
      CycleIsNotFine(heap, chain, i, k, depth + (k - i));
    }
  }

  // ---- the check ----------------------------------------------------------------------------------

  /** The containers on the path from the root. */
  ghost predicate Holds(active: set<Container>, chain: seq<Value>) {
    && (forall n :: n in active ==> Ref(n) in chain)
    && forall i :: 0 <= i < |chain| ==> chain[i].Ref? && chain[i].node in active
  }

  lemma {:induction false} ChainExtends(heap: set<Container>, chain: seq<Value>, v: Value, child: Value)
    requires Chain(heap, chain + [v]) && In(heap, child) && In(heap, v) && child in Children(heap, v)
    ensures Chain(heap, chain + [v] + [child])
  {
    var before, after := chain + [v], chain + [v] + [child];
    forall i | 0 <= i < |after| - 1 ensures after[i + 1] in Children(heap, after[i]) {
      assert i < |before| - 1 ==> before[i + 1] in Children(heap, before[i]);
    }
  }

  lemma {:induction false} RecursionIsCyclic(
    heap: set<Container>, active: set<Container>, chain: seq<Value>, v: Value, depth: nat)
    requires Closed(heap) && In(heap, v) && Chain(heap, chain + [v]) && Holds(active, chain)
    requires v.Ref? && v.node in active
    ensures !Fine(heap, v, depth)
  {
    var i :| 0 <= i < |chain| && chain[i] == v;
    var whole := chain + [v];
    assert whole[i] == v && whole[|chain|] == v;
    CycleIsNotFine(heap, whole, i, |chain|, depth);
  }

  /** The error is true of the value the path leads to. */
  ghost predicate Explains(
    heap: set<Container>, active: set<Container>, v: Value, depth: nat, error: Error, path: seq<nat>)
    requires Closed(heap) && In(heap, v)
    reads heap
  {
    && At(heap, v, path).Some?
    && var found := At(heap, v, path).value;
       match error
       case TooDeep => depth + |path| == MAX_DEPTH + 1
       case NotFinite => found == Float(false)
       case UnsupportedType => found == Unsupported
       case KeyNotString => found.Ref? && found.node in heap && !TextKeys(found.node)
       case Recursive => found.Ref? && (found.node in active || Repeats(heap, v, path))
  }

  /** The path ends on a value it has already passed. */
  ghost predicate Repeats(heap: set<Container>, v: Value, path: seq<nat>)
    requires Closed(heap) && In(heap, v)
    reads heap
  {
    exists j :: 0 <= j < |path| && At(heap, v, path[..j]) == At(heap, v, path)
  }

  /** An explanation below a child is one below its parent. */
  lemma {:induction false} ExplainsAbove(
    heap: set<Container>, active: set<Container>, v: Value, depth: nat, k: nat, error: Error, path: seq<nat>)
    requires Closed(heap) && v.Ref? && In(heap, v) && k < |v.node.items|
    requires Explains(heap, active + {v.node}, v.node.items[k], depth + 1, error, path)
    ensures Explains(heap, active, v, depth, error, [k] + path)
  {
    var longer := [k] + path;
    assert longer[1..] == path;
    if error.Recursive? && At(heap, v.node.items[k], path).value.node !in active {
      if Repeats(heap, v.node.items[k], path) {
        var j :| 0 <= j < |path| && At(heap, v.node.items[k], path[..j]) == At(heap, v.node.items[k], path);
        assert longer[..j + 1][1..] == path[..j];
        assert At(heap, v, longer[..j + 1]) == At(heap, v, longer);
      } else {
        assert longer[..0] == [];
        assert At(heap, v, longer[..0]) == At(heap, v, longer);
      }
    }
  }

  ghost predicate Explained(heap: set<Container>, active: set<Container>, v: Value, depth: nat, error: Error)
    requires Closed(heap) && In(heap, v)
    reads heap
  {
    exists path: seq<nat> :: Explains(heap, active, v, depth, error, path)
  }

  lemma {:induction false} ExplainedAbove(
    heap: set<Container>, active: set<Container>, v: Value, depth: nat, k: nat, error: Error)
    requires Closed(heap) && v.Ref? && In(heap, v) && k < |v.node.items| && v.node in active
    requires Explained(heap, active, v.node.items[k], depth + 1, error)
    ensures Explained(heap, active - {v.node}, v, depth, error)
  {
    var path: seq<nat> :| Explains(heap, active, v.node.items[k], depth + 1, error, path);
    assert active - {v.node} + {v.node} == active;
    ExplainsAbove(heap, active - {v.node}, v, depth, k, error, path);
  }

  lemma {:induction false} ExplainedHere(
    heap: set<Container>, active: set<Container>, v: Value, depth: nat, error: Error)
    requires Closed(heap) && In(heap, v) && Explains(heap, active, v, depth, error, [])
    ensures Explained(heap, active, v, depth, error)
  {
  }

  /**
   * `_validate_json_compatible`: accepts exactly the fine values, reports a true error, and leaves
   * `active` as it was.
   */
  method Validate(ghost heap: set<Container>, active: ActiveSet, v: Value, depth: nat, ghost chain: seq<Value>)
    returns (error: Option<Error>)
    requires Closed(heap) && In(heap, v) && depth <= MAX_DEPTH + 1
    requires Chain(heap, chain + [v]) && Holds(active.nodes, chain)
    modifies active
    ensures active.nodes == old(active.nodes)
    ensures error.None? <==> Fine(heap, v, depth)
    ensures error.Some? ==> Explained(heap, active.nodes, v, depth, error.value)
    decreases MAX_DEPTH + 1 - depth
  {
    assert At(heap, v, []) == Some(v);
    if depth > MAX_DEPTH {
      ExplainedHere(heap, active.nodes, v, depth, TooDeep);
      return Some(TooDeep);
    }
    if v.Null? || v.Text? || v.Truth? || v.Number? {
      return None;
    }
    if v.Float? {
      if !v.finite {
        ExplainedHere(heap, active.nodes, v, depth, NotFinite);
        return Some(NotFinite);
      }
      return None;
    }
    if v.Unsupported? {
      ExplainedHere(heap, active.nodes, v, depth, UnsupportedType);
      return Some(UnsupportedType);
    }
    var node := v.node;
    if node in active.nodes {
      RecursionIsCyclic(heap, active.nodes, chain, v, depth);
      ExplainedHere(heap, active.nodes, v, depth, Recursive);
      return Some(Recursive);
    }
    ghost var before := active.nodes;
    active.nodes := active.nodes + {node};
    assert active.nodes - {node} == before;
    error := ValidateItems(heap, active, v, depth, chain);
    active.nodes := active.nodes - {node};
  }

  /** The loop over the elements of one list or dictionary. */
  method ValidateItems(ghost heap: set<Container>, active: ActiveSet, v: Value, depth: nat, ghost chain: seq<Value>)
    returns (error: Option<Error>)
    requires Closed(heap) && v.Ref? && In(heap, v) && depth <= MAX_DEPTH
    requires Chain(heap, chain + [v]) && Holds(active.nodes, chain + [v])
    modifies active
    ensures active.nodes == old(active.nodes)
    ensures error.None? <==> Fine(heap, v, depth)
    ensures error.Some? ==> Explained(heap, active.nodes - {v.node}, v, depth, error.value)
    decreases MAX_DEPTH + 1 - depth, 0
  {
    var node := v.node;
    assert (chain + [v])[|chain|] == v;
    for k := 0 to |node.items|
      invariant active.nodes == old(active.nodes)
      invariant node.isDict ==> forall i :: 0 <= i < k ==> node.keys[i].Text?
      invariant forall i :: 0 <= i < k ==> Fine(heap, node.items[i], depth + 1)
    {
      if node.isDict && !node.keys[k].Text? {
        assert At(heap, v, []) == Some(v);
        ExplainedHere(heap, active.nodes - {node}, v, depth, KeyNotString);
        return Some(KeyNotString);
      }
      ChainExtends(heap, chain, v, node.items[k]);
      error := Validate(heap, active, node.items[k], depth + 1, chain + [v]);
      if error.Some? {
        assert Children(heap, v)[k] == node.items[k];
        ExplainedAbove(heap, active.nodes, v, depth, k, error.value);
        return;
      }
    }
    error := None;
  }

  /** The entry point: a document is accepted exactly when its unfolding is plain and bounded. */
  method ValidateDocument(ghost heap: set<Container>, v: Value) returns (error: Option<Error>)
    requires Closed(heap) && In(heap, v)
    ensures error.None? <==> PlainUnfolding(heap, v, 0)
    ensures error.Some? ==> Explained(heap, {}, v, 0, error.value)
  {
    var active := new ActiveSet();
    FineIffPlainUnfolding(heap, v, 0);
    assert [] + [v] == [v];
    error := Validate(heap, active, v, 0, []);
  }

  /** So an accepted graph has no cycle, whatever is shared. */
  lemma {:induction false} AcceptedIsAcyclic(heap: set<Container>, v: Value, chain: seq<Value>, i: nat, k: nat)
    requires Closed(heap) && In(heap, v) && PlainUnfolding(heap, v, 0)
    requires Chain(heap, chain) && i < k < |chain| && chain[0] == v
    ensures chain[i] != chain[k]
  {
    FineIffPlainUnfolding(heap, v, 0);
    FineAlongChain(heap, chain, 0, k, 0);
    if chain[i] == chain[k] {
      CycleIsNotFine(heap, chain, i, k, k);
    }
  }
}
