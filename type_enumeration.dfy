/** Enumeration of every type of the main module: a FIFO queue seeded with the
    top-level types; each dequeued type is yielded and its nested types are
    enqueued. The yielded sequence is specified by `BreadthFirst`, and is related
    to the forest itself (`Flatten`, a depth-first listing) by the lemmas below. */
module TypeEnumeration {
  import opened Metadata

  function Max(a: nat, b: nat): nat {
    if a < b then b else a
  }

  /** One more than the greatest height in `q` (0 for an empty queue). */
  ghost function MaxHeight(q: seq<TypeDef>): nat {
    if q == [] then 0 else Max(q[0].height + 1, MaxHeight(q[1..]))
  }

  lemma MaxHeightBound(q: seq<TypeDef>, h: nat)
    requires forall t <- q :: t.height < h
    ensures MaxHeight(q) <= h
  {
  }

  lemma ForestHead(q: seq<TypeDef>)
    requires Forest(q) && q != []
    ensures Forest(q[0].nestedTypes) && Forest(q[1..])
    ensures forall c <- q[0].nestedTypes :: c.height < q[0].height
  {
    assert q[0] in q;
  }

  /** Every type of the forest `q`, each followed by its nested types (depth first).
      This is the forest's content, independent of the order of enumeration. */
  ghost function Flatten(q: seq<TypeDef>): seq<TypeDef>
    requires Forest(q)
    decreases MaxHeight(q), |q|
  {
    if q == [] then []
    else
      ForestHead(q);
      MaxHeightBound(q[0].nestedTypes, q[0].height);
      [q[0]] + Flatten(q[0].nestedTypes) + Flatten(q[1..])
  }

  /** The types of the main module as the loader builds them: the top-level types are
      not nested, nesting is acyclic, and no type occurs twice in the forest. */
  ghost predicate WellFormedModule(md: ModuleDef) {
    Forest(md.types) &&
    (forall t <- md.types :: !t.isNested) &&
    NoDuplicates(Flatten(md.types))
  }

  /** The sequence in which the FIFO queue `queue` yields types. */
  ghost function BreadthFirst(queue: seq<TypeDef>): seq<TypeDef>
    requires Forest(queue)
    decreases |Flatten(queue)|
  {
    if queue == [] then []
    else
      var t := queue[0];
      ForestHead(queue);
      FlattenAppend(queue[1..], t.nestedTypes);
      [t] + BreadthFirst(queue[1..] + t.nestedTypes)
  }

  /** The nested types of the types of `q`, in order. */
  ghost function Children(q: seq<TypeDef>): seq<TypeDef> {
    if q == [] then [] else q[0].nestedTypes + Children(q[1..])
  }

  /** Every type of the module, in the order the enumeration yields them. */
  ghost function AllTypes(md: ModuleDef): seq<TypeDef>
    requires Forest(md.types)
  {
    BreadthFirst(md.types)
  }

  /** The methods declared by the types of `ts`. */
  ghost function MethodsOf(ts: seq<TypeDef>): set<MethodDef> {
    set t, m | t in ts && m in t.methods :: m
  }

  /** The fields declared by the types of `ts`. */
  ghost function FieldsOf(ts: seq<TypeDef>): set<FieldDef> {
    set t, f | t in ts && f in t.fields :: f
  }

  lemma {:induction false} FlattenAppend(a: seq<TypeDef>, b: seq<TypeDef>)
    requires Forest(a) && Forest(b)
    ensures Forest(a + b)
    ensures Flatten(a + b) == Flatten(a) + Flatten(b)
    decreases |a|
  {
    if a == [] {
      assert a + b == b;
    } else {
      assert (a + b)[0] == a[0];
      assert (a + b)[1..] == a[1..] + b;
      FlattenAppend(a[1..], b);
    }
  }

  lemma {:induction false} ChildrenForest(q: seq<TypeDef>)
    requires Forest(q)
    ensures Forest(Children(q))
    ensures Forest(q + Children(q))
    decreases |q|
  {
    if q != [] {
      ForestHead(q);
      ChildrenForest(q[1..]);
    }
  }

  lemma {:induction false} FlattenTrees(q: seq<TypeDef>)
    requires Forest(q)
    ensures Forest(Flatten(q))
    decreases MaxHeight(q), |q|
  {
    if q != [] {
      ForestHead(q);
      MaxHeightBound(q[0].nestedTypes, q[0].height);
      FlattenTrees(q[0].nestedTypes);
      FlattenTrees(q[1..]);
    }
  }

  lemma {:induction false} FlattenContains(q: seq<TypeDef>)
    requires Forest(q)
    ensures forall t <- q :: t in Flatten(q)
    decreases |q|
  {
    if q != [] {
      FlattenContains(q[1..]);
    }
  }

  /** The enumeration yields each type exactly as often as it occurs in the forest. */
  lemma {:induction false} BreadthFirstPermutesForest(q: seq<TypeDef>)
    requires Forest(q)
    ensures multiset(BreadthFirst(q)) == multiset(Flatten(q))
    decreases |Flatten(q)|
  {
    if q != [] {
      var t := q[0];
      ForestHead(q);
      FlattenAppend(q[1..], t.nestedTypes);
      BreadthFirstPermutesForest(q[1..] + t.nestedTypes);
    }
  }

  lemma BreadthFirstForest(q: seq<TypeDef>)
    requires Forest(q)
    ensures Forest(BreadthFirst(q))
  {
    BreadthFirstPermutesForest(q);
    FlattenTrees(q);
    forall t <- BreadthFirst(q) ensures Tree(t) {
      assert t in multiset(BreadthFirst(q));
    }
  }

  /** Draining `q` in front of `rest` yields `q` in order, and leaves `rest` followed by
      the nested types of `q` in the queue. */
  lemma {:induction false} BreadthFirstDrains(q: seq<TypeDef>, rest: seq<TypeDef>)
    requires Forest(q) && Forest(rest)
    ensures Forest(q + rest) && Forest(rest + Children(q))
    ensures BreadthFirst(q + rest) == q + BreadthFirst(rest + Children(q))
    decreases |q|
  {
    ChildrenForest(q);
    if q == [] {
      assert q + rest == rest;
      assert rest + Children(q) == rest;
    } else {
      var t := q[0];
      assert (q + rest)[0] == t;
      assert (q + rest)[1..] == q[1..] + rest;
      BreadthFirstDrains(q[1..], rest + t.nestedTypes);
      assert q[1..] + rest + t.nestedTypes == q[1..] + (rest + t.nestedTypes);
      assert rest + t.nestedTypes + Children(q[1..]) == rest + Children(q);
      assert [t] + (q[1..] + BreadthFirst(rest + Children(q))) == q + BreadthFirst(rest + Children(q));
    }
  }

  /** Breadth first: the top-level types come first, in declaration order, followed by
      the enumeration of the next level down. */
  lemma BreadthFirstByLevels(q: seq<TypeDef>)
    requires Forest(q)
    ensures Forest(Children(q))
    ensures BreadthFirst(q) == q + BreadthFirst(Children(q))
  {
    BreadthFirstDrains(q, []);
    assert q + [] == q;
    assert [] + Children(q) == Children(q);
  }

  /** One step of the queue: the head is yielded, then the rest of the queue followed
      by the head's nested types is drained. */
  lemma BreadthFirstStep(q: seq<TypeDef>)
    requires Forest(q) && q != []
    ensures Forest(q[1..] + q[0].nestedTypes)
    ensures BreadthFirst(q) == [q[0]] + BreadthFirst(q[1..] + q[0].nestedTypes)
  {
    ForestHead(q);
    FlattenAppend(q[1..], q[0].nestedTypes);
  }

  /** A type waiting in the queue is yielded eventually. */
  lemma QueuedIsYielded(q: seq<TypeDef>, c: TypeDef)
    requires Forest(q) && c in q
    ensures c in BreadthFirst(q)
  {
    FlattenContains(q);
    BreadthFirstPermutesForest(q);
    assert c in multiset(Flatten(q));
  }

  /** Parent before children: every nested type of the i-th yielded type is yielded later. */
  lemma {:induction false} NestedYieldedAfter(q: seq<TypeDef>, i: nat, c: TypeDef)
    requires Forest(q)
    requires i < |BreadthFirst(q)| && c in BreadthFirst(q)[i].nestedTypes
    ensures exists j :: i < j < |BreadthFirst(q)| && BreadthFirst(q)[j] == c
    decreases |Flatten(q)|
  {
    var all := BreadthFirst(q);
    assert q != [];
    var t := q[0];
    var rest := q[1..] + t.nestedTypes;
    BreadthFirstStep(q);
    var later := BreadthFirst(rest);
    assert all == [t] + later;
    var k: nat;
    if i == 0 {
      QueuedIsYielded(rest, c);
      k :| k < |later| && later[k] == c;
    } else {
      ForestHead(q);
      FlattenAppend(q[1..], t.nestedTypes);
      assert all[i] == later[i - 1];
      NestedYieldedAfter(rest, i - 1, c);
      k :| i - 1 < k < |later| && later[k] == c;
    }
    assert all[k + 1] == c;
  }

  /** Every type of a well-formed module is yielded, and exactly once. */
  lemma EnumerationYieldsEachTypeOnce(md: ModuleDef)
    requires WellFormedModule(md)
    ensures forall t :: t in AllTypes(md) <==> t in Flatten(md.types)
    ensures NoDuplicates(AllTypes(md))
  {
    BreadthFirstPermutesForest(md.types);
    var all := AllTypes(md);
    forall t ensures t in all <==> t in Flatten(md.types) {
      assert t in all <==> t in multiset(all);
    }
    forall t <- all ensures multiset(all)[t] == 1 {
      assert t in multiset(all);
      assert t in Flatten(md.types);
    }
  }

  lemma {:induction false} FlattenAllocated(q: seq<TypeDef>)
    requires Forest(q)
    ensures forall t <- Flatten(q) :: allocated(t)
    decreases MaxHeight(q), |q|
  {
    if q != [] {
      ForestHead(q);
      MaxHeightBound(q[0].nestedTypes, q[0].height);
      FlattenAllocated(q[0].nestedTypes);
      FlattenAllocated(q[1..]);
    }
  }

  /** The types the enumeration yields are objects of the current heap. */
  lemma AllTypesAllocated(md: ModuleDef)
    requires Forest(md.types)
    ensures forall t <- AllTypes(md) :: allocated(t)
  {
    FlattenAllocated(md.types);
    BreadthFirstPermutesForest(md.types);
    forall t <- AllTypes(md) ensures allocated(t) {
      assert t in multiset(AllTypes(md));
      assert t in Flatten(md.types);
    }
  }

  /** The loop of the enumeration: dequeue a type, yield it, enqueue its nested types. */
  method GetAllTypeDefinitions(assembly: AssemblyDef) returns (types: seq<TypeDef>)
    requires Forest(assembly.mainModule.types)
    ensures types == AllTypes(assembly.mainModule)
  {
    var typeQueue := assembly.mainModule.types;
    types := [];
    while |typeQueue| > 0
      invariant Forest(typeQueue)
      invariant types + BreadthFirst(typeQueue) == BreadthFirst(assembly.mainModule.types)
      decreases |Flatten(typeQueue)|
    {
      var t := typeQueue[0];
      ghost var before := typeQueue;
      ForestHead(typeQueue);
      typeQueue := typeQueue[1..];
      types := types + [t];
      FlattenAppend(typeQueue, t.nestedTypes);
      typeQueue := typeQueue + t.nestedTypes;
      assert BreadthFirst(before) == [t] + BreadthFirst(typeQueue);
    }
  }
}
