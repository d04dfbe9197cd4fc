/** Import order of tables under foreign keys: layer by layer, refusing cycles. */
module DependencyPlan {
  import opened Names
  import Text

  /** The tables each table refers to. */
  type Parents = map<string, set<string>>
  datatype ForeignKey = ForeignKey(child: string, parent: string)

  const SEQUENCE := "sqlite_sequence"

  datatype Plan =
    | NoCounts | ScopeMismatch | UnknownParent(name: string) | Cyclic(stuck: set<string>) | Order(tables: seq<string>)

  /** The planner's order within a layer; everything about layers holds for any such order. */
  type Sort = set<string> -> seq<string>

  function ByName(): Sort {
    (names: set<string>) => Sorted(names)
  }

  ghost predicate Listing(sort: Sort) {
    forall names :: Lists(sort(names), names)
  }

  lemma ByNameLists()
    ensures Listing(ByName())
  {
    forall names
      ensures Lists(ByName()(names), names)
    {
      SortedIsSorted(names);
    }
  }

  // ---- peeling layers ----

  function Ready(edges: Parents, remaining: set<string>): set<string>
    requires remaining <= edges.Keys
  {
    set n | n in remaining && edges[n] * remaining == {}
  }

  function Rest(edges: Parents, remaining: set<string>): (rest: set<string>)
    requires remaining <= edges.Keys && Ready(edges, remaining) != {}
    ensures rest < remaining
  {
    assert Ready(edges, remaining) <= remaining;
    remaining - Ready(edges, remaining)
  }

  /** The tables in import order, layer by layer and by name within a layer. */
  function Ordered(edges: Parents, remaining: set<string>, sort: Sort): seq<string>
    requires remaining <= edges.Keys
    decreases remaining
  {
    if Ready(edges, remaining) == {} then []
    else sort(Ready(edges, remaining)) + Ordered(edges, Rest(edges, remaining), sort)
  }

  /** What is left when no table is ready any more. */
  function Stuck(edges: Parents, remaining: set<string>): set<string>
    requires remaining <= edges.Keys
    decreases remaining
  {
    if Ready(edges, remaining) == {} then remaining else Stuck(edges, Rest(edges, remaining))
  }

  /** The layer in which a table is taken off; -1 if it never is. */
  function Layer(edges: Parents, remaining: set<string>, n: string): (layer: int)
    requires remaining <= edges.Keys
    ensures layer >= -1
    decreases remaining
  {
    if Ready(edges, remaining) == {} then -1
    else if n in Ready(edges, remaining) then 0
    else
      var later := Layer(edges, Rest(edges, remaining), n);
      if later < 0 then -1 else later + 1
  }

  // ---- the planner ----

  datatype Linked = Foreign(parent: string) | Graph(edges: Parents)

  /** Fill the edge sets, stopping at the first parent that is not a table. */
  method Link(actual: set<string>, keys: seq<ForeignKey>) returns (linked: Linked)
    requires forall k <- keys :: k.child in actual
    ensures linked == LinkedBy(actual, keys)
  {
    var edges: Parents := map n | n in actual :: {};
    for i := 0 to |keys|
      invariant LinkedBy(actual, keys[..i]) == Graph(edges) && edges.Keys == actual
    {
      var k := keys[i];
      LinkedOneMore(actual, keys, i);
      if k.parent !in actual {
        UnknownSpreads(actual, keys, i + 1);
        return Foreign(k.parent);
      }
      edges := edges[k.child := edges[k.child] + {k.parent}];
    }
    assert keys[..|keys|] == keys;
    return Graph(edges);
  }

  function LinkedBy(actual: set<string>, keys: seq<ForeignKey>): (linked: Linked)
    requires forall k <- keys :: k.child in actual
    ensures linked.Graph? ==> linked.edges.Keys == actual
  {
    if keys == [] then Graph(map n | n in actual :: {})
    else
      var k := keys[|keys| - 1];
      match LinkedBy(actual, keys[..|keys| - 1])
      case Foreign(p) => Foreign(p)
      case Graph(edges) =>
        if k.parent in actual then Graph(edges[k.child := edges[k.child] + {k.parent}]) else Foreign(k.parent)
  }

  lemma LinkedOneMore(actual: set<string>, keys: seq<ForeignKey>, i: nat)
    requires (forall k <- keys :: k.child in actual) && i < |keys|
    ensures LinkedBy(actual, keys[..i + 1]) ==
            match LinkedBy(actual, keys[..i])
            case Foreign(p) => Foreign(p)
            case Graph(edges) =>
              if keys[i].parent in actual then Graph(edges[keys[i].child := edges[keys[i].child] + {keys[i].parent}])
              else Foreign(keys[i].parent)
  {
    assert keys[..i + 1][..i] == keys[..i];
  }

  lemma {:induction false} UnknownSpreads(actual: set<string>, keys: seq<ForeignKey>, i: nat)
    requires (forall k <- keys :: k.child in actual) && i <= |keys| && LinkedBy(actual, keys[..i]).Foreign?
    ensures LinkedBy(actual, keys) == LinkedBy(actual, keys[..i])
  {
    if i == |keys| {
      assert keys[..i] == keys;
    } else {
      assert keys[..|keys| - 1][..i] == keys[..i];
      UnknownSpreads(actual, keys[..|keys| - 1], i);
    }
  }

  /** The graph has exactly the declared keys as edges; it exists exactly when every parent is a table. */
  lemma {:induction false} GraphIsKeys(actual: set<string>, keys: seq<ForeignKey>)
    requires forall k <- keys :: k.child in actual
    ensures LinkedBy(actual, keys).Graph? <==> forall k <- keys :: k.parent in actual
    ensures LinkedBy(actual, keys).Graph? ==>
              forall n <- actual, p :: p in LinkedBy(actual, keys).edges[n] <==> ForeignKey(n, p) in keys
  {
    if keys != [] {
      var earlier, k := keys[..|keys| - 1], keys[|keys| - 1];
      assert keys == earlier + [k];
      GraphIsKeys(actual, earlier);
    }
  }

  lemma PeelStep(edges: Parents, remaining: set<string>, sort: Sort, ordered: seq<string>)
    requires remaining <= edges.Keys && Ready(edges, remaining) != {}
    ensures var (ready, rest) := (Ready(edges, remaining), Rest(edges, remaining));
            && rest == remaining - ready && rest < remaining
            && Stuck(edges, remaining) == Stuck(edges, rest)
            && ordered + Ordered(edges, remaining, sort) == (ordered + sort(ready)) + Ordered(edges, rest, sort)
  {
    var ready, rest := Ready(edges, remaining), Rest(edges, remaining);
    assert ordered + (sort(ready) + Ordered(edges, rest, sort)) == (ordered + sort(ready)) + Ordered(edges, rest, sort);
  }

  /** The peeling loop. */
  method Peel(edges: Parents, user: set<string>, sort: Sort) returns (ordered: seq<string>, stuck: set<string>)
    requires user <= edges.Keys
    ensures stuck == Stuck(edges, user) && ordered == Ordered(edges, user, sort)
  {
    var remaining := user;
    ordered := [];
    while remaining != {}
      invariant remaining <= user
      invariant Ordered(edges, user, sort) == ordered + Ordered(edges, remaining, sort)
      invariant Stuck(edges, user) == Stuck(edges, remaining)
      decreases remaining
    {
      var ready := Ready(edges, remaining);
      if ready == {} {
        return ordered, remaining;
      }
      PeelStep(edges, remaining, sort, ordered);
      ordered := ordered + sort(ready);
      remaining := remaining - ready;
    }
    assert ordered + [] == ordered;
    return ordered, {};
  }

  method Qualify(actual: set<string>, counted: set<string>, keys: seq<ForeignKey>) returns (plan: Plan)
    requires forall k <- keys :: k.child in actual
    ensures plan == PlanOf(actual, counted, keys)
  {
    if counted == {} {
      return NoCounts;
    }
    if actual != counted {
      return ScopeMismatch;
    }
    var linked := Link(actual, keys);
    match linked {
      case Foreign(p) => return UnknownParent(p);
      case Graph(edges) =>
        var ordered, stuck := Peel(edges, actual - {SEQUENCE}, ByName());
        if stuck != {} {
          return Cyclic(stuck);
        }
        if SEQUENCE in actual {
          ordered := ordered + [SEQUENCE];
        }
        return Order(ordered);
    }
  }

  function PlanOf(actual: set<string>, counted: set<string>, keys: seq<ForeignKey>): Plan
    requires forall k <- keys :: k.child in actual
  {
    if counted == {} then NoCounts
    else if actual != counted then ScopeMismatch
    else
      match LinkedBy(actual, keys)
      case Foreign(p) => UnknownParent(p)
      case Graph(edges) =>
        var user := actual - {SEQUENCE};
        if Stuck(edges, user) != {} then Cyclic(Stuck(edges, user))
        else if SEQUENCE in actual then Order(Ordered(edges, user, ByName()) + [SEQUENCE])
        else Order(Ordered(edges, user, ByName()))
  }

  // ---- layers are longest chains ----

  lemma LayerStep(edges: Parents, user: set<string>, n: string)
    requires user <= edges.Keys && n in user
    ensures Ready(edges, user) == {} ==> Layer(edges, user, n) == -1
    ensures n in Ready(edges, user) ==> Layer(edges, user, n) == 0
    ensures Ready(edges, user) != {} && n !in Ready(edges, user) ==>
              var rest := Rest(edges, user);
              && n in rest
              && Layer(edges, user, n) == if Layer(edges, rest, n) < 0 then -1 else Layer(edges, rest, n) + 1
  {
  }

  /** A table's parents are in earlier layers. */
  lemma {:induction false} ParentLower(edges: Parents, user: set<string>, n: string, p: string)
    requires user <= edges.Keys && n in user && p in edges[n] * user && Layer(edges, user, n) >= 0
    ensures 0 <= Layer(edges, user, p) < Layer(edges, user, n)
    decreases user
  {
    LayerStep(edges, user, n);
    LayerStep(edges, user, p);
    if p !in Ready(edges, user) {
      ParentLower(edges, Rest(edges, user), n, p);
    }
  }

  function PreviousLayer(layer: int): int {
    if layer < 0 then -1 else layer - 1
  }

  /** Past the first layer a parent is in the layer just before; a table that is never taken off has such a parent. */
  lemma {:induction false} ParentJustBelow(edges: Parents, user: set<string>, n: string) returns (p: string)
    requires user <= edges.Keys && n in user && Layer(edges, user, n) != 0
    ensures p in edges[n] * user && Layer(edges, user, p) == PreviousLayer(Layer(edges, user, n))
    decreases user
  {
    LayerStep(edges, user, n);
    if Ready(edges, user) == {} {
      assert n !in Ready(edges, user);
      p :| p in edges[n] * user;
      LayerStep(edges, user, p);
    } else {
      var rest := Rest(edges, user);
      if Layer(edges, rest, n) == 0 {
        assert n in Ready(edges, rest) && n !in Ready(edges, user);
        p :| p in edges[n] * user;
        var up := edges[n];
        assert p in rest ==> p in up * rest;
      } else {
        p := ParentJustBelow(edges, rest, n);
      }
      LayerStep(edges, user, p);
    }
  }

  lemma {:induction false} StuckIsUnlayered(edges: Parents, user: set<string>, n: string)
    requires user <= edges.Keys
    ensures n in Stuck(edges, user) <==> n in user && Layer(edges, user, n) < 0
    decreases user
  {
    if Ready(edges, user) != {} {
      StuckIsUnlayered(edges, Rest(edges, user), n);
    }
  }

  /** A chain of tables, each a parent of the next. */
  predicate Chain(edges: Parents, user: set<string>, c: seq<string>)
    requires user <= edges.Keys
  {
    && c != [] && (forall n <- c :: n in user)
    && forall i :: 0 <= i < |c| - 1 ==> c[i] in edges[c[i + 1]]
  }

  function LayerIn(edges: Parents, user: set<string>): string -> int
    requires user <= edges.Keys
  {
    n => Layer(edges, user, n)
  }

  /** What the chain arguments need of a layering. */
  ghost predicate Layering(edges: Parents, user: set<string>, layer: string -> int)
    requires user <= edges.Keys
  {
    && (forall n <- user, p <- edges[n] * user :: layer(n) >= 0 ==> 0 <= layer(p) < layer(n))
    && (forall n <- user {:trigger ParentBelow(edges, user, layer, n)} ::
          layer(n) > 0 ==> ParentBelow(edges, user, layer, n))
  }

  ghost predicate ParentBelow(edges: Parents, user: set<string>, layer: string -> int, n: string)
    requires user <= edges.Keys && n in user
  {
    exists p :: p in edges[n] * user && layer(p) == layer(n) - 1
  }

  lemma PeelingIsLayering(edges: Parents, user: set<string>)
    requires user <= edges.Keys
    ensures Layering(edges, user, LayerIn(edges, user))
  {
    forall n, p | n in user && p in edges[n] * user && Layer(edges, user, n) >= 0 {
      ParentLower(edges, user, n, p);
    }
    forall n | n in user && Layer(edges, user, n) > 0
      ensures ParentBelow(edges, user, LayerIn(edges, user), n)
    {
      var p := ParentJustBelow(edges, user, n);
    }
  }

  /** Along a chain that ends in an accepted layer, every step climbs at least one layer. */
  lemma {:induction false} LayersClimb(edges: Parents, user: set<string>, layer: string -> int, c: seq<string>)
    requires user <= edges.Keys && Layering(edges, user, layer) && Chain(edges, user, c) && layer(c[|c| - 1]) >= 0
    ensures 0 <= layer(c[0]) && layer(c[0]) + |c| - 1 <= layer(c[|c| - 1])
    decreases |c|
  {
    if |c| > 1 {
      assert c[|c| - 2] in edges[c[|c| - 1]] * user;
      LayersClimb(edges, user, layer, c[..|c| - 1]);
    }
  }

  lemma {:induction false} ChainOfLayer(edges: Parents, user: set<string>, layer: string -> int, n: string)
    returns (c: seq<string>)
    requires user <= edges.Keys && Layering(edges, user, layer) && n in user && layer(n) >= 0
    ensures Chain(edges, user, c) && c[|c| - 1] == n && |c| == layer(n) + 1
    decreases layer(n)
  {
    if layer(n) == 0 {
      c := [n];
    } else {
      assert ParentBelow(edges, user, layer, n);
      var p :| p in edges[n] * user && layer(p) == layer(n) - 1;
      c := ChainOfLayer(edges, user, layer, p);
      c := c + [n];
    }
  }

  /** A table's layer is its longest foreign-key chain: one with that many steps ends there, and none has more. */
  lemma LayerIsLongestChain(edges: Parents, user: set<string>, n: string)
    requires user <= edges.Keys && n in user && Layer(edges, user, n) >= 0
    ensures exists c :: Chain(edges, user, c) && c[|c| - 1] == n && |c| - 1 == Layer(edges, user, n)
    ensures forall c :: Chain(edges, user, c) && c[|c| - 1] == n ==> |c| - 1 <= Layer(edges, user, n)
  {
    PeelingIsLayering(edges, user);
    var c := ChainOfLayer(edges, user, LayerIn(edges, user), n);
    forall c | Chain(edges, user, c) && c[|c| - 1] == n
      ensures |c| - 1 <= Layer(edges, user, n)
    {
      LayersClimb(edges, user, LayerIn(edges, user), c);
    }
  }

  // ---- refusal exactly on cycles ----

  /** A closed chain; a self-reference is one of two equal entries. */
  predicate Cycle(edges: Parents, user: set<string>, c: seq<string>)
    requires user <= edges.Keys
  {
    Chain(edges, user, c) && |c| >= 2 && c[0] == c[|c| - 1]
  }

  /** Walk backwards inside a set in which every table has a parent. */
  lemma {:induction false} WalkBack(edges: Parents, stuck: set<string>, n: string, length: nat) returns (c: seq<string>)
    requires stuck <= edges.Keys && n in stuck && length > 0
    requires forall m <- stuck :: edges[m] * stuck != {}
    ensures Chain(edges, stuck, c) && |c| == length && c[length - 1] == n
    decreases length
  {
    if length == 1 {
      c := [n];
    } else {
      var p :| p in edges[n] * stuck;
      c := WalkBack(edges, stuck, p, length - 1);
      c := c + [n];
    }
  }

  /** A sequence longer than the set its entries come from repeats one. */
  lemma {:induction false} Pigeonhole(c: seq<string>, s: set<string>) returns (i: nat, j: nat)
    requires |c| > |s| && forall n <- c :: n in s
    ensures i < j < |c| && c[i] == c[j]
  {
    var last := c[|c| - 1];
    if k :| 0 <= k < |c| - 1 && c[k] == last {
      i, j := k, |c| - 1;
    } else {
      assert last in c;
      i, j := Pigeonhole(c[..|c| - 1], s - {last});
    }
  }

  lemma StuckHasStuckParent(edges: Parents, user: set<string>, m: string)
    requires user <= edges.Keys && m in Stuck(edges, user)
    ensures m in user && edges[m] * Stuck(edges, user) != {}
  {
    StuckIsUnlayered(edges, user, m);
    var p := ParentJustBelow(edges, user, m);
    StuckIsUnlayered(edges, user, p);
    assert p in edges[m] * Stuck(edges, user);
  }

  lemma StuckHasCycle(edges: Parents, user: set<string>) returns (c: seq<string>)
    requires user <= edges.Keys && Stuck(edges, user) != {}
    ensures Cycle(edges, user, c)
  {
    var stuck := Stuck(edges, user);
    forall m
      ensures m in stuck ==> m in user && edges[m] * stuck != {}
    {
      if m in stuck {
        StuckHasStuckParent(edges, user, m);
      }
    }
    var n :| n in stuck;
    var walk := WalkBack(edges, stuck, n, |stuck| + 1);
    var i, j := Pigeonhole(walk, stuck);
    c := walk[i..j + 1];
  }

  /** The planner refuses a graph exactly when it has a cycle among the user tables. */
  lemma RefusesExactlyCycles(edges: Parents, user: set<string>)
    requires user <= edges.Keys
    ensures Stuck(edges, user) != {} <==> exists c :: Cycle(edges, user, c)
  {
    if Stuck(edges, user) != {} {
      var c := StuckHasCycle(edges, user);
    } else if c :| Cycle(edges, user, c) {
      StuckIsUnlayered(edges, user, c[0]);
      PeelingIsLayering(edges, user);
      LayersClimb(edges, user, LayerIn(edges, user), c);
    }
  }

  // ---- the order ----

  /** Exactly the tables that have a layer are ordered, each once. */
  lemma {:induction false} OrderedLists(edges: Parents, user: set<string>, sort: Sort)
    requires user <= edges.Keys && Listing(sort)
    ensures NoRepeats(Ordered(edges, user, sort))
    ensures forall n :: n in Ordered(edges, user, sort) <==> n in user && Layer(edges, user, n) >= 0
    decreases user
  {
    var ready := Ready(edges, user);
    if ready != {} {
      var rest := Rest(edges, user);
      assert Lists(sort(ready), ready);
      OrderedLists(edges, rest, sort);
      NoRepeatsAcross(sort(ready), Ordered(edges, rest, sort), ready, rest);
      forall n | n in user {
        LayerStep(edges, user, n);
      }
    }
  }

  lemma NoRepeatsAcross(a: seq<string>, b: seq<string>, s: set<string>, t: set<string>)
    requires NoRepeats(a) && NoRepeats(b) && s !! t
    requires (forall n <- a :: n in s) && (forall n <- b :: n in t)
    ensures NoRepeats(a + b)
  {
    forall i, j | 0 <= i < |a| && 0 <= j < |b|
      ensures a[i] != b[j]
    {
      assert a[i] in a && b[j] in b;
    }
  }

  /** Everything of an earlier layer comes before position `k`. */
  lemma {:induction false} EarlierLayersFirst(edges: Parents, user: set<string>, sort: Sort, n: string, k: nat,
                                              p: string)
    requires user <= edges.Keys && Listing(sort)
    requires k < |Ordered(edges, user, sort)| && Ordered(edges, user, sort)[k] == n
    requires n in user && p in user && 0 <= Layer(edges, user, p) < Layer(edges, user, n)
    ensures p in Ordered(edges, user, sort)[..k]
    decreases user
  {
    var ready := Ready(edges, user);
    assert Lists(sort(ready), ready);
    LayerStep(edges, user, n);
    LayerStep(edges, user, p);
    var front, rest := sort(ready), Rest(edges, user);
    var back := Ordered(edges, rest, sort);
    assert n !in front;
    assert k >= |front| && back[k - |front|] == n;
    assert Ordered(edges, user, sort)[..k] == front + back[..k - |front|];
    if p !in front {
      EarlierLayersFirst(edges, rest, sort, n, k - |front|, p);
    }
  }

  predicate Before(order: seq<string>, p: string, n: string) {
    exists i, j :: 0 <= i < j < |order| && order[i] == p && order[j] == n
  }

  lemma ParentBefore(edges: Parents, user: set<string>, sort: Sort, n: string, p: string)
    requires user <= edges.Keys && Listing(sort) && n in user && p in edges[n] * user && Layer(edges, user, n) >= 0
    ensures Before(Ordered(edges, user, sort), p, n)
  {
    var order := Ordered(edges, user, sort);
    OrderedLists(edges, user, sort);
    ParentLower(edges, user, n, p);
    var k :| 0 <= k < |order| && order[k] == n;
    EarlierLayersFirst(edges, user, sort, n, k, p);
    var b :| 0 <= b < k && order[..k][b] == p;
    assert order[b] == p;
  }

  /** The order of a graph without a cycle. */
  lemma OrderOf(edges: Parents, user: set<string>, sort: Sort)
    requires user <= edges.Keys && Listing(sort) && Stuck(edges, user) == {}
    ensures Lists(Ordered(edges, user, sort), user)
    ensures forall n <- user, p <- edges[n] * user :: Before(Ordered(edges, user, sort), p, n)
  {
    OrderedLists(edges, user, sort);
    forall n | n in user {
      StuckIsUnlayered(edges, user, n);
    }
    forall n, p | n in user && p in edges[n] * user {
      ParentBefore(edges, user, sort, n, p);
    }
  }

  /** An accepted plan lists every table once, with sqlite_sequence last and every other parent strictly before its
      child. The clause about sqlite_sequence is exact: a table that refers to it is imported before it. */
  lemma AcceptedOrder(actual: set<string>, counted: set<string>, keys: seq<ForeignKey>)
    requires forall k <- keys :: k.child in actual
    requires PlanOf(actual, counted, keys).Order?
    ensures var order := PlanOf(actual, counted, keys).tables;
            && Lists(order, actual)
            && (SEQUENCE in actual ==> order[|order| - 1] == SEQUENCE)
            && forall k <- keys :: k.child != SEQUENCE ==> (Before(order, k.parent, k.child) <==> k.parent != SEQUENCE)
  {
    var edges, user := LinkedBy(actual, keys).edges, actual - {SEQUENCE};
    var front, order := Ordered(edges, user, ByName()), PlanOf(actual, counted, keys).tables;
    GraphIsKeys(actual, keys);
    ByNameLists();
    OrderOf(edges, user, ByName());
    SequenceLast(front, order, user);
    forall k | k in keys && k.child != SEQUENCE
      ensures Before(order, k.parent, k.child) <==> k.parent != SEQUENCE
    {
      if k.parent != SEQUENCE {
        assert k.parent in edges[k.child] * user;
        StillBefore(front, order, k.parent, k.child);
      }
    }
  }

  ghost predicate ByNameIn(sort: Sort) {
    forall names :: Lists(sort(names), names) && Rises(sort(names))
  }

  predicate Rises(names: seq<string>) {
    forall i, j :: 0 <= i < j < |names| ==> Text.Less(names[i], names[j])
  }

  /** One table is imported in an earlier layer than another, or before it by name in the same layer. */
  predicate LayerThenName(edges: Parents, user: set<string>, a: string, b: string)
    requires user <= edges.Keys
  {
    Layer(edges, user, a) < Layer(edges, user, b) || (Layer(edges, user, a) == Layer(edges, user, b) && Text.Less(a, b))
  }

  lemma LaterLayers(edges: Parents, user: set<string>, a: string, b: string)
    requires user <= edges.Keys && Ready(edges, user) != {} && a in Rest(edges, user) && b in Rest(edges, user)
    requires Layer(edges, Rest(edges, user), a) >= 0 && Layer(edges, Rest(edges, user), b) >= 0
    ensures LayerThenName(edges, Rest(edges, user), a, b) <==> LayerThenName(edges, user, a, b)
    ensures Layer(edges, user, b) > 0
  {
    LayerStep(edges, user, a);
    LayerStep(edges, user, b);
  }

  lemma {:induction false} OrderedByLayer(edges: Parents, user: set<string>, sort: Sort, i: nat, j: nat)
    requires user <= edges.Keys && ByNameIn(sort) && i < j < |Ordered(edges, user, sort)|
    ensures LayerThenName(edges, user, Ordered(edges, user, sort)[i], Ordered(edges, user, sort)[j])
    decreases user
  {
    var first, rest := sort(Ready(edges, user)), Ordered(edges, Rest(edges, user), sort);
    assert Lists(first, Ready(edges, user)) && Rises(first);
    OrderedLists(edges, Rest(edges, user), sort);
    if j < |first| {
      assert first[i] in first && first[j] in first;
    } else {
      var b := rest[j - |first|];
      assert b in rest;
      if i < |first| {
        assert first[i] in first;
        LaterLayers(edges, user, b, b);
      } else {
        assert rest[i - |first|] in rest;
        OrderedByLayer(edges, Rest(edges, user), sort, i - |first|, j - |first|);
        LaterLayers(edges, user, rest[i - |first|], b);
      }
    }
  }

  /** In an accepted plan the user tables are ordered by layer, and by name within a layer. */
  lemma AcceptedByLayer(actual: set<string>, counted: set<string>, keys: seq<ForeignKey>, i: nat, j: nat)
    requires forall k <- keys :: k.child in actual
    requires PlanOf(actual, counted, keys).Order? && i < j < |PlanOf(actual, counted, keys).tables|
    requires PlanOf(actual, counted, keys).tables[j] != SEQUENCE
    ensures var edges, user := LinkedBy(actual, keys).edges, actual - {SEQUENCE};
            var order := PlanOf(actual, counted, keys).tables;
            LayerThenName(edges, user, order[i], order[j])
  {
    var edges, user := LinkedBy(actual, keys).edges, actual - {SEQUENCE};
    forall names
      ensures Lists(ByName()(names), names) && Rises(ByName()(names))
    {
      SortedIsSorted(names);
    }
    OrderedByLayer(edges, user, ByName(), i, j);
  }

  lemma SequenceLast(front: seq<string>, order: seq<string>, user: set<string>)
    requires order == front || order == front + [SEQUENCE]
    requires Lists(front, user) && SEQUENCE !in user
    ensures Lists(order, if order == front then user else user + {SEQUENCE})
    ensures forall n :: !Before(order, SEQUENCE, n)
  {
    forall i | 0 <= i < |front|
      ensures front[i] != SEQUENCE
    {
      assert front[i] in front;
    }
  }

  lemma StillBefore(front: seq<string>, order: seq<string>, p: string, n: string)
    requires (order == front || order == front + [SEQUENCE]) && Before(front, p, n)
    ensures Before(order, p, n)
  {
    var i, j :| 0 <= i < j < |front| && front[i] == p && front[j] == n;
    assert order[i] == p && order[j] == n;
  }

  /** The whole planner: it accepts exactly when the counts cover the tables, every parent is a table and the foreign
      keys among user tables have no cycle. */
  lemma AcceptsExactlyWhen(actual: set<string>, counted: set<string>, keys: seq<ForeignKey>)
    requires forall k <- keys :: k.child in actual
    ensures PlanOf(actual, counted, keys).Order? <==>
            && counted != {} && actual == counted && (forall k <- keys :: k.parent in actual)
            && !exists c :: KeyCycle(keys, actual - {SEQUENCE}, c)
  {
    GraphIsKeys(actual, keys);
    if counted != {} && actual == counted && LinkedBy(actual, keys).Graph? {
      var edges, user := LinkedBy(actual, keys).edges, actual - {SEQUENCE};
      RefusesExactlyCycles(edges, user);
      forall c
        ensures KeyCycle(keys, user, c) <==> Cycle(edges, user, c)
      {
      }
    }
  }

  /** A cycle in terms of the declared keys. */
  ghost predicate KeyCycle(keys: seq<ForeignKey>, user: set<string>, c: seq<string>) {
    && |c| >= 2 && c[0] == c[|c| - 1] && (forall n <- c :: n in user)
    && forall i :: 0 <= i < |c| - 1 ==> ForeignKey(c[i + 1], c[i]) in keys
  }

  /** A foreign key to sqlite_sequence is accepted, and its parent is then imported last. */
  lemma SequenceParentComesLast()
    ensures PlanOf({"t", "sqlite_sequence"}, {"t", "sqlite_sequence"}, [ForeignKey("t", "sqlite_sequence")]) ==
            Order(["t", "sqlite_sequence"])
  {
    var actual, keys := {"t", SEQUENCE}, [ForeignKey("t", SEQUENCE)];
    var none: map<string, set<string>> := map n | n in actual :: {};
    var edges := none["t" := none["t"] + {SEQUENCE}];
    assert keys[..|keys| - 1] == [] && LinkedBy(actual, []) == Graph(none);
    assert LinkedBy(actual, keys) == Graph(edges);
    assert actual - {SEQUENCE} == {"t"};
    assert edges["t"] == {SEQUENCE};
    assert Ready(edges, {"t"}) == {"t"};
    assert Rest(edges, {"t"}) == {} && Ready(edges, {}) == {};
    assert Least({"t"}) == "t" && {"t"} - {"t"} == {};
    assert Sorted({"t"}) == ["t"];
  }
}
