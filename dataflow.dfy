/** The data-flow analyzer's graph cache: one `Graph` per function, built from the
    function's MIR and, recursively, from the MIR of every closure it defines. */
module DataFlow {
  import opened Common
  import opened Rustc

  /** One thing the graph builder is fed: a statement or a block terminator. */
  datatype GraphInput = Stmt(s: Statement) | Term(t: Terminator)

  /** A `Graph` as the analyzer sees it: the header it was created with, the inputs it
      was fed in order, and the closures those inputs define. How the graph turns its
      inputs into edges is not part of this model. */
  datatype Graph = Graph(owner: DefId, span: nat, argCount: nat, localCount: nat,
                         fed: seq<GraphInput>, closures: set<DefId>)

  /** `Graph::new`. */
  function NewGraph(owner: DefId, span: nat, argCount: nat, localCount: nat): (g: Graph)
    ensures g.fed == [] && g.closures == {}
    ensures g.owner == owner && g.span == span && g.argCount == argCount && g.localCount == localCount
  {
    Graph(owner, span, argCount, localCount, [], {})
  }

  /** The closures mentioned by one input. */
  function InputClosures(x: GraphInput): set<DefId>
  {
    match x
    case Stmt(s) => s.closures
    case Term(t) => t.closures
  }

  /** `add_statm_to_graph` / `add_terminator_to_graph`, as far as the cache sees them:
      the input is recorded and the closures it defines are added to `closures`. */
  function Feed(g: Graph, x: GraphInput): (r: Graph)
    ensures r.fed == g.fed + [x]
    ensures r.closures == g.closures + InputClosures(x)
    ensures r.owner == g.owner && r.span == g.span && r.argCount == g.argCount && r.localCount == g.localCount
  {
    g.(fed := g.fed + [x], closures := g.closures + InputClosures(x))
  }

  /** What one block feeds: its statements in order, then its terminator if it has one. */
  function BlockInputs(b: BasicBlockData): seq<GraphInput>
  {
    StmtInputs(b.statements) + (if b.terminator.Some? then [Term(b.terminator.value)] else [])
  }

  function StmtInputs(ss: seq<Statement>): (r: seq<GraphInput>)
    ensures |r| == |ss| && forall i :: 0 <= i < |ss| ==> r[i] == Stmt(ss[i])
  {
    if ss == [] then [] else StmtInputs(ss[..|ss| - 1]) + [Stmt(ss[|ss| - 1])]
  }

  /** What a whole body feeds, block by block. */
  function BodyInputs(blocks: seq<BasicBlockData>): seq<GraphInput>
  {
    if blocks == [] then [] else BodyInputs(blocks[..|blocks| - 1]) + BlockInputs(blocks[|blocks| - 1])
  }

  /** The union of the closures of a list of inputs. */
  function AllClosures(xs: seq<GraphInput>): set<DefId>
  {
    if xs == [] then {} else AllClosures(xs[..|xs| - 1]) + InputClosures(xs[|xs| - 1])
  }

  /** The graph `build_graph` makes for `id` from its MIR body. */
  function GraphOf(id: DefId, body: Body): Graph
  {
    var inputs := BodyInputs(body.blocks);
    Graph(id, body.span, body.argCount, body.localCount, inputs, AllClosures(inputs))
  }

  /** A closure recorded in a body's graph is one that some statement or terminator of
      some block of the body defines, and every such closure is recorded. */
  lemma {:induction false} GraphOfClosures(id: DefId, body: Body, c: DefId)
    ensures c in GraphOf(id, body).closures <==>
      exists k :: 0 <= k < |body.blocks| && c in AllClosures(BlockInputs(body.blocks[k]))
  {
    BodyClosures(body.blocks, c);
  }

  lemma {:induction false} AllClosuresAppend(xs: seq<GraphInput>, ys: seq<GraphInput>)
    ensures AllClosures(xs + ys) == AllClosures(xs) + AllClosures(ys)
    decreases |ys|
  {
    if ys == [] {
      assert xs + ys == xs;
    } else {
      assert (xs + ys)[..|xs + ys| - 1] == xs + ys[..|ys| - 1];
      AllClosuresAppend(xs, ys[..|ys| - 1]);
    }
  }

  lemma {:induction false} BodyClosures(blocks: seq<BasicBlockData>, c: DefId)
    ensures c in AllClosures(BodyInputs(blocks)) <==>
      exists k :: 0 <= k < |blocks| && c in AllClosures(BlockInputs(blocks[k]))
  {
    if blocks != [] {
      var init := blocks[..|blocks| - 1];
      BodyClosures(init, c);
      AllClosuresAppend(BodyInputs(init), BlockInputs(blocks[|blocks| - 1]));
      if c in AllClosures(BodyInputs(init)) {
        var k :| 0 <= k < |init| && c in AllClosures(BlockInputs(init[k]));
        assert blocks[k] == init[k];
      }
      forall k | 0 <= k < |blocks| && c in AllClosures(BlockInputs(blocks[k]))
        ensures c in AllClosures(BodyInputs(blocks))
      {
        if k < |init| {
          assert init[k] == blocks[k];
        }
      }
    }
  }

  /** The inputs of a body are those of its first blocks followed by those of the rest,
      so every block is fed whole, in block order. */
  lemma {:induction false} BodyInputsAppend(b1: seq<BasicBlockData>, b2: seq<BasicBlockData>)
    ensures BodyInputs(b1 + b2) == BodyInputs(b1) + BodyInputs(b2)
    decreases |b2|
  {
    if b2 == [] {
      assert b1 + b2 == b1;
    } else {
      var init, last := b2[..|b2| - 1], b2[|b2| - 1];
      assert (b1 + b2)[..|b1 + b2| - 1] == b1 + init;
      assert (b1 + b2)[|b1 + b2| - 1] == last;
      assert BodyInputs(b1 + b2) == BodyInputs(b1 + init) + BlockInputs(last);
      BodyInputsAppend(b1, init);
      assert BodyInputs(b2) == BodyInputs(init) + BlockInputs(last);
      InputsAssoc(BodyInputs(b1), BodyInputs(init), BlockInputs(last));
    }
  }

  lemma InputsAssoc(a: seq<GraphInput>, b: seq<GraphInput>, c: seq<GraphInput>)
    ensures a + b + c == a + (b + c)
  {
  }

  /** The length of what a body feeds: one input per statement and per present terminator. */
  function InputCount(blocks: seq<BasicBlockData>): nat
  {
    if blocks == [] then 0
    else
      var last := blocks[|blocks| - 1];
      InputCount(blocks[..|blocks| - 1]) + |last.statements| + (if last.terminator.Some? then 1 else 0)
  }

  lemma {:induction false} BodyInputsLength(blocks: seq<BasicBlockData>)
    ensures |BodyInputs(blocks)| == InputCount(blocks)
  {
    if blocks != [] {
      BodyInputsLength(blocks[..|blocks| - 1]);
    }
  }

  lemma AllClosuresSnoc(xs: seq<GraphInput>, x: GraphInput)
    ensures AllClosures(xs + [x]) == AllClosures(xs) + InputClosures(x)
  {
    assert (xs + [x])[..|xs + [x]| - 1] == xs;
  }

  /** `build_graph`'s scan of one body: every block's statements, then its terminator. */
  method ScanBody(id: DefId, body: Body) returns (g: Graph)
    ensures g == GraphOf(id, body)
  {
    g := NewGraph(id, body.span, body.argCount, body.localCount);
    var i := 0;
    while i < |body.blocks|
      invariant 0 <= i <= |body.blocks|
      invariant g == Graph(id, body.span, body.argCount, body.localCount,
                           BodyInputs(body.blocks[..i]), AllClosures(BodyInputs(body.blocks[..i])))
    {
      g := FeedBlock(g, body.blocks[i]);
      assert body.blocks[..i + 1][..i] == body.blocks[..i];
      i := i + 1;
    }
    assert body.blocks[..i] == body.blocks;
  }

  /** The inner loop of the scan: one block's statements in order, then its terminator. */
  method FeedBlock(g0: Graph, b: BasicBlockData) returns (g: Graph)
    requires g0.closures == AllClosures(g0.fed)
    ensures g == g0.(fed := g0.fed + BlockInputs(b), closures := AllClosures(g0.fed + BlockInputs(b)))
  {
    g := g0;
    var j := 0;
    assert g0.fed + StmtInputs(b.statements[..0]) == g0.fed;
    while j < |b.statements|
      invariant 0 <= j <= |b.statements|
      invariant g == g0.(fed := g0.fed + StmtInputs(b.statements[..j]),
                         closures := AllClosures(g0.fed + StmtInputs(b.statements[..j])))
    {
      ghost var prev := g0.fed + StmtInputs(b.statements[..j]);
      StmtInputsSnoc(g0.fed, b.statements, j);
      AllClosuresSnoc(prev, Stmt(b.statements[j]));
      g := Feed(g, Stmt(b.statements[j]));
      j := j + 1;
    }
    assert b.statements[..j] == b.statements;
    ghost var fedStmts := g0.fed + StmtInputs(b.statements);
    BlockInputsSplit(g0.fed, b);
    if b.terminator.Some? {
      AllClosuresSnoc(fedStmts, Term(b.terminator.value));
      g := Feed(g, Term(b.terminator.value));
    }
  }

  lemma StmtInputsSnoc(fed: seq<GraphInput>, ss: seq<Statement>, j: nat)
    requires j < |ss|
    ensures fed + StmtInputs(ss[..j + 1]) == fed + StmtInputs(ss[..j]) + [Stmt(ss[j])]
  {
    assert ss[..j + 1][..j] == ss[..j];
    InputsAssoc(fed, StmtInputs(ss[..j]), [Stmt(ss[j])]);
  }

  lemma BlockInputsSplit(fed: seq<GraphInput>, b: BasicBlockData)
    ensures b.terminator.Some? ==> fed + BlockInputs(b) == fed + StmtInputs(b.statements) + [Term(b.terminator.value)]
    ensures b.terminator.None? ==> fed + BlockInputs(b) == fed + StmtInputs(b.statements)
  {
    var t := if b.terminator.Some? then [Term(b.terminator.value)] else [];
    InputsAssoc(fed, StmtInputs(b.statements), t);
    if b.terminator.None? {
      assert StmtInputs(b.statements) + t == StmtInputs(b.statements);
    }
  }

  // ---------------------------------------------------------------------------
  // The analyzer

  /** `DataFlowAnalyzer`. The compiler queries it makes are fields: the crate's local
      items with their kinds and whether they own a body, and `optimized_mir`. The graph
      queries the cache delegates to (`into`, `is_connected`, `collect_equivalent_locals`,
      `param_return_deps`) are opaque functions of the graph; `Flow` is what `into` makes
      of a graph and `Deps` what `param_return_deps` returns. `nesting` ranks every item
      above the closures defined in its body (a closure is written inside its parent). */
  class DataFlowAnalyzer<Flow, Deps> {
    const localDefIds: seq<DefId>
    const defKind: DefId -> DefKind
    const hasBody: DefId -> bool
    const mir: DefId -> Body
    const into: Graph -> Flow
    const isConnected: (Graph, Local, Local) -> bool
    const equivalentLocals: (Graph, Local) -> set<Local>
    const paramReturnDeps: Graph -> Deps
    ghost const nesting: DefId -> nat

    var graphs: map<DefId, Graph>

    /** Closures sit strictly below the item whose body defines them. */
    ghost predicate Ranked()
    {
      forall id, c :: c in GraphOf(id, mir(id)).closures ==> nesting(c) < nesting(id)
    }

    /** Every cached graph is the one built from its item's body, and the cache is
        closed under closure references. */
    ghost predicate Valid()
      reads this
    {
      Ranked()
      && (forall id :: id in graphs ==> graphs[id] == GraphOf(id, mir(id)))
      && (forall id, c :: id in graphs && c in graphs[id].closures ==> c in graphs)
    }

    /** The items `build_graph(id)` may build: `id` and, transitively, its closures. */
    ghost function Nested(id: DefId): set<DefId>
      requires Ranked()
      decreases nesting(id)
    {
      {id} + (set c, x | c in GraphOf(id, mir(id)).closures && x in Nested(c) :: x)
    }

    /** A cached item has every closure nested in it cached too, so after
        `build_graph(id)` the cache holds exactly `Nested(id)` beyond what it held before. */
    lemma {:induction false} NestedBuilt(id: DefId)
      requires Valid() && id in graphs
      ensures Nested(id) <= graphs.Keys
      decreases nesting(id)
    {
      forall c | c in GraphOf(id, mir(id)).closures
        ensures Nested(c) <= graphs.Keys
      {
        NestedBuilt(c);
      }
    }

    /** A closure's nested items are nested in the item that defines it. */
    lemma NestedChild(id: DefId, c: DefId)
      requires Ranked() && c in GraphOf(id, mir(id)).closures
      ensures Nested(c) <= Nested(id)
    {
    }

    /** `DataFlowAnalyzer::new`. */
    constructor (localDefIds: seq<DefId>, defKind: DefId -> DefKind, hasBody: DefId -> bool,
                 mir: DefId -> Body, into: Graph -> Flow, isConnected: (Graph, Local, Local) -> bool,
                 equivalentLocals: (Graph, Local) -> set<Local>, paramReturnDeps: Graph -> Deps,
                 ghost nesting: DefId -> nat)
      requires forall id, c :: c in GraphOf(id, mir(id)).closures ==> nesting(c) < nesting(id)
      ensures Valid() && graphs == map[]
      ensures this.localDefIds == localDefIds && this.defKind == defKind && this.hasBody == hasBody
      ensures this.mir == mir && this.into == into && this.isConnected == isConnected
      ensures this.equivalentLocals == equivalentLocals && this.paramReturnDeps == paramReturnDeps
    {
      this.localDefIds := localDefIds;
      this.defKind := defKind;
      this.hasBody := hasBody;
      this.mir := mir;
      this.into := into;
      this.isConnected := isConnected;
      this.equivalentLocals := equivalentLocals;
      this.paramReturnDeps := paramReturnDeps;
      this.nesting := nesting;
      graphs := map[];
    }

    /** `build_graph`: memoised; the closures are built before the graph itself is inserted. */
    method BuildGraph(id: DefId)
      requires Valid()
      modifies this
      ensures Valid()
      ensures id in graphs
      ensures forall k :: k in old(graphs) ==> k in graphs && graphs[k] == old(graphs)[k]
      ensures id in old(graphs) ==> graphs == old(graphs)
      ensures graphs.Keys <= old(graphs).Keys + Nested(id)
      decreases nesting(id)
    {
      if id in graphs {
        return;
      }
      var body := mir(id);
      var graph := ScanBody(id, body);
      var todo := graph.closures;
      while todo != {}
        invariant Valid()
        invariant todo <= graph.closures
        invariant forall c :: c in graph.closures - todo ==> c in graphs
        invariant forall k :: k in old(graphs) ==> k in graphs && graphs[k] == old(graphs)[k]
        invariant graphs.Keys <= old(graphs).Keys + Nested(id)
        decreases |todo|
      {
        var c :| c in todo;
        NestedChild(id, c);
        BuildGraph(c);
        todo := todo - {c};
      }
      graphs := graphs[id := graph];
    }

    /** An item `build_graphs` builds: a function or associated function that owns a body. */
    predicate IsGraphRoot(id: DefId)
    {
      (defKind(id).Fn? || defKind(id).AssocFn?) && hasBody(id)
    }

    /** The items building the roots among `ids` may build. */
    ghost function NestedOfRoots(ids: seq<DefId>): set<DefId>
      requires Ranked()
    {
      if ids == [] then {}
      else
        var last := ids[|ids| - 1];
        NestedOfRoots(ids[..|ids| - 1]) + (if IsGraphRoot(last) then Nested(last) else {})
    }

    lemma NestedOfRootsSnoc(ids: seq<DefId>, i: nat)
      requires Ranked() && i < |ids|
      ensures NestedOfRoots(ids[..i + 1]) == NestedOfRoots(ids[..i]) + (if IsGraphRoot(ids[i]) then Nested(ids[i]) else {})
    {
      assert ids[..i + 1][..i] == ids[..i];
    }

    /** `build_graphs`: build every local function and associated function with a body. */
    method BuildGraphs()
      requires Valid()
      modifies this
      ensures Valid()
      ensures forall id :: id in localDefIds && IsGraphRoot(id) ==> id in graphs
      ensures forall k :: k in old(graphs) ==> k in graphs && graphs[k] == old(graphs)[k]
      ensures graphs.Keys <= old(graphs).Keys + NestedOfRoots(localDefIds)
    {
      var i := 0;
      while i < |localDefIds|
        invariant 0 <= i <= |localDefIds|
        invariant Valid()
        invariant forall id :: id in localDefIds[..i] && IsGraphRoot(id) ==> id in graphs
        invariant forall k :: k in old(graphs) ==> k in graphs && graphs[k] == old(graphs)[k]
        invariant graphs.Keys <= old(graphs).Keys + NestedOfRoots(localDefIds[..i])
      {
        var id := localDefIds[i];
        NestedOfRootsSnoc(localDefIds, i);
        if IsGraphRoot(id) {
          BuildGraph(id);
        }
        assert forall x :: x in localDefIds[..i + 1] ==> x in localDefIds[..i] || x == id;
        i := i + 1;
      }
      assert localDefIds[..i] == localDefIds;
    }

    /** `reset`. */
    method Reset()
      requires Valid()
      modifies this
      ensures Valid() && graphs == map[]
    {
      graphs := map[];
    }

    /** `get_fn_dataflow`: `None` for an item that has not been built. */
    function GetFnDataflow(id: DefId): (r: Option<Flow>)
      reads this
      ensures r.Some? <==> id in graphs
      ensures r.Some? ==> r.value == into(graphs[id])
    {
      if id in graphs then Some(into(graphs[id])) else None
    }

    /** `get_all_dataflow`: the key set of the cache, each graph converted. */
    function GetAllDataflow(): (r: map<DefId, Flow>)
      reads this
      ensures r.Keys == graphs.Keys
      ensures forall id :: id in r ==> r[id] == into(graphs[id])
    {
      map id | id in graphs :: into(graphs[id])
    }

    /** `has_flow_between`: panics on an item that has not been built. */
    function HasFlowBetween(id: DefId, local1: Local, local2: Local): (r: Result<bool>)
      reads this
      ensures r.Panic? <==> id !in graphs
      ensures r.Ok? ==> r.value == isConnected(graphs[id], local1, local2)
    {
      if id in graphs then Ok(isConnected(graphs[id], local1, local2)) else Panic("unwrap on None")
    }

    /** `collect_equivalent_locals`: panics on an item that has not been built. */
    function CollectEquivalentLocals(id: DefId, local: Local): (r: Result<set<Local>>)
      reads this
      ensures r.Panic? <==> id !in graphs
      ensures r.Ok? ==> r.value == equivalentLocals(graphs[id], local)
    {
      if id in graphs then Ok(equivalentLocals(graphs[id], local)) else Panic("unwrap on None")
    }

    /** `get_fn_arg2ret`: panics on an item that has not been built. */
    function GetFnArg2Ret(id: DefId): (r: Result<Deps>)
      reads this
      ensures r.Panic? <==> id !in graphs
      ensures r.Ok? ==> r.value == paramReturnDeps(graphs[id])
    {
      if id in graphs then Ok(paramReturnDeps(graphs[id])) else Panic("unwrap on None")
    }

    /** `get_all_arg2ret`: one entry per cached graph, filled by a loop over the cache. */
    method GetAllArg2Ret() returns (result: map<DefId, Deps>)
      ensures result.Keys == graphs.Keys
      ensures forall id :: id in result ==> result[id] == paramReturnDeps(graphs[id])
    {
      result := map[];
      var todo := graphs.Keys;
      while todo != {}
        invariant todo <= graphs.Keys
        invariant result.Keys == graphs.Keys - todo
        invariant forall id :: id in result ==> result[id] == paramReturnDeps(graphs[id])
        decreases |todo|
      {
        var id :| id in todo;
        result := result[id := paramReturnDeps(graphs[id])];
        todo := todo - {id};
      }
    }
  }
}
