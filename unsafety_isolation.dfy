/** The unsafety-isolation check: a table of isolation-graph nodes, one per unsafe or
    interior-unsafe function met, grown by a breadth-first walk over unsafe callees. */
module UnsafetyIsolation {
  import opened Common
  import opened Rustc
  import opened FnInfo

  datatype UigInstruction = Doc | Upg | Ucons | StdSp

  /** `IsolationGraphNode`: what the check records about one function. */
  datatype IsolationGraphNode = IsolationGraphNode(
    nodeId: DefId,
    nodeType: nat,
    nodeName: string,
    nodeUnsafety: bool,
    isCrateApi: bool,
    callees: seq<DefId>,
    callers: seq<DefId>,
    methods: seq<DefId>,
    constructors: seq<DefId>,
    visitedTag: bool)

  /** `IsolationGraphNode::new`: the given header and every list empty. */
  function NewNode(id: DefId, nodeType: nat, name: string, unsafety: bool, crateApi: bool): (n: IsolationGraphNode)
    ensures n.nodeId == id && n.nodeType == nodeType && n.nodeName == name
    ensures n.nodeUnsafety == unsafety && n.isCrateApi == crateApi
    ensures n.callees == [] && n.callers == [] && n.methods == [] && n.constructors == [] && !n.visitedTag
  {
    IsolationGraphNode(id, nodeType, name, unsafety, crateApi, [], [], [], [], false)
  }

  /** One function body found by the related-function collector, with the two answers
      of `contains_unsafe`: the function is declared unsafe, or it has an unsafe block. */
  datatype RelatedFn = RelatedFn(defId: DefId, functionUnsafe: bool, blockUnsafe: bool)

  /** What `start` prints, one entry per message. */
  datatype Report = LackOfUnsafetyDoc(id: DefId) | UnsafeConstructor(id: DefId)

  // ---------------------------------------------------------------------------
  // Looking nodes up

  /** `nodes.iter().find(|n| n.node_id == id)`, as an index. */
  function FindNode(nodes: seq<IsolationGraphNode>, id: DefId): (r: Option<nat>)
    ensures r.Some? ==> r.value < |nodes| && nodes[r.value].nodeId == id
    ensures r.Some? ==> forall j :: 0 <= j < r.value ==> nodes[j].nodeId != id
    ensures r.None? ==> forall j :: 0 <= j < |nodes| ==> nodes[j].nodeId != id
  {
    if nodes == [] then None
    else if nodes[0].nodeId == id then Some(0)
    else
      match FindNode(nodes[1..], id)
      case None => None
      case Some(k) => Some(k + 1)
  }

  /** The table after a step that keeps every node's id in place and may append nodes. */
  ghost predicate IdsKept(a: seq<IsolationGraphNode>, b: seq<IsolationGraphNode>)
  {
    |a| <= |b| && forall i :: 0 <= i < |a| ==> b[i].nodeId == a[i].nodeId
  }

  /** `y` is `x` with a longer `methods` list and nothing else changed. */
  ghost predicate MethodsExtended(x: IsolationGraphNode, y: IsolationGraphNode)
  {
    y == x.(methods := y.methods) && x.methods <= y.methods
  }

  /** The table after a step that may append nodes and may extend `methods` lists,
      and changes nothing else. */
  ghost predicate MethodsGrew(a: seq<IsolationGraphNode>, b: seq<IsolationGraphNode>)
  {
    |a| <= |b| && forall i :: 0 <= i < |a| ==> MethodsExtended(a[i], b[i])
  }

  /** The table after a callee visit: nodes may be appended, and existing nodes keep
      their id and their callers. */
  ghost predicate KeepsCallers(a: seq<IsolationGraphNode>, b: seq<IsolationGraphNode>)
  {
    |a| <= |b| && forall i :: 0 <= i < |a| ==> b[i].nodeId == a[i].nodeId && b[i].callers == a[i].callers
  }

  lemma MethodsGrewTrans(a: seq<IsolationGraphNode>, b: seq<IsolationGraphNode>, c: seq<IsolationGraphNode>)
    requires MethodsGrew(a, b) && MethodsGrew(b, c)
    ensures MethodsGrew(a, c)
  {
    forall i | 0 <= i < |a|
      ensures MethodsExtended(a[i], c[i])
    {
      assert MethodsExtended(a[i], b[i]) && MethodsExtended(b[i], c[i]);
    }
  }

  lemma MethodsGrewKeeps(a: seq<IsolationGraphNode>, b: seq<IsolationGraphNode>)
    requires MethodsGrew(a, b)
    ensures IdsKept(a, b) && KeepsCallers(a, b)
  {
    forall i | 0 <= i < |a|
      ensures b[i].nodeId == a[i].nodeId && b[i].callers == a[i].callers
    {
      assert MethodsExtended(a[i], b[i]);
    }
  }

  /** A node appended for an id absent from the table is the one found for it. */
  lemma FindNodeLast(nodes: seq<IsolationGraphNode>, node: IsolationGraphNode)
    requires FindNode(nodes, node.nodeId).None?
    ensures FindNode(nodes + [node], node.nodeId) == Some(|nodes|)
  {
    var r := FindNode(nodes + [node], node.nodeId);
    assert (nodes + [node])[|nodes|].nodeId == node.nodeId;
  }

  /** Growing the table never moves the first node of an id that was already there. */
  lemma {:induction false} FindNodeStable(a: seq<IsolationGraphNode>, b: seq<IsolationGraphNode>, id: DefId)
    requires IdsKept(a, b)
    ensures FindNode(a, id).Some? ==> FindNode(b, id) == FindNode(a, id)
    ensures FindNode(a, id).None? && FindNode(b, id).Some? ==> FindNode(b, id).value >= |a|
  {
    if a != [] && a[0].nodeId != id {
      assert b[0].nodeId == a[0].nodeId;
      assert IdsKept(a[1..], b[1..]);
      FindNodeStable(a[1..], b[1..], id);
    }
  }

  /** Ids that have a node keep having one when the table keeps its ids. */
  lemma FoundKept(a: seq<IsolationGraphNode>, b: seq<IsolationGraphNode>, xs: seq<DefId>)
    requires IdsKept(a, b)
    requires forall x :: x in xs ==> FindNode(a, x).Some?
    ensures forall x :: x in xs ==> FindNode(b, x) == FindNode(a, x)
  {
    forall x | x in xs
      ensures FindNode(b, x) == FindNode(a, x)
    {
      FindNodeStable(a, b, x);
    }
  }

  // ---------------------------------------------------------------------------
  // Names

  /** Where `str::trim_start` cuts: past every leading white-space character. */
  function TrimStart(s: string): (i: nat)
    ensures i <= |s|
    ensures forall k :: 0 <= k < i ==> IsWhitespace(s[k])
    ensures i < |s| ==> !IsWhitespace(s[i])
  {
    if |s| > 0 && IsWhitespace(s[0]) then 1 + TrimStart(s[1..]) else 0
  }

  /** Where `str::trim_end` cuts, looking no further left than `i`: before every trailing
      white-space character. */
  function TrimEnd(s: string, i: nat): (j: nat)
    requires i <= |s|
    ensures i <= j <= |s|
    ensures forall k :: j <= k < |s| ==> IsWhitespace(s[k])
    ensures j > i ==> !IsWhitespace(s[j - 1])
  {
    if |s| > i && IsWhitespace(s[|s| - 1]) then TrimEnd(s[..|s| - 1], i) else |s|
  }

  /** Rust's `str::trim`: the part of `s` that starts after its leading white space,
      with only white space after it. */
  function Trim(s: string): (r: string)
    ensures r == [] || (!IsWhitespace(r[0]) && !IsWhitespace(r[|r| - 1]))
    ensures TrimStart(s) + |r| <= |s| && r == s[TrimStart(s)..TrimStart(s) + |r|]
    ensures forall k :: TrimStart(s) + |r| <= k < |s| ==> IsWhitespace(s[k])
  {
    var i := TrimStart(s);
    s[i..TrimEnd(s, i)]
  }

  /** Trimming a string that neither starts nor ends with white space keeps it. */
  lemma TrimKeeps(s: string)
    requires s == [] || (!IsWhitespace(s[0]) && !IsWhitespace(s[|s| - 1]))
    ensures Trim(s) == s
  {
  }

  /** `get_name`: `Type.method` for an item of an impl, the last path segment for any
      other function, and the empty string for a trait item. */
  function GetName(tcx: Tcx, id: DefId): (r: string)
    ensures tcx.assocItem(id).Some? && tcx.assocItem(id).value.implContainer.None? ==> r == ""
    ensures tcx.assocItem(id).Some? && tcx.assocItem(id).value.implContainer.Some? ==> '.' in r
    ensures tcx.assocItem(id).None? ==> var path := tcx.defPathNoCrate(id);
      |r| <= |path| && path[|path| - |r|..] == r
  {
    match tcx.assocItem(id)
    case Some(item) =>
      (match item.implContainer
       case Some(implId) =>
         var typeName := Trim(Split(tcx.tyDisplay(tcx.typeOf(implId)), "<")[0]);
         assert (typeName + "." + Last(Split(tcx.defPathNoCrate(id), "::")))[|typeName|] == '.';
         typeName + "." + Last(Split(tcx.defPathNoCrate(id), "::"))
       case None => "")
    case None =>
      SplitLastSuffix(tcx.defPathNoCrate(id), "::");
      Last(Split(tcx.defPathNoCrate(id), "::"))
  }

  /** A free function at `a::b::name` is named `name`. */
  lemma GetNameOfFunction(tcx: Tcx, id: DefId, prefix: seq<string>, name: string)
    requires tcx.assocItem(id).None?
    requires tcx.defPathNoCrate(id) == Join(prefix + [name], "::")
    requires ':' !in name && forall p :: p in prefix ==> ':' !in p
    ensures GetName(tcx, id) == name
  {
    assert forall p :: p in prefix + [name] ==> ':' !in p;
    SplitJoinFree(prefix + [name]);
  }

  /** A method `name` of an impl for `Type<...>` is named `Type.name`. */
  lemma GetNameOfMethod(tcx: Tcx, id: DefId, typeName: string, generics: string,
                        prefix: seq<string>, name: string)
    requires tcx.assocItem(id).Some? && tcx.assocItem(id).value.implContainer.Some?
    requires tcx.tyDisplay(tcx.typeOf(tcx.assocItem(id).value.implContainer.value)) == typeName + "<" + generics
    requires '<' !in typeName && (typeName == [] || (!IsWhitespace(typeName[0]) && !IsWhitespace(typeName[|typeName| - 1])))
    requires tcx.defPathNoCrate(id) == Join(prefix + [name], "::")
    requires ':' !in name && forall p :: p in prefix ==> ':' !in p
    ensures GetName(tcx, id) == typeName + "." + name
  {
    assert typeName + "<" + generics == typeName + ("<" + generics);
    SplitPrefixAtFirst(typeName, "<" + generics);
    TrimKeeps(typeName);
    assert forall p :: p in prefix + [name] ==> ':' !in p;
    SplitJoinFree(prefix + [name]);
  }

  // ---------------------------------------------------------------------------
  // What the node operations compute

  /** An associated item of kind `Fn`. */
  predicate IsAssocFnItem(tcx: Tcx, id: DefId)
  {
    tcx.assocItem(id).Some? && tcx.assocItem(id).value.kind.FnItem?
  }

  /** The constructors among `items`, in order; the first classification that panics
      makes the whole search panic. */
  function ConstructorIdsAmong(tcx: Tcx, items: seq<DefId>): Result<seq<DefId>>
  {
    if items == [] then Ok([])
    else
      var prev :- ConstructorIdsAmong(tcx, items[..|items| - 1]);
      var item := items[|items| - 1];
      if IsAssocFnItem(tcx, item) then
        var t :- GetTypeAsWritten(tcx, item);
        Ok(if t == CONSTRUCTOR then prev + [item] else prev)
      else Ok(prev)
  }

  /** Every id the search reports is an associated function among the items that
      `get_type` classifies as a constructor. */
  lemma {:induction false} ConstructorIdsSound(tcx: Tcx, items: seq<DefId>)
    requires ConstructorIdsAmong(tcx, items).Ok?
    ensures forall c :: c in ConstructorIdsAmong(tcx, items).value ==>
      c in items && IsAssocFnItem(tcx, c) && GetTypeAsWritten(tcx, c) == Ok(CONSTRUCTOR)
  {
    if items != [] {
      ConstructorIdsSound(tcx, items[..|items| - 1]);
    }
  }

  /** Conversely, every associated function among the items that `get_type` classifies
      as a constructor is reported, once the search does not panic. */
  lemma {:induction false} ConstructorIdsComplete(tcx: Tcx, items: seq<DefId>, c: DefId)
    requires ConstructorIdsAmong(tcx, items).Ok?
    requires c in items && IsAssocFnItem(tcx, c) && GetTypeAsWritten(tcx, c) == Ok(CONSTRUCTOR)
    ensures c in ConstructorIdsAmong(tcx, items).value
  {
    var init := items[..|items| - 1];
    assert items == init + [items[|items| - 1]];
    if c != items[|items| - 1] {
      ConstructorIdsComplete(tcx, init, c);
    }
  }

  /** What `search_constructor` returns: the constructors among the items of the ids
      `get_impls_for_struct` yields for the ADT that `id`'s impl is for (the associated
      `type` items naming it); nothing when `id` is not in an impl of an ADT. */
  function ConstructorIdsFor(tcx: Tcx, id: DefId): Result<seq<DefId>>
  {
    match tcx.assocItem(id)
    case Some(item) =>
      (match item.implContainer
       case Some(implId) =>
         var ty := tcx.typeOf(implId);
         if ty.Adt? then ConstructorIdsAmong(tcx, ItemsOf(tcx, GetImplsForStruct(tcx, ty.did))) else Ok([])
       case None => Ok([]))
    case None => Ok([])
  }

  /** As written, a crate with no associated `type` item naming the ADT gives a method
      no constructors at all, however many `fn new() -> Self` its impls hold: for
      `struct S; impl S { fn new() -> S; fn get(&self) }` the search from `get` finds nothing. */
  lemma ConstructorIdsWithoutTypeItems(tcx: Tcx, id: DefId)
    requires tcx.assocItem(id).Some? && tcx.assocItem(id).value.implContainer.Some?
    requires var ty := tcx.typeOf(tcx.assocItem(id).value.implContainer.value);
      ty.Adt? && forall x :: ImplItem(x, TypeAlias(Some(ty.did))) !in tcx.implItems
    ensures ConstructorIdsFor(tcx, id) == Ok([])
  {
    var ty := tcx.typeOf(tcx.assocItem(id).value.implContainer.value);
    assert GetImplsForStruct(tcx, ty.did) == [];
  }

  /** The search over the impl blocks of the ADT, as `get_impls_for_struct` is meant to
      return them. */
  function ConstructorIdsForIntended(tcx: Tcx, id: DefId): Result<seq<DefId>>
  {
    match tcx.assocItem(id)
    case Some(item) =>
      (match item.implContainer
       case Some(implId) =>
         var ty := tcx.typeOf(implId);
         if ty.Adt? then ConstructorIdsAmong(tcx, ItemsOf(tcx, ImplsForStructIntended(tcx, ty.did))) else Ok([])
       case None => Ok([]))
    case None => Ok([])
  }

  /** The intended search finds every constructor of every impl block of the ADT: in
      the example above, `new` is found from `get`. */
  lemma IntendedFindsConstructor(tcx: Tcx, id: DefId, implId: DefId, c: DefId)
    requires tcx.assocItem(id).Some? && tcx.assocItem(id).value.implContainer.Some?
    requires var ty := tcx.typeOf(tcx.assocItem(id).value.implContainer.value);
      ty.Adt? && implId in tcx.crateImpls && tcx.typeOf(implId).Adt? && tcx.typeOf(implId).did == ty.did
    requires c in tcx.associatedItemIds(implId) && IsAssocFnItem(tcx, c) && GetTypeAsWritten(tcx, c) == Ok(CONSTRUCTOR)
    requires ConstructorIdsForIntended(tcx, id).Ok?
    ensures c in ConstructorIdsForIntended(tcx, id).value
  {
    var ty := tcx.typeOf(tcx.assocItem(id).value.implContainer.value);
    var impls := ImplsForStructIntended(tcx, ty.did);
    ItemsOfHas(tcx, impls, implId, c);
    ConstructorIdsComplete(tcx, ItemsOf(tcx, impls), c);
  }

  /** The node made for `id`: classified by `get_type`, named by `get_name`, and, for a
      method, carrying its type's constructors. */
  function BuiltNode(tcx: Tcx, id: DefId, unsafety: bool, crateApi: bool): Result<IsolationGraphNode>
  {
    var t :- GetTypeAsWritten(tcx, id);
    var cons :- if t == METHOD then ConstructorIdsFor(tcx, id) else Ok([]);
    Ok(NewNode(id, t, GetName(tcx, id), unsafety, crateApi).(constructors := cons))
  }

  /** A node for a function that is not a method is built without a constructor search,
      and building it panics only when classifying it does. */
  lemma BuiltNodeOfNonMethod(tcx: Tcx, id: DefId, unsafety: bool, crateApi: bool)
    requires GetTypeAsWritten(tcx, id).Ok? && GetTypeAsWritten(tcx, id).value != METHOD
    ensures BuiltNode(tcx, id, unsafety, crateApi).Ok?
    ensures BuiltNode(tcx, id, unsafety, crateApi).value.constructors == []
    ensures BuiltNode(tcx, id, unsafety, crateApi).value.nodeType == GetTypeAsWritten(tcx, id).value
  {
  }

  /** The unsafe callees of a body, block by block: the callee of every call through a
      constant `FnDef` whose signature is unsafe. `bb.terminator()` panics on a block
      that has none. */
  function BlockCallees(tcx: Tcx, blocks: seq<BasicBlockData>): Result<seq<DefId>>
  {
    if blocks == [] then Ok([])
    else
      var prev :- BlockCallees(tcx, blocks[..|blocks| - 1]);
      var b := blocks[|blocks| - 1];
      if b.terminator.None? then Panic("invalid terminator state")
      else
        var c := ConstantCallee(b.terminator.value.kind);
        Ok(if c.Some? && tcx.isUnsafe(c.value) then prev + [c.value] else prev)
  }

  function UnsafeCallees(tcx: Tcx, id: DefId): Result<seq<DefId>>
  {
    if tcx.isMirAvailable(id) then BlockCallees(tcx, tcx.mir(id).blocks) else Ok([])
  }

  /** One more block of the scan: a block without terminator panics; otherwise an unsafe
      constant callee is appended, and appears in the deduplicated list iff it is new. */
  lemma BlockStep(tcx: Tcx, blocks: seq<BasicBlockData>, i: nat)
    requires i < |blocks| && BlockCallees(tcx, blocks[..i]).Ok?
    ensures blocks[i].terminator.None? ==> BlockCallees(tcx, blocks[..i + 1]).Panic?
    ensures blocks[i].terminator.Some? ==>
      var c := ConstantCallee(blocks[i].terminator.value.kind);
      var prev := BlockCallees(tcx, blocks[..i]).value;
      BlockCallees(tcx, blocks[..i + 1]).Ok?
      && Dedup(BlockCallees(tcx, blocks[..i + 1]).value) ==
         if c.Some? && tcx.isUnsafe(c.value) && c.value !in Dedup(prev) then Dedup(prev) + [c.value] else Dedup(prev)
  {
    assert blocks[..i + 1][..i] == blocks[..i];
    if blocks[i].terminator.Some? {
      var c := ConstantCallee(blocks[i].terminator.value.kind);
      DedupSnoc(BlockCallees(tcx, blocks[..i]).value, if c.Some? then c.value else 0);
    }
  }

  /** Every callee listed is the unsafe callee of a call terminator of some block. */
  lemma {:induction false} BlockCalleesSound(tcx: Tcx, blocks: seq<BasicBlockData>)
    requires BlockCallees(tcx, blocks).Ok?
    ensures forall k :: 0 <= k < |blocks| ==> blocks[k].terminator.Some?
    ensures forall c :: c in BlockCallees(tcx, blocks).value ==> (tcx.isUnsafe(c) &&
      exists k :: 0 <= k < |blocks| && ConstantCallee(blocks[k].terminator.value.kind) == Some(c))
  {
    if blocks != [] {
      var init := blocks[..|blocks| - 1];
      BlockCalleesSound(tcx, init);
      forall c | c in BlockCallees(tcx, blocks).value
        ensures exists k :: 0 <= k < |blocks| && ConstantCallee(blocks[k].terminator.value.kind) == Some(c)
      {
        if c in BlockCallees(tcx, init).value {
          var k :| 0 <= k < |init| && ConstantCallee(init[k].terminator.value.kind) == Some(c);
          assert blocks[k] == init[k];
        }
      }
    }
  }

  /** Which messages `start` prints for a scan of the related functions. */
  function StartReports(tcx: Tcx, hasUnsafetyDoc: DefId -> bool, ins: UigInstruction,
                        related: seq<RelatedFn>): Result<seq<Report>>
  {
    if related == [] then Ok([])
    else
      var prev :- StartReports(tcx, hasUnsafetyDoc, ins, related[..|related| - 1]);
      var f := related[|related| - 1];
      if !f.functionUnsafe then Ok(prev)
      else if ins == Doc then Ok(if hasUnsafetyDoc(f.defId) then prev else prev + [LackOfUnsafetyDoc(f.defId)])
      else if ins == Ucons then
        var t :- GetTypeAsWritten(tcx, f.defId);
        Ok(if t == CONSTRUCTOR then prev + [UnsafeConstructor(f.defId)] else prev)
      else Ok(prev)
  }

  /** Under `Doc` only undocumented unsafe functions are reported, under `Ucons` only
      unsafe constructors, and nothing else is ever reported. */
  lemma {:induction false} StartReportsSound(tcx: Tcx, hasUnsafetyDoc: DefId -> bool, ins: UigInstruction,
                                             related: seq<RelatedFn>)
    requires StartReports(tcx, hasUnsafetyDoc, ins, related).Ok?
    ensures forall rep :: rep in StartReports(tcx, hasUnsafetyDoc, ins, related).value ==>
      RelatedFn(rep.id, true, false) in related || RelatedFn(rep.id, true, true) in related
    ensures forall rep :: rep in StartReports(tcx, hasUnsafetyDoc, ins, related).value ==>
      if rep.LackOfUnsafetyDoc? then ins == Doc && !hasUnsafetyDoc(rep.id)
      else ins == Ucons && GetTypeAsWritten(tcx, rep.id) == Ok(CONSTRUCTOR)
  {
    if related != [] {
      var init := related[..|related| - 1];
      StartReportsSound(tcx, hasUnsafetyDoc, ins, init);
      var f := related[|related| - 1];
      assert f in related && f == RelatedFn(f.defId, f.functionUnsafe, f.blockUnsafe);
      assert forall x :: x in init ==> x in related;
    }
  }

  /** The function ids the first phase of `filter_and_extend_unsafe` records: every
      related function that is unsafe or holds an unsafe block. */
  function UnsafeRelatedIds(related: seq<RelatedFn>): seq<DefId>
  {
    if related == [] then []
    else
      var f := related[|related| - 1];
      var prev := UnsafeRelatedIds(related[..|related| - 1]);
      if f.functionUnsafe || f.blockUnsafe then prev + [f.defId] else prev
  }

  /** An id is recorded exactly when some related function with that id is unsafe or
      holds an unsafe block. */
  lemma {:induction false} UnsafeRelatedIdsMembers(related: seq<RelatedFn>)
    ensures forall x :: x in UnsafeRelatedIds(related) <==>
      exists k :: 0 <= k < |related| && related[k].defId == x && (related[k].functionUnsafe || related[k].blockUnsafe)
  {
    if related != [] {
      var init := related[..|related| - 1];
      UnsafeRelatedIdsMembers(init);
      assert forall k :: 0 <= k < |init| ==> init[k] == related[k];
    }
  }

  // ---------------------------------------------------------------------------
  // The tables the node operations leave

  /** The table after `set_method_for_constructor(c, m)`. */
  function WithMethod(nodes: seq<IsolationGraphNode>, c: DefId, m: DefId): seq<IsolationGraphNode>
  {
    match FindNode(nodes, c)
    case None => nodes
    case Some(i) => nodes[i := nodes[i].(methods := PushUnique(nodes[i].methods, m))]
  }

  /** The table after `set_caller_for_callee(id, c)`. */
  function WithCaller(nodes: seq<IsolationGraphNode>, c: DefId, id: DefId): seq<IsolationGraphNode>
  {
    match FindNode(nodes, c)
    case None => nodes
    case Some(i) => nodes[i := nodes[i].(callers := PushUnique(nodes[i].callers, id))]
  }

  /** The node `check_and_insert_node` builds for a constructor: a constructor is not a
      method, so no constructor search runs for it. */
  function ConsNode(tcx: Tcx, rel: seq<DefId>, c: DefId): IsolationGraphNode
  {
    NewNode(c, CONSTRUCTOR, GetName(tcx, c), tcx.isUnsafe(c), c in rel)
  }

  /** The table after `check_and_insert_node(c)` for a constructor `c`. */
  function InsertCons(tcx: Tcx, rel: seq<DefId>, nodes: seq<IsolationGraphNode>, c: DefId): seq<IsolationGraphNode>
  {
    if FindNode(nodes, c).Some? then nodes else nodes + [ConsNode(tcx, rel, c)]
  }

  /** The table after the loop of `search_constructor` for the method `m` has met the
      constructors `cons`, in order: each gets a node if it has none, and `m` is
      recorded on its node. `rel` is the crate-API list. */
  function RecordTable(tcx: Tcx, rel: seq<DefId>, nodes: seq<IsolationGraphNode>, cons: seq<DefId>, m: DefId)
    : seq<IsolationGraphNode>
  {
    if cons == [] then nodes
    else
      var c := cons[|cons| - 1];
      WithMethod(InsertCons(tcx, rel, RecordTable(tcx, rel, nodes, cons[..|cons| - 1], m), c), c, m)
  }

  /** The table after `search_constructor(id)`; as it was when the search panics. */
  function SearchTable(tcx: Tcx, rel: seq<DefId>, nodes: seq<IsolationGraphNode>, id: DefId): seq<IsolationGraphNode>
  {
    match ConstructorIdsFor(tcx, id)
    case Ok(cons) => RecordTable(tcx, rel, nodes, cons, id)
    case Panic(_) => nodes
  }

  /** The table after `check_and_insert_node(id)`: unchanged when `id` has a node;
      otherwise the constructor search a method needs, then the built node, last. */
  function InsertedTable(tcx: Tcx, rel: seq<DefId>, nodes: seq<IsolationGraphNode>, id: DefId): seq<IsolationGraphNode>
  {
    if FindNode(nodes, id).Some? then nodes
    else
      match BuiltNode(tcx, id, tcx.isUnsafe(id), id in rel)
      case Panic(_) => nodes
      case Ok(n) => (if n.nodeType == METHOD then SearchTable(tcx, rel, nodes, id) else nodes) + [n]
  }

  /** The table after the block loop of `visit_node_callees(id)` has met the unsafe
      callees `cs`, each once, in order: a callee without a node is inserted and given
      `id` as its caller; a callee with a node changes nothing. */
  function CalleeTable(tcx: Tcx, rel: seq<DefId>, nodes: seq<IsolationGraphNode>, cs: seq<DefId>, id: DefId)
    : seq<IsolationGraphNode>
  {
    if cs == [] then nodes
    else
      var prev := CalleeTable(tcx, rel, nodes, cs[..|cs| - 1], id);
      var c := cs[|cs| - 1];
      if FindNode(prev, c).Some? then prev else WithCaller(InsertedTable(tcx, rel, prev, c), c, id)
  }

  /** The first node of `id`, if any, holds the callee list `cs` and is marked visited. */
  function MarkTable(nodes: seq<IsolationGraphNode>, id: DefId, cs: seq<DefId>): seq<IsolationGraphNode>
  {
    match FindNode(nodes, id)
    case None => nodes
    case Some(i) => nodes[i := nodes[i].(callees := cs, visitedTag := true)]
  }

  /** The table after `visit_node_callees(id)` has succeeded. */
  function VisitTable(tcx: Tcx, rel: seq<DefId>, nodes: seq<IsolationGraphNode>, id: DefId): seq<IsolationGraphNode>
  {
    var cs := if UnsafeCallees(tcx, id).Ok? then Dedup(UnsafeCallees(tcx, id).value) else [];
    MarkTable(CalleeTable(tcx, rel, nodes, cs, id), id, cs)
  }

  /** The table after the breadth-first walk has visited the callees of `expanded`, in order. */
  function WalkTable(tcx: Tcx, rel: seq<DefId>, nodes: seq<IsolationGraphNode>, expanded: seq<DefId>)
    : seq<IsolationGraphNode>
  {
    if expanded == [] then nodes
    else VisitTable(tcx, rel, WalkTable(tcx, rel, nodes, expanded[..|expanded| - 1]), expanded[|expanded| - 1])
  }

  /** Seeding only appends nodes and adds methods to older ones: a seeded method's
      constructor search records it on the constructor nodes already there. */
  lemma SeedTableGrew(tcx: Tcx, rel: seq<DefId>, nodes: seq<IsolationGraphNode>, f: RelatedFn)
    ensures MethodsGrew(nodes, SeedTable(tcx, rel, nodes, f))
  {
    MethodsGrewRefl(nodes);
    match BuiltNode(tcx, f.defId, f.functionUnsafe, true)
    case Panic(_) =>
    case Ok(n) =>
      var t := if n.nodeType == METHOD then SearchTable(tcx, rel, nodes, f.defId) else nodes;
      SearchTableFacts(tcx, rel, nodes, f.defId);
      forall i | 0 <= i < |nodes|
        ensures MethodsExtended(nodes[i], (t + [n])[i])
      {
        assert MethodsExtended(nodes[i], t[i]);
      }
  }

  lemma {:induction false} SeedsTableGrew(tcx: Tcx, rel0: seq<DefId>, nodes: seq<IsolationGraphNode>,
                                          related: seq<RelatedFn>)
    ensures MethodsGrew(nodes, SeedsTable(tcx, rel0, nodes, related))
    decreases |related|
  {
    if related == [] {
      MethodsGrewRefl(nodes);
    } else {
      var init := related[..|related| - 1];
      var f := related[|related| - 1];
      var prev := SeedsTable(tcx, rel0, nodes, init);
      SeedsTableGrew(tcx, rel0, nodes, init);
      if f.functionUnsafe || f.blockUnsafe {
        SeedTableGrew(tcx, rel0 + UnsafeRelatedIds(init), prev, f);
        MethodsGrewTrans(nodes, prev, SeedTable(tcx, rel0 + UnsafeRelatedIds(init), prev, f));
      }
    }
  }

  lemma SeedsTableSnoc(tcx: Tcx, rel0: seq<DefId>, nodes: seq<IsolationGraphNode>, related: seq<RelatedFn>, k: nat)
    requires k < |related|
    ensures SeedsTable(tcx, rel0, nodes, related[..k + 1]) ==
      if related[k].functionUnsafe || related[k].blockUnsafe
      then SeedTable(tcx, rel0 + UnsafeRelatedIds(related[..k]), SeedsTable(tcx, rel0, nodes, related[..k]), related[k])
      else SeedsTable(tcx, rel0, nodes, related[..k])
  {
    assert related[..k + 1][..k] == related[..k];
  }

  lemma WalkTableSnoc(tcx: Tcx, rel: seq<DefId>, nodes: seq<IsolationGraphNode>, expanded: seq<DefId>, id: DefId)
    ensures WalkTable(tcx, rel, nodes, expanded + [id]) == VisitTable(tcx, rel, WalkTable(tcx, rel, nodes, expanded), id)
  {
    assert (expanded + [id])[..|expanded|] == expanded;
  }

  // ---------------------------------------------------------------------------
  // When the two phases return normally

  /** Building the node of `id` does not panic: `get_type` classifies it and, for a
      method, the constructor search completes. */
  ghost predicate Builds(tcx: Tcx, id: DefId)
  {
    GetTypeAsWritten(tcx, id).Ok? && (GetTypeAsWritten(tcx, id).value == METHOD ==> ConstructorIdsFor(tcx, id).Ok?)
  }

  /** Whether a node builds depends neither on its unsafety nor on its crate-API mark. */
  lemma BuiltNodeOk(tcx: Tcx, id: DefId, unsafety: bool, crateApi: bool)
    ensures BuiltNode(tcx, id, unsafety, crateApi).Ok? <==> Builds(tcx, id)
  {
  }

  /** Every callee in `cs` had a node in `nodes`, or gets one without panicking. */
  ghost predicate CalleesBuild(tcx: Tcx, nodes: seq<IsolationGraphNode>, cs: seq<DefId>)
  {
    forall c :: c in cs ==> FindNode(nodes, c).Some? || Builds(tcx, c)
  }

  lemma CalleesBuildDedup(tcx: Tcx, nodes: seq<IsolationGraphNode>, cs: seq<DefId>)
    ensures CalleesBuild(tcx, nodes, Dedup(cs)) <==> CalleesBuild(tcx, nodes, cs)
  {
  }

  /** `visit_node_callees(id)` started on the table `nodes` returns: every block of the
      body has a terminator, and every unsafe callee without a node gets one. */
  ghost predicate VisitOk(tcx: Tcx, nodes: seq<IsolationGraphNode>, id: DefId)
  {
    UnsafeCallees(tcx, id).Ok? && CalleesBuild(tcx, nodes, UnsafeCallees(tcx, id).value)
  }

  /** The breadth-first walk that expands `expanded`, in order, from the table `nodes`
      returns: each visit returns on the table the earlier ones left. */
  ghost predicate WalkOk(tcx: Tcx, rel: seq<DefId>, nodes: seq<IsolationGraphNode>, expanded: seq<DefId>)
    decreases |expanded|
  {
    expanded == []
    || (var prefix := expanded[..|expanded| - 1];
        WalkOk(tcx, rel, nodes, prefix) && VisitOk(tcx, WalkTable(tcx, rel, nodes, prefix), expanded[|expanded| - 1]))
  }

  /** The first phase over `related` returns: the node of every unsafe related function builds. */
  ghost predicate SeedsBuild(tcx: Tcx, related: seq<RelatedFn>)
  {
    forall f :: f in related && (f.functionUnsafe || f.blockUnsafe) ==> Builds(tcx, f.defId)
  }

  /** A scan of the blocks that completes completes on every prefix, and finds there
      only callees the whole scan finds. */
  lemma {:induction false} BlockCalleesPrefix(tcx: Tcx, blocks: seq<BasicBlockData>, i: nat)
    requires i <= |blocks| && BlockCallees(tcx, blocks).Ok?
    ensures BlockCallees(tcx, blocks[..i]).Ok?
    ensures forall c :: c in BlockCallees(tcx, blocks[..i]).value ==> c in BlockCallees(tcx, blocks).value
    decreases |blocks|
  {
    if i < |blocks| {
      var init := blocks[..|blocks| - 1];
      assert init[..i] == blocks[..i];
      BlockCalleesPrefix(tcx, init, i);
    } else {
      assert blocks[..i] == blocks;
    }
  }

  lemma WalkOkSnoc(tcx: Tcx, rel: seq<DefId>, nodes: seq<IsolationGraphNode>, expanded: seq<DefId>, id: DefId)
    ensures WalkOk(tcx, rel, nodes, expanded + [id]) <==>
      WalkOk(tcx, rel, nodes, expanded) && VisitOk(tcx, WalkTable(tcx, rel, nodes, expanded), id)
  {
    assert (expanded + [id])[..|expanded|] == expanded;
  }

  /** One turn of the walk keeps `WalkOk` exactly when it returns: a function of the
      crate is expanded, and the turn returns iff its visit does; any other id is skipped. */
  lemma WalkOkTurn(tcx: Tcx, rel: seq<DefId>, nodes: seq<IsolationGraphNode>, expanded: seq<DefId>,
                   expanded': seq<DefId>, id: DefId, ok: bool)
    requires WalkOk(tcx, rel, nodes, expanded)
    requires expanded' == if id in rel then expanded + [id] else expanded
    requires ok <==> id !in rel || VisitOk(tcx, WalkTable(tcx, rel, nodes, expanded), id)
    ensures ok <==> WalkOk(tcx, rel, nodes, expanded')
  {
    WalkOkSnoc(tcx, rel, nodes, expanded, id);
  }

  /** A visit that returns on a table returns on every table grown from it. */
  lemma VisitOkKept(tcx: Tcx, a: seq<IsolationGraphNode>, b: seq<IsolationGraphNode>, id: DefId)
    requires IdsKept(a, b) && VisitOk(tcx, a, id)
    ensures VisitOk(tcx, b, id)
  {
    forall c | c in UnsafeCallees(tcx, id).value
      ensures FindNode(b, c).Some? || Builds(tcx, c)
    {
      FindNodeStable(a, b, c);
    }
  }

  lemma InsertedTableKept(tcx: Tcx, rel: seq<DefId>, nodes: seq<IsolationGraphNode>, id: DefId)
    ensures IdsKept(nodes, InsertedTable(tcx, rel, nodes, id))
  {
    if FindNode(nodes, id).Some? || BuiltNode(tcx, id, tcx.isUnsafe(id), id in rel).Ok? {
      InsertedTableGrew(tcx, rel, nodes, id);
      MethodsGrewKeeps(nodes, InsertedTable(tcx, rel, nodes, id));
    }
  }

  lemma {:induction false} CalleeTableKept(tcx: Tcx, rel: seq<DefId>, nodes: seq<IsolationGraphNode>, cs: seq<DefId>, id: DefId)
    ensures IdsKept(nodes, CalleeTable(tcx, rel, nodes, cs, id))
    decreases |cs|
  {
    if cs != [] {
      var prev := CalleeTable(tcx, rel, nodes, cs[..|cs| - 1], id);
      var c := cs[|cs| - 1];
      CalleeTableKept(tcx, rel, nodes, cs[..|cs| - 1], id);
      if FindNode(prev, c).None? {
        var ins := InsertedTable(tcx, rel, prev, c);
        InsertedTableKept(tcx, rel, prev, c);
        if FindNode(ins, c).Some? {
          CallerAddedKeepsIds(ins, FindNode(ins, c).value, id);
        }
      }
    }
  }

  /** The breadth-first walk keeps every node's id in place. */
  lemma {:induction false} WalkTableKept(tcx: Tcx, rel: seq<DefId>, nodes: seq<IsolationGraphNode>, expanded: seq<DefId>)
    ensures IdsKept(nodes, WalkTable(tcx, rel, nodes, expanded))
    decreases |expanded|
  {
    if expanded != [] {
      var prev := WalkTable(tcx, rel, nodes, expanded[..|expanded| - 1]);
      var id := expanded[|expanded| - 1];
      var cs := if UnsafeCallees(tcx, id).Ok? then Dedup(UnsafeCallees(tcx, id).value) else [];
      WalkTableKept(tcx, rel, nodes, expanded[..|expanded| - 1]);
      CalleeTableKept(tcx, rel, prev, cs, id);
    }
  }

  /** The walk returns when the visit of every id it expands would return on the
      table it started from: nodes only ever get added. */
  lemma {:induction false} WalkOkFromStart(tcx: Tcx, rel: seq<DefId>, nodes: seq<IsolationGraphNode>, expanded: seq<DefId>)
    requires forall x :: x in expanded ==> VisitOk(tcx, nodes, x)
    ensures WalkOk(tcx, rel, nodes, expanded)
    decreases |expanded|
  {
    if expanded != [] {
      var prefix := expanded[..|expanded| - 1];
      WalkOkFromStart(tcx, rel, nodes, prefix);
      WalkTableKept(tcx, rel, nodes, prefix);
      VisitOkKept(tcx, nodes, WalkTable(tcx, rel, nodes, prefix), expanded[|expanded| - 1]);
    }
  }

  /** The table after the first phase has seeded one unsafe related function: its
      constructor search when it is a method, then its node, pushed whether or not the
      id already had one. */
  function SeedTable(tcx: Tcx, rel: seq<DefId>, nodes: seq<IsolationGraphNode>, f: RelatedFn): seq<IsolationGraphNode>
  {
    match BuiltNode(tcx, f.defId, f.functionUnsafe, true)
    case Panic(_) => nodes
    case Ok(n) => (if n.nodeType == METHOD then SearchTable(tcx, rel, nodes, f.defId) else nodes) + [n]
  }

  /** The table after the first phase has gone through `related`, starting from the
      crate-API list `rel0`, which grows by each unsafe id as it is seeded. */
  function SeedsTable(tcx: Tcx, rel0: seq<DefId>, nodes: seq<IsolationGraphNode>, related: seq<RelatedFn>)
    : seq<IsolationGraphNode>
  {
    if related == [] then nodes
    else
      var init := related[..|related| - 1];
      var f := related[|related| - 1];
      var prev := SeedsTable(tcx, rel0, nodes, init);
      if f.functionUnsafe || f.blockUnsafe then SeedTable(tcx, rel0 + UnsafeRelatedIds(init), prev, f) else prev
  }

  // ---------------------------------------------------------------------------
  // What the tables hold

  /** The constructors among `cons` without a node in `nodes`, each once, in the order
      they are first met. */
  function NewIds(nodes: seq<IsolationGraphNode>, cons: seq<DefId>): (r: seq<DefId>)
    ensures forall c :: c in r <==> c in cons && FindNode(nodes, c).None?
    ensures NoDup(r)
  {
    if cons == [] then []
    else
      var prev := NewIds(nodes, cons[..|cons| - 1]);
      var c := cons[|cons| - 1];
      assert forall x :: x in cons <==> x in cons[..|cons| - 1] || x == c;
      if c !in prev && FindNode(nodes, c).None? then prev + [c] else prev
  }

  lemma NewIdsSnoc(nodes: seq<IsolationGraphNode>, p: seq<DefId>, c: DefId)
    ensures NewIds(nodes, p + [c]) ==
      if c !in NewIds(nodes, p) && FindNode(nodes, c).None? then NewIds(nodes, p) + [c] else NewIds(nodes, p)
  {
    assert (p + [c])[..|p|] == p;
  }

  /** The node at `i` of `nodes` once a search for `m` has met `cons`: the first node of
      each constructor met has gained `m`, once; any other node is as it was. */
  function Touched(nodes: seq<IsolationGraphNode>, i: nat, cons: seq<DefId>, m: DefId): IsolationGraphNode
    requires i < |nodes|
  {
    if nodes[i].nodeId in cons && FindNode(nodes, nodes[i].nodeId) == Some(i)
    then nodes[i].(methods := PushUnique(nodes[i].methods, m))
    else nodes[i]
  }

  /** `r` is `nodes` after a search for `m` that met `cons`: the older nodes are
      `Touched`, and after them come the nodes of the constructors that had none, in the
      order they were met, each with `m` as its only method. */
  ghost predicate RecordShaped(tcx: Tcx, rel: seq<DefId>, nodes: seq<IsolationGraphNode>, cons: seq<DefId>,
                               m: DefId, r: seq<IsolationGraphNode>)
  {
    |r| == |nodes| + |NewIds(nodes, cons)|
    && (forall i :: 0 <= i < |nodes| ==> r[i] == Touched(nodes, i, cons, m))
    && (forall j :: 0 <= j < |NewIds(nodes, cons)| ==>
          r[|nodes| + j] == ConsNode(tcx, rel, NewIds(nodes, cons)[j]).(methods := [m]))
  }

  /** The constructor search's table in closed form: of the older nodes only the first
      node of each constructor found changes, by gaining the method once; a node is
      appended exactly for each constructor found that had none, and it is the node
      `check_and_insert_node` builds for it with the method recorded. */
  lemma {:induction false} RecordTableShape(tcx: Tcx, rel: seq<DefId>, nodes: seq<IsolationGraphNode>,
                                            cons: seq<DefId>, m: DefId)
    ensures RecordShaped(tcx, rel, nodes, cons, m, RecordTable(tcx, rel, nodes, cons, m))
  {
    if cons == [] {
      assert NewIds(nodes, cons) == [];
    } else {
      var p := cons[..|cons| - 1];
      var c := cons[|cons| - 1];
      assert p + [c] == cons;
      RecordTableShape(tcx, rel, nodes, p, m);
      RecordStepShape(tcx, rel, nodes, p, c, m, RecordTable(tcx, rel, nodes, p, m));
    }
  }

  lemma RecordShapedIds(tcx: Tcx, rel: seq<DefId>, nodes: seq<IsolationGraphNode>, cons: seq<DefId>,
                        m: DefId, r: seq<IsolationGraphNode>)
    requires RecordShaped(tcx, rel, nodes, cons, m, r)
    ensures IdsKept(nodes, r)
    ensures forall j :: 0 <= j < |NewIds(nodes, cons)| ==> r[|nodes| + j].nodeId == NewIds(nodes, cons)[j]
  {
    forall i | 0 <= i < |nodes|
      ensures r[i].nodeId == nodes[i].nodeId
    {
      assert r[i] == Touched(nodes, i, cons, m);
    }
  }

  lemma RecordStepShape(tcx: Tcx, rel: seq<DefId>, nodes: seq<IsolationGraphNode>, p: seq<DefId>, c: DefId,
                        m: DefId, r: seq<IsolationGraphNode>)
    requires RecordShaped(tcx, rel, nodes, p, m, r)
    ensures RecordShaped(tcx, rel, nodes, p + [c], m, WithMethod(InsertCons(tcx, rel, r, c), c, m))
  {
    assert (p + [c])[..|p|] == p;
    RecordShapedIds(tcx, rel, nodes, p, m, r);
    FindNodeStable(nodes, r, c);
    if FindNode(nodes, c).Some? {
      RecordOlderStep(tcx, rel, nodes, p, c, m, r);
    } else if c in NewIds(nodes, p) {
      RecordMetStep(tcx, rel, nodes, p, c, m, r);
    } else {
      RecordFreshStep(tcx, rel, nodes, p, c, m, r);
    }
  }

  /** A constructor with an older node: that node gains the method, once. */
  lemma RecordOlderStep(tcx: Tcx, rel: seq<DefId>, nodes: seq<IsolationGraphNode>, p: seq<DefId>, c: DefId,
                        m: DefId, r: seq<IsolationGraphNode>)
    requires RecordShaped(tcx, rel, nodes, p, m, r) && IdsKept(nodes, r)
    requires FindNode(nodes, c).Some? && FindNode(r, c) == FindNode(nodes, c)
    ensures RecordShaped(tcx, rel, nodes, p + [c], m, WithMethod(InsertCons(tcx, rel, r, c), c, m))
  {
    var k := FindNode(nodes, c).value;
    NewIdsSnoc(nodes, p, c);
    var w := WithMethod(InsertCons(tcx, rel, r, c), c, m);
    assert w == r[k := r[k].(methods := PushUnique(r[k].methods, m))];
    forall i | 0 <= i < |nodes|
      ensures w[i] == Touched(nodes, i, p + [c], m)
    {
      assert r[i] == Touched(nodes, i, p, m);
      if i == k {
        assert nodes[k].nodeId == c && c in p + [c];
      } else {
        assert nodes[i].nodeId == c ==> FindNode(nodes, c) != Some(i);
      }
    }
  }

  /** A constructor met before without an older node: its appended node has the method already. */
  lemma RecordMetStep(tcx: Tcx, rel: seq<DefId>, nodes: seq<IsolationGraphNode>, p: seq<DefId>, c: DefId,
                      m: DefId, r: seq<IsolationGraphNode>)
    requires RecordShaped(tcx, rel, nodes, p, m, r) && IdsKept(nodes, r)
    requires forall j :: 0 <= j < |NewIds(nodes, p)| ==> r[|nodes| + j].nodeId == NewIds(nodes, p)[j]
    requires FindNode(nodes, c).None? && c in NewIds(nodes, p)
    requires FindNode(r, c).Some? ==> FindNode(r, c).value >= |nodes|
    ensures RecordShaped(tcx, rel, nodes, p + [c], m, WithMethod(InsertCons(tcx, rel, r, c), c, m))
  {
    var ids := NewIds(nodes, p);
    NewIdsSnoc(nodes, p, c);
    var j0 :| 0 <= j0 < |ids| && ids[j0] == c;
    assert r[|nodes| + j0].nodeId == c;
    var q := FindNode(r, c).value;
    assert r[q] == ConsNode(tcx, rel, ids[q - |nodes|]).(methods := [m]);
    assert WithMethod(InsertCons(tcx, rel, r, c), c, m) == r;
    forall i | 0 <= i < |nodes|
      ensures r[i] == Touched(nodes, i, p + [c], m)
    {
      assert r[i] == Touched(nodes, i, p, m);
      assert nodes[i].nodeId != c;
    }
  }

  /** A constructor met for the first time without a node: its node is appended, with the method. */
  lemma RecordFreshStep(tcx: Tcx, rel: seq<DefId>, nodes: seq<IsolationGraphNode>, p: seq<DefId>, c: DefId,
                        m: DefId, r: seq<IsolationGraphNode>)
    requires RecordShaped(tcx, rel, nodes, p, m, r) && IdsKept(nodes, r)
    requires forall j :: 0 <= j < |NewIds(nodes, p)| ==> r[|nodes| + j].nodeId == NewIds(nodes, p)[j]
    requires FindNode(nodes, c).None? && c !in NewIds(nodes, p)
    ensures RecordShaped(tcx, rel, nodes, p + [c], m, WithMethod(InsertCons(tcx, rel, r, c), c, m))
  {
    var ids := NewIds(nodes, p);
    NewIdsSnoc(nodes, p, c);
    FreshHasNoNode(nodes, ids, c, r);
    var w := r + [ConsNode(tcx, rel, c).(methods := [m])];
    InsertFresh(tcx, rel, r, c, m);
    assert |w| == |nodes| + |ids + [c]|;
    forall i | 0 <= i < |nodes|
      ensures w[i] == Touched(nodes, i, p + [c], m)
    {
      assert w[i] == r[i] == Touched(nodes, i, p, m);
      assert nodes[i].nodeId != c;
    }
    forall j | 0 <= j < |ids + [c]|
      ensures w[|nodes| + j] == ConsNode(tcx, rel, (ids + [c])[j]).(methods := [m])
    {
      if j < |ids| {
        assert w[|nodes| + j] == r[|nodes| + j];
      }
    }
  }

  /** A constructor search's table in the terms of `Recorded`: every constructor met has
      a node holding the method, the appended nodes are constructors', and the older
      nodes at most gain methods. */
  lemma RecordTableRecorded(tcx: Tcx, rel: seq<DefId>, nodes: seq<IsolationGraphNode>, cons: seq<DefId>, m: DefId)
    requires forall c :: c in cons ==> GetTypeAsWritten(tcx, c) == Ok(CONSTRUCTOR)
    ensures Recorded(tcx, nodes, RecordTable(tcx, rel, nodes, cons, m), cons, m)
  {
    var r := RecordTable(tcx, rel, nodes, cons, m);
    var ids := NewIds(nodes, cons);
    RecordTableShape(tcx, rel, nodes, cons, m);
    RecordShapedIds(tcx, rel, nodes, cons, m, r);
    forall i | 0 <= i < |nodes|
      ensures MethodsExtended(nodes[i], r[i])
    {
      assert r[i] == Touched(nodes, i, cons, m);
    }
    forall i | |nodes| <= i < |r|
      ensures GetTypeAsWritten(tcx, r[i].nodeId) == Ok(CONSTRUCTOR)
    {
      assert r[i].nodeId == ids[i - |nodes|] && ids[i - |nodes|] in ids;
    }
    forall c | c in cons
      ensures FindNode(r, c).Some? && m in r[FindNode(r, c).value].methods
    {
      RecordedAt(tcx, rel, nodes, cons, m, r, c);
    }
  }

  lemma RecordedAt(tcx: Tcx, rel: seq<DefId>, nodes: seq<IsolationGraphNode>, cons: seq<DefId>, m: DefId,
                   r: seq<IsolationGraphNode>, c: DefId)
    requires RecordShaped(tcx, rel, nodes, cons, m, r) && IdsKept(nodes, r) && c in cons
    requires forall j :: 0 <= j < |NewIds(nodes, cons)| ==> r[|nodes| + j].nodeId == NewIds(nodes, cons)[j]
    ensures FindNode(r, c).Some? && m in r[FindNode(r, c).value].methods
  {
    var ids := NewIds(nodes, cons);
    if FindNode(nodes, c).Some? {
      var k := FindNode(nodes, c).value;
      FindNodeStable(nodes, r, c);
      assert r[k] == Touched(nodes, k, cons, m);
      assert m in PushUnique(nodes[k].methods, m);
    } else {
      var j :| 0 <= j < |ids| && ids[j] == c;
      assert r[|nodes| + j].nodeId == c;
      var q := FindNode(r, c).value;
      assert q >= |nodes|;
      assert r[q] == ConsNode(tcx, rel, ids[q - |nodes|]).(methods := [m]);
    }
  }

  /** Every constructor the search from `id` reports is classified as a constructor. */
  lemma ConstructorIdsForSound(tcx: Tcx, id: DefId)
    requires ConstructorIdsFor(tcx, id).Ok?
    ensures forall c :: c in ConstructorIdsFor(tcx, id).value ==> GetTypeAsWritten(tcx, c) == Ok(CONSTRUCTOR)
  {
    match tcx.assocItem(id) {
      case Some(item) =>
        match item.implContainer {
          case Some(implId) =>
            var ty := tcx.typeOf(implId);
            if ty.Adt? {
              ConstructorIdsSound(tcx, ItemsOf(tcx, GetImplsForStruct(tcx, ty.did)));
            }
          case None =>
        }
      case None =>
    }
  }

  /** The table a constructor search leaves: the older nodes at most gain methods, and
      every node appended is a constructor's. */
  lemma SearchTableFacts(tcx: Tcx, rel: seq<DefId>, nodes: seq<IsolationGraphNode>, id: DefId)
    ensures MethodsGrew(nodes, SearchTable(tcx, rel, nodes, id))
    ensures forall i :: |nodes| <= i < |SearchTable(tcx, rel, nodes, id)| ==>
      GetTypeAsWritten(tcx, SearchTable(tcx, rel, nodes, id)[i].nodeId) == Ok(CONSTRUCTOR)
  {
    if ConstructorIdsFor(tcx, id).Ok? {
      var cons := ConstructorIdsFor(tcx, id).value;
      var r := RecordTable(tcx, rel, nodes, cons, id);
      assert SearchTable(tcx, rel, nodes, id) == r;
      RecordTableShape(tcx, rel, nodes, cons, id);
      RecordShapedIds(tcx, rel, nodes, cons, id, r);
      ConstructorIdsForSound(tcx, id);
      forall i | 0 <= i < |nodes|
        ensures MethodsExtended(nodes[i], r[i])
      {
        assert r[i] == Touched(nodes, i, cons, id);
      }
      forall i | |nodes| <= i < |r|
        ensures GetTypeAsWritten(tcx, r[i].nodeId) == Ok(CONSTRUCTOR)
      {
        var ids := NewIds(nodes, cons);
        assert r[i].nodeId == ids[i - |nodes|] && ids[i - |nodes|] in ids;
      }
    } else {
      MethodsGrewRefl(nodes);
    }
  }

  /** `check_and_insert_node` for an id without a node whose node can be built: that
      node is appended last and is the one found for the id, every node appended before
      it is a constructor's, and the older nodes at most gain methods. */
  lemma InsertedTableFacts(tcx: Tcx, rel: seq<DefId>, nodes: seq<IsolationGraphNode>, id: DefId)
    requires FindNode(nodes, id).None? && BuiltNode(tcx, id, tcx.isUnsafe(id), id in rel).Ok?
    ensures var r := InsertedTable(tcx, rel, nodes, id);
      |r| > |nodes| && r[|r| - 1] == BuiltNode(tcx, id, tcx.isUnsafe(id), id in rel).value
      && FindNode(r, id) == Some(|r| - 1) && MethodsGrew(nodes, r)
      && forall i :: |nodes| <= i < |r| ==> r[i].nodeId == id || GetTypeAsWritten(tcx, r[i].nodeId) == Ok(CONSTRUCTOR)
  {
    var n := BuiltNode(tcx, id, tcx.isUnsafe(id), id in rel).value;
    var s := if GetTypeAsWritten(tcx, id) == Ok(METHOD) then SearchTable(tcx, rel, nodes, id) else nodes;
    InsertedSplit(tcx, rel, nodes, id);
    SearchedFacts(tcx, rel, nodes, id);
    AppendBuilt(tcx, nodes, s, n);
  }

  lemma InsertedSplit(tcx: Tcx, rel: seq<DefId>, nodes: seq<IsolationGraphNode>, id: DefId)
    requires FindNode(nodes, id).None? && BuiltNode(tcx, id, tcx.isUnsafe(id), id in rel).Ok?
    ensures GetTypeAsWritten(tcx, id).Ok?
    ensures BuiltNode(tcx, id, tcx.isUnsafe(id), id in rel).value.nodeId == id
    ensures InsertedTable(tcx, rel, nodes, id) ==
      (if GetTypeAsWritten(tcx, id) == Ok(METHOD) then SearchTable(tcx, rel, nodes, id) else nodes)
      + [BuiltNode(tcx, id, tcx.isUnsafe(id), id in rel).value]
  {
  }

  /** What the search `check_and_insert_node` runs before appending a node leaves. */
  lemma SearchedFacts(tcx: Tcx, rel: seq<DefId>, nodes: seq<IsolationGraphNode>, id: DefId)
    requires FindNode(nodes, id).None? && GetTypeAsWritten(tcx, id).Ok?
    ensures var s := if GetTypeAsWritten(tcx, id) == Ok(METHOD) then SearchTable(tcx, rel, nodes, id) else nodes;
      MethodsGrew(nodes, s) && FindNode(s, id).None?
      && forall i :: |nodes| <= i < |s| ==> GetTypeAsWritten(tcx, s[i].nodeId) == Ok(CONSTRUCTOR)
  {
    if GetTypeAsWritten(tcx, id) == Ok(METHOD) {
      var s := SearchTable(tcx, rel, nodes, id);
      SearchTableFacts(tcx, rel, nodes, id);
      MethodsGrewKeeps(nodes, s);
      ConstructorsAreNot(tcx, nodes, s, id);
    } else {
      MethodsGrewRefl(nodes);
    }
  }

  lemma AppendBuilt(tcx: Tcx, nodes: seq<IsolationGraphNode>, s: seq<IsolationGraphNode>, n: IsolationGraphNode)
    requires MethodsGrew(nodes, s) && FindNode(s, n.nodeId).None?
    requires forall i :: |nodes| <= i < |s| ==> GetTypeAsWritten(tcx, s[i].nodeId) == Ok(CONSTRUCTOR)
    ensures var r := s + [n];
      |r| > |nodes| && r[|r| - 1] == n && FindNode(r, n.nodeId) == Some(|r| - 1) && MethodsGrew(nodes, r)
      && forall i :: |nodes| <= i < |r| ==> r[i].nodeId == n.nodeId || GetTypeAsWritten(tcx, r[i].nodeId) == Ok(CONSTRUCTOR)
  {
    FindNodeLast(s, n);
    forall i | 0 <= i < |nodes|
      ensures MethodsExtended(nodes[i], (s + [n])[i])
    {
      assert MethodsExtended(nodes[i], s[i]);
    }
  }

  /** Whether or not `id` had a node, `check_and_insert_node` leaves one for it, older
      nodes at most gain methods, and every node appended is `id`'s or a constructor's. */
  lemma InsertedTableGrew(tcx: Tcx, rel: seq<DefId>, nodes: seq<IsolationGraphNode>, id: DefId)
    requires FindNode(nodes, id).Some? || BuiltNode(tcx, id, tcx.isUnsafe(id), id in rel).Ok?
    ensures var r := InsertedTable(tcx, rel, nodes, id);
      FindNode(r, id).Some? && MethodsGrew(nodes, r)
      && forall i :: |nodes| <= i < |r| ==> r[i].nodeId == id || GetTypeAsWritten(tcx, r[i].nodeId) == Ok(CONSTRUCTOR)
  {
    if FindNode(nodes, id).Some? {
      InsertedFound(tcx, rel, nodes, id);
      MethodsGrewRefl(nodes);
    } else {
      InsertedTableFacts(tcx, rel, nodes, id);
    }
  }

  /** A callee without a node when the block loop meets it: after the constructor search
      a method needs, its node is appended, the one `check_and_insert_node` builds, with
      the visited function as its only caller. */
  lemma CalleeInsertedNode(tcx: Tcx, rel: seq<DefId>, nodes: seq<IsolationGraphNode>, cs: seq<DefId>,
                           id: DefId, c: DefId)
    requires FindNode(CalleeTable(tcx, rel, nodes, cs, id), c).None?
    requires BuiltNode(tcx, c, tcx.isUnsafe(c), c in rel).Ok?
    ensures var p := CalleeTable(tcx, rel, nodes, cs, id);
      var n := BuiltNode(tcx, c, tcx.isUnsafe(c), c in rel).value;
      CalleeTable(tcx, rel, nodes, cs + [c], id) ==
        (if GetTypeAsWritten(tcx, c) == Ok(METHOD) then SearchTable(tcx, rel, p, c) else p) + [n.(callers := [id])]
  {
    var p := CalleeTable(tcx, rel, nodes, cs, id);
    var n := BuiltNode(tcx, c, tcx.isUnsafe(c), c in rel).value;
    var t := if GetTypeAsWritten(tcx, c) == Ok(METHOD) then SearchTable(tcx, rel, p, c) else p;
    CalleeTableSnoc(tcx, rel, nodes, cs, id, c);
    InsertedSplit(tcx, rel, p, c);
    SearchedFacts(tcx, rel, p, c);
    WithCallerLast(t, n, id);
    assert PushUnique(n.callers, id) == [id];
  }

  lemma CalleeTableSnoc(tcx: Tcx, rel: seq<DefId>, nodes: seq<IsolationGraphNode>, cs: seq<DefId>, id: DefId, c: DefId)
    requires FindNode(CalleeTable(tcx, rel, nodes, cs, id), c).None?
    ensures CalleeTable(tcx, rel, nodes, cs + [c], id) ==
      WithCaller(InsertedTable(tcx, rel, CalleeTable(tcx, rel, nodes, cs, id), c), c, id)
  {
    assert (cs + [c])[..|cs|] == cs;
  }

  /** Recording a caller on the node just appended for an id that had none. */
  lemma WithCallerLast(nodes: seq<IsolationGraphNode>, n: IsolationGraphNode, id: DefId)
    requires FindNode(nodes, n.nodeId).None?
    ensures WithCaller(nodes + [n], n.nodeId, id) == nodes + [n.(callers := PushUnique(n.callers, id))]
  {
    FindNodeLast(nodes, n);
  }

  /** An id that has a node leaves the table as it is. */
  lemma InsertedFound(tcx: Tcx, rel: seq<DefId>, nodes: seq<IsolationGraphNode>, id: DefId)
    requires FindNode(nodes, id).Some?
    ensures InsertedTable(tcx, rel, nodes, id) == nodes
  {
  }

  /** For a constructor, `check_and_insert_node` runs no search and appends `ConsNode`. */
  lemma InsertedCons(tcx: Tcx, rel: seq<DefId>, nodes: seq<IsolationGraphNode>, c: DefId)
    requires GetTypeAsWritten(tcx, c) == Ok(CONSTRUCTOR)
    ensures InsertedTable(tcx, rel, nodes, c) == InsertCons(tcx, rel, nodes, c)
  {
    assert BuiltNode(tcx, c, tcx.isUnsafe(c), c in rel) == Ok(ConsNode(tcx, rel, c));
  }

  /** No node of `r` is `c`'s when the older ones are not and the appended ones are those of `ids`. */
  lemma FreshHasNoNode(nodes: seq<IsolationGraphNode>, ids: seq<DefId>, c: DefId, r: seq<IsolationGraphNode>)
    requires IdsKept(nodes, r) && |r| == |nodes| + |ids| && FindNode(nodes, c).None? && c !in ids
    requires forall j :: 0 <= j < |ids| ==> r[|nodes| + j].nodeId == ids[j]
    ensures FindNode(r, c).None?
  {
    forall i | 0 <= i < |r|
      ensures r[i].nodeId != c
    {
      if i >= |nodes| {
        assert r[i].nodeId == ids[i - |nodes|];
      }
    }
  }

  /** A constructor without a node is appended with the method as its only one. */
  lemma InsertFresh(tcx: Tcx, rel: seq<DefId>, r: seq<IsolationGraphNode>, c: DefId, m: DefId)
    requires FindNode(r, c).None?
    ensures WithMethod(InsertCons(tcx, rel, r, c), c, m) == r + [ConsNode(tcx, rel, c).(methods := [m])]
  {
    var cn := ConsNode(tcx, rel, c);
    FindNodeLast(r, cn);
    assert InsertCons(tcx, rel, r, c) == r + [cn];
    assert PushUnique(cn.methods, m) == [m];
    assert (r + [cn])[|r| := cn.(methods := [m])] == r + [cn.(methods := [m])];
  }

  // ---------------------------------------------------------------------------
  // The check

  /** `UnsafetyIsolationCheck`. Besides the compiler queries of `Tcx` it reads
      whether an item's attributes hold a doc comment (false for a foreign item). */
  class UnsafetyIsolationCheck {
    const tcx: Tcx
    const hasUnsafetyDoc: DefId -> bool
    var nodes: seq<IsolationGraphNode>
    var relatedFuncDefId: seq<DefId>

    /** `UnsafetyIsolationCheck::new`. */
    constructor (tcx: Tcx, hasUnsafetyDoc: DefId -> bool)
      ensures this.tcx == tcx && this.hasUnsafetyDoc == hasUnsafetyDoc
      ensures nodes == [] && relatedFuncDefId == []
    {
      this.tcx := tcx;
      this.hasUnsafetyDoc := hasUnsafetyDoc;
      nodes := [];
      relatedFuncDefId := [];
    }

    /** `check_if_node_exists`. */
    function CheckIfNodeExists(id: DefId): (r: bool)
      reads this
      ensures r <==> exists i :: 0 <= i < |nodes| && nodes[i].nodeId == id
    {
      FindNode(nodes, id).Some?
    }

    /** `is_crate_api_node`. */
    function IsCrateApiNode(id: DefId): (r: bool)
      reads this
      ensures r <==> exists i :: 0 <= i < |relatedFuncDefId| && relatedFuncDefId[i] == id
    {
      id in relatedFuncDefId
    }

    /** `set_method_for_constructor`: record `methodDid` once on the first node of
        `constructorDid`; nothing happens when there is no such node. */
    method SetMethodForConstructor(constructorDid: DefId, methodDid: DefId)
      modifies this`nodes
      ensures FindNode(old(nodes), constructorDid).None? ==> nodes == old(nodes)
      ensures FindNode(old(nodes), constructorDid).Some? ==>
        var i := FindNode(old(nodes), constructorDid).value;
        nodes == old(nodes)[i := old(nodes)[i].(methods := PushUnique(old(nodes)[i].methods, methodDid))]
      ensures nodes == WithMethod(old(nodes), constructorDid, methodDid)
      ensures MethodsGrew(old(nodes), nodes)
    {
      var found := FindNode(nodes, constructorDid);
      if found.Some? {
        var node := nodes[found.value];
        if methodDid !in node.methods {
          nodes := nodes[found.value := node.(methods := node.methods + [methodDid])];
        }
      }
    }

    /** `set_caller_for_callee`: record `callerDid` once on the first node of
        `calleeDid`; nothing happens when there is no such node. */
    method SetCallerForCallee(callerDid: DefId, calleeDid: DefId)
      modifies this`nodes
      ensures FindNode(old(nodes), calleeDid).None? ==> nodes == old(nodes)
      ensures FindNode(old(nodes), calleeDid).Some? ==>
        var i := FindNode(old(nodes), calleeDid).value;
        nodes == old(nodes)[i := old(nodes)[i].(callers := PushUnique(old(nodes)[i].callers, callerDid))]
      ensures nodes == WithCaller(old(nodes), calleeDid, callerDid)
    {
      var found := FindNode(nodes, calleeDid);
      if found.Some? {
        var node := nodes[found.value];
        if callerDid !in node.callers {
          nodes := nodes[found.value := node.(callers := node.callers + [callerDid])];
        }
      }
    }

    /** `check_and_insert_node`: nothing when a node for `id` exists; otherwise the
        table `InsertedTable` gives: a method's constructor search, then the new node,
        last and unvisited. `InsertedTableFacts` spells out what that table holds. */
    method CheckAndInsertNode(id: DefId) returns (r: Result<()>)
      modifies this`nodes
      ensures old(FindNode(nodes, id)).Some? ==> r.Ok? && nodes == old(nodes)
      ensures old(FindNode(nodes, id)).None? ==>
        (r.Panic? <==> BuiltNode(tcx, id, tcx.isUnsafe(id), id in relatedFuncDefId).Panic?)
      ensures r.Ok? ==> nodes == InsertedTable(tcx, relatedFuncDefId, old(nodes), id)
      decreases if GetTypeAsWritten(tcx, id) == Ok(METHOD) then 3 else 0, 2
    {
      if FindNode(nodes, id).Some? {
        InsertedFound(tcx, relatedFuncDefId, nodes, id);
        r := Ok(());
      } else {
        r := InsertNewNode(id);
      }
    }

    /** The insertion half of `check_and_insert_node`, for an id that has no node yet. */
    method InsertNewNode(id: DefId) returns (r: Result<()>)
      requires FindNode(nodes, id).None?
      modifies this`nodes
      ensures r.Panic? <==> BuiltNode(tcx, id, tcx.isUnsafe(id), id in relatedFuncDefId).Panic?
      ensures r.Ok? ==> nodes == InsertedTable(tcx, relatedFuncDefId, old(nodes), id)
      decreases if GetTypeAsWritten(tcx, id) == Ok(METHOD) then 3 else 0, 1
    {
      var node := BuildNode(id);
      if node.Panic? {
        return Panic(node.reason);
      }
      nodes := nodes + [node.value];
      r := Ok(());
    }

    /** The node `check_and_insert_node` builds for `id`, with the constructor search a
        method needs; the nodes that search adds are constructors, none of them `id`'s. */
    method BuildNode(id: DefId) returns (r: Result<IsolationGraphNode>)
      requires FindNode(nodes, id).None?
      modifies this`nodes
      ensures r == BuiltNode(tcx, id, tcx.isUnsafe(id), id in relatedFuncDefId)
      ensures r.Ok? ==> nodes == if r.value.nodeType == METHOD then SearchTable(tcx, relatedFuncDefId, old(nodes), id) else old(nodes)
      ensures r.Ok? ==> r.value.nodeId == id && FindNode(nodes, id).None? && MethodsGrew(old(nodes), nodes)
      ensures r.Ok? ==> forall i :: |old(nodes)| <= i < |nodes| ==> GetTypeAsWritten(tcx, nodes[i].nodeId) == Ok(CONSTRUCTOR)
      decreases if GetTypeAsWritten(tcx, id) == Ok(METHOD) then 3 else 0, 0
    {
      var t := GetTypeAsWritten(tcx, id);
      if t.Panic? {
        return Panic(t.reason);
      }
      var node := NewNode(id, t.value, GetName(tcx, id), tcx.isUnsafe(id), IsCrateApiNode(id));
      if t.value == METHOD {
        var cons := SearchConstructor(id);
        if cons.Panic? {
          return Panic(cons.reason);
        }
        node := node.(constructors := cons.value);
        RecordedKeeps(tcx, old(nodes), nodes, cons.value, id);
        ConstructorsAreNot(tcx, old(nodes), nodes, id);
      } else {
        RecordedStart(tcx, nodes, id);
      }
      r := Ok(node);
    }

    /** `search_constructor`: the constructors of the type whose impl holds `id`; each
        gets a node, and `id` is recorded among that node's methods. */
    method SearchConstructor(id: DefId) returns (r: Result<seq<DefId>>)
      modifies this`nodes
      ensures r == ConstructorIdsFor(tcx, id)
      ensures r.Ok? ==> nodes == SearchTable(tcx, relatedFuncDefId, old(nodes), id)
      ensures r.Ok? ==> Recorded(tcx, old(nodes), nodes, r.value, id)
      decreases 2, 0
    {
      var item := tcx.assocItem(id);
      if item.None? || item.value.implContainer.None? {
        RecordedStart(tcx, nodes, id);
        return Ok([]);
      }
      var ty := tcx.typeOf(item.value.implContainer.value);
      if !ty.Adt? {
        RecordedStart(tcx, nodes, id);
        return Ok([]);
      }
      // The items of every id `get_impls_for_struct` yields, in order, id by id.
      r := RecordConstructors(id, ItemsOf(tcx, GetImplsForStruct(tcx, ty.did)));
    }

    /** The loop of `search_constructor` over the associated functions of the ids it was given. */
    method RecordConstructors(methodDid: DefId, items: seq<DefId>) returns (r: Result<seq<DefId>>)
      modifies this`nodes
      ensures r == ConstructorIdsAmong(tcx, items)
      ensures r.Ok? ==> nodes == RecordTable(tcx, relatedFuncDefId, old(nodes), r.value, methodDid)
      ensures r.Ok? ==> Recorded(tcx, old(nodes), nodes, r.value, methodDid)
      decreases 1, 0
    {
      var cons: seq<DefId> := [];
      var j := 0;
      while j < |items|
        invariant 0 <= j <= |items|
        invariant ConstructorIdsAmong(tcx, items[..j]) == Ok(cons)
        invariant nodes == RecordTable(tcx, relatedFuncDefId, old(nodes), cons, methodDid)
      {
        var item := items[j];
        assert items[..j + 1][..j] == items[..j];
        if IsAssocFnItem(tcx, item) {
          var t := GetTypeAsWritten(tcx, item);
          if t.Panic? {
            ConstructorIdsPanicPersists(tcx, items[..j + 1], items);
            return Panic(t.reason);
          }
          if t.value == CONSTRUCTOR {
            ghost var before := nodes;
            InsertedCons(tcx, relatedFuncDefId, before, item);
            var inserted := CheckAndInsertNode(item);
            assert inserted.Ok?;
            SetMethodForConstructor(item, methodDid);
            assert (cons + [item])[..|cons|] == cons;
            cons := cons + [item];
          }
        }
        j := j + 1;
      }
      assert items[..j] == items;
      ConstructorIdsSound(tcx, items);
      RecordTableRecorded(tcx, relatedFuncDefId, old(nodes), cons, methodDid);
      r := Ok(cons);
    }

    /** `visit_node_callees`: the unsafe callees of `id`'s body without repeats, in
        block order. A callee that has no node when it is met gets one, with `id` as its
        caller (`inserted` lists those); the node of `id`, if any, is marked visited and
        given the callee list. The callers of nodes that existed before never change. */
    method VisitNodeCallees(id: DefId) returns (r: Result<seq<DefId>>, ghost inserted: seq<DefId>)
      modifies this`nodes
      ensures r.Ok? <==> VisitOk(tcx, old(nodes), id)
      ensures r.Ok? ==> UnsafeCallees(tcx, id).Ok? && r.value == Dedup(UnsafeCallees(tcx, id).value)
      ensures r.Ok? ==> nodes == VisitTable(tcx, relatedFuncDefId, old(nodes), id)
      ensures r.Ok? ==> CalleeState(old(nodes), nodes, r.value, inserted, id)
      ensures r.Ok? ==> NewNodesAccounted(tcx, old(nodes), nodes, r.value, inserted)
      ensures r.Ok? ==> VisitedOnly(old(nodes), nodes, id, r.value)
      ensures r.Ok? && FindNode(nodes, id).Some? ==>
        nodes[FindNode(nodes, id).value].callees == r.value && nodes[FindNode(nodes, id).value].visitedTag
    {
      var callees: seq<DefId> := [];
      inserted := [];
      CalleeStart(nodes, id);
      AccountedStart(tcx, nodes);
      MethodsGrewRefl(nodes);
      if tcx.isMirAvailable(id) {
        var res;
        res, inserted := CollectCallees(id, tcx.mir(id).blocks);
        if res.Panic? {
          return res, inserted;
        }
        callees := res.value;
      }
      var found := FindNode(nodes, id);
      ghost var before := nodes;
      if found.Some? {
        nodes := nodes[found.value := nodes[found.value].(callees := callees, visitedTag := true)];
        MarkVisitedKeeps(old(nodes), before, nodes, callees, inserted, id, found.value);
        assert IdsKept(before, nodes);
        FindNodeStable(before, nodes, id);
        AccountedKept(tcx, old(nodes), before, nodes, callees, inserted);
      }
      VisitedOnlyStep(old(nodes), before, nodes, id, callees);
      assert before == CalleeTable(tcx, relatedFuncDefId, old(nodes), callees, id);
      r := Ok(callees);
    }

    /** The loop of `visit_node_callees` over the blocks of `id`'s body. */
    method CollectCallees(id: DefId, blocks: seq<BasicBlockData>) returns (r: Result<seq<DefId>>, ghost inserted: seq<DefId>)
      modifies this`nodes
      ensures r.Ok? <==> BlockCallees(tcx, blocks).Ok? && CalleesBuild(tcx, old(nodes), BlockCallees(tcx, blocks).value)
      ensures r.Ok? ==> BlockCallees(tcx, blocks).Ok? && r.value == Dedup(BlockCallees(tcx, blocks).value)
      ensures r.Ok? ==> nodes == CalleeTable(tcx, relatedFuncDefId, old(nodes), r.value, id)
      ensures r.Ok? ==> CalleeState(old(nodes), nodes, r.value, inserted, id)
      ensures r.Ok? ==> NewNodesAccounted(tcx, old(nodes), nodes, r.value, inserted)
      ensures r.Ok? ==> MethodsGrew(old(nodes), nodes)
    {
      var callees: seq<DefId> := [];
      inserted := [];
      CalleeStart(nodes, id);
      AccountedStart(tcx, nodes);
      MethodsGrewRefl(nodes);
      var i := 0;
      while i < |blocks|
        invariant 0 <= i <= |blocks|
        invariant BlockCallees(tcx, blocks[..i]).Ok?
        invariant callees == Dedup(BlockCallees(tcx, blocks[..i]).value)
        invariant Visiting(old(nodes), callees, inserted, id) && CalleesBuild(tcx, old(nodes), callees)
      {
        var res;
        res, inserted := VisitBlock(old(nodes), id, blocks, i, callees, inserted);
        if res.Panic? {
          if BlockCallees(tcx, blocks).Ok? {
            BlockCalleesPrefix(tcx, blocks, i + 1);
            CalleesBuildDedup(tcx, old(nodes), BlockCallees(tcx, blocks[..i + 1]).value);
          }
          return Panic(res.reason), inserted;
        }
        callees := res.value;
        i := i + 1;
      }
      assert blocks[..i] == blocks;
      CalleesBuildDedup(tcx, old(nodes), BlockCallees(tcx, blocks).value);
      r := Ok(callees);
    }

    /** The state of the block loop of a visit of `id` started on the table `o`: the
        table is the one the callees met so far leave, and `inserted` accounts for the
        nodes appended since `o`. */
    ghost predicate Visiting(o: seq<IsolationGraphNode>, callees: seq<DefId>, inserted: seq<DefId>, id: DefId)
      reads this
    {
      nodes == CalleeTable(tcx, relatedFuncDefId, o, callees, id)
      && CalleeState(o, nodes, callees, inserted, id)
      && NewNodesAccounted(tcx, o, nodes, callees, inserted) && MethodsGrew(o, nodes)
    }

    /** One block of the loop of `visit_node_callees`: its terminator is required, and a
        call to an unsafe function not met before adds that callee. */
    method VisitBlock(ghost o: seq<IsolationGraphNode>, id: DefId, blocks: seq<BasicBlockData>, i: nat,
                      callees: seq<DefId>, ghost inserted: seq<DefId>)
      returns (r: Result<seq<DefId>>, ghost inserted': seq<DefId>)
      requires i < |blocks| && BlockCallees(tcx, blocks[..i]).Ok?
      requires callees == Dedup(BlockCallees(tcx, blocks[..i]).value)
      requires Visiting(o, callees, inserted, id) && CalleesBuild(tcx, o, callees)
      modifies this`nodes
      ensures r.Ok? <==> BlockCallees(tcx, blocks[..i + 1]).Ok? && CalleesBuild(tcx, o, Dedup(BlockCallees(tcx, blocks[..i + 1]).value))
      ensures r.Ok? ==> BlockCallees(tcx, blocks[..i + 1]).Ok?
                        && r.value == Dedup(BlockCallees(tcx, blocks[..i + 1]).value)
                        && Visiting(o, r.value, inserted', id)
    {
      inserted' := inserted;
      BlockStep(tcx, blocks, i);
      if blocks[i].terminator.None? {
        return Panic("invalid terminator state"), inserted';
      }
      var callee := ConstantCallee(blocks[i].terminator.value.kind);
      if callee.Some? && tcx.isUnsafe(callee.value) && callee.value !in callees {
        var res;
        res, inserted' := NoteCallee(o, callees, inserted, id, callee.value);
        if res.Panic? {
          return Panic(res.reason), inserted';
        }
        r := Ok(callees + [callee.value]);
      } else {
        r := Ok(callees);
      }
    }

    /** One unsafe callee met for the first time: given a node, with `id` as its
        caller, when it has none yet. */
    method NoteCallee(ghost o: seq<IsolationGraphNode>, ghost callees: seq<DefId>, ghost inserted: seq<DefId>,
                      id: DefId, c: DefId)
      returns (r: Result<()>, ghost inserted': seq<DefId>)
      requires Visiting(o, callees, inserted, id) && c !in callees
      modifies this`nodes
      ensures r.Ok? <==> FindNode(o, c).Some? || Builds(tcx, c)
      ensures r.Ok? ==> Visiting(o, callees + [c], inserted', id)
    {
      inserted' := inserted;
      assert (callees + [c])[..|callees|] == callees;
      MethodsGrewKeeps(o, nodes);
      if FindNode(nodes, c).None? {
        ghost var before := nodes;
        FindNodeStable(o, before, c);
        BuiltNodeOk(tcx, c, tcx.isUnsafe(c), c in relatedFuncDefId);
        r := CheckAndInsertNode(c);
        if r.Panic? {
          return;
        }
        InsertedTableGrew(tcx, relatedFuncDefId, before, c);
        ghost var middle := nodes;
        SetCallerForCallee(id, c);
        CalleeInsertStep(o, before, middle, nodes, callees, inserted, c, id);
        CallerAddedKeepsIds(middle, FindNode(middle, c).value, id);
        AccountedInsert(tcx, o, before, middle, nodes, callees, inserted, c);
        MethodsGrewCaller(o, before, middle, nodes, c, id);
        inserted' := inserted + [c];
      } else {
        CalleeFoundStep(o, nodes, callees, inserted, c, id);
        AccountedFound(tcx, o, nodes, callees, inserted, c);
        assert c in callees + [c];
        r := Ok(());
      }
    }

    /** `filter_and_extend_unsafe`: seed the table and the queue with every unsafe or
        interior-unsafe related function, then walk breadth first over unsafe callees,
        expanding only functions of the crate. `enqueued` lists every id in the order it
        entered the queue, `expanded` every id whose callees were visited. */
    method FilterAndExtendUnsafe(related: seq<RelatedFn>)
      returns (r: Result<()>, ghost enqueued: seq<DefId>, ghost expanded: seq<DefId>)
      modifies this`nodes, this`relatedFuncDefId
      ensures r.Ok? ==> relatedFuncDefId == old(relatedFuncDefId) + UnsafeRelatedIds(related)
      ensures r.Ok? ==> forall x :: x in UnsafeRelatedIds(related) ==> x in enqueued && CheckIfNodeExists(x)
      ensures NoDup(enqueued)
      ensures NoDup(expanded)
      ensures forall x :: x in expanded ==> x in enqueued && x in relatedFuncDefId
      ensures r.Ok? ==> forall x :: x in enqueued && x in relatedFuncDefId ==> x in expanded
      ensures forall c :: c in enqueued && c !in UnsafeRelatedIds(related) ==> CalledFrom(tcx, expanded, c)
      ensures r.Ok? ==> CalleesEnqueued(tcx, expanded, enqueued)
      ensures r.Ok? ==> forall x :: x in UnsafeRelatedIds(related) ==> x in expanded && Marked(tcx, nodes, x)
      ensures r.Ok? ==>
        nodes == WalkTable(tcx, relatedFuncDefId, SeedsTable(tcx, old(relatedFuncDefId), old(nodes), related), expanded)
      ensures r.Ok? <==>
        SeedsBuild(tcx, related)
        && WalkOk(tcx, relatedFuncDefId, SeedsTable(tcx, old(relatedFuncDefId), old(nodes), related), expanded)
    {
      var queue;
      r, queue := SeedUnsafe(related);
      if r.Panic? {
        return r, [], [];
      }
      ghost var seeded := nodes;
      r, enqueued, expanded := Explore(queue);
      if r.Ok? {
        DedupPreserved(queue, enqueued, UnsafeRelatedIds(related));
        FoundKept(seeded, nodes, queue);
        DedupPreserved(queue, queue, UnsafeRelatedIds(related));
      }
    }

    /** The first phase: one node per unsafe related function, recorded as crate API;
        the queue gets each such id once, in first-occurrence order. */
    method SeedUnsafe(related: seq<RelatedFn>) returns (r: Result<()>, queue: seq<DefId>)
      modifies this`nodes, this`relatedFuncDefId
      ensures r.Ok? ==> relatedFuncDefId == old(relatedFuncDefId) + UnsafeRelatedIds(related)
      ensures r.Ok? ==> queue == Dedup(UnsafeRelatedIds(related))
      ensures r.Ok? ==> forall x :: x in queue ==> FindNode(nodes, x).Some?
      ensures r.Ok? <==> SeedsBuild(tcx, related)
      ensures r.Ok? ==> nodes == SeedsTable(tcx, old(relatedFuncDefId), old(nodes), related)
    {
      queue := [];
      var visited: set<DefId> := {};
      var k := 0;
      ghost var rel0 := relatedFuncDefId;
      while k < |related|
        invariant 0 <= k <= |related|
        invariant Seeded(rel0, old(nodes), related[..k], queue, visited)
        invariant SeedsBuild(tcx, related[..k])
      {
        var res;
        res, queue, visited := SeedOne(related, k, rel0, old(nodes), queue, visited);
        if res.Panic? {
          assert related[k] in related;
          return res, queue;
        }
        assert related[..k + 1] == related[..k] + [related[k]];
        k := k + 1;
      }
      assert related[..k] == related;
      r := Ok(());
    }

    /** The state of the first phase after the related functions `done`: the crate-API
        list has grown by their unsafe ids, the queue holds each of those once in
        first-occurrence order, `visited` is the queue's set, every queued id has a node,
        and the table is the one seeding `done` makes of `nodes0`. */
    ghost predicate Seeded(rel0: seq<DefId>, nodes0: seq<IsolationGraphNode>, done: seq<RelatedFn>,
                           queue: seq<DefId>, visited: set<DefId>)
      reads this
    {
      relatedFuncDefId == rel0 + UnsafeRelatedIds(done) && queue == Dedup(UnsafeRelatedIds(done))
      && visited == (set x | x in queue)
      && (forall x :: x in queue ==> FindNode(nodes, x).Some?)
      && nodes == SeedsTable(tcx, rel0, nodes0, done)
    }

    /** One iteration of the first phase: an unsafe related function gets its node, its
        id is recorded as crate API, and it is queued unless it was seen before; any
        other function is skipped. */
    method SeedOne(related: seq<RelatedFn>, k: nat, ghost rel0: seq<DefId>, ghost nodes0: seq<IsolationGraphNode>,
                   queue: seq<DefId>, visited: set<DefId>)
      returns (r: Result<()>, queue': seq<DefId>, visited': set<DefId>)
      requires k < |related| && Seeded(rel0, nodes0, related[..k], queue, visited)
      modifies this`nodes, this`relatedFuncDefId
      ensures r.Ok? <==> !(related[k].functionUnsafe || related[k].blockUnsafe) || Builds(tcx, related[k].defId)
      ensures r.Ok? ==> Seeded(rel0, nodes0, related[..k + 1], queue', visited')
    {
      var f := related[k];
      ghost var ids := UnsafeRelatedIds(related[..k]);
      UnsafeRelatedSnoc(related, k);
      SeedsTableSnoc(tcx, rel0, nodes0, related, k);
      queue', visited' := queue, visited;
      if !(f.functionUnsafe || f.blockUnsafe) {
        return Ok(()), queue', visited';
      }
      ghost var before := nodes;
      BuiltNodeOk(tcx, f.defId, f.functionUnsafe, true);
      r := SeedNode(f, queue);
      if r.Panic? {
        return;
      }
      assert nodes == SeedTable(tcx, rel0 + ids, before, f);
      AppendAssoc(rel0, ids, [f.defId]);
      relatedFuncDefId := relatedFuncDefId + [f.defId];
      QueueStep(ids, f.defId, queue, visited);
      if f.defId !in visited {
        visited' := visited + {f.defId};
        queue' := queue + [f.defId];
      }
    }

    /** One unsafe related function gets its node, built as `check_and_insert_node`
        would but with the function's own unsafety and as crate API; ids that had a
        node keep one. */
    method SeedNode(f: RelatedFn, ghost queue: seq<DefId>) returns (r: Result<()>)
      requires forall y :: y in queue ==> FindNode(nodes, y).Some?
      modifies this`nodes
      ensures r.Panic? <==> BuiltNode(tcx, f.defId, f.functionUnsafe, true).Panic?
      ensures r.Ok? ==> |nodes| > 0 && nodes[|nodes| - 1] == BuiltNode(tcx, f.defId, f.functionUnsafe, true).value
      ensures r.Ok? ==> forall y :: y in queue + [f.defId] ==> FindNode(nodes, y).Some?
      ensures r.Ok? ==> nodes == SeedTable(tcx, relatedFuncDefId, old(nodes), f)
    {
      var t := GetTypeAsWritten(tcx, f.defId);
      if t.Panic? {
        return Panic(t.reason);
      }
      var node := NewNode(f.defId, t.value, GetName(tcx, f.defId), f.functionUnsafe, true);
      ghost var before := nodes;
      if t.value == METHOD {
        var cons := SearchConstructor(f.defId);
        if cons.Panic? {
          return Panic(cons.reason);
        }
        node := node.(constructors := cons.value);
        RecordedKeeps(tcx, before, nodes, cons.value, f.defId);
      }
      ghost var middle := nodes;
      nodes := nodes + [node];
      SeedStep(before, middle, nodes, queue, f.defId);
      r := Ok(());
    }

    /** The breadth-first phase. An id enters the queue only when it is not yet in
        `visited`, so no id enters twice; only ids of `relatedFuncDefId` are expanded. */
    method Explore(queue0: seq<DefId>) returns (r: Result<()>, ghost enqueued: seq<DefId>, ghost expanded: seq<DefId>)
      requires NoDup(queue0)
      modifies this`nodes
      ensures queue0 <= enqueued && NoDup(enqueued)
      ensures NoDup(expanded)
      ensures forall x :: x in expanded ==> x in enqueued && x in relatedFuncDefId
      ensures r.Ok? ==> forall x :: x in enqueued && x in relatedFuncDefId ==> x in expanded
      ensures r.Ok? ==> IdsKept(old(nodes), nodes)
      ensures forall c :: c in enqueued && c !in queue0 ==> CalledFrom(tcx, expanded, c)
      ensures r.Ok? ==> CalleesEnqueued(tcx, expanded, enqueued)
      ensures r.Ok? ==> forall x :: x in expanded && FindNode(old(nodes), x).Some? ==> Marked(tcx, nodes, x)
      ensures r.Ok? ==> nodes == WalkTable(tcx, relatedFuncDefId, old(nodes), expanded)
      ensures r.Ok? <==> WalkOk(tcx, relatedFuncDefId, old(nodes), expanded)
    {
      var queue := queue0;
      var visited: set<DefId> := set x | x in queue0;
      ghost var popped: seq<DefId> := [];
      enqueued, expanded := queue0, [];
      while queue != []
        invariant Walking(queue0, old(nodes), queue, visited, popped, enqueued, expanded)
        invariant nodes == WalkTable(tcx, relatedFuncDefId, old(nodes), expanded)
        invariant WalkOk(tcx, relatedFuncDefId, old(nodes), expanded)
        decreases |Unpopped(relatedFuncDefId, popped)|, |queue|
      {
        ghost var id, done := queue[0], expanded;
        r, queue, visited, popped, enqueued, expanded := ExpandHead(queue0, old(nodes), queue, visited, popped, enqueued, expanded);
        WalkOkTurn(tcx, relatedFuncDefId, old(nodes), done, expanded, id, r.Ok?);
        if r.Panic? {
          return;
        }
      }
      WalkDone(queue0, old(nodes), visited, popped, enqueued, expanded);
      r := Ok(());
    }

    /** Once the queue is empty, every crate function enqueued has been expanded. */
    lemma WalkDone(queue0: seq<DefId>, nodes0: seq<IsolationGraphNode>, visited: set<DefId>,
                   popped: seq<DefId>, enqueued: seq<DefId>, expanded: seq<DefId>)
      requires Walking(queue0, nodes0, [], visited, popped, enqueued, expanded)
      ensures queue0 <= enqueued && NoDup(enqueued) && NoDup(expanded)
      ensures forall x :: x in expanded ==> x in enqueued && x in relatedFuncDefId
      ensures forall x :: x in enqueued && x in relatedFuncDefId ==> x in expanded
      ensures IdsKept(nodes0, nodes)
      ensures forall c :: c in enqueued && c !in queue0 ==> CalledFrom(tcx, expanded, c)
      ensures CalleesEnqueued(tcx, expanded, enqueued)
      ensures forall x :: x in expanded && FindNode(nodes0, x).Some? ==> Marked(tcx, nodes, x)
    {
      assert enqueued == popped;
    }

    /** The state of the breadth-first phase started from `queue0` on the table `nodes0`:
        `popped` then `queue` is every id enqueued, each once; the expanded ids are the
        popped crate functions; the walk is closed under the callees of the expanded ids,
        every id beyond the seeds is one of those callees, and every expanded id that had
        a node is marked on it. */
    ghost predicate Walking(queue0: seq<DefId>, nodes0: seq<IsolationGraphNode>, queue: seq<DefId>, visited: set<DefId>,
                            popped: seq<DefId>, enqueued: seq<DefId>, expanded: seq<DefId>)
      reads this
    {
      enqueued == popped + queue
      && queue0 <= enqueued && NoDup(enqueued)
      && visited == (set x | x in enqueued)
      && NoDup(expanded)
      && (forall x :: x in expanded <==> x in popped && x in relatedFuncDefId)
      && IdsKept(nodes0, nodes)
      && (forall c :: c in enqueued && c !in queue0 ==> CalledFrom(tcx, expanded, c))
      && CalleesEnqueued(tcx, expanded, enqueued)
      && (forall x :: x in expanded && FindNode(nodes0, x).Some? ==> Marked(tcx, nodes, x))
    }

    /** One turn of the breadth-first loop: pop the head; a crate function has its
        callees visited and those not seen yet enqueued. */
    method ExpandHead(ghost queue0: seq<DefId>, ghost nodes0: seq<IsolationGraphNode>, queue: seq<DefId>, visited: set<DefId>,
                      ghost popped: seq<DefId>, ghost enqueued: seq<DefId>, ghost expanded: seq<DefId>)
      returns (r: Result<()>, queue': seq<DefId>, visited': set<DefId>,
               ghost popped': seq<DefId>, ghost enqueued': seq<DefId>, ghost expanded': seq<DefId>)
      requires queue != [] && Walking(queue0, nodes0, queue, visited, popped, enqueued, expanded)
      requires nodes == WalkTable(tcx, relatedFuncDefId, nodes0, expanded)
      modifies this`nodes
      ensures r.Ok? <==> queue[0] !in relatedFuncDefId || VisitOk(tcx, old(nodes), queue[0])
      ensures expanded' == if queue[0] in relatedFuncDefId then expanded + [queue[0]] else expanded
      ensures r.Ok? ==> nodes == WalkTable(tcx, relatedFuncDefId, nodes0, expanded')
      ensures r.Ok? ==> Walking(queue0, nodes0, queue', visited', popped', enqueued', expanded')
      ensures r.Ok? && queue[0] in relatedFuncDefId ==>
        |Unpopped(relatedFuncDefId, popped')| < |Unpopped(relatedFuncDefId, popped)|
      ensures r.Ok? && queue[0] !in relatedFuncDefId ==>
        Unpopped(relatedFuncDefId, popped') == Unpopped(relatedFuncDefId, popped) && |queue'| < |queue|
      ensures r.Panic? ==> queue0 <= enqueued' && NoDup(enqueued') && NoDup(expanded')
      ensures r.Panic? ==> forall x :: x in expanded' ==> x in enqueued' && x in relatedFuncDefId
      ensures r.Panic? ==> forall c :: c in enqueued' && c !in queue0 ==> CalledFrom(tcx, expanded', c)
    {
      var id := queue[0];
      NotYetPopped(popped, queue, enqueued);
      PopMeasure(relatedFuncDefId, popped, id);
      if !IsCrateApiNode(id) {
        SkipHead(queue0, nodes0, queue, visited, popped, enqueued, expanded);
        return Ok(()), queue[1..], visited, popped + [id], enqueued, expanded;
      }
      r, queue', visited', popped', enqueued', expanded' := ExpandCrate(queue0, nodes0, queue, visited, popped, enqueued, expanded);
    }

    /** The turn of the breadth-first loop that pops a crate function: its callees are
        visited and those not seen yet enqueued. */
    method ExpandCrate(ghost queue0: seq<DefId>, ghost nodes0: seq<IsolationGraphNode>, queue: seq<DefId>, visited: set<DefId>,
                       ghost popped: seq<DefId>, ghost enqueued: seq<DefId>, ghost expanded: seq<DefId>)
      returns (r: Result<()>, queue': seq<DefId>, visited': set<DefId>,
               ghost popped': seq<DefId>, ghost enqueued': seq<DefId>, ghost expanded': seq<DefId>)
      requires queue != [] && Walking(queue0, nodes0, queue, visited, popped, enqueued, expanded)
      requires queue[0] in relatedFuncDefId && queue[0] !in popped
      requires nodes == WalkTable(tcx, relatedFuncDefId, nodes0, expanded)
      modifies this`nodes
      ensures popped' == popped + [queue[0]] && expanded' == expanded + [queue[0]]
      ensures r.Ok? <==> VisitOk(tcx, old(nodes), queue[0])
      ensures r.Ok? ==> nodes == WalkTable(tcx, relatedFuncDefId, nodes0, expanded')
      ensures r.Ok? ==> Walking(queue0, nodes0, queue', visited', popped', enqueued', expanded')
      ensures r.Panic? ==> queue0 <= enqueued' && NoDup(enqueued') && NoDup(expanded')
      ensures r.Panic? ==> forall x :: x in expanded' ==> x in enqueued' && x in relatedFuncDefId
      ensures r.Panic? ==> forall c :: c in enqueued' && c !in queue0 ==> CalledFrom(tcx, expanded', c)
    {
      var id := queue[0];
      popped' := popped + [id];
      queue', visited', enqueued', expanded' := queue[1..], visited, enqueued, expanded;
      assert enqueued' == popped' + queue';
      AppendFresh(expanded, id);
      ghost var before := nodes;
      var callees, _ := VisitNodeCallees(id);
      if callees.Panic? {
        return Panic(callees.reason), queue', visited', popped', enqueued', expanded + [id];
      }
      IdsKeptTrans(nodes0, before, nodes);
      MarkedKept(tcx, nodes0, before, nodes, id, callees.value, expanded);
      WalkTableSnoc(tcx, relatedFuncDefId, nodes0, expanded, id);
      ghost var queueBefore := queue';
      queue', visited', enqueued' := EnqueueNew(queue', visited', enqueued', callees.value);
      QueueGrows(popped', queueBefore, queue', enqueued, enqueued');
      ExpandStep(tcx, expanded, id, callees.value, queue0, queueBefore, queue', enqueued, enqueued');
      expanded' := expanded + [id];
      r := Ok(());
    }

    /** Popping an id that is not a crate function keeps the walk's state. */
    lemma SkipHead(queue0: seq<DefId>, nodes0: seq<IsolationGraphNode>, queue: seq<DefId>, visited: set<DefId>,
                   popped: seq<DefId>, enqueued: seq<DefId>, expanded: seq<DefId>)
      requires queue != [] && Walking(queue0, nodes0, queue, visited, popped, enqueued, expanded)
      requires queue[0] !in relatedFuncDefId
      ensures Walking(queue0, nodes0, queue[1..], visited, popped + [queue[0]], enqueued, expanded)
    {
      assert enqueued == (popped + [queue[0]]) + queue[1..];
    }

    /** `start`: `StdSp` and `Upg` return before scanning anything; `Doc` reports the
        unsafe functions without a doc comment and `Ucons` the unsafe constructors. */
    method Start(ins: UigInstruction, related: seq<RelatedFn>) returns (r: Result<seq<Report>>)
      ensures ins == StdSp || ins == Upg ==> r == Ok([])
      ensures ins == Doc || ins == Ucons ==> r == StartReports(tcx, hasUnsafetyDoc, ins, related)
    {
      if ins == StdSp {
        return Ok([]);
      } else if ins == Upg {
        return Ok([]);
      }
      var reports: seq<Report> := [];
      var k := 0;
      while k < |related|
        invariant 0 <= k <= |related|
        invariant StartReports(tcx, hasUnsafetyDoc, ins, related[..k]) == Ok(reports)
      {
        var f := related[k];
        assert related[..k + 1][..k] == related[..k];
        if f.functionUnsafe {
          if ins == Doc && !hasUnsafetyDoc(f.defId) {
            reports := reports + [LackOfUnsafetyDoc(f.defId)];
          }
          if ins == Ucons {
            var t := GetTypeAsWritten(tcx, f.defId);
            if t.Panic? {
              StartReportsPanicPersists(tcx, hasUnsafetyDoc, ins, related[..k + 1], related);
              return Panic(t.reason);
            }
            if t.value == CONSTRUCTOR {
              reports := reports + [UnsafeConstructor(f.defId)];
            }
          }
        }
        k := k + 1;
      }
      assert related[..k] == related;
      r := Ok(reports);
    }
  }

  // ---------------------------------------------------------------------------
  // Helper lemmas for the loops above

  lemma {:induction false} ConstructorIdsPanicPersists(tcx: Tcx, prefix: seq<DefId>, all: seq<DefId>)
    requires ConstructorIdsAmong(tcx, prefix).Panic?
    ensures prefix <= all ==> ConstructorIdsAmong(tcx, all) == ConstructorIdsAmong(tcx, prefix)
    decreases |all|
  {
    if prefix <= all && |all| > |prefix| {
      assert prefix <= all[..|all| - 1];
      ConstructorIdsPanicPersists(tcx, prefix, all[..|all| - 1]);
    } else if prefix <= all {
      assert prefix == all;
    }
  }

  lemma {:induction false} StartReportsPanicPersists(tcx: Tcx, hasUnsafetyDoc: DefId -> bool, ins: UigInstruction,
                                                     prefix: seq<RelatedFn>, all: seq<RelatedFn>)
    requires StartReports(tcx, hasUnsafetyDoc, ins, prefix).Panic?
    ensures prefix <= all ==> StartReports(tcx, hasUnsafetyDoc, ins, all) == StartReports(tcx, hasUnsafetyDoc, ins, prefix)
    decreases |all|
  {
    if prefix <= all && |all| > |prefix| {
      assert prefix <= all[..|all| - 1];
      StartReportsPanicPersists(tcx, hasUnsafetyDoc, ins, prefix, all[..|all| - 1]);
    } else if prefix <= all {
      assert prefix == all;
    }
  }

  /** What a constructor search has done to the table since `o`: appended constructor
      nodes and extended `methods` lists only, and recorded `m` on the node of every
      constructor in `cons`. */
  ghost predicate Recorded(tcx: Tcx, o: seq<IsolationGraphNode>, nodes: seq<IsolationGraphNode>,
                           cons: seq<DefId>, m: DefId)
  {
    MethodsGrew(o, nodes)
    && (forall i :: |o| <= i < |nodes| ==> GetTypeAsWritten(tcx, nodes[i].nodeId) == Ok(CONSTRUCTOR))
    && (forall c :: c in cons ==> FindNode(nodes, c).Some? && m in nodes[FindNode(nodes, c).value].methods)
  }

  lemma RecordedStart(tcx: Tcx, nodes: seq<IsolationGraphNode>, m: DefId)
    ensures Recorded(tcx, nodes, nodes, [], m)
  {
    forall i | 0 <= i < |nodes|
      ensures MethodsExtended(nodes[i], nodes[i])
    {
    }
  }

  lemma RecordedKeeps(tcx: Tcx, o: seq<IsolationGraphNode>, nodes: seq<IsolationGraphNode>, cons: seq<DefId>, m: DefId)
    requires Recorded(tcx, o, nodes, cons, m)
    ensures IdsKept(o, nodes)
  {
    MethodsGrewKeeps(o, nodes);
  }

  /** A method's node is none of the constructor nodes its search appended. */
  lemma ConstructorsAreNot(tcx: Tcx, o: seq<IsolationGraphNode>, nodes: seq<IsolationGraphNode>, id: DefId)
    requires FindNode(o, id).None? && IdsKept(o, nodes)
    requires forall i :: |o| <= i < |nodes| ==> GetTypeAsWritten(tcx, nodes[i].nodeId) == Ok(CONSTRUCTOR)
    requires GetTypeAsWritten(tcx, id) != Ok(CONSTRUCTOR)
    ensures FindNode(nodes, id).None?
  {
    forall i | 0 <= i < |nodes|
      ensures nodes[i].nodeId != id
    {
      if i < |o| {
        assert nodes[i].nodeId == o[i].nodeId;
      }
    }
  }

  lemma CalleeStart(nodes: seq<IsolationGraphNode>, id: DefId)
    ensures CalleeState(nodes, nodes, [], [], id)
  {
  }

  /** The inner loop of the breadth-first walk: every callee not yet seen joins the
      back of the queue, once. */
  method EnqueueNew(queue: seq<DefId>, visited: set<DefId>, ghost enqueued: seq<DefId>, callees: seq<DefId>)
    returns (queue': seq<DefId>, visited': set<DefId>, ghost enqueued': seq<DefId>)
    requires visited == set x | x in enqueued
    requires NoDup(enqueued)
    ensures queue <= queue' && enqueued' == enqueued + queue'[|queue|..]
    ensures NoDup(enqueued')
    ensures visited' == set x | x in enqueued'
    ensures forall c :: c in callees ==> c in enqueued'
    ensures forall c :: c in queue'[|queue|..] ==> c in callees
  {
    queue', visited', enqueued' := queue, visited, enqueued;
    var j := 0;
    while j < |callees|
      invariant 0 <= j <= |callees|
      invariant queue <= queue' && enqueued' == enqueued + queue'[|queue|..]
      invariant NoDup(enqueued')
      invariant visited' == set x | x in enqueued'
      invariant forall c :: c in callees[..j] ==> c in enqueued'
      invariant forall c :: c in queue'[|queue|..] ==> c in callees[..j]
    {
      var c := callees[j];
      assert callees[..j + 1] == callees[..j] + [c];
      if c !in visited' {
        AppendFresh(enqueued', c);
        visited' := visited' + {c};
        queue' := queue' + [c];
        enqueued' := enqueued' + [c];
      }
      j := j + 1;
    }
    assert callees[..j] == callees;
  }

  /** What a callee visit has done to the table since `o`: existing nodes keep their
      ids and callers, every callee listed has a node, and every callee in `inserted`
      had none before and now lists `id` as a caller. */
  ghost predicate CalleeState(o: seq<IsolationGraphNode>, nodes: seq<IsolationGraphNode>,
                              callees: seq<DefId>, inserted: seq<DefId>, id: DefId)
  {
    KeepsCallers(o, nodes)
    && (forall c :: c in callees ==> FindNode(nodes, c).Some?)
    && (forall c :: c in inserted ==>
          c in callees && FindNode(o, c).None? && FindNode(nodes, c).Some?
          && id in nodes[FindNode(nodes, c).value].callers)
  }

  /** Which nodes a callee visit appended since `o`, and which callees it inserted: a
      callee not inserted had a node before the visit or is a constructor whose node a
      method's constructor search appended; every appended node is an inserted callee's
      or such a constructor's. */
  ghost predicate NewNodesAccounted(tcx: Tcx, o: seq<IsolationGraphNode>, nodes: seq<IsolationGraphNode>,
                                    callees: seq<DefId>, inserted: seq<DefId>)
  {
    (forall c :: c in callees && c !in inserted ==> FindNode(o, c).Some? || GetTypeAsWritten(tcx, c) == Ok(CONSTRUCTOR))
    && (forall i :: |o| <= i < |nodes| ==>
          nodes[i].nodeId in inserted || GetTypeAsWritten(tcx, nodes[i].nodeId) == Ok(CONSTRUCTOR))
  }

  /** The table after visiting `id`'s callees, against the one before: nodes may be
      appended; of the nodes there before, the first node of `id` gets `callees` and
      the visited mark, every node may gain methods, and nothing else changes. */
  ghost predicate VisitedOnly(a: seq<IsolationGraphNode>, b: seq<IsolationGraphNode>, id: DefId, callees: seq<DefId>)
  {
    |a| <= |b|
    && forall i :: 0 <= i < |a| ==>
         if FindNode(b, id) == Some(i) then MethodsExtended(a[i].(callees := callees, visitedTag := true), b[i])
         else MethodsExtended(a[i], b[i])
  }

  lemma MethodsGrewRefl(a: seq<IsolationGraphNode>)
    ensures MethodsGrew(a, a)
  {
  }

  lemma AccountedStart(tcx: Tcx, nodes: seq<IsolationGraphNode>)
    ensures NewNodesAccounted(tcx, nodes, nodes, [], [])
  {
  }

  /** A node found for `x` after `o` is `o`'s, an inserted callee's or a constructor's. */
  lemma AccountedFound(tcx: Tcx, o: seq<IsolationGraphNode>, a: seq<IsolationGraphNode>,
                       callees: seq<DefId>, inserted: seq<DefId>, x: DefId)
    requires NewNodesAccounted(tcx, o, a, callees, inserted) && IdsKept(o, a)
    requires FindNode(a, x).Some?
    ensures NewNodesAccounted(tcx, o, a, callees + [x], inserted)
  {
    var k := FindNode(a, x).value;
    if k < |o| {
      assert o[k].nodeId == x;
    }
  }

  /** A callee inserted: its node and the constructor nodes its search appended. */
  lemma AccountedInsert(tcx: Tcx, o: seq<IsolationGraphNode>, a: seq<IsolationGraphNode>, b: seq<IsolationGraphNode>,
                        c: seq<IsolationGraphNode>, callees: seq<DefId>, inserted: seq<DefId>, x: DefId)
    requires NewNodesAccounted(tcx, o, a, callees, inserted) && IdsKept(o, a)
    requires MethodsGrew(a, b)
    requires forall i :: |a| <= i < |b| ==> b[i].nodeId == x || GetTypeAsWritten(tcx, b[i].nodeId) == Ok(CONSTRUCTOR)
    requires IdsKept(b, c) && |c| == |b|
    ensures NewNodesAccounted(tcx, o, c, callees + [x], inserted + [x])
  {
    MethodsGrewKeeps(a, b);
    forall i | |o| <= i < |c|
      ensures c[i].nodeId in inserted + [x] || GetTypeAsWritten(tcx, c[i].nodeId) == Ok(CONSTRUCTOR)
    {
      assert c[i].nodeId == b[i].nodeId;
      if i < |a| {
        assert b[i].nodeId == a[i].nodeId;
      }
    }
  }

  /** Marking a node changes no id, so what was accounted stays accounted. */
  lemma AccountedKept(tcx: Tcx, o: seq<IsolationGraphNode>, a: seq<IsolationGraphNode>, b: seq<IsolationGraphNode>,
                      callees: seq<DefId>, inserted: seq<DefId>)
    requires NewNodesAccounted(tcx, o, a, callees, inserted)
    requires IdsKept(a, b) && |b| == |a|
    ensures NewNodesAccounted(tcx, o, b, callees, inserted)
  {
    forall i | |o| <= i < |b|
      ensures b[i].nodeId in inserted || GetTypeAsWritten(tcx, b[i].nodeId) == Ok(CONSTRUCTOR)
    {
      assert b[i].nodeId == a[i].nodeId;
    }
  }

  /** The caller is recorded on an appended node, so older nodes still only gained methods. */
  lemma MethodsGrewCaller(o: seq<IsolationGraphNode>, a: seq<IsolationGraphNode>, b: seq<IsolationGraphNode>,
                          c: seq<IsolationGraphNode>, x: DefId, id: DefId)
    requires MethodsGrew(o, a) && MethodsGrew(a, b) && FindNode(a, x).None? && FindNode(b, x).Some?
    requires c == b[FindNode(b, x).value := b[FindNode(b, x).value].(callers := PushUnique(b[FindNode(b, x).value].callers, id))]
    ensures MethodsGrew(o, c)
  {
    MethodsGrewTrans(o, a, b);
    MethodsGrewKeeps(a, b);
    FindNodeStable(a, b, x);
    forall i | 0 <= i < |o|
      ensures MethodsExtended(o[i], c[i])
    {
      assert c[i] == b[i];
    }
  }

  /** The last step of a visit: the first node of `id`, if any, is marked. */
  lemma VisitedOnlyStep(o: seq<IsolationGraphNode>, a: seq<IsolationGraphNode>, b: seq<IsolationGraphNode>,
                        id: DefId, callees: seq<DefId>)
    requires MethodsGrew(o, a)
    requires FindNode(a, id).None? ==> b == a
    requires FindNode(a, id).Some? ==>
      b == a[FindNode(a, id).value := a[FindNode(a, id).value].(callees := callees, visitedTag := true)]
    ensures VisitedOnly(o, b, id, callees)
  {
    if FindNode(a, id).Some? {
      var k := FindNode(a, id).value;
      assert IdsKept(a, b);
      FindNodeStable(a, b, id);
      forall i | 0 <= i < |o|
        ensures if FindNode(b, id) == Some(i) then MethodsExtended(o[i].(callees := callees, visitedTag := true), b[i])
                else MethodsExtended(o[i], b[i])
      {
        assert MethodsExtended(o[i], a[i]);
      }
    } else {
      forall i | 0 <= i < |o|
        ensures MethodsExtended(o[i], b[i])
      {
        assert MethodsExtended(o[i], a[i]);
      }
    }
  }

  /** Callers only ever grow on nodes that keep their place. */
  ghost predicate CallersGrew(a: seq<IsolationGraphNode>, b: seq<IsolationGraphNode>)
  {
    IdsKept(a, b) && forall i :: 0 <= i < |a| ==> a[i].callers <= b[i].callers
  }

  lemma CalleeStateKept(o: seq<IsolationGraphNode>, a: seq<IsolationGraphNode>, b: seq<IsolationGraphNode>,
                        callees: seq<DefId>, inserted: seq<DefId>, id: DefId)
    requires CalleeState(o, a, callees, inserted, id)
    requires CallersGrew(a, b)
    requires forall i :: 0 <= i < |o| ==> b[i].callers == a[i].callers
    ensures CalleeState(o, b, callees, inserted, id)
  {
    FoundKept(a, b, callees);
    forall c | c in inserted
      ensures id in b[FindNode(b, c).value].callers
    {
      var i := FindNode(a, c).value;
      assert a[i].callers <= b[i].callers;
    }
  }

  /** Recording a caller on one node changes no node's id. */
  lemma CallerAddedKeepsIds(b: seq<IsolationGraphNode>, k: nat, id: DefId)
    requires k < |b|
    ensures IdsKept(b, b[k := b[k].(callers := PushUnique(b[k].callers, id))])
  {
  }

  /** A callee met with no node: inserted, then given `id` as caller. */
  lemma CalleeInsertStep(o: seq<IsolationGraphNode>, a: seq<IsolationGraphNode>, b: seq<IsolationGraphNode>,
                         c: seq<IsolationGraphNode>, callees: seq<DefId>, inserted: seq<DefId>, x: DefId, id: DefId)
    requires CalleeState(o, a, callees, inserted, id)
    requires FindNode(a, x).None? && x !in callees
    requires MethodsGrew(a, b) && FindNode(b, x).Some?
    requires c == b[FindNode(b, x).value := b[FindNode(b, x).value].(callers := PushUnique(b[FindNode(b, x).value].callers, id))]
    ensures CalleeState(o, c, callees + [x], inserted + [x], id)
  {
    CallerAddedKeepsIds(b, FindNode(b, x).value, id);
    FindNodeStable(b, c, x);
    MethodsGrewKeeps(a, b);
    var k := FindNode(b, x).value;
    FindNodeStable(a, b, x);
    assert IdsKept(o, a);
    assert FindNode(o, x).None? by {
      FindNodeStable(o, a, x);
    }
    assert k >= |a|;
    forall i | 0 <= i < |a|
      ensures a[i].callers <= c[i].callers && c[i].nodeId == a[i].nodeId
    {
      assert c[i] == b[i];
      assert MethodsExtended(a[i], b[i]);
    }
    CalleeStateKept(o, a, c, callees, inserted, id);
  }

  /** A callee met that already has a node: nothing changes but the list. */
  lemma CalleeFoundStep(o: seq<IsolationGraphNode>, a: seq<IsolationGraphNode>, callees: seq<DefId>,
                        inserted: seq<DefId>, x: DefId, id: DefId)
    requires CalleeState(o, a, callees, inserted, id)
    requires FindNode(a, x).Some?
    ensures CalleeState(o, a, callees + [x], inserted, id)
  {
  }

  /** Marking the visited node changes neither ids nor callers. */
  lemma MarkVisitedKeeps(o: seq<IsolationGraphNode>, a: seq<IsolationGraphNode>, b: seq<IsolationGraphNode>,
                         callees: seq<DefId>, inserted: seq<DefId>, id: DefId, k: nat)
    requires CalleeState(o, a, callees, inserted, id)
    requires k < |a| && b == a[k := a[k].(callees := callees, visitedTag := true)]
    ensures CalleeState(o, b, callees, inserted, id)
  {
    CalleeStateKept(o, a, b, callees, inserted, id);
  }

  lemma UnsafeRelatedSnoc(related: seq<RelatedFn>, k: nat)
    requires k < |related|
    ensures UnsafeRelatedIds(related[..k + 1]) ==
      if related[k].functionUnsafe || related[k].blockUnsafe
      then UnsafeRelatedIds(related[..k]) + [related[k].defId]
      else UnsafeRelatedIds(related[..k])
  {
    assert related[..k + 1][..k] == related[..k];
  }

  /** `if visited.insert(x) { queue.push_back(x) }` keeps the queue the deduplicated
      list of the ids so far and `visited` its set. */
  lemma QueueStep(ids: seq<DefId>, x: DefId, queue: seq<DefId>, visited: set<DefId>)
    requires queue == Dedup(ids) && visited == (set y | y in queue)
    ensures x in visited ==> queue == Dedup(ids + [x])
    ensures x !in visited ==> queue + [x] == Dedup(ids + [x]) && visited + {x} == (set y | y in queue + [x])
  {
    DedupSnoc(ids, x);
    assert x in visited <==> x in ids;
    SetOfSnoc(queue, x);
  }

  lemma SetOfSnoc(q: seq<DefId>, x: DefId)
    ensures (set y | y in q + [x]) == (set y | y in q) + {x}
  {
  }

  /** One seeded node: earlier ids keep their nodes and the new id has one. */
  lemma SeedStep(a: seq<IsolationGraphNode>, b: seq<IsolationGraphNode>, c: seq<IsolationGraphNode>,
                 queue: seq<DefId>, x: DefId)
    requires forall y :: y in queue ==> FindNode(a, y).Some?
    requires IdsKept(a, b)
    requires |c| == |b| + 1 && c[..|b|] == b && c[|b|].nodeId == x
    ensures forall y :: y in queue + [x] ==> FindNode(c, y).Some?
  {
    assert IdsKept(b, c);
    FoundKept(a, b, queue);
    FoundKept(b, c, queue);
    assert c[|b|].nodeId == x;
  }

  lemma IdsKeptTrans(a: seq<IsolationGraphNode>, b: seq<IsolationGraphNode>, c: seq<IsolationGraphNode>)
    requires IdsKept(a, b) && KeepsCallers(b, c)
    ensures IdsKept(a, c)
  {
  }

  /** `c` is an unsafe callee of some function the walk expanded. */
  ghost predicate CalledFrom(tcx: Tcx, expanded: seq<DefId>, c: DefId)
  {
    exists x :: x in expanded && UnsafeCallees(tcx, x).Ok? && c in UnsafeCallees(tcx, x).value
  }

  /** The walk is closed under unsafe callees: every expanded function's callees were
      all found, and each of them has entered the queue. */
  ghost predicate CalleesEnqueued(tcx: Tcx, expanded: seq<DefId>, enqueued: seq<DefId>)
  {
    forall x :: x in expanded ==>
      UnsafeCallees(tcx, x).Ok? && forall c :: c in UnsafeCallees(tcx, x).value ==> c in enqueued
  }

  /** A chain of unsafe calls: each function on `path` but the last belongs to `api`,
      its unsafe callees are found, and the next one is among them. */
  ghost predicate CallChain(tcx: Tcx, api: seq<DefId>, path: seq<DefId>)
  {
    |path| > 0
    && forall i :: 0 <= i < |path| - 1 ==>
         path[i] in api && UnsafeCallees(tcx, path[i]).Ok? && path[i + 1] in UnsafeCallees(tcx, path[i]).value
  }

  /** The walk's result against reachability: once the walk is closed under unsafe
      callees and has expanded every crate function it enqueued, everything reachable
      from an enqueued function by a chain of unsafe calls through crate functions has
      been enqueued too. */
  lemma {:induction false} ReachedEnqueued(tcx: Tcx, api: seq<DefId>, expanded: seq<DefId>, enqueued: seq<DefId>,
                                           path: seq<DefId>)
    requires CalleesEnqueued(tcx, expanded, enqueued)
    requires forall x :: x in enqueued && x in api ==> x in expanded
    requires CallChain(tcx, api, path) && path[0] in enqueued
    ensures path[|path| - 1] in enqueued
    decreases |path|
  {
    if |path| > 1 {
      assert path[0] in expanded;
      assert path[1] in enqueued;
      var rest := path[1..];
      assert CallChain(tcx, api, rest) by {
        forall i | 0 <= i < |rest| - 1
          ensures rest[i] in api && UnsafeCallees(tcx, rest[i]).Ok? && rest[i + 1] in UnsafeCallees(tcx, rest[i]).value
        {
          assert rest[i] == path[i + 1] && rest[i + 1] == path[i + 2];
        }
      }
      ReachedEnqueued(tcx, api, expanded, enqueued, rest);
    }
  }

  /** The first node of `x` holds `x`'s unsafe callees, without repeats, and is visited. */
  ghost predicate Marked(tcx: Tcx, nodes: seq<IsolationGraphNode>, x: DefId)
  {
    FindNode(nodes, x).Some? && UnsafeCallees(tcx, x).Ok?
    && nodes[FindNode(nodes, x).value].callees == Dedup(UnsafeCallees(tcx, x).value)
    && nodes[FindNode(nodes, x).value].visitedTag
  }

  /** A visit of `id` leaves the marks of the other expanded functions alone, and
      marks `id` itself when it had a node. */
  lemma MarkedKept(tcx: Tcx, o: seq<IsolationGraphNode>, a: seq<IsolationGraphNode>, b: seq<IsolationGraphNode>,
                   id: DefId, callees: seq<DefId>, expanded: seq<DefId>)
    requires IdsKept(o, a) && VisitedOnly(a, b, id, callees) && id !in expanded
    requires UnsafeCallees(tcx, id).Ok? && callees == Dedup(UnsafeCallees(tcx, id).value)
    requires FindNode(b, id).Some? ==> b[FindNode(b, id).value].callees == callees && b[FindNode(b, id).value].visitedTag
    requires forall x :: x in expanded && FindNode(o, x).Some? ==> Marked(tcx, a, x)
    ensures forall x :: x in expanded + [id] && FindNode(o, x).Some? ==> Marked(tcx, b, x)
  {
    assert IdsKept(a, b) by {
      forall i | 0 <= i < |a|
        ensures b[i].nodeId == a[i].nodeId
      {
        if FindNode(b, id) == Some(i) {
          assert MethodsExtended(a[i].(callees := callees, visitedTag := true), b[i]);
        } else {
          assert MethodsExtended(a[i], b[i]);
        }
      }
    }
    forall x | x in expanded + [id] && FindNode(o, x).Some?
      ensures Marked(tcx, b, x)
    {
      FindNodeStable(o, a, x);
      FindNodeStable(a, b, x);
      if x != id {
        var k := FindNode(a, x).value;
        assert FindNode(b, id) != Some(k);
        assert MethodsExtended(a[k], b[k]);
      }
    }
  }

  /** One expansion of the walk: `id`'s callees have all entered the queue, and every
      id that entered is one of them. */
  lemma ExpandStep(tcx: Tcx, expanded: seq<DefId>, id: DefId, callees: seq<DefId>, queue0: seq<DefId>,
                   q: seq<DefId>, q': seq<DefId>, e: seq<DefId>, e': seq<DefId>)
    requires UnsafeCallees(tcx, id).Ok? && callees == Dedup(UnsafeCallees(tcx, id).value)
    requires CalleesEnqueued(tcx, expanded, e)
    requires forall c :: c in e && c !in queue0 ==> CalledFrom(tcx, expanded, c)
    requires q <= q' && e' == e + q'[|q|..]
    requires forall c :: c in q'[|q|..] ==> c in callees
    requires forall c :: c in callees ==> c in e'
    ensures CalleesEnqueued(tcx, expanded + [id], e')
    ensures forall c :: c in e' && c !in queue0 ==> CalledFrom(tcx, expanded + [id], c)
  {
    forall x | x in expanded + [id]
      ensures UnsafeCallees(tcx, x).Ok? && forall c :: c in UnsafeCallees(tcx, x).value ==> c in e'
    {
    }
    forall c | c in e' && c !in queue0
      ensures CalledFrom(tcx, expanded + [id], c)
    {
      if c in e {
        var x :| x in expanded && UnsafeCallees(tcx, x).Ok? && c in UnsafeCallees(tcx, x).value;
        assert x in expanded + [id];
      } else {
        assert c in UnsafeCallees(tcx, id).value && id in expanded + [id];
      }
    }
  }

  /** The head of the queue has not been popped before, since no id is enqueued twice. */
  lemma NotYetPopped(popped: seq<DefId>, queue: seq<DefId>, enqueued: seq<DefId>)
    requires enqueued == popped + queue && |queue| > 0 && NoDup(enqueued)
    ensures queue[0] !in popped
  {
    forall i | 0 <= i < |popped|
      ensures popped[i] != queue[0]
    {
      assert enqueued[i] == popped[i] && enqueued[|popped|] == queue[0];
    }
  }

  /** The related functions the walk has not dequeued yet. */
  ghost function Unpopped(api: seq<DefId>, popped: seq<DefId>): set<DefId>
  {
    (set x | x in api) - set x | x in popped
  }

  /** Dequeuing a related function shrinks what is left; any other id leaves it as is. */
  lemma PopMeasure(api: seq<DefId>, popped: seq<DefId>, id: DefId)
    ensures id !in api ==> Unpopped(api, popped + [id]) == Unpopped(api, popped)
    ensures id in api && id !in popped ==> |Unpopped(api, popped + [id])| < |Unpopped(api, popped)|
  {
    assert (set x | x in popped + [id]) == (set x | x in popped) + {id};
    if id in api && id !in popped {
      assert Unpopped(api, popped + [id]) == Unpopped(api, popped) - {id};
    }
  }

  lemma QueueGrows(popped: seq<DefId>, q: seq<DefId>, q': seq<DefId>, e: seq<DefId>, e': seq<DefId>)
    requires e == popped + q && q <= q' && e' == e + q'[|q|..]
    ensures e' == popped + q' && e <= e'
  {
    assert q' == q + q'[|q|..];
  }

  lemma AppendFresh(s: seq<DefId>, x: DefId)
    requires NoDup(s) && x !in s
    ensures NoDup(s + [x])
  {
  }

  /** Every element of `s` is in `Dedup(s)`, so the ids seeded into the queue are enqueued. */
  lemma DedupPreserved(queue: seq<DefId>, enqueued: seq<DefId>, s: seq<DefId>)
    requires queue == Dedup(s) && queue <= enqueued
    ensures forall x :: x in s ==> x in enqueued
  {
    forall x | x in s
      ensures x in enqueued
    {
      var i :| 0 <= i < |queue| && queue[i] == x;
      assert enqueued[i] == x;
    }
  }
}
