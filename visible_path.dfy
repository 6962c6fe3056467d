/** The path under which a definition is visible to code outside the crate: a
    re-export from the crate root, directly, through its parent, or through the
    nearest re-exported ancestor followed by the path down from it; otherwise the
    compiler's def path. */
module VisiblePath {
  import opened Common
  import opened Rustc

  /** The compiler queries the walk makes. `itemName` has no value for unnamed items
      such as impl blocks, where the compiler's `item_name` panics. */
  datatype VisTcx = VisTcx(
    isLocal: DefId -> bool,
    crateRoot: DefId,
    moduleChildren: DefId -> seq<ModChild>,
    optParent: DefId -> Option<DefId>,
    itemName: DefId -> Option<string>,
    defPathStr: DefId -> string,
    tyToString: Ty -> string)

  /** Every parent ranks below its child, so walking up the parents ends. */
  ghost predicate ParentsRanked(tcx: VisTcx, depth: DefId -> nat)
  {
    forall d: DefId :: tcx.optParent(d).Some? ==> depth(tcx.optParent(d).value) < depth(d)
  }

  /** `item_name`. */
  const NO_NAME := "item_name: no name"

  function ItemName(tcx: VisTcx, d: DefId): (r: Result<string>)
    ensures r.Ok? <==> tcx.itemName(d).Some?
    ensures r.Ok? ==> r.value == tcx.itemName(d).value
    ensures r.Panic? ==> r.reason == NO_NAME
  {
    if tcx.itemName(d).Some? then Ok(tcx.itemName(d).value) else Panic(NO_NAME)
  }

  // ---------------------------------------------------------------------------
  // Re-exports

  /** A child that re-exports `target` under a usable name. */
  predicate ReexportsAs(c: ModChild, target: DefId)
  {
    c.res == Some(target) && c.isPublic && c.ident != "_"
  }

  /** The name of the first child that re-exports `target`. */
  function FirstReexport(children: seq<ModChild>, target: DefId): (r: Option<string>)
    ensures r.None? <==> forall i :: 0 <= i < |children| ==> !ReexportsAs(children[i], target)
  {
    if children == [] then None
    else if ReexportsAs(children[0], target) then Some(children[0].ident)
    else
      assert forall i :: 1 <= i < |children| ==> children[i] == children[1..][i - 1];
      FirstReexport(children[1..], target)
  }

  /** `find_reexport_in_module`: the children of a local and of a foreign module are
      searched alike, in order, and the first re-export wins. */
  method FindReexportInModule(tcx: VisTcx, moduleDefId: DefId, target: DefId) returns (r: Option<string>)
    ensures r == FirstReexport(tcx.moduleChildren(moduleDefId), target)
  {
    var children := tcx.moduleChildren(moduleDefId);
    var i := 0;
    while i < |children|
      invariant 0 <= i <= |children|
      invariant forall j :: 0 <= j < i ==> !ReexportsAs(children[j], target)
    {
      var child := children[i];
      if child.res == Some(target) && child.isPublic && child.ident != "_" {
        FirstReexportAt(children, target, i);
        return Some(child.ident);
      }
      i := i + 1;
    }
    r := None;
  }

  /** The first re-exporting child determines the answer. */
  lemma {:induction false} FirstReexportAt(children: seq<ModChild>, target: DefId, i: nat)
    requires i < |children| && ReexportsAs(children[i], target)
    requires forall j :: 0 <= j < i ==> !ReexportsAs(children[j], target)
    ensures FirstReexport(children, target) == Some(children[i].ident)
  {
    if i > 0 {
      assert !ReexportsAs(children[0], target);
      assert forall j :: 0 <= j < i - 1 ==> children[1..][j] == children[j + 1];
      FirstReexportAt(children[1..], target, i - 1);
    }
  }

  /** The crate root's re-export of `d`. */
  function RootReexport(tcx: VisTcx, d: DefId): Option<string>
  {
    FirstReexport(tcx.moduleChildren(tcx.crateRoot), d)
  }

  // ---------------------------------------------------------------------------
  // Relative paths

  /** The definitions passed on the way from `current` up towards `ancestor`, leaf
      first: it stops before `ancestor`, or after the root when `ancestor` is never met. */
  ghost function Chain(tcx: VisTcx, depth: DefId -> nat, ancestor: DefId, current: DefId): seq<DefId>
    requires ParentsRanked(tcx, depth)
    decreases depth(current)
  {
    if current == ancestor then []
    else match tcx.optParent(current)
      case None => [current]
      case Some(p) => [current] + Chain(tcx, depth, ancestor, p)
  }

  /** The chain starts at `current`, each next element is the parent of the previous,
      `ancestor` is not on it, and it ends just below `ancestor` or at a root. */
  lemma {:induction false} ChainShape(tcx: VisTcx, depth: DefId -> nat, ancestor: DefId, current: DefId)
    requires ParentsRanked(tcx, depth)
    ensures var c := Chain(tcx, depth, ancestor, current);
      (c == [] <==> current == ancestor)
      && (c != [] ==> c[0] == current)
      && (forall i :: 0 <= i < |c| - 1 ==> tcx.optParent(c[i]) == Some(c[i + 1]))
      && ancestor !in c
      && (c != [] ==> tcx.optParent(c[|c| - 1]) == None || tcx.optParent(c[|c| - 1]) == Some(ancestor))
    decreases depth(current)
  {
    if current != ancestor && tcx.optParent(current).Some? {
      ChainShape(tcx, depth, ancestor, tcx.optParent(current).value);
    }
  }

  /** The names of `ds`, last first; a panic when one has no name. */
  function NamesReversed(tcx: VisTcx, ds: seq<DefId>): (r: Result<seq<string>>)
    ensures r.Ok? <==> forall d :: d in ds ==> tcx.itemName(d).Some?
    ensures r.Ok? ==> |r.value| == |ds| && forall i :: 0 <= i < |ds| ==> r.value[|ds| - 1 - i] == tcx.itemName(ds[i]).value
    ensures r.Panic? ==> r.reason == NO_NAME
  {
    if ds == [] then Ok([])
    else
      var init := ds[..|ds| - 1];
      assert forall d :: d in ds ==> d == ds[|ds| - 1] || d in init;
      var rest :- NamesReversed(tcx, init);
      var name :- ItemName(tcx, ds[|ds| - 1]);
      Ok([name] + rest)
  }

  /** `get_relative_path` as a value: the chain's names in root-to-leaf order, joined by `::`. */
  ghost function RelativePath(tcx: VisTcx, depth: DefId -> nat, ancestor: DefId, target: DefId): Result<string>
    requires ParentsRanked(tcx, depth)
  {
    var names :- NamesReversed(tcx, Chain(tcx, depth, ancestor, target));
    Ok(Join(names, "::"))
  }

  /** `get_relative_path`: collect names walking up from `target`, then reverse and join. */
  method GetRelativePath(tcx: VisTcx, ghost depth: DefId -> nat, ancestor: DefId, target: DefId) returns (r: Result<string>)
    requires ParentsRanked(tcx, depth)
    ensures r == RelativePath(tcx, depth, ancestor, target)
  {
    var components: seq<string> := [];
    var current := target;
    ghost var walked: seq<DefId> := [];
    var stopped := false;
    while current != ancestor && !stopped
      invariant !stopped ==> Chain(tcx, depth, ancestor, target) == walked + Chain(tcx, depth, ancestor, current)
      invariant stopped ==> Chain(tcx, depth, ancestor, target) == walked
      invariant NamesReversed(tcx, walked) == Ok(Reverse(components))
      decreases depth(current), if stopped then 0 else 1
    {
      var name := ItemName(tcx, current);
      if name.Panic? {
        WalkPanics(tcx, depth, ancestor, target, walked, current);
        return Panic(name.reason);
      }
      WalkUp(tcx, depth, ancestor, target, walked, current, components, name.value);
      components := components + [name.value];
      walked := walked + [current];
      var parent := tcx.optParent(current);
      if parent.Some? {
        current := parent.value;
      } else {
        stopped := true;
      }
    }
    ghost var chain := Chain(tcx, depth, ancestor, target);
    assert chain == walked by {
      if !stopped {
        assert Chain(tcx, depth, ancestor, current) == [];
      }
    }
    RelativePathIs(tcx, depth, ancestor, target, Reverse(components));
    r := Ok(Join(Reverse(components), "::"));
  }

  /** One named step up from `current`: its name joins the reversed names and the
      rest of the chain starts at its parent, or the chain ends with it. */
  lemma WalkUp(tcx: VisTcx, depth: DefId -> nat, ancestor: DefId, target: DefId,
               walked: seq<DefId>, current: DefId, components: seq<string>, name: string)
    requires ParentsRanked(tcx, depth) && current != ancestor
    requires Chain(tcx, depth, ancestor, target) == walked + Chain(tcx, depth, ancestor, current)
    requires NamesReversed(tcx, walked) == Ok(Reverse(components))
    requires tcx.itemName(current) == Some(name)
    ensures NamesReversed(tcx, walked + [current]) == Ok(Reverse(components + [name]))
    ensures tcx.optParent(current).Some? ==>
      Chain(tcx, depth, ancestor, target) == walked + [current] + Chain(tcx, depth, ancestor, tcx.optParent(current).value)
    ensures tcx.optParent(current).None? ==> Chain(tcx, depth, ancestor, target) == walked + [current]
  {
    NamesSnoc(tcx, walked, current, components, name);
    ChainStep(tcx, depth, ancestor, current);
    if tcx.optParent(current).Some? {
      AppendAssoc(walked, [current], Chain(tcx, depth, ancestor, tcx.optParent(current).value));
    }
  }

  /** A nameless definition on the chain makes the whole path panic. */
  lemma WalkPanics(tcx: VisTcx, depth: DefId -> nat, ancestor: DefId, target: DefId,
                   walked: seq<DefId>, current: DefId)
    requires ParentsRanked(tcx, depth) && current != ancestor
    requires Chain(tcx, depth, ancestor, target) == walked + Chain(tcx, depth, ancestor, current)
    requires tcx.itemName(current).None?
    ensures RelativePath(tcx, depth, ancestor, target) == Panic(NO_NAME)
  {
    ChainStep(tcx, depth, ancestor, current);
    NamesPanicPersists(tcx, walked, current, Chain(tcx, depth, ancestor, current));
  }

  lemma RelativePathIs(tcx: VisTcx, depth: DefId -> nat, ancestor: DefId, target: DefId, names: seq<string>)
    requires ParentsRanked(tcx, depth)
    requires NamesReversed(tcx, Chain(tcx, depth, ancestor, target)) == Ok(names)
    ensures RelativePath(tcx, depth, ancestor, target) == Ok(Join(names, "::"))
  {
  }

  /** One step up the chain. */
  lemma ChainStep(tcx: VisTcx, depth: DefId -> nat, ancestor: DefId, current: DefId)
    requires ParentsRanked(tcx, depth)
    requires current != ancestor
    ensures tcx.optParent(current).None? ==> Chain(tcx, depth, ancestor, current) == [current]
    ensures tcx.optParent(current).Some? ==>
      Chain(tcx, depth, ancestor, current) == [current] + Chain(tcx, depth, ancestor, tcx.optParent(current).value)
  {
  }

  function Reverse<T>(s: seq<T>): (r: seq<T>)
    ensures |r| == |s| && forall i :: 0 <= i < |s| ==> r[i] == s[|s| - 1 - i]
  {
    if s == [] then [] else Reverse(s[1..]) + [s[0]]
  }

  lemma NamesSnoc(tcx: VisTcx, ds: seq<DefId>, d: DefId, names: seq<string>, name: string)
    requires NamesReversed(tcx, ds) == Ok(Reverse(names))
    requires tcx.itemName(d) == Some(name)
    ensures NamesReversed(tcx, ds + [d]) == Ok(Reverse(names + [name]))
  {
    assert (ds + [d])[..|ds|] == ds;
    assert Reverse(names + [name]) == [name] + Reverse(names);
  }

  lemma NamesPanicPersists(tcx: VisTcx, ds: seq<DefId>, d: DefId, rest: seq<DefId>)
    requires tcx.itemName(d).None? && |rest| > 0 && rest[0] == d
    ensures NamesReversed(tcx, ds + rest) == Panic(NO_NAME)
  {
    assert (ds + rest)[|ds|] == d;
  }

  // ---------------------------------------------------------------------------
  // The visible path

  /** The path through a re-exported `ancestor`: its re-export name, then the path from
      it down to `d`. */
  ghost function ViaAncestor(tcx: VisTcx, depth: DefId -> nat, ancestor: DefId, d: DefId): Result<string>
    requires ParentsRanked(tcx, depth)
    requires RootReexport(tcx, ancestor).Some?
  {
    var rel :- RelativePath(tcx, depth, ancestor, d);
    Ok(RootReexport(tcx, ancestor).value + "::" + rel)
  }

  /** The ancestor walk of `get_visible_path`, from `current` up: the first ancestor
      the crate root re-exports names the path, followed by the path down to `d`. */
  ghost function AncestorPath(tcx: VisTcx, depth: DefId -> nat, d: DefId, current: Option<DefId>): Option<Result<string>>
    requires ParentsRanked(tcx, depth)
    decreases if current.Some? then depth(current.value) + 1 else 0
  {
    match current
    case None => None
    case Some(ancestor) =>
      match RootReexport(tcx, ancestor)
      case Some(_) => Some(ViaAncestor(tcx, depth, ancestor, d))
      case None => AncestorPath(tcx, depth, d, tcx.optParent(ancestor))
  }

  /** `get_visible_path` as a value. */
  ghost function VisiblePathOf(tcx: VisTcx, depth: DefId -> nat, d: DefId): (r: Result<string>)
    requires ParentsRanked(tcx, depth)
    ensures !tcx.isLocal(d) ==> r == Ok(tcx.defPathStr(d))
  {
    if !tcx.isLocal(d) then Ok(tcx.defPathStr(d))
    else if RootReexport(tcx, d).Some? then Ok(RootReexport(tcx, d).value)
    else match tcx.optParent(d)
      case None => Ok(tcx.defPathStr(d))
      case Some(parent) =>
        if RootReexport(tcx, parent).Some? then
          var name :- ItemName(tcx, d);
          Ok(RootReexport(tcx, parent).value + "::" + name)
        else match AncestorPath(tcx, depth, d, tcx.optParent(parent))
          case Some(r) => r
          case None => Ok(tcx.defPathStr(d))
  }

  /** The order of preference: a root re-export of the item, then of its parent, then
      of the nearest ancestor that has one; the def path only when none does. */
  lemma VisiblePathPriority(tcx: VisTcx, depth: DefId -> nat, d: DefId)
    requires ParentsRanked(tcx, depth)
    requires tcx.isLocal(d)
    ensures RootReexport(tcx, d).Some? ==> VisiblePathOf(tcx, depth, d) == Ok(RootReexport(tcx, d).value)
    ensures RootReexport(tcx, d).None? && tcx.optParent(d).Some? && RootReexport(tcx, tcx.optParent(d).value).Some?
            && tcx.itemName(d).Some? ==>
      VisiblePathOf(tcx, depth, d) == Ok(RootReexport(tcx, tcx.optParent(d).value).value + "::" + tcx.itemName(d).value)
    ensures RootReexport(tcx, d).None? && tcx.optParent(d).None? ==> VisiblePathOf(tcx, depth, d) == Ok(tcx.defPathStr(d))
  {
  }

  /** The ancestor found is the nearest: every ancestor below it on the parent chain
      has no root re-export; and when none is found, no ancestor has one. */
  lemma {:induction false} AncestorPathNearest(tcx: VisTcx, depth: DefId -> nat, d: DefId, current: DefId)
    requires ParentsRanked(tcx, depth)
    ensures AncestorPath(tcx, depth, d, Some(current)).None? ==>
      forall a :: a in Ancestors(tcx, depth, current) ==> RootReexport(tcx, a).None?
    ensures AncestorPath(tcx, depth, d, Some(current)).Some? ==>
      exists k :: 0 <= k < |Ancestors(tcx, depth, current)| && RootReexport(tcx, Ancestors(tcx, depth, current)[k]).Some?
        && (forall j :: 0 <= j < k ==> RootReexport(tcx, Ancestors(tcx, depth, current)[j]).None?)
        && AncestorPath(tcx, depth, d, Some(current)) == Some(ViaAncestor(tcx, depth, Ancestors(tcx, depth, current)[k], d))
    decreases depth(current)
  {
    var anc := Ancestors(tcx, depth, current);
    if RootReexport(tcx, current).None? && tcx.optParent(current).Some? {
      var p := tcx.optParent(current).value;
      AncestorPathNearest(tcx, depth, d, p);
      var rest := Ancestors(tcx, depth, p);
      assert anc == [current] + rest;
      if AncestorPath(tcx, depth, d, Some(p)).Some? {
        var k :| 0 <= k < |rest| && RootReexport(tcx, rest[k]).Some?
          && (forall j :: 0 <= j < k ==> RootReexport(tcx, rest[j]).None?)
          && AncestorPath(tcx, depth, d, Some(p)) == Some(ViaAncestor(tcx, depth, rest[k], d));
        assert anc[k + 1] == rest[k];
        assert forall j :: 0 <= j < k + 1 ==> RootReexport(tcx, anc[j]).None?;
      }
    } else if RootReexport(tcx, current).Some? {
      assert anc[0] == current;
      var k := 0;
      assert 0 <= k < |anc| && RootReexport(tcx, anc[k]).Some?
        && AncestorPath(tcx, depth, d, Some(current)) == Some(ViaAncestor(tcx, depth, anc[k], d));
    } else {
      assert AncestorPath(tcx, depth, d, Some(current)) == None;
      assert anc == [current];
    }
  }

  /** `current` and its parents up to a root. */
  ghost function Ancestors(tcx: VisTcx, depth: DefId -> nat, current: DefId): (r: seq<DefId>)
    requires ParentsRanked(tcx, depth)
    ensures |r| > 0 && r[0] == current
    decreases depth(current)
  {
    match tcx.optParent(current)
    case None => [current]
    case Some(p) => [current] + Ancestors(tcx, depth, p)
  }

  /** `get_visible_path`. */
  method GetVisiblePath(tcx: VisTcx, ghost depth: DefId -> nat, d: DefId) returns (r: Result<string>)
    requires ParentsRanked(tcx, depth)
    ensures r == VisiblePathOf(tcx, depth, d)
  {
    if tcx.isLocal(d) {
      var crateDefId := tcx.crateRoot;
      var reexportName := FindReexportInModule(tcx, crateDefId, d);
      if reexportName.Some? {
        return Ok(reexportName.value);
      }
      var parent := tcx.optParent(d);
      if parent.Some? {
        var parentReexport := FindReexportInModule(tcx, crateDefId, parent.value);
        if parentReexport.Some? {
          var itemName := ItemName(tcx, d);
          if itemName.Panic? {
            return Panic(itemName.reason);
          }
          return Ok(parentReexport.value + "::" + itemName.value);
        }
        var currentParent := tcx.optParent(parent.value);
        while currentParent.Some?
          invariant AncestorPath(tcx, depth, d, tcx.optParent(parent.value)) == AncestorPath(tcx, depth, d, currentParent)
          decreases if currentParent.Some? then depth(currentParent.value) + 1 else 0
        {
          var ancestor := currentParent.value;
          var ancestorReexport := FindReexportInModule(tcx, crateDefId, ancestor);
          if ancestorReexport.Some? {
            var relativePath := GetRelativePath(tcx, depth, ancestor, d);
            if relativePath.Panic? {
              return Panic(relativePath.reason);
            }
            return Ok(ancestorReexport.value + "::" + relativePath.value);
          }
          currentParent := tcx.optParent(ancestor);
        }
      }
    }
    r := Ok(tcx.defPathStr(d));
  }

  /** The texts of the type and constant arguments, in order; lifetimes are left out. */
  function ArgTexts(tcx: VisTcx, args: seq<GenericArg>): (r: seq<string>)
    ensures |r| <= |args|
    ensures r == [] <==> forall i :: 0 <= i < |args| ==> args[i].Lifetime?
  {
    if args == [] then []
    else
      var rest := ArgTexts(tcx, args[1..]);
      assert forall i :: 1 <= i < |args| ==> args[i] == args[1..][i - 1];
      match args[0]
      case Lifetime(_) => rest
      case TypeArg(ty) => [tcx.tyToString(ty)] + rest
      case ConstArg(c) => [c.display] + rest
  }

  /** Leaving out the lifetimes keeps the other arguments' texts in order. */
  lemma {:induction false} ArgTextsAppend(tcx: VisTcx, a: seq<GenericArg>, b: seq<GenericArg>)
    ensures ArgTexts(tcx, a + b) == ArgTexts(tcx, a) + ArgTexts(tcx, b)
  {
    if a != [] {
      assert (a + b)[0] == a[0];
      assert (a + b)[1..] == a[1..] + b;
      ArgTextsAppend(tcx, a[1..], b);
      var rest := ArgTexts(tcx, a[1..] + b);
      assert rest == ArgTexts(tcx, a[1..]) + ArgTexts(tcx, b);
      match a[0]
      case Lifetime(_) =>
        assert ArgTexts(tcx, a) == ArgTexts(tcx, a[1..]);
      case TypeArg(ty) =>
        assert ArgTexts(tcx, a + b) == [tcx.tyToString(ty)] + rest;
        assert ArgTexts(tcx, a) == [tcx.tyToString(ty)] + ArgTexts(tcx, a[1..]);
      case ConstArg(c) =>
        assert ArgTexts(tcx, a + b) == [c.display] + rest;
        assert ArgTexts(tcx, a) == [c.display] + ArgTexts(tcx, a[1..]);
    } else {
      assert a + b == b;
    }
  }

  /** `get_visible_path_with_args` as a value. */
  ghost function VisiblePathWithArgs(tcx: VisTcx, depth: DefId -> nat, d: DefId, args: seq<GenericArg>): Result<string>
    requires ParentsRanked(tcx, depth)
  {
    var base :- VisiblePathOf(tcx, depth, d);
    var texts := ArgTexts(tcx, args);
    Ok(if texts == [] then base else base + "::<" + Join(texts, ", ") + ">")
  }

  /** `get_visible_path_with_args`: the visible path, followed by `::<..>` with the type
      and constant arguments when there are any; only-lifetime arguments add nothing. */
  method GetVisiblePathWithArgs(tcx: VisTcx, ghost depth: DefId -> nat, d: DefId, args: seq<GenericArg>) returns (r: Result<string>)
    requires ParentsRanked(tcx, depth)
    ensures r == VisiblePathWithArgs(tcx, depth, d, args)
    ensures (forall i :: 0 <= i < |args| ==> args[i].Lifetime?) ==> r == VisiblePathOf(tcx, depth, d)
  {
    var basePath := GetVisiblePath(tcx, depth, d);
    if basePath.Panic? {
      return basePath;
    }
    if |args| > 0 {
      var typeArgs := ArgTexts(tcx, args);
      if typeArgs != [] {
        return Ok(basePath.value + "::<" + Join(typeArgs, ", ") + ">");
      }
    }
    r := basePath;
  }
}
