/** Helpers of `utils/fn_info.rs`: def-path cleaning, pointer stripping, the
    "strict type" predicate, the constructor/method/function classifier and the
    block-index filters. The compiler is the oracle `Tcx`. */
module FnInfo {
  import opened Common
  import opened Rustc

  datatype AssocKind = FnItem(hasSelf: bool) | ConstItem | TypeItem

  /** `opt_associated_item`: its kind and, for items of an impl, the impl's id. */
  datatype AssocItem = AssocItem(kind: AssocKind, implContainer: Option<DefId>)

  /** An item of an impl block as the HIR lists it (`hir_crate_items(()).impl_items()`):
      the id of the item itself (`owner_id`) and its kind. An associated `type` whose
      type is a resolved path carries the definition that path names. */
  datatype ImplItem = ImplItem(ownerId: DefId, kind: ImplItemKind)
  datatype ImplItemKind = TypeAlias(res: Option<DefId>) | OtherImplItem

  /** The compiler queries the helpers make. `structs` and `enums` are the (finite)
      sets of struct and enum definitions (`AdtDef::is_struct` / `is_enum`). */
  datatype Tcx = Tcx(
    debugStr: DefId -> string,            // format!("{:?}", def_id)
    defPathNoCrate: DefId -> string,      // def_path(..).to_string_no_crate_verbose()
    assocItem: DefId -> Option<AssocItem>,
    typeOf: DefId -> Ty,                  // type_of(..).skip_binder()
    tyDisplay: Ty -> string,              // ty.to_string()
    fnOutput: DefId -> Ty,                // fn_sig(..).output()
    isUnsafe: DefId -> bool,              // fn_sig(..).safety() == Unsafe
    structs: set<DefId>,
    enums: set<DefId>,
    diagnosticName: DefId -> Option<string>,
    structFields: (DefId, seq<GenericArg>) -> seq<Ty>,  // all_fields() typed under the args
    fieldIsPublic: DefId -> seq<bool>,    // visibility of each field, in order
    defKind: DefId -> DefKind,
    inherentImpls: DefId -> seq<DefId>,
    associatedItemIds: DefId -> seq<DefId>,
    implItems: seq<ImplItem>,             // hir_crate_items(()).impl_items(), in order
    crateImpls: seq<DefId>,               // the crate's impl blocks
    isMirAvailable: DefId -> bool,
    mir: DefId -> Body,
    isStdUnsafeApi: string -> bool        // parse_unsafe_api(name).is_some()
  )

  // ---------------------------------------------------------------------------
  // Def-path names

  /** The first segment of a debug path as `get_cleaned_def_path_name` rewrites it:
      `core`, `std` or `alloc` when it mentions that crate (in that order), else None
      (the segment is removed). */
  function CleanFirst(first: string): (r: Option<string>)
    ensures r == Some("core") <==> Contains(first, "core")
    ensures r == Some("std") <==> !Contains(first, "core") && Contains(first, "std")
    ensures r == Some("alloc") <==> !Contains(first, "core") && !Contains(first, "std") && Contains(first, "alloc")
    ensures r.None? <==> !Contains(first, "core") && !Contains(first, "std") && !Contains(first, "alloc")
  {
    if Contains(first, "core") then Some("core")
    else if Contains(first, "std") then Some("std")
    else if Contains(first, "alloc") then Some("alloc")
    else None
  }

  /** A segment that the `filter_map` passes on unchanged. */
  predicate Unbraced(segment: string)
  {
    '{' !in segment
  }

  /** The `filter_map` over segments: a segment with `{` becomes the struct name when
      the first segment was removed and that name exists, and is dropped otherwise.
      Every result segment is an input segment without `{` or that struct name. */
  function KeepSegments(parts: seq<string>, removeFirst: bool, structName: Option<string>): (r: seq<string>)
    ensures |r| <= |parts|
    ensures forall s :: s in r ==> (s in parts && Unbraced(s)) || (removeFirst && structName == Some(s))
    ensures forall s :: s in parts && Unbraced(s) ==> s in r
  {
    if parts == [] then []
    else
      var rest := KeepSegments(parts[1..], removeFirst, structName);
      if '{' in parts[0] then
        if removeFirst && structName.Some? then [structName.value] + rest else rest
      else [parts[0]] + rest
  }

  /** With the first segment removed and a struct name at hand, the rewrite is a map:
      segment by segment, each `{` segment becomes the name, the others stay. */
  lemma {:induction false} KeepSegmentsReplace(parts: seq<string>, name: string)
    ensures KeepSegments(parts, true, Some(name))
         == seq(|parts|, i requires 0 <= i < |parts| => if Unbraced(parts[i]) then parts[i] else name)
  {
    if parts != [] {
      KeepSegmentsReplace(parts[1..], name);
    }
  }

  /** Otherwise it is a filter: the segments without `{`, in their order. */
  lemma {:induction false} KeepSegmentsDrop(parts: seq<string>, removeFirst: bool, structName: Option<string>)
    requires !removeFirst || structName.None?
    ensures KeepSegments(parts, removeFirst, structName) == Filter(parts, Unbraced)
  {
    if parts != [] {
      KeepSegmentsDrop(parts[1..], removeFirst, structName);
    }
  }

  /** The segments of the cleaned path before they are joined: a first segment that
      mentions a standard crate becomes that crate's name and leads the rest, filtered;
      otherwise it is dropped and the rest is rewritten as the struct name dictates. */
  function CleanedParts(debug: string, structName: Option<string>): (r: seq<string>)
    ensures var parts := Split(debug, "::");
      CleanFirst(parts[0]).Some? ==> r == [CleanFirst(parts[0]).value] + Filter(parts[1..], Unbraced)
    ensures var parts := Split(debug, "::");
      CleanFirst(parts[0]).None? && structName.None? ==> r == Filter(parts[1..], Unbraced)
    ensures var parts := Split(debug, "::");
      CleanFirst(parts[0]).None? && structName.Some? ==>
        |r| == |parts| - 1 &&
        forall i :: 0 <= i < |r| ==> r[i] == if Unbraced(parts[i + 1]) then parts[i + 1] else structName.value
  {
    var parts := Split(debug, "::");
    match CleanFirst(parts[0])
    case Some(crate) =>
      KeepSegmentsDrop([crate] + parts[1..], false, structName);
      assert ([crate] + parts[1..])[1..] == parts[1..];
      KeepSegments([crate] + parts[1..], false, structName)
    case None =>
      if structName.Some? then KeepSegmentsReplace(parts[1..], structName.value); KeepSegments(parts[1..], true, structName)
      else KeepSegmentsDrop(parts[1..], true, structName); KeepSegments(parts[1..], true, structName)
  }

  /** `get_cleaned_def_path_name`: the debug path with its first segment normalised,
      `{..}` segments handled, parts joined by `::` and trailing `)` trimmed. */
  function GetCleanedDefPathName(tcx: Tcx, id: DefId): (r: string)
    ensures |r| > 0 ==> r[|r| - 1] != ')'
  {
    TrimEndMatches(Join(CleanedParts(tcx.debugStr(id), GetStructName(tcx, id)), "::"), ')')
  }

  /** `get_struct_name`: for an item of an impl, the last `::` segment of the impl's
      self type as printed, cut before the first `<`. */
  function GetStructName(tcx: Tcx, id: DefId): (r: Option<string>)
    ensures r.Some? <==> tcx.assocItem(id).Some? && tcx.assocItem(id).value.implContainer.Some?
  {
    match tcx.assocItem(id)
    case Some(item) =>
      (match item.implContainer
       case Some(implId) => Some(StructNameOf(tcx.tyDisplay(tcx.typeOf(implId))))
       case None => None)
    case None => None
  }

  function Last(s: seq<string>): string
    requires |s| > 0
  {
    s[|s| - 1]
  }

  /** `type_name.split('<').next().unwrap_or("").split("::").last().unwrap_or("")`. */
  function StructNameOf(typeName: string): string
  {
    Last(Split(Split(typeName, "<")[0], "::"))
  }

  /** A printed path `a::b::Name<T>` names the struct `Name`. */
  lemma StructNameOfPath(prefix: seq<string>, name: string, generics: string)
    requires '<' !in name && ':' !in name
    requires forall p :: p in prefix ==> '<' !in p && ':' !in p
    ensures StructNameOf(Join(prefix + [name], "::") + "<" + generics) == name
  {
    var parts := prefix + [name];
    var path := Join(parts, "::");
    assert forall p :: p in parts ==> '<' !in p && ':' !in p;
    JoinAvoids(parts, "::", '<');
    SplitPrefixAtFirst(path, "<" + generics);
    assert path + "<" + generics == path + ("<" + generics);
    SplitJoinFree(parts);
  }

  /** Splitting `s + rest` on `<`, where `rest` starts with `<` and `s` has none,
      makes `s` the first piece. */
  lemma {:induction false} SplitPrefixAtFirst(s: string, rest: string)
    requires '<' !in s
    requires |rest| > 0 && rest[0] == '<'
    ensures Split(s + rest, "<")[0] == s
    decreases |s|
  {
    var t := s + rest;
    if |s| == 0 {
      assert t == rest;
      assert t[..1] == "<";
    } else {
      assert t[..1][0] == s[0];
      assert t[1..] == s[1..] + rest;
      assert forall i :: 0 <= i < |s[1..]| ==> s[1..][i] == s[i + 1];
      SplitPrefixAtFirst(s[1..], rest);
    }
  }

  /** Splitting a `::`-join gives the parts back when no part contains `:`. */
  lemma {:induction false} SplitJoinFree(parts: seq<string>)
    requires |parts| > 0
    requires forall p :: p in parts ==> ':' !in p
    ensures Split(Join(parts, "::"), "::") == parts
    decreases |parts|
  {
    if |parts| == 1 {
      SplitFree(parts[0]);
    } else {
      assert forall p :: p in parts[1..] ==> p in parts;
      SplitJoinFree(parts[1..]);
      SplitFreeThen(parts[0], Join(parts[1..], "::"));
    }
  }

  lemma {:induction false} SplitFree(s: string)
    requires ':' !in s
    ensures Split(s, "::") == [s]
    decreases |s|
  {
    if |s| >= 2 {
      assert s[..2][0] == s[0];
      assert forall i :: 0 <= i < |s[1..]| ==> s[1..][i] == s[i + 1];
      SplitFree(s[1..]);
      assert s == [s[0]] + s[1..];
    }
  }

  lemma {:induction false} SplitFreeThen(s: string, rest: string)
    requires ':' !in s
    ensures Split(s + "::" + rest, "::") == [s] + Split(rest, "::")
    decreases |s|
  {
    var t := s + "::" + rest;
    if |s| == 0 {
      assert t == "::" + rest;
      assert t[..2] == "::";
      assert t[2..] == rest;
    } else {
      assert t[..2][0] == s[0];
      assert forall i :: 0 <= i < |s[1..]| ==> s[1..][i] == s[i + 1];
      SplitFreeThen(s[1..], rest);
      assert t[1..] == s[1..] + "::" + rest;
      assert s == [s[0]] + s[1..];
    }
  }

  // ---------------------------------------------------------------------------
  // Pointers and strict types

  /** `get_pointee`: strip every outer raw-pointer and reference layer. */
  function GetPointee(t: Ty): (r: Ty)
    ensures !r.RawPtr? && !r.Ref?
  {
    match t
    case RawPtr(inner, _) => GetPointee(inner)
    case Ref(_, inner, _) => GetPointee(inner)
    case _ => t
  }

  /** Stripping twice strips nothing more, and a pointer layer adds nothing. */
  lemma GetPointeeIdempotent(t: Ty, m: Mutability, region: string)
    ensures GetPointee(GetPointee(t)) == GetPointee(t)
    ensures GetPointee(RawPtr(t, m)) == GetPointee(t)
    ensures GetPointee(Ref(region, t, m)) == GetPointee(t)
  {
  }

  /** `is_strict_ty` exactly as written, which recurses into struct fields without
      remembering which structs it is already inside. Rust evaluates it without any
      bound; here `fuel` bounds the recursion depth and `None` stands for running out.
      Only a struct pointee makes it recurse: any other pointee answers at once, strict
      iff it is `bool` or `str`. */
  function IsStrictTyAsWritten(tcx: Tcx, ori: Ty, fuel: nat): (r: Option<bool>)
    ensures var p := GetPointee(ori);
      fuel > 0 && !(p.Adt? && p.did in tcx.structs) ==> r == Some(p.Bool? || p.Str?)
    ensures var p := GetPointee(ori);
      r == Some(true) ==> p.Bool? || p.Str? || (p.Adt? && p.did in tcx.structs)
    decreases fuel, 0
  {
    if fuel == 0 then None
    else
      var t := GetPointee(ori);
      var flag :=
        if t.Adt? && t.did in tcx.structs then AllFieldsAsWritten(tcx, tcx.structFields(t.did, t.args), fuel - 1)
        else Some(false);
      if flag.None? then None else Some(t.Bool? || t.Str? || flag.value)
  }

  /** `flag |= is_strict_ty(field)` over every field: `|=` on `bool` does not
      short-circuit, so every field is evaluated. */
  function AllFieldsAsWritten(tcx: Tcx, fields: seq<Ty>, fuel: nat): Option<bool>
    decreases fuel, 1, |fields|
  {
    if fields == [] then Some(false)
    else
      var head := IsStrictTyAsWritten(tcx, fields[0], fuel);
      var rest := AllFieldsAsWritten(tcx, fields[1..], fuel);
      if head.None? || rest.None? then None else Some(head.value || rest.value)
  }

  /** The self-referential struct `struct Node { next: *mut Node }`. */
  function NodeTcx(base: Tcx, node: DefId): Tcx
  {
    base.(structs := {node}, structFields := (d: DefId, args: seq<GenericArg>) => [RawPtr(Adt(node, []), Mut)])
  }

  /** As written, `is_strict_ty` never returns on `*mut Node`: every depth bound runs out. */
  lemma {:induction false} IsStrictTyAsWrittenDiverges(base: Tcx, node: DefId, fuel: nat)
    ensures IsStrictTyAsWritten(NodeTcx(base, node), RawPtr(Adt(node, []), Mut), fuel).None?
  {
    var tcx := NodeTcx(base, node);
    var field := RawPtr(Adt(node, []), Mut);
    if fuel > 0 {
      IsStrictTyAsWrittenDiverges(base, node, fuel - 1);
      assert GetPointee(field) == Adt(node, []);
      assert tcx.structFields(node, []) == [field];
      assert AllFieldsAsWritten(tcx, [field], fuel - 1).None?;
    }
  }

  /** `is_strict_ty` with the recursion cut at structs it is already inside: a type is
      strict if its pointee is `bool` or `str`, or a struct with a strict field. The
      answer is decided by the pointee alone. */
  function IsStrictTy(tcx: Tcx, t: Ty): (r: bool)
    ensures r == StrictUnder(tcx, GetPointee(t), {})
    ensures var p := GetPointee(t); p.Bool? || p.Str? ==> r
    ensures var p := GetPointee(t); r ==> p.Bool? || p.Str? || (p.Adt? && p.did in tcx.structs)
  {
    GetPointeeIdempotent(t, Mut, "");
    StrictUnder(tcx, t, {})
  }

  function StrictUnder(tcx: Tcx, ori: Ty, inside: set<DefId>): bool
    decreases tcx.structs - inside, 0
  {
    var t := GetPointee(ori);
    t.Bool? || t.Str?
    || (t.Adt? && t.did in tcx.structs && t.did !in inside
        && AnyFieldStrict(tcx, tcx.structFields(t.did, t.args), inside + {t.did}))
  }

  function AnyFieldStrict(tcx: Tcx, fields: seq<Ty>, inside: set<DefId>): bool
    decreases tcx.structs - inside, 1, |fields|
  {
    fields != [] && (StrictUnder(tcx, fields[0], inside) || AnyFieldStrict(tcx, fields[1..], inside))
  }

  /** With the cut, `*mut Node` is not strict, and adding a `bool` field makes it strict. */
  lemma IsStrictTyOnNode(base: Tcx, node: DefId)
    ensures !IsStrictTy(NodeTcx(base, node), RawPtr(Adt(node, []), Mut))
    ensures IsStrictTy(NodeTcx(base, node).(structFields := (d: DefId, args: seq<GenericArg>) => [RawPtr(Adt(node, []), Mut), Bool]),
                       RawPtr(Adt(node, []), Mut))
  {
    var tcx := NodeTcx(base, node);
    var field := RawPtr(Adt(node, []), Mut);
    assert GetPointee(field) == Adt(node, []);
    assert tcx.structFields(node, []) == [field];
    assert !StrictUnder(tcx, field, {node});
    assert [field][1..] == [];
    assert !AnyFieldStrict(tcx, [field], {node});
    assert StrictUnder(tcx, field, {}) == AnyFieldStrict(tcx, tcx.structFields(node, []), {} + {node});
    assert {} + {node} == {node};
    var tcx2 := tcx.(structFields := (d: DefId, args: seq<GenericArg>) => [field, Bool]);
    assert tcx2.structFields(node, []) == [field, Bool];
    assert [field, Bool][1..] == [Bool];
    assert StrictUnder(tcx2, Bool, {node});
    assert AnyFieldStrict(tcx2, [Bool], {node});
    assert AnyFieldStrict(tcx2, [field, Bool], {node});
    assert StrictUnder(tcx2, field, {}) == AnyFieldStrict(tcx2, tcx2.structFields(node, []), {} + {node});
  }

  /** Struct definitions are well founded: a struct's fields only point (through any
      number of pointers and references) at structs of smaller rank. */
  ghost predicate StructsRanked(tcx: Tcx, rank: DefId -> nat)
  {
    forall d, args, i :: d in tcx.structs && 0 <= i < |tcx.structFields(d, args)| ==>
      var p := GetPointee(tcx.structFields(d, args)[i]);
      p.Adt? && p.did in tcx.structs ==> rank(p.did) < rank(d)
  }

  /** How deep `is_strict_ty` can recurse below `t`. */
  function TyRank(tcx: Tcx, rank: DefId -> nat, t: Ty): nat
  {
    var p := GetPointee(t);
    if p.Adt? && p.did in tcx.structs then rank(p.did) + 1 else 0
  }

  /** On well-founded struct definitions the as-written recursion returns, given
      enough depth, the same answer as the cut one, whatever outer structs it is inside. */
  lemma {:induction false} StrictAgrees(tcx: Tcx, rank: DefId -> nat, t: Ty, fuel: nat, inside: set<DefId>)
    requires StructsRanked(tcx, rank)
    requires fuel > TyRank(tcx, rank, t)
    requires forall v :: v in inside ==> rank(v) >= TyRank(tcx, rank, t)
    ensures IsStrictTyAsWritten(tcx, t, fuel) == Some(StrictUnder(tcx, t, inside))
    decreases fuel, 0
  {
    var p := GetPointee(t);
    if p.Adt? && p.did in tcx.structs {
      assert p.did !in inside;
      FieldsAgree(tcx, rank, p.did, p.args, 0, fuel - 1, inside + {p.did});
      assert tcx.structFields(p.did, p.args)[0..] == tcx.structFields(p.did, p.args);
    }
  }

  lemma {:induction false} FieldsAgree(tcx: Tcx, rank: DefId -> nat, d: DefId, args: seq<GenericArg>,
                                       k: nat, fuel: nat, inside: set<DefId>)
    requires StructsRanked(tcx, rank)
    requires d in tcx.structs && d in inside
    requires k <= |tcx.structFields(d, args)|
    requires fuel > rank(d)
    requires forall v :: v in inside ==> rank(v) >= rank(d)
    ensures var fields := tcx.structFields(d, args)[k..];
      AllFieldsAsWritten(tcx, fields, fuel) == Some(AnyFieldStrict(tcx, fields, inside))
    decreases fuel, 1, |tcx.structFields(d, args)| - k
  {
    var all := tcx.structFields(d, args);
    if k < |all| {
      var f := all[k];
      assert TyRank(tcx, rank, f) <= rank(d);
      StrictAgrees(tcx, rank, f, fuel, inside);
      FieldsAgree(tcx, rank, d, args, k + 1, fuel, inside);
      assert all[k..][1..] == all[k + 1..];
    }
  }

  /** Hence on well-founded definitions the as-written predicate terminates and
      agrees with IsStrictTy. */
  lemma IsStrictTyAgrees(tcx: Tcx, rank: DefId -> nat, t: Ty)
    requires StructsRanked(tcx, rank)
    ensures IsStrictTyAsWritten(tcx, t, TyRank(tcx, rank, t) + 1) == Some(IsStrictTy(tcx, t))
  {
    StrictAgrees(tcx, rank, t, TyRank(tcx, rank, t) + 1, {});
  }

  /** Strictness only looks through pointers: wrapping a type in any pointer or
      reference keeps it strict or not. */
  lemma IsStrictTyThroughPointers(tcx: Tcx, t: Ty, m: Mutability, region: string)
    ensures IsStrictTy(tcx, RawPtr(t, m)) == IsStrictTy(tcx, t)
    ensures IsStrictTy(tcx, Ref(region, t, m)) == IsStrictTy(tcx, t)
  {
  }

  /** `is_strict_ty_convert`: a cast is suspicious when it turns a strict type into a
      mutable pointer, or produces a strict type. */
  function IsStrictTyConvert(tcx: Tcx, src: Ty, dst: Ty): (r: bool)
    ensures IsStrictTy(tcx, dst) ==> r
    ensures !IsMutablePtr(dst) ==> (r <==> IsStrictTy(tcx, dst))
    ensures IsMutablePtr(dst) ==> (r <==> IsStrictTy(tcx, src) || IsStrictTy(tcx, dst))
  {
    (IsStrictTy(tcx, src) && IsMutablePtr(dst)) || IsStrictTy(tcx, dst)
  }

  /** Casting a strict value to a mutable pointer to the same type is reported. */
  lemma StrictToOwnMutPtr(tcx: Tcx, t: Ty)
    requires IsStrictTy(tcx, t)
    ensures IsStrictTyConvert(tcx, t, RawPtr(t, Mut))
  {
    IsStrictTyThroughPointers(tcx, t, Mut, "");
  }

  // ---------------------------------------------------------------------------
  // Constructor / method / function classification

  const CONSTRUCTOR: nat := 0
  const METHOD: nat := 1
  const FUNCTION: nat := 2

  /** `output` is `Self` (parameter 0) or the impl's self type. */
  predicate IsSelfLike(output: Ty, implTy: Option<Ty>)
  {
    IsParam(output, 0) || implTy == Some(output)
  }

  /** `substs.type_at(0)`, which panics unless the first argument is a type. */
  function TypeAt0(args: seq<GenericArg>): Result<Ty>
  {
    if |args| > 0 && args[0].TypeArg? then Ok(args[0].ty) else Panic("expected type for param #0")
  }

  /** The wrappers `get_type` looks through, exactly as written: an enum whose
      diagnostic name is `Option`, `Result` or the keyword `box`. */
  predicate IsWrapperAsWritten(tcx: Tcx, did: DefId)
  {
    did in tcx.enums
    && (tcx.diagnosticName(did) == Some("Option") || tcx.diagnosticName(did) == Some("Result")
        || tcx.diagnosticName(did) == Some("box"))
  }

  /** The wrappers intended: the enums `Option` and `Result`, and the struct `Box`. */
  predicate IsWrapper(tcx: Tcx, did: DefId)
  {
    (did in tcx.enums && (tcx.diagnosticName(did) == Some("Option") || tcx.diagnosticName(did) == Some("Result")))
    || tcx.diagnosticName(did) == Some("Box")
  }

  /** The classification of an associated function without `self` from its output
      type, with the wrapper test as a parameter. */
  function ClassifyOutput(output: Ty, implTy: Option<Ty>, wrapper: DefId -> bool): Result<nat>
  {
    var direct := IsSelfLike(output, implTy) || (output.Ref? && IsSelfLike(output.inner, implTy));
    if output.Adt? && wrapper(output.did) then
      var inner :- TypeAt0(output.args);
      Ok(if direct || IsSelfLike(inner, implTy) then CONSTRUCTOR else FUNCTION)
    else
      Ok(if direct then CONSTRUCTOR else FUNCTION)
  }

  function ImplTy(tcx: Tcx, item: AssocItem): Option<Ty>
  {
    match item.implContainer
    case Some(implId) => Some(tcx.typeOf(implId))
    case None => None
  }

  /** `get_type` as written: 0 constructor, 1 method, 2 function; `todo!()` for
      associated items that are not functions. */
  function GetTypeAsWritten(tcx: Tcx, id: DefId): (r: Result<nat>)
    ensures r.Ok? ==> r.value <= FUNCTION
    ensures r.Panic? <==> (tcx.assocItem(id).Some? && !tcx.assocItem(id).value.kind.FnItem?)
                          || (tcx.assocItem(id).Some? && tcx.assocItem(id).value.kind == FnItem(false)
                              && tcx.fnOutput(id).Adt? && IsWrapperAsWritten(tcx, tcx.fnOutput(id).did)
                              && TypeAt0(tcx.fnOutput(id).args).Panic?)
    ensures r == Ok(METHOD) <==> tcx.assocItem(id).Some? && tcx.assocItem(id).value.kind == FnItem(true)
    ensures tcx.assocItem(id).None? ==> r == Ok(FUNCTION)
  {
    match tcx.assocItem(id)
    case None => Ok(FUNCTION)
    case Some(item) =>
      match item.kind
      case FnItem(hasSelf) =>
        if hasSelf then Ok(METHOD)
        else ClassifyOutput(tcx.fnOutput(id), ImplTy(tcx, item), (d: DefId) => IsWrapperAsWritten(tcx, d))
      case _ => Panic("not yet implemented")
  }

  /** `get_type` with `Box<Self>` recognised as a constructor's output. */
  function GetType(tcx: Tcx, id: DefId): (r: Result<nat>)
    ensures r.Ok? ==> r.value <= FUNCTION
    ensures r.Panic? <==> (tcx.assocItem(id).Some? && !tcx.assocItem(id).value.kind.FnItem?)
                          || (tcx.assocItem(id).Some? && tcx.assocItem(id).value.kind == FnItem(false)
                              && tcx.fnOutput(id).Adt? && IsWrapper(tcx, tcx.fnOutput(id).did)
                              && TypeAt0(tcx.fnOutput(id).args).Panic?)
    ensures r == Ok(METHOD) <==> tcx.assocItem(id).Some? && tcx.assocItem(id).value.kind == FnItem(true)
    ensures tcx.assocItem(id).None? ==> r == Ok(FUNCTION)
  {
    match tcx.assocItem(id)
    case None => Ok(FUNCTION)
    case Some(item) =>
      match item.kind
      case FnItem(hasSelf) =>
        if hasSelf then Ok(METHOD)
        else ClassifyOutput(tcx.fnOutput(id), ImplTy(tcx, item), (d: DefId) => IsWrapper(tcx, d))
      case _ => Panic("not yet implemented")
  }

  /** Without `self`, the function is a constructor exactly when its output is `Self`
      or the impl type, a reference to one, or an `Option`/`Result` enum (or an enum
      named `box`) of one. */
  lemma GetTypeConstructor(tcx: Tcx, id: DefId)
    requires tcx.assocItem(id).Some? && tcx.assocItem(id).value.kind == FnItem(false)
    requires GetTypeAsWritten(tcx, id).Ok?
    ensures var out := tcx.fnOutput(id);
      var implTy := ImplTy(tcx, tcx.assocItem(id).value);
      GetTypeAsWritten(tcx, id) == Ok(CONSTRUCTOR) <==>
        IsSelfLike(out, implTy) || (out.Ref? && IsSelfLike(out.inner, implTy))
        || (out.Adt? && IsWrapperAsWritten(tcx, out.did) && IsSelfLike(out.args[0].ty, implTy))
  {
  }

  /** An impl whose type is `implTy`, and an associated `fn boxed() -> Box<Self>`
      where `Box` is the struct with diagnostic name `Box`. */
  function BoxedTcx(base: Tcx, id: DefId, implId: DefId, boxId: DefId, implTy: Ty): Tcx
  {
    base.(assocItem := d => if d == id then Some(AssocItem(FnItem(false), Some(implId))) else None,
          typeOf := d => implTy,
          fnOutput := d => Adt(boxId, [TypeArg(implTy)]),
          structs := {boxId},
          enums := {},
          diagnosticName := d => if d == boxId then Some("Box") else None)
  }

  /** As written, a constructor returning `Box<Self>` is classified as a plain function:
      `Box` is a struct, not an enum, and the keyword `box` is no diagnostic name. */
  lemma BoxConstructorMissed(base: Tcx, id: DefId, implId: DefId, boxId: DefId, implTy: Ty)
    requires !implTy.Adt? && !implTy.Ref? && !implTy.Param?
    ensures GetTypeAsWritten(BoxedTcx(base, id, implId, boxId, implTy), id) == Ok(FUNCTION)
    ensures GetType(BoxedTcx(base, id, implId, boxId, implTy), id) == Ok(CONSTRUCTOR)
  {
  }

  /** Apart from the `Box` case both classifications agree. */
  lemma GetTypeAgreesOffBox(tcx: Tcx, id: DefId)
    requires forall d :: tcx.diagnosticName(d) != Some("Box") && tcx.diagnosticName(d) != Some("box")
    ensures GetTypeAsWritten(tcx, id) == GetType(tcx, id)
  {
    match tcx.assocItem(id)
    case None =>
    case Some(item) =>
      if item.kind == FnItem(false) {
        var out := tcx.fnOutput(id);
        if out.Adt? {
          assert IsWrapperAsWritten(tcx, out.did) == IsWrapper(tcx, out.did);
        }
      }
  }

  // ---------------------------------------------------------------------------
  // Constructors of a type

  /** `generate_node_ty`: (id, is it unsafe, its classification). */
  datatype NodeTy = NodeTy(id: DefId, isUnsafe: bool, nodeType: nat)

  /** The self type's ADT of the impl `id` belongs to, when there is one. */
  function ImplAdt(tcx: Tcx, id: DefId): Option<DefId>
  {
    match tcx.assocItem(id)
    case Some(item) =>
      (match item.implContainer
       case Some(implId) => if tcx.typeOf(implId).Adt? then Some(tcx.typeOf(implId).did) else None
       case None => None)
    case None => None
  }

  /** `get_impls_for_struct` as written: among the crate's impl items, the associated
      `type` items whose type is a path resolving to the struct, and for each the id of
      that item itself (`owner_id`), in order. These are ids of `type` items, not of impl
      blocks, and an impl block without such an item contributes nothing. */
  function GetImplsForStruct(tcx: Tcx, structId: DefId): (r: seq<DefId>)
    ensures |r| <= |tcx.implItems|
    ensures forall x :: x in r <==> ImplItem(x, TypeAlias(Some(structId))) in tcx.implItems
    ensures r == [] <==> forall x :: ImplItem(x, TypeAlias(Some(structId))) !in tcx.implItems
  {
    TypeItemsNaming(tcx.implItems, structId)
  }

  function TypeItemsNaming(items: seq<ImplItem>, structId: DefId): (r: seq<DefId>)
    ensures |r| <= |items|
    ensures forall x :: x in r <==> ImplItem(x, TypeAlias(Some(structId))) in items
    ensures r == [] <==> forall x :: ImplItem(x, TypeAlias(Some(structId))) !in items
  {
    if items == [] then []
    else
      var prev := TypeItemsNaming(items[..|items| - 1], structId);
      var item := items[|items| - 1];
      assert items == items[..|items| - 1] + [item];
      if item.kind == TypeAlias(Some(structId)) then prev + [item.ownerId] else prev
  }

  /** What the function's comment promises ("all the impls def id of corresponding
      struct"): the crate's impl blocks whose self type is the ADT, in order. */
  function ImplsForStructIntended(tcx: Tcx, adtId: DefId): (r: seq<DefId>)
    ensures forall x :: x in r <==> x in tcx.crateImpls && tcx.typeOf(x).Adt? && tcx.typeOf(x).did == adtId
  {
    Filter(tcx.crateImpls, (x: DefId) => tcx.typeOf(x).Adt? && tcx.typeOf(x).did == adtId)
  }

  /** The items of an impl in the list are among the items of the list. */
  lemma {:induction false} ItemsOfHas(tcx: Tcx, impls: seq<DefId>, implId: DefId, c: DefId)
    requires implId in impls && c in tcx.associatedItemIds(implId)
    ensures c in ItemsOf(tcx, impls)
  {
    var init := impls[..|impls| - 1];
    if implId != impls[|impls| - 1] {
      assert impls == init + [impls[|impls| - 1]];
      ItemsOfHas(tcx, init, implId, c);
    }
  }

  /** Items of a list of impls, impl by impl, in order. */
  function ItemsOf(tcx: Tcx, impls: seq<DefId>): seq<DefId>
  {
    if impls == [] then [] else ItemsOf(tcx, impls[..|impls| - 1]) + tcx.associatedItemIds(impls[|impls| - 1])
  }

  predicate IsFnKind(k: DefKind)
  {
    k.Fn? || k.AssocFn?
  }

  /** The constructors among `items`, in order; the first classification that panics
      makes the whole list panic. */
  function ConstructorsAmong(tcx: Tcx, items: seq<DefId>): Result<seq<NodeTy>>
  {
    if items == [] then Ok([])
    else
      var prev :- ConstructorsAmong(tcx, items[..|items| - 1]);
      var item := items[|items| - 1];
      if IsFnKind(tcx.defKind(item)) then
        var t :- GetTypeAsWritten(tcx, item);
        Ok(if t == CONSTRUCTOR then prev + [NodeTy(item, tcx.isUnsafe(item), CONSTRUCTOR)] else prev)
      else Ok(prev)
  }

  /** Every entry ConstructorsAmong reports is a function-like constructor among the items. */
  lemma {:induction false} ConstructorsAmongSound(tcx: Tcx, items: seq<DefId>)
    requires ConstructorsAmong(tcx, items).Ok?
    ensures forall n :: n in ConstructorsAmong(tcx, items).value ==>
      n.id in items && IsFnKind(tcx.defKind(n.id)) && GetTypeAsWritten(tcx, n.id) == Ok(CONSTRUCTOR)
      && n.nodeType == CONSTRUCTOR && n.isUnsafe == tcx.isUnsafe(n.id)
  {
    if items != [] {
      ConstructorsAmongSound(tcx, items[..|items| - 1]);
    }
  }

  /** `get_cons`: nothing for free functions and for constructors themselves;
      otherwise the constructors of every inherent impl of the item's self type. */
  method GetCons(tcx: Tcx, id: DefId) returns (r: Result<seq<NodeTy>>)
    ensures tcx.defKind(id).Fn? ==> r == Ok([])
    ensures !tcx.defKind(id).Fn? && GetTypeAsWritten(tcx, id).Panic? ==> r.Panic?
    ensures !tcx.defKind(id).Fn? && GetTypeAsWritten(tcx, id) == Ok(CONSTRUCTOR) ==> r == Ok([])
    ensures !tcx.defKind(id).Fn? && GetTypeAsWritten(tcx, id).Ok? && GetTypeAsWritten(tcx, id) != Ok(CONSTRUCTOR) ==>
      r == match ImplAdt(tcx, id)
           case None => Ok([])
           case Some(adt) => ConstructorsAmong(tcx, ItemsOf(tcx, tcx.inherentImpls(adt)))
  {
    if tcx.defKind(id).Fn? {
      return Ok([]);
    }
    var t := GetTypeAsWritten(tcx, id);
    if t.Panic? {
      return Panic(t.reason);
    }
    if t.value == CONSTRUCTOR {
      return Ok([]);
    }
    var adt := ImplAdt(tcx, id);
    if adt.None? {
      return Ok([]);
    }
    r := CollectConstructors(tcx, tcx.inherentImpls(adt.value));
  }

  /** The loop over the inherent impls and their associated items. */
  method CollectConstructors(tcx: Tcx, impls: seq<DefId>) returns (r: Result<seq<NodeTy>>)
    ensures r == ConstructorsAmong(tcx, ItemsOf(tcx, impls))
  {
    var cons: seq<NodeTy> := [];
    var i := 0;
    while i < |impls|
      invariant 0 <= i <= |impls|
      invariant ConstructorsAmong(tcx, ItemsOf(tcx, impls[..i])) == Ok(cons)
    {
      assert impls[..i + 1][..i] == impls[..i];
      var next := ConstructorsOfItems(tcx, ItemsOf(tcx, impls[..i]), tcx.associatedItemIds(impls[i]), cons);
      if next.Panic? {
        ItemsOfPrefix(tcx, impls, i + 1);
        PanicPersists(tcx, ItemsOf(tcx, impls[..i + 1]), ItemsOf(tcx, impls));
        return next;
      }
      cons := next.value;
      i := i + 1;
    }
    assert impls[..i] == impls;
    r := Ok(cons);
  }

  /** The inner loop: classify each item after those already seen. */
  method ConstructorsOfItems(tcx: Tcx, ghost seen: seq<DefId>, items: seq<DefId>, cons0: seq<NodeTy>)
    returns (r: Result<seq<NodeTy>>)
    requires ConstructorsAmong(tcx, seen) == Ok(cons0)
    ensures r == ConstructorsAmong(tcx, seen + items)
  {
    var cons := cons0;
    var j := 0;
    assert seen + items[..0] == seen;
    while j < |items|
      invariant 0 <= j <= |items|
      invariant ConstructorsAmong(tcx, seen + items[..j]) == Ok(cons)
    {
      var item := items[j];
      assert (seen + items[..j + 1])[..|seen + items[..j + 1]| - 1] == seen + items[..j];
      if IsFnKind(tcx.defKind(item)) {
        var k := GetTypeAsWritten(tcx, item);
        if k.Panic? {
          assert seen + items[..j + 1] <= seen + items;
          PanicPersists(tcx, seen + items[..j + 1], seen + items);
          return Panic(k.reason);
        }
        if k.value == CONSTRUCTOR {
          cons := cons + [NodeTy(item, tcx.isUnsafe(item), CONSTRUCTOR)];
        }
      }
      j := j + 1;
    }
    assert items[..j] == items;
    r := Ok(cons);
  }

  lemma {:induction false} ItemsOfPrefix(tcx: Tcx, impls: seq<DefId>, k: nat)
    requires k <= |impls|
    ensures ItemsOf(tcx, impls[..k]) <= ItemsOf(tcx, impls)
    decreases |impls|
  {
    if k < |impls| {
      assert impls[..k] == impls[..|impls| - 1][..k];
      ItemsOfPrefix(tcx, impls[..|impls| - 1], k);
    } else {
      assert impls[..k] == impls;
    }
  }

  /** Once a prefix of the items panics, the whole list panics. */
  lemma {:induction false} PanicPersists(tcx: Tcx, prefix: seq<DefId>, all: seq<DefId>)
    requires ConstructorsAmong(tcx, prefix).Panic?
    ensures prefix <= all ==> ConstructorsAmong(tcx, all) == ConstructorsAmong(tcx, prefix)
    decreases |all|
  {
    if prefix <= all && |all| > |prefix| {
      assert prefix <= all[..|all| - 1];
      PanicPersists(tcx, prefix, all[..|all| - 1]);
    } else if prefix <= all {
      assert prefix == all;
    }
  }

  // ---------------------------------------------------------------------------
  // Fields and blocks

  /** `get_public_fields`: the indices of the public fields. */
  function PublicFields(vis: seq<bool>): (r: set<nat>)
    ensures forall i: nat :: i in r <==> i < |vis| && vis[i]
  {
    if vis == [] then {}
    else
      var prev := vis[..|vis| - 1];
      assert forall i :: 0 <= i < |prev| ==> prev[i] == vis[i];
      PublicFields(prev) + (if vis[|vis| - 1] then {|vis| - 1} else {})
  }

  function GetPublicFields(tcx: Tcx, adt: DefId): (r: set<nat>)
    ensures forall i :: i in r ==> i < |tcx.fieldIsPublic(adt)|
  {
    PublicFields(tcx.fieldIsPublic(adt))
  }

  /** `match_std_unsafe_callee`: the cleaned name of a constant callee when it is a
      standard-library unsafe API. */
  function MatchStdUnsafeCallee(tcx: Tcx, term: Terminator): (r: seq<string>)
    ensures |r| <= 1
    ensures |r| == 1 ==>
      (ConstantCallee(term.kind).Some?
       && r[0] == GetCleanedDefPathName(tcx, ConstantCallee(term.kind).value)
       && tcx.isStdUnsafeApi(r[0]))
  {
    match ConstantCallee(term.kind)
    case Some(callee) =>
      var name := GetCleanedDefPathName(tcx, callee);
      if tcx.isStdUnsafeApi(name) then [name] else []
    case None => []
  }

  predicate StrictlyIncreasing(s: seq<nat>)
  {
    forall i, j :: 0 <= i < j < |s| ==> s[i] < s[j]
  }

  lemma AppendIncreasing(s: seq<nat>, x: nat)
    requires StrictlyIncreasing(s)
    requires forall y :: y in s ==> y < x
    ensures StrictlyIncreasing(s + [x])
  {
    forall i, j | 0 <= i < j < |s + [x]|
      ensures (s + [x])[i] < (s + [x])[j]
    {
      assert (s + [x])[i] == s[i];
      if j < |s| {
        assert (s + [x])[j] == s[j];
      } else {
        assert s[i] in s;
      }
    }
  }

  /** `get_all_std_unsafe_callees_block_id`: in ascending order, the blocks whose
      terminator calls no standard-library unsafe API. `terminator()` panics on a
      block without one. */
  method GetAllStdUnsafeCalleesBlockId(tcx: Tcx, id: DefId) returns (r: Result<seq<nat>>)
    ensures r.Panic? <==> exists i :: 0 <= i < |tcx.mir(id).blocks| && tcx.mir(id).blocks[i].terminator.None?
    ensures r.Ok? ==> StrictlyIncreasing(r.value)
    ensures r.Ok? ==> forall i :: i in r.value <==>
      0 <= i < |tcx.mir(id).blocks| && MatchStdUnsafeCallee(tcx, tcx.mir(id).blocks[i].terminator.value) == []
  {
    var blocks := tcx.mir(id).blocks;
    var results: seq<nat> := [];
    var i := 0;
    while i < |blocks|
      invariant 0 <= i <= |blocks|
      invariant forall k :: 0 <= k < i ==> blocks[k].terminator.Some?
      invariant StrictlyIncreasing(results)
      invariant forall x :: x in results ==> x < i
      invariant forall k :: k in results <==> 0 <= k < i && MatchStdUnsafeCallee(tcx, blocks[k].terminator.value) == []
    {
      if blocks[i].terminator.None? {
        return Panic("invalid terminator state");
      }
      if MatchStdUnsafeCallee(tcx, blocks[i].terminator.value) == [] {
        AppendIncreasing(results, i);
        results := results + [i];
      }
      i := i + 1;
    }
    r := Ok(results);
  }

  /** A terminator that calls a standard-library unsafe API through a constant `FnDef`. */
  predicate CallsStdUnsafe(tcx: Tcx, term: Terminator)
  {
    ConstantCallee(term.kind).Some? && tcx.isStdUnsafeApi(GetCleanedDefPathName(tcx, ConstantCallee(term.kind).value))
  }

  /** Such a terminator, and only such a one, has a non-empty match, so the as-written
      block list above leaves out exactly the blocks its name promises. */
  lemma StdUnsafeCallMatches(tcx: Tcx, term: Terminator)
    ensures MatchStdUnsafeCallee(tcx, term) != [] <==> CallsStdUnsafe(tcx, term)
  {
  }

  /** The block list the name promises, as `get_all_std_unsafe_callees` reads the same
      blocks: the ascending indices of the blocks whose terminator calls a
      standard-library unsafe API. */
  method StdUnsafeCalleeBlocks(tcx: Tcx, id: DefId) returns (r: Result<seq<nat>>)
    ensures r.Panic? <==> exists i :: 0 <= i < |tcx.mir(id).blocks| && tcx.mir(id).blocks[i].terminator.None?
    ensures r.Ok? ==> StrictlyIncreasing(r.value)
    ensures r.Ok? ==> forall i :: i in r.value <==>
      0 <= i < |tcx.mir(id).blocks| && CallsStdUnsafe(tcx, tcx.mir(id).blocks[i].terminator.value)
  {
    r := BlocksWhere(tcx.mir(id).blocks, (term: Terminator) => CallsStdUnsafe(tcx, term));
  }

  /** The index loop of both block lists, for a test on the terminator: `bb.terminator()`
      panics on the first block without one. */
  method BlocksWhere(blocks: seq<BasicBlockData>, keep: Terminator -> bool) returns (r: Result<seq<nat>>)
    ensures r.Panic? <==> exists i :: 0 <= i < |blocks| && blocks[i].terminator.None?
    ensures r.Ok? ==> StrictlyIncreasing(r.value)
    ensures r.Ok? ==> forall i :: i in r.value <==> 0 <= i < |blocks| && keep(blocks[i].terminator.value)
  {
    var results: seq<nat> := [];
    var i := 0;
    while i < |blocks|
      invariant 0 <= i <= |blocks|
      invariant forall k :: 0 <= k < i ==> blocks[k].terminator.Some?
      invariant StrictlyIncreasing(results)
      invariant forall x :: x in results ==> x < i
      invariant forall k :: k in results <==> 0 <= k < i && keep(blocks[k].terminator.value)
    {
      if blocks[i].terminator.None? {
        return Panic("invalid terminator state");
      }
      if keep(blocks[i].terminator.value) {
        AppendIncreasing(results, i);
        results := results + [i];
      }
      i := i + 1;
    }
    r := Ok(results);
  }
}
