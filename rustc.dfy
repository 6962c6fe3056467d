/** The slice of the compiler's data model that the analyses read: definition ids,
    types and generic arguments, MIR bodies made of basic blocks, and module children.
    Compiler queries themselves are given to each analysis as oracle functions. */
module Rustc {
  import opened Common

  /** A definition id. Only identity matters to the analyses. */
  type DefId = nat

  /** A MIR local, `_0` being the return place and `_1 ..= _argCount` the parameters. */
  type Local = nat

  datatype Mutability = Not | Mut

  /** A type-level constant: its value as a `usize` when it has one, and its `Display` text. */
  datatype Const = Const(usize: Option<nat>, display: string)

  /** The kinds of `Ty` the analyses tell apart; every other kind is `Other`. */
  datatype Ty =
    | Bool
    | Str
    | Prim(name: string)
    | Param(index: nat, name: string)
    | Adt(did: DefId, args: seq<GenericArg>)
    | FnDef(did: DefId, args: seq<GenericArg>)
    | Array(elem: Ty, len: Const)
    | Slice(elem: Ty)
    | Tuple(elems: seq<Ty>)
    | Ref(region: string, inner: Ty, mutbl: Mutability)
    | RawPtr(pointee: Ty, mutbl: Mutability)
    | Other(name: string)

  datatype GenericArg = Lifetime(region: string) | TypeArg(ty: Ty) | ConstArg(c: Const)

  /** `Ty::is_param(index)`. */
  predicate IsParam(t: Ty, index: nat)
  {
    t.Param? && t.index == index
  }

  /** `Ty::is_mutable_ptr`: a `*mut T` or a `&mut T`. */
  predicate IsMutablePtr(t: Ty)
  {
    (t.RawPtr? && t.mutbl == Mut) || (t.Ref? && t.mutbl == Mut)
  }

  /** `Mutability::prefix_str`. */
  function PrefixStr(m: Mutability): string
  {
    match m
    case Not => ""
    case Mut => "mut "
  }

  /** `Mutability::ptr_str`. */
  function PtrStr(m: Mutability): string
  {
    match m
    case Not => "const"
    case Mut => "mut"
  }

  datatype DefKind = Fn | AssocFn | Mod | Enum | Trait | Struct | Impl(ofTrait: bool) | OtherDef

  /** `DefKind::is_module_like`. */
  predicate IsModuleLike(k: DefKind)
  {
    k.Mod? || k.Enum? || k.Trait?
  }

  // ---------------------------------------------------------------------------
  // MIR

  datatype Operand = Copy(place: Local) | Move(place: Local) | Constant(ty: Ty)

  datatype TerminatorKind =
    | Call(func: Operand, args: seq<Operand>, destination: Local)
    | Assert
    | Return
    | Goto
    | OtherTerminator

  /** A terminator with what the printers and the graph builder read from it:
      its successors, its `{:?}` text, and the closures it mentions. */
  datatype Terminator = Terminator(kind: TerminatorKind, successors: seq<nat>, debug: string, closures: set<DefId>)

  datatype StatementKind = StorageLive(local: Local) | StorageDead(local: Local) | OtherStatement

  /** A statement with its `{:?}` text and the closures it mentions. */
  datatype Statement = Statement(kind: StatementKind, debug: string, closures: set<DefId>)

  datatype BasicBlockData = BasicBlockData(statements: seq<Statement>, terminator: Option<Terminator>)

  datatype Body = Body(span: nat, argCount: nat, localCount: nat, blocks: seq<BasicBlockData>)

  /** The callee of `Call { func: Operand::Constant(c), .. }` when `c` has a `FnDef` type. */
  function ConstantCallee(k: TerminatorKind): (r: Option<DefId>)
    ensures r.Some? <==> k.Call? && k.func.Constant? && k.func.ty.FnDef?
    ensures r.Some? ==> r.value == k.func.ty.did
  {
    if k.Call? && k.func.Constant? && k.func.ty.FnDef? then Some(k.func.ty.did) else None
  }

  // ---------------------------------------------------------------------------
  // Modules

  /** One entry of `module_children`: the name it is visible under, whether it is
      `pub`, and the definition it resolves to (`res.opt_def_id()`). */
  datatype ModChild = ModChild(ident: string, isPublic: bool, res: Option<DefId>)
}
