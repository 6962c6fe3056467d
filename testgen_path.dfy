/** The path resolver of the test generator: a table from definition ids to the
    public `::`-path under which the crate exposes them, filled by walking the module
    tree from the crate root, and the rendering of types and generic paths as Rust
    source text. */
module TestgenPath {
  import opened Common
  import opened Rustc

  /** A trait reference `<Self as Trait<args>>`: the trait and its arguments, `Self` first. */
  datatype TraitRef = TraitRef(traitDid: DefId, args: seq<GenericArg>)

  /** The compiler queries the resolver makes. `implTraitRef` and `typeOfInst` give the
      trait reference and the self type of an impl instantiated with its arguments;
      `tyToString` is the compiler's own printing of every other type. */
  datatype PathTcx = PathTcx(
    moduleChildren: DefId -> seq<ModChild>,
    defKind: DefId -> DefKind,
    defPathStr: DefId -> string,
    assocParent: DefId -> Option<(DefId, DefKind)>,
    numGenerics: DefId -> nat,
    implTraitRef: (DefId, seq<GenericArg>) -> Option<TraitRef>,
    typeOfInst: (DefId, seq<GenericArg>) -> Ty,
    itemName: DefId -> string,
    tyToString: Ty -> string)

  /** The free `path_str`: the path of a child named `ident` of a module at `current`. */
  function ChildPath(current: string, ident: string): string
  {
    if current == "" then ident else current + "::" + ident
  }

  /** A path built child by child from non-empty names is those names joined by `::`. */
  lemma ChildPathJoins(segs: seq<string>, ident: string)
    requires forall s :: s in segs ==> s != ""
    ensures ChildPath(Join(segs, "::"), ident) == Join(segs + [ident], "::")
  {
    if segs == [] {
      assert segs + [ident] == [ident];
    } else {
      JoinSnoc(segs, ident, "::");
      if |segs| == 1 {
        assert Join(segs, "::") == segs[0];
      }
      assert Join(segs, "::") != "" by {
        assert segs[0] in segs;
        JoinPrefix(segs);
      }
    }
  }

  /** The join of non-empty names starts with the first name, so it is not empty. */
  lemma JoinPrefix(segs: seq<string>)
    requires |segs| > 0 && segs[0] != ""
    ensures |Join(segs, "::")| >= |segs[0]| > 0
  {
  }

  // ---------------------------------------------------------------------------
  // The module walk

  /** A public child that resolves to a definition. */
  predicate Recordable(c: ModChild)
  {
    c.isPublic && c.res.Some?
  }

  /** The walk descends into a child that is recordable and module-like. */
  predicate Descends(tcx: PathTcx, c: ModChild)
  {
    Recordable(c) && IsModuleLike(tcx.defKind(c.res.value))
  }

  /** `region` holds the modules the walk can reach and is closed under descending, and
      within it every module the walk descends into ranks below its parent: the walk
      from a module of `region` meets no cycle. Modules outside `region` (behind a
      private child, say) are unconstrained, whatever their children are. */
  ghost predicate WalkRanked(tcx: PathTcx, rank: DefId -> nat, region: iset<DefId>)
  {
    forall m: DefId, i :: m in region && 0 <= i < |tcx.moduleChildren(m)| && Descends(tcx, tcx.moduleChildren(m)[i]) ==>
      tcx.moduleChildren(m)[i].res.value in region && rank(tcx.moduleChildren(m)[i].res.value) < rank(m)
  }

  /** The table after `build(mod, path)` starting from `m`. */
  ghost function BuildMap(tcx: PathTcx, rank: DefId -> nat, region: iset<DefId>, m: map<DefId, string>, modId: DefId, path: string): map<DefId, string>
    requires WalkRanked(tcx, rank, region) && modId in region
    decreases rank(modId), 1, 0
  {
    BuildChildren(tcx, rank, region, m, modId, tcx.moduleChildren(modId), path)
  }

  /** The table after the loop of `build` has handled the children `cs`, a prefix of
      the module's children: the first path recorded for an id stays. */
  ghost function BuildChildren(tcx: PathTcx, rank: DefId -> nat, region: iset<DefId>, m: map<DefId, string>, modId: DefId,
                               cs: seq<ModChild>, path: string): map<DefId, string>
    requires WalkRanked(tcx, rank, region) && modId in region
    requires cs <= tcx.moduleChildren(modId)
    decreases rank(modId), 0, |cs|
  {
    if cs == [] then m
    else
      var m1 := BuildChildren(tcx, rank, region, m, modId, cs[..|cs| - 1], path);
      var c := cs[|cs| - 1];
      if !Recordable(c) then m1
      else
        var d := c.res.value;
        var p := ChildPath(path, c.ident);
        var m2 := if d in m1 then m1 else m1[d := p];
        if IsModuleLike(tcx.defKind(d)) then
          assert tcx.moduleChildren(modId)[|cs| - 1] == c;
          BuildMap(tcx, rank, region, m2, d, p)
        else m2
  }

  /** The walk never overwrites: every id already in the table keeps its path. */
  lemma {:induction false} BuildKeeps(tcx: PathTcx, rank: DefId -> nat, region: iset<DefId>, m: map<DefId, string>, modId: DefId,
                                      cs: seq<ModChild>, path: string)
    requires WalkRanked(tcx, rank, region) && modId in region
    requires cs <= tcx.moduleChildren(modId)
    ensures forall d :: d in m ==> d in BuildChildren(tcx, rank, region, m, modId, cs, path)
                                   && BuildChildren(tcx, rank, region, m, modId, cs, path)[d] == m[d]
    decreases rank(modId), |cs|
  {
    if cs != [] {
      BuildKeeps(tcx, rank, region, m, modId, cs[..|cs| - 1], path);
      var m1 := BuildChildren(tcx, rank, region, m, modId, cs[..|cs| - 1], path);
      var c := cs[|cs| - 1];
      if Recordable(c) {
        var d := c.res.value;
        var p := ChildPath(path, c.ident);
        var m2 := if d in m1 then m1 else m1[d := p];
        if IsModuleLike(tcx.defKind(d)) {
          assert tcx.moduleChildren(modId)[|cs| - 1] == c;
          BuildKeeps(tcx, rank, region, m2, d, tcx.moduleChildren(d), p);
          assert BuildChildren(tcx, rank, region, m, modId, cs, path) == BuildChildren(tcx, rank, region, m2, d, tcx.moduleChildren(d), p);
        }
      }
    }
  }

  /** Every public child of the module that resolves to a definition has a path
      afterwards. */
  lemma {:induction false} BuildRecords(tcx: PathTcx, rank: DefId -> nat, region: iset<DefId>, m: map<DefId, string>, modId: DefId,
                                        cs: seq<ModChild>, path: string)
    requires WalkRanked(tcx, rank, region) && modId in region
    requires cs <= tcx.moduleChildren(modId)
    ensures forall c :: c in cs && Recordable(c) ==> c.res.value in BuildChildren(tcx, rank, region, m, modId, cs, path)
    decreases |cs|
  {
    if cs != [] {
      var init := cs[..|cs| - 1];
      BuildRecords(tcx, rank, region, m, modId, init, path);
      var m1 := BuildChildren(tcx, rank, region, m, modId, init, path);
      var c := cs[|cs| - 1];
      if Recordable(c) {
        var d := c.res.value;
        var p := ChildPath(path, c.ident);
        var m2 := if d in m1 then m1 else m1[d := p];
        if IsModuleLike(tcx.defKind(d)) {
          assert tcx.moduleChildren(modId)[|cs| - 1] == c;
          BuildKeeps(tcx, rank, region, m2, d, tcx.moduleChildren(d), p);
          assert BuildChildren(tcx, rank, region, m, modId, cs, path) == BuildChildren(tcx, rank, region, m2, d, tcx.moduleChildren(d), p);
        }
      }
      assert forall x :: x in cs ==> x in init || x == c;
    }
  }

  /** Only public children that resolve to a definition are ever recorded: every id
      the walk adds is the target of such a child of some module. */
  lemma {:induction false} BuildOnlyRecordable(tcx: PathTcx, rank: DefId -> nat, region: iset<DefId>, m: map<DefId, string>, modId: DefId,
                                               cs: seq<ModChild>, path: string)
    requires WalkRanked(tcx, rank, region) && modId in region
    requires cs <= tcx.moduleChildren(modId)
    ensures forall d :: d in BuildChildren(tcx, rank, region, m, modId, cs, path) && d !in m ==>
      exists mod: DefId, i :: 0 <= i < |tcx.moduleChildren(mod)| && Recordable(tcx.moduleChildren(mod)[i])
                              && tcx.moduleChildren(mod)[i].res.value == d
    decreases rank(modId), |cs|
  {
    if cs != [] {
      BuildOnlyRecordable(tcx, rank, region, m, modId, cs[..|cs| - 1], path);
      var m1 := BuildChildren(tcx, rank, region, m, modId, cs[..|cs| - 1], path);
      var c := cs[|cs| - 1];
      if Recordable(c) {
        var d := c.res.value;
        var p := ChildPath(path, c.ident);
        var m2 := if d in m1 then m1 else m1[d := p];
        assert tcx.moduleChildren(modId)[|cs| - 1] == c;
        if IsModuleLike(tcx.defKind(d)) {
          BuildOnlyRecordable(tcx, rank, region, m2, d, tcx.moduleChildren(d), p);
          assert BuildChildren(tcx, rank, region, m, modId, cs, path) == BuildChildren(tcx, rank, region, m2, d, tcx.moduleChildren(d), p);
        }
      }
    }
  }

  /** Every path the walk adds below a module at a non-empty `path` starts with `path::`. */
  lemma {:induction false} BuildExtendsPath(tcx: PathTcx, rank: DefId -> nat, region: iset<DefId>, m: map<DefId, string>, modId: DefId,
                                            cs: seq<ModChild>, path: string)
    requires WalkRanked(tcx, rank, region) && modId in region
    requires cs <= tcx.moduleChildren(modId)
    requires path != ""
    ensures forall d :: d in BuildChildren(tcx, rank, region, m, modId, cs, path) && d !in m ==>
      StartsWith(BuildChildren(tcx, rank, region, m, modId, cs, path)[d], path + "::")
    decreases rank(modId), |cs|
  {
    if cs != [] {
      BuildExtendsPath(tcx, rank, region, m, modId, cs[..|cs| - 1], path);
      var m1 := BuildChildren(tcx, rank, region, m, modId, cs[..|cs| - 1], path);
      var c := cs[|cs| - 1];
      if Recordable(c) {
        var d := c.res.value;
        var p := ChildPath(path, c.ident);
        assert StartsWith(p, path + "::");
        var m2 := if d in m1 then m1 else m1[d := p];
        if IsModuleLike(tcx.defKind(d)) {
          assert tcx.moduleChildren(modId)[|cs| - 1] == c;
          BuildExtendsPath(tcx, rank, region, m2, d, tcx.moduleChildren(d), p);
          forall x | x in BuildMap(tcx, rank, region, m2, d, p) && x !in m2
            ensures StartsWith(BuildMap(tcx, rank, region, m2, d, p)[x], path + "::")
          {
            var s := BuildMap(tcx, rank, region, m2, d, p)[x];
            assert s[..|p + "::"|] == p + "::";
            assert s[..|path + "::"|] == (p + "::")[..|path + "::"|];
          }
          BuildKeeps(tcx, rank, region, m2, d, tcx.moduleChildren(d), p);
        }
      }
    }
  }

  // ---------------------------------------------------------------------------
  // Tuples

  /** A text that opens with `open` and closes with `close`. */
  predicate Wrapped(s: string, open: char, close: char)
  {
    |s| >= 2 && s[0] == open && s[|s| - 1] == close
  }

  /** A tuple type's text as `ty_str` writes it: the element texts joined by `", "`
      in parentheses. */
  function TupleTextAsWritten(parts: seq<string>): string
  {
    "(" + Join(parts, ", ") + ")"
  }

  /** As written, a one-element tuple renders exactly as its element in parentheses,
      which Rust reads as the element type itself. */
  lemma OneTupleAsWritten(s: string)
    ensures TupleTextAsWritten([s]) == "(" + s + ")"
  {
  }

  /** A tuple type's text with the trailing comma Rust requires for one element. */
  function TupleText(parts: seq<string>): (r: string)
    ensures |parts| != 1 ==> r == TupleTextAsWritten(parts)
  {
    if |parts| == 1 then "(" + parts[0] + ",)" else TupleTextAsWritten(parts)
  }

  /** A one-element tuple's text is never that of its parenthesised element, and it
      ends in `,)`. */
  lemma OneTupleDistinct(s: string)
    ensures TupleText([s]) != "(" + s + ")"
    ensures |TupleText([s])| >= 2 && TupleText([s])[|TupleText([s])| - 2..] == ",)"
  {
    assert |TupleText([s])| == |s| + 3;
  }

  // ---------------------------------------------------------------------------
  // Bracket balance

  /** The number of `open` characters in `s` minus the number of `close` ones. */
  function Depth(s: string, open: char, close: char): int
  {
    if s == [] then 0
    else Depth(s[..|s| - 1], open, close) + (if s[|s| - 1] == open then 1 else if s[|s| - 1] == close then -1 else 0)
  }

  lemma {:induction false} DepthAppend(a: string, b: string, open: char, close: char)
    ensures Depth(a + b, open, close) == Depth(a, open, close) + Depth(b, open, close)
  {
    if b == [] {
      assert a + b == a;
    } else {
      assert (a + b)[..|a + b| - 1] == a + b[..|b| - 1];
      assert (a + b)[|a + b| - 1] == b[|b| - 1];
      DepthAppend(a, b[..|b| - 1], open, close);
    }
  }

  /** As many `(` as `)` and as many `[` as `]`. */
  predicate Balanced(s: string)
  {
    Depth(s, '(', ')') == 0 && Depth(s, '[', ']') == 0
  }

  /** Both depths of a concatenation add up. */
  lemma DepthsAppend(a: string, b: string)
    ensures Depth(a + b, '(', ')') == Depth(a, '(', ')') + Depth(b, '(', ')')
    ensures Depth(a + b, '[', ']') == Depth(a, '[', ']') + Depth(b, '[', ']')
  {
    DepthAppend(a, b, '(', ')');
    DepthAppend(a, b, '[', ']');
  }

  /** Balanced parts joined by a balanced separator give a balanced text. */
  lemma {:induction false} JoinBalanced(parts: seq<string>, sep: string)
    requires Balanced(sep) && forall i :: 0 <= i < |parts| ==> Balanced(parts[i])
    ensures Balanced(Join(parts, sep))
  {
    if |parts| > 1 {
      JoinBalanced(parts[1..], sep);
      DepthsAppend(parts[0], sep);
      DepthsAppend(parts[0] + sep, Join(parts[1..], sep));
    }
  }

  /** A text with no brackets or parentheses has depth zero. */
  lemma PlainWord(w: string)
    requires forall i :: 0 <= i < |w| ==> w[i] != '(' && w[i] != ')' && w[i] != '[' && w[i] != ']'
    ensures Balanced(w)
  {
    if w != [] {
      PlainWord(w[..|w| - 1]);
    }
  }

  /** A balanced text between a matching pair stays balanced. */
  lemma BalancedWrap(open: string, e: string, close: string)
    requires Balanced(open + close) && Balanced(e)
    ensures Balanced(open + e + close)
  {
    DepthsAppend(open, close);
    DepthsAppend(open, e);
    DepthsAppend(open + e, close);
  }

  /** Balanced texts concatenate to a balanced text. */
  lemma BalancedAppend(a: string, b: string)
    requires Balanced(a) && Balanced(b)
    ensures Balanced(a + b)
  {
    DepthsAppend(a, b);
  }

  /** The text of an array type, `[e;n]`, is balanced when `e` and `n` are. */
  lemma ArrayTextBalanced(e: string, len: string)
    requires Balanced(e) && Balanced(len)
    ensures Balanced("[" + e + ";" + len + "]")
  {
    PlainWord(";");
    BalancedAppend(e, ";");
    BalancedAppend(e + ";", len);
    BalancedWrap("[", e + ";" + len, "]");
    assert "[" + (e + ";" + len) + "]" == "[" + e + ";" + len + "]";
  }

  /** The text of a reference type, `&'a mut e`, is balanced when the region and `e` are. */
  lemma RefTextBalanced(region: string, prefix: string, e: string)
    requires Balanced(region) && Balanced(e)
    requires forall i :: 0 <= i < |prefix| ==> prefix[i] != '(' && prefix[i] != ')' && prefix[i] != '[' && prefix[i] != ']'
    ensures Balanced("&" + region + " " + prefix + e)
  {
    PlainWord("&");
    PlainWord(" " + prefix);
    BalancedAppend("&", region);
    BalancedAppend("&" + region, " " + prefix);
    BalancedAppend("&" + region + (" " + prefix), e);
    assert "&" + region + (" " + prefix) + e == "&" + region + " " + prefix + e;
  }

  // ---------------------------------------------------------------------------
  // The resolver

  /** The first `n` items of an iterator over `s`. */
  function Take<T>(s: seq<T>, n: nat): (r: seq<T>)
    ensures r <= s && |r| == if n < |s| then n else |s|
  {
    if n < |s| then s[..n] else s
  }

  /** What is left of an iterator over `s` after `n` items were taken. */
  function Drop<T>(s: seq<T>, n: nat): (r: seq<T>)
    ensures s == Take(s, n) + r
    ensures |r| <= |s|
  {
    if n < |s| then s[n..] else s[|s|..]
  }

  // ---------------------------------------------------------------------------
  // A module that re-exports itself

  /** The walk of `build` as written, with a bound on how deeply its calls may nest:
      `None` when the bound runs out before the walk ends. It descends into every
      module-like child, whether or not that child was recorded before. */
  function BuildFuel(tcx: PathTcx, m: map<DefId, string>, modId: DefId, path: string, fuel: nat): Option<map<DefId, string>>
    decreases fuel, 0, 0
  {
    if fuel == 0 then None
    else BuildChildrenFuel(tcx, m, modId, tcx.moduleChildren(modId), path, fuel - 1)
  }

  function BuildChildrenFuel(tcx: PathTcx, m: map<DefId, string>, modId: DefId, cs: seq<ModChild>, path: string,
                             fuel: nat): Option<map<DefId, string>>
    decreases fuel, 1, |cs|
  {
    if cs == [] then Some(m)
    else
      match BuildChildrenFuel(tcx, m, modId, cs[..|cs| - 1], path, fuel)
      case None => None
      case Some(m1) =>
        var c := cs[|cs| - 1];
        if !Recordable(c) then Some(m1)
        else
          var d := c.res.value;
          var p := ChildPath(path, c.ident);
          var m2 := if d in m1 then m1 else m1[d := p];
          if IsModuleLike(tcx.defKind(d)) then BuildFuel(tcx, m2, d, p, fuel) else Some(m2)
  }

  /** A module that lists itself among its public module-like children, as
      `pub mod prelude { pub use super::*; }` makes `prelude` do, admits no rank once
      the walk can reach it. */
  lemma SelfReexportUnranked(tcx: PathTcx, rank: DefId -> nat, region: iset<DefId>, modId: DefId, i: nat)
    requires modId in region
    requires i < |tcx.moduleChildren(modId)| && Descends(tcx, tcx.moduleChildren(modId)[i])
    requires tcx.moduleChildren(modId)[i].res.value == modId
    ensures !WalkRanked(tcx, rank, region)
  {
  }

  /** A self-re-exporting module that the walk cannot reach does not stand in the way:
      a root whose module-like children are all private (or unresolved) is ranked on
      its own, whatever lies behind them. */
  lemma ClosedRootRanked(tcx: PathTcx, root: DefId)
    requires forall i :: 0 <= i < |tcx.moduleChildren(root)| ==> !Descends(tcx, tcx.moduleChildren(root)[i])
    ensures WalkRanked(tcx, _ => 0, iset{root})
  {
  }

  /** On such a module `build` as written never ends: however deep its calls may nest,
      the walk runs out, whatever the table and the path it starts from. */
  lemma {:induction false} SelfReexportDiverges(tcx: PathTcx, m: map<DefId, string>, modId: DefId, path: string,
                                                i: nat, fuel: nat)
    requires i < |tcx.moduleChildren(modId)| && Descends(tcx, tcx.moduleChildren(modId)[i])
    requires tcx.moduleChildren(modId)[i].res.value == modId
    ensures BuildFuel(tcx, m, modId, path, fuel).None?
    decreases fuel, 0
  {
    if fuel > 0 {
      SelfReexportChildrenDiverge(tcx, m, modId, tcx.moduleChildren(modId), path, i, fuel - 1);
    }
  }

  lemma {:induction false} SelfReexportChildrenDiverge(tcx: PathTcx, m: map<DefId, string>, modId: DefId,
                                                       cs: seq<ModChild>, path: string, i: nat, fuel: nat)
    requires i < |tcx.moduleChildren(modId)| && Descends(tcx, tcx.moduleChildren(modId)[i])
    requires tcx.moduleChildren(modId)[i].res.value == modId
    requires i < |cs| && cs <= tcx.moduleChildren(modId)
    ensures BuildChildrenFuel(tcx, m, modId, cs, path, fuel).None?
    decreases fuel, 1, |cs|
  {
    var prefix := cs[..|cs| - 1];
    if i < |prefix| {
      SelfReexportChildrenDiverge(tcx, m, modId, prefix, path, i, fuel);
    } else {
      assert cs[|cs| - 1] == tcx.moduleChildren(modId)[i];
      match BuildChildrenFuel(tcx, m, modId, prefix, path, fuel)
      case None =>
      case Some(m1) =>
        var c := cs[|cs| - 1];
        var p := ChildPath(path, c.ident);
        var m2 := if modId in m1 then m1 else m1[modId := p];
        SelfReexportDiverges(tcx, m2, modId, p, i, fuel);
    }
  }

  /** Every child the walk can meet resolves, if at all, to one of the ids of `universe`. */
  ghost predicate ChildrenWithin(tcx: PathTcx, universe: set<DefId>)
  {
    forall m: DefId, i :: 0 <= i < |tcx.moduleChildren(m)| && Recordable(tcx.moduleChildren(m)[i]) ==>
      tcx.moduleChildren(m)[i].res.value in universe
  }

  /** The walk as evidently intended: it descends into a module only when that module
      was recorded just now, so no module is walked twice, and the walk ends on every
      crate, re-exports and all. It keeps what the table held. */
  ghost function BuildOnce(tcx: PathTcx, universe: set<DefId>, m: map<DefId, string>, modId: DefId, path: string)
    : (r: map<DefId, string>)
    requires ChildrenWithin(tcx, universe)
    ensures forall d :: d in m ==> d in r && r[d] == m[d]
    decreases |universe - m.Keys|, 1, 0
  {
    BuildOnceChildren(tcx, universe, m, modId, tcx.moduleChildren(modId), path)
  }

  ghost function BuildOnceChildren(tcx: PathTcx, universe: set<DefId>, m: map<DefId, string>, modId: DefId,
                                   cs: seq<ModChild>, path: string): (r: map<DefId, string>)
    requires ChildrenWithin(tcx, universe)
    requires cs <= tcx.moduleChildren(modId)
    ensures forall d :: d in m ==> d in r && r[d] == m[d]
    decreases |universe - m.Keys|, 0, |cs|
  {
    if cs == [] then m
    else
      var m1 := BuildOnceChildren(tcx, universe, m, modId, cs[..|cs| - 1], path);
      var c := cs[|cs| - 1];
      if !Recordable(c) then m1
      else
        var d := c.res.value;
        if d in m1 then m1
        else
          var m2 := m1[d := ChildPath(path, c.ident)];
          if IsModuleLike(tcx.defKind(d)) then
            assert c == tcx.moduleChildren(modId)[|cs| - 1];
            FewerUnrecorded(universe, m, m1, d, ChildPath(path, c.ident));
            BuildOnce(tcx, universe, m2, d, ChildPath(path, c.ident))
          else m2
  }

  /** Recording one more id of `universe` leaves fewer of its ids unrecorded. */
  lemma FewerUnrecorded(universe: set<DefId>, m: map<DefId, string>, m1: map<DefId, string>, d: DefId, p: string)
    requires m.Keys <= m1.Keys && d in universe && d !in m1
    ensures |universe - m1[d := p].Keys| < |universe - m.Keys|
  {
    var after, before := universe - m1[d := p].Keys, universe - m.Keys;
    assert after <= before - {d};
    assert d in before;
    assert |before - {d}| == |before| - 1;
    SubsetCard(after, before - {d});
  }

  lemma SubsetCard(a: set<DefId>, b: set<DefId>)
    requires a <= b
    ensures |a| <= |b|
  {
    if a != {} {
      var x :| x in a;
      SubsetCard(a - {x}, b - {x});
    }
  }

  /** The corrected walk on the self-re-exporting module: it records the module once
      under its own name and stops. */
  lemma SelfReexportVisitedOnce(tcx: PathTcx, universe: set<DefId>, modId: DefId, c: ModChild)
    requires ChildrenWithin(tcx, universe)
    requires tcx.moduleChildren(modId) == [c] && Descends(tcx, c) && c.res.value == modId
    ensures BuildOnce(tcx, universe, map[], modId, "") == map[modId := c.ident]
  {
    var m2 := map[modId := c.ident];
    assert [c][..0] == [];
    assert BuildOnceChildren(tcx, universe, map[], modId, [c][..0], "") == map[];
    assert BuildOnceChildren(tcx, universe, m2, modId, [c][..0], c.ident) == m2;
    assert BuildOnceChildren(tcx, universe, m2, modId, [c], c.ident) == m2;
    assert BuildOnce(tcx, universe, m2, modId, c.ident) == m2;
    assert BuildOnceChildren(tcx, universe, map[], modId, [c], "") == m2;
  }

  /** The corrected walk records every public child of the module that resolves to a
      definition, as the walk as written does. */
  lemma {:induction false} BuildOnceRecords(tcx: PathTcx, universe: set<DefId>, m: map<DefId, string>, modId: DefId,
                                            cs: seq<ModChild>, path: string)
    requires ChildrenWithin(tcx, universe)
    requires cs <= tcx.moduleChildren(modId)
    ensures forall c :: c in cs && Recordable(c) ==> c.res.value in BuildOnceChildren(tcx, universe, m, modId, cs, path)
    decreases |cs|
  {
    if cs != [] {
      var prefix := cs[..|cs| - 1];
      BuildOnceRecords(tcx, universe, m, modId, prefix, path);
      var m1 := BuildOnceChildren(tcx, universe, m, modId, prefix, path);
      var r := BuildOnceChildren(tcx, universe, m, modId, cs, path);
      assert forall d :: d in m1 ==> d in r;
      forall c | c in cs && Recordable(c)
        ensures c.res.value in r
      {
        if c != cs[|cs| - 1] {
          assert c in prefix;
        }
      }
    }
  }

  /** A path followed by `::<` and the argument texts when there are any. */
  function WithArgs(base: string, argTexts: seq<string>): (r: string)
    ensures argTexts == [] ==> r == base
    ensures argTexts != [] ==> StartsWith(r, base + "::<") && r[|r| - 1] == '>'
  {
    if argTexts == [] then base else base + "::<" + Join(argTexts, ", ") + ">"
  }

  class PathResolver {
    const tcx: PathTcx
    /** A rank on modules that the walk descends along, within the modules it reaches. */
    ghost const rank: DefId -> nat
    ghost const region: iset<DefId>
    var pathMap: map<DefId, string>

    /** `get_path_resolver`: a resolver filled by walking the crate from its root
        module with the empty path. */
    constructor(tcx: PathTcx, ghost rank: DefId -> nat, ghost region: iset<DefId>, root: DefId)
      requires WalkRanked(tcx, rank, region) && root in region
      ensures this.tcx == tcx && this.rank == rank && this.region == region
      ensures pathMap == BuildMap(tcx, rank, region, map[], root, "")
    {
      this.tcx := tcx;
      this.rank := rank;
      this.region := region;
      pathMap := map[];
      new;
      Build(root, "");
    }

    /** `build`: visit the children of `modId` in order; record each public child that
        resolves to a definition unless it already has a path, and descend into it when
        it is module-like. */
    method Build(modId: DefId, currentPath: string)
      requires WalkRanked(tcx, rank, region) && modId in region
      modifies this`pathMap
      ensures pathMap == BuildMap(tcx, rank, region, old(pathMap), modId, currentPath)
      decreases rank(modId)
    {
      var childs := tcx.moduleChildren(modId);
      var i := 0;
      while i < |childs|
        invariant 0 <= i <= |childs|
        invariant pathMap == BuildChildren(tcx, rank, region, old(pathMap), modId, childs[..i], currentPath)
      {
        var child := childs[i];
        assert childs[..i + 1][..i] == childs[..i];
        if child.isPublic && child.res.Some? {
          var did := child.res.value;
          var path := ChildPath(currentPath, child.ident);
          if did !in pathMap {
            pathMap := pathMap[did := path];
          }
          if IsModuleLike(tcx.defKind(did)) {
            assert Descends(tcx, tcx.moduleChildren(modId)[i]);
            Build(did, path);
          }
        }
        i := i + 1;
      }
      assert childs[..i] == childs;
    }

    /** `path_str`: the recorded path, or the compiler's def path when there is none. */
    function PathStr(defId: DefId): (r: string)
      reads this
      ensures defId in pathMap ==> r == pathMap[defId]
      ensures defId !in pathMap ==> r == tcx.defPathStr(defId)
    {
      if defId in pathMap then pathMap[defId] else tcx.defPathStr(defId)
    }

    /** `ty_str`. `fuel` bounds how often the rendering may turn to a type the compiler
        computes (an impl's self type or trait reference) rather than a part of `ty`. */
    function TyStr(ty: Ty, fuel: nat): (r: Result<string>)
      reads this
      ensures r.Ok? && ty.Tuple? ==> Wrapped(r.value, '(', ')')
      ensures r.Ok? && (ty.Array? || ty.Slice?) ==> Wrapped(r.value, '[', ']')
      ensures r.Ok? && ty.Ref? ==> |r.value| > 0 && r.value[0] == '&'
      ensures r.Ok? && ty.RawPtr? ==> |r.value| > 0 && r.value[0] == '*'
      decreases fuel, ty, 2
    {
      match ty
      case Adt(did, args) => PathStrWithIter(did, args, fuel)
      case Array(elem, len) =>
        var e :- TyStr(elem, fuel);
        Ok("[" + e + ";" + len.display + "]")
      case Tuple(elems) =>
        var parts :- TysStr(elems, fuel);
        Ok(TupleTextAsWritten(parts))
      case Ref(region, inner, mutbl) =>
        var e :- TyStr(inner, fuel);
        Ok("&" + region + " " + PrefixStr(mutbl) + e)
      case RawPtr(pointee, mutbl) =>
        var e :- TyStr(pointee, fuel);
        Ok("*" + PtrStr(mutbl) + " " + e)
      case Slice(elem) =>
        var e :- TyStr(elem, fuel);
        Ok("[" + e + "]")
      case _ => Ok(tcx.tyToString(ty))
    }

    /** As written, the text of a one-element tuple is its element's text in
        parentheses: the text Rust reads as the element type itself. */
    lemma OneTupleRendersAsElement(t: Ty, fuel: nat)
      ensures TyStr(Tuple([t]), fuel).Panic? <==> TyStr(t, fuel).Panic?
      ensures TyStr(t, fuel).Ok? ==> TyStr(Tuple([t]), fuel).value == "(" + TyStr(t, fuel).value + ")"
    {
      assert [t][1..] == [];
      var e := TyStr(t, fuel);
      assert TysStr([], fuel) == Ok([]);
      if e.Ok? {
        assert [e.value] + [] == [e.value];
        assert TysStr([t], fuel) == Ok([e.value]);
      } else {
        assert TysStr([t], fuel).Panic?;
      }
    }

    /** The element texts of a tuple are those of its element types, one for one, and
        the list fails exactly when some element fails. */
    lemma {:induction false} TysStrEach(tys: seq<Ty>, fuel: nat)
      ensures TysStr(tys, fuel).Ok? <==> forall i :: 0 <= i < |tys| ==> TyStr(tys[i], fuel).Ok?
      ensures TysStr(tys, fuel).Ok? ==> forall i :: 0 <= i < |tys| ==> TysStr(tys, fuel).value[i] == TyStr(tys[i], fuel).value
    {
      if tys != [] {
        TysStrEach(tys[1..], fuel);
        assert forall i :: 1 <= i < |tys| ==> tys[i] == tys[1..][i - 1];
      }
    }

    /** A type the compiler prints without help of the resolver: no ADT anywhere in it,
        and every text taken from the compiler (leaf types, array lengths, regions) is
        balanced. */
    ghost predicate PlainTy(ty: Ty)
      decreases ty
    {
      match ty
      case Adt(_, _) => false
      case Array(elem, len) => PlainTy(elem) && Balanced(len.display)
      case Tuple(elems) => forall i :: 0 <= i < |elems| ==> PlainTy(elems[i])
      case Ref(region, inner, _) => Balanced(region) && PlainTy(inner)
      case RawPtr(pointee, _) => PlainTy(pointee)
      case Slice(elem) => PlainTy(elem)
      case _ => Balanced(tcx.tyToString(ty))
    }

    /** `ty_str` never fails on a plain type, and the brackets and parentheses of its
        text balance. */
    lemma {:induction false} TyStrBalanced(ty: Ty, fuel: nat)
      requires PlainTy(ty)
      ensures TyStr(ty, fuel).Ok? && Balanced(TyStr(ty, fuel).value)
      decreases ty
    {
      match ty
      case Array(elem, len) =>
        TyStrBalanced(elem, fuel);
        ArrayBalanced(elem, len, fuel);
      case Tuple(elems) =>
        forall i | 0 <= i < |elems|
          ensures TyStr(elems[i], fuel).Ok? && Balanced(TyStr(elems[i], fuel).value)
        {
          TyStrBalanced(elems[i], fuel);
        }
        TupleBalanced(elems, fuel);
      case Ref(region, inner, mutbl) =>
        TyStrBalanced(inner, fuel);
        RefBalanced(region, inner, mutbl, fuel);
      case RawPtr(pointee, mutbl) =>
        TyStrBalanced(pointee, fuel);
        PtrBalanced(pointee, mutbl, fuel);
      case Slice(elem) =>
        TyStrBalanced(elem, fuel);
        SliceBalanced(elem, fuel);
      case _ =>
    }

    lemma ArrayBalanced(elem: Ty, len: Const, fuel: nat)
      requires TyStr(elem, fuel).Ok? && Balanced(TyStr(elem, fuel).value) && Balanced(len.display)
      ensures TyStr(Array(elem, len), fuel).Ok? && Balanced(TyStr(Array(elem, len), fuel).value)
    {
      var e := TyStr(elem, fuel).value;
      ArrayTextBalanced(e, len.display);
      assert TyStr(Array(elem, len), fuel) == Ok("[" + e + ";" + len.display + "]");
    }

    lemma TupleBalanced(elems: seq<Ty>, fuel: nat)
      requires forall i :: 0 <= i < |elems| ==> TyStr(elems[i], fuel).Ok? && Balanced(TyStr(elems[i], fuel).value)
      ensures TyStr(Tuple(elems), fuel).Ok? && Balanced(TyStr(Tuple(elems), fuel).value)
    {
      TysStrEach(elems, fuel);
      var parts := TysStr(elems, fuel).value;
      PlainWord(", ");
      JoinBalanced(parts, ", ");
      BalancedWrap("(", Join(parts, ", "), ")");
    }

    lemma RefBalanced(region: string, inner: Ty, mutbl: Mutability, fuel: nat)
      requires TyStr(inner, fuel).Ok? && Balanced(TyStr(inner, fuel).value) && Balanced(region)
      ensures TyStr(Ref(region, inner, mutbl), fuel).Ok? && Balanced(TyStr(Ref(region, inner, mutbl), fuel).value)
    {
      var e := TyStr(inner, fuel).value;
      RefTextBalanced(region, PrefixStr(mutbl), e);
      assert TyStr(Ref(region, inner, mutbl), fuel) == Ok("&" + region + " " + PrefixStr(mutbl) + e);
    }

    lemma PtrBalanced(pointee: Ty, mutbl: Mutability, fuel: nat)
      requires TyStr(pointee, fuel).Ok? && Balanced(TyStr(pointee, fuel).value)
      ensures TyStr(RawPtr(pointee, mutbl), fuel).Ok? && Balanced(TyStr(RawPtr(pointee, mutbl), fuel).value)
    {
      PlainWord("*" + PtrStr(mutbl) + " ");
      BalancedAppend("*" + PtrStr(mutbl) + " ", TyStr(pointee, fuel).value);
    }

    lemma SliceBalanced(elem: Ty, fuel: nat)
      requires TyStr(elem, fuel).Ok? && Balanced(TyStr(elem, fuel).value)
      ensures TyStr(Slice(elem), fuel).Ok? && Balanced(TyStr(Slice(elem), fuel).value)
    {
      BalancedWrap("[", TyStr(elem, fuel).value, "]");
    }

    function TysStr(tys: seq<Ty>, fuel: nat): (r: Result<seq<string>>)
      reads this
      ensures r.Ok? ==> |r.value| == |tys|
      decreases fuel, tys, 0
    {
      if tys == [] then Ok([])
      else
        var first :- TyStr(tys[0], fuel);
        var rest :- TysStr(tys[1..], fuel);
        Ok([first] + rest)
    }

    /** One generic argument: a lifetime as written, a type by `ty_str`, a constant by
        its `usize` value (a panic when it has none). */
    function ArgStr(a: GenericArg, fuel: nat): Result<string>
      reads this
      decreases fuel, a, 0
    {
      match a
      case Lifetime(region) => Ok(region)
      case TypeArg(t) => TyStr(t, fuel)
      case ConstArg(c) => if c.usize.None? then Panic("called `Option::unwrap()` on a `None` value") else Ok(NatToString(c.usize.value))
    }

    function ArgStrs(args: seq<GenericArg>, fuel: nat): (r: Result<seq<string>>)
      reads this
      ensures r.Ok? ==> |r.value| == |args|
      decreases fuel, args, 0
    {
      if args == [] then Ok([])
      else
        var first :- ArgStr(args[0], fuel);
        var rest :- ArgStrs(args[1..], fuel);
        Ok([first] + rest)
    }

    /** `generic_arg_iter_str`: nothing for no arguments, else their texts joined by `", "`. */
    function GenericArgIterStr(args: seq<GenericArg>, fuel: nat): (r: Result<Option<string>>)
      reads this
      ensures r.Ok? ==> (r.value.None? <==> args == [])
      ensures r.Ok? ==> ArgStrs(args, fuel).Ok?
      ensures r.Ok? && r.value.Some? ==> r.value.value == Join(ArgStrs(args, fuel).value, ", ")
      ensures r.Panic? <==> ArgStrs(args, fuel).Panic?
      decreases fuel, args, 1
    {
      var parts :- ArgStrs(args, fuel);
      Ok(if parts != [] then Some(Join(parts, ", ")) else None)
    }

    /** The path of an associated item's parent: `<Self as Trait<args>>` for a trait impl,
        the self type for an inherent impl. */
    function AssocBase(parent: DefId, kind: DefKind, parentArgs: seq<GenericArg>, fuel: nat): Result<string>
      reads this
      decreases fuel, parentArgs, 3
    {
      if fuel == 0 then Panic("rendering bound reached")
      else if kind == Impl(true) then
        var tr := tcx.implTraitRef(parent, parentArgs);
        if tr.None? then Panic("called `Option::unwrap()` on a `None` value")
        else if tr.value.args == [] || !tr.value.args[0].TypeArg? then Panic("expected type for param #0")
        else
          var selfStr :- TyStr(tr.value.args[0].ty, fuel - 1);
          var traitStr := PathStr(tr.value.traitDid);
          var traitArgs :- GenericArgIterStr(tr.value.args[1..], fuel - 1);
          Ok(match traitArgs
             case Some(a) => "<" + selfStr + " as " + traitStr + "<" + a + ">>"
             case None => "<" + selfStr + " as " + traitStr + ">")
      else if kind == Impl(false) then
        TyStr(tcx.typeOfInst(parent, parentArgs), fuel - 1)
      else Panic("unexpected assoc parent")
    }

    /** `path_str_with_iter` (and `path_str_with_args`): an associated item is named
        through its parent, which takes the parent's generic arguments from the front of
        the argument list; the item's own arguments come next and follow as `::<..>`
        when there are any. */
    function PathStrWithIter(defId: DefId, args: seq<GenericArg>, fuel: nat): (r: Result<string>)
      reads this
      ensures tcx.assocParent(defId).None? ==>
        var own := Take(args, tcx.numGenerics(defId));
        (r.Panic? <==> ArgStrs(own, fuel).Panic?)
        && (r.Ok? ==> r.value == WithArgs(PathStr(defId), ArgStrs(own, fuel).value))
      ensures tcx.assocParent(defId).Some? ==>
        var (parent, kind) := tcx.assocParent(defId).value;
        var base := AssocBase(parent, kind, Take(args, tcx.numGenerics(parent)), fuel);
        var own := Take(Drop(args, tcx.numGenerics(parent)), tcx.numGenerics(defId));
        (r.Panic? <==> base.Panic? || ArgStrs(own, fuel).Panic?)
        && (r.Ok? ==> r.value == WithArgs(base.value + "::" + tcx.itemName(defId), ArgStrs(own, fuel).value))
      decreases fuel, args, 4
    {
      var (base, rest) :- match tcx.assocParent(defId)
        case None => Ok((PathStr(defId), args))
        case Some((parent, kind)) =>
          var parentArgs := Take(args, tcx.numGenerics(parent));
          var b :- AssocBase(parent, kind, parentArgs, fuel);
          Ok((b + "::" + tcx.itemName(defId), Drop(args, tcx.numGenerics(parent))));
      var own :- GenericArgIterStr(Take(rest, tcx.numGenerics(defId)), fuel);
      Ok(match own
         case Some(a) => base + "::<" + a + ">"
         case None => base)
    }

    /** A non-associated item with generic arguments renders as its path followed by
        `::<` and the arguments, and otherwise as its path alone. */
    lemma PathWithArgs(defId: DefId, args: seq<GenericArg>, fuel: nat)
      requires tcx.assocParent(defId).None?
      requires PathStrWithIter(defId, args, fuel).Ok?
      ensures var own := Take(args, tcx.numGenerics(defId));
        own != [] ==> PathStrWithIter(defId, args, fuel).value
                      == PathStr(defId) + "::<" + Join(ArgStrs(own, fuel).value, ", ") + ">"
    {
    }

    /** An item of a trait impl is named `<S as T>::name`, or `<S as T<a, b>>::name` when
        the trait takes arguments beyond `Self`, where `S` renders the impl's self type
        and `T` is the trait's path; the item's own arguments follow. */
    lemma TraitImplItemPath(defId: DefId, args: seq<GenericArg>, fuel: nat)
      requires tcx.assocParent(defId).Some? && tcx.assocParent(defId).value.1 == Impl(true)
      requires PathStrWithIter(defId, args, fuel).Ok?
      ensures var parent := tcx.assocParent(defId).value.0;
        var tr := tcx.implTraitRef(parent, Take(args, tcx.numGenerics(parent)));
        var own := Take(Drop(args, tcx.numGenerics(parent)), tcx.numGenerics(defId));
        fuel > 0 && tr.Some? && tr.value.args != [] && tr.value.args[0].TypeArg?
        && TyStr(tr.value.args[0].ty, fuel - 1).Ok? && ArgStrs(tr.value.args[1..], fuel - 1).Ok?
        && ArgStrs(own, fuel).Ok?
        && var selfTrait := TyStr(tr.value.args[0].ty, fuel - 1).value + " as " + PathStr(tr.value.traitDid);
           var traitArgs := ArgStrs(tr.value.args[1..], fuel - 1).value;
           PathStrWithIter(defId, args, fuel).value
             == WithArgs((if traitArgs == [] then "<" + selfTrait + ">"
                          else "<" + selfTrait + "<" + Join(traitArgs, ", ") + ">>") + "::" + tcx.itemName(defId),
                         ArgStrs(own, fuel).value)
    {
      var parent := tcx.assocParent(defId).value.0;
      TraitImplBase(parent, Take(args, tcx.numGenerics(parent)), fuel);
    }

    /** The trait-impl arm of `AssocBase`, with the trait's own arguments rendered apart. */
    lemma TraitImplBase(parent: DefId, parentArgs: seq<GenericArg>, fuel: nat)
      requires AssocBase(parent, Impl(true), parentArgs, fuel).Ok?
      ensures var tr := tcx.implTraitRef(parent, parentArgs);
        fuel > 0 && tr.Some? && tr.value.args != [] && tr.value.args[0].TypeArg?
        && TyStr(tr.value.args[0].ty, fuel - 1).Ok? && ArgStrs(tr.value.args[1..], fuel - 1).Ok?
        && var selfTrait := TyStr(tr.value.args[0].ty, fuel - 1).value + " as " + PathStr(tr.value.traitDid);
           var traitArgs := ArgStrs(tr.value.args[1..], fuel - 1).value;
           AssocBase(parent, Impl(true), parentArgs, fuel).value
             == if traitArgs == [] then "<" + selfTrait + ">" else "<" + selfTrait + "<" + Join(traitArgs, ", ") + ">>"
    {
      var tr := tcx.implTraitRef(parent, parentArgs).value;
      var g := GenericArgIterStr(tr.args[1..], fuel - 1);
      assert g.Ok?;
    }

    /** An item of an inherent impl is named through the impl's self type, instantiated
        with the parent's arguments: `S::name`, then the item's own arguments. */
    lemma InherentItemPath(defId: DefId, args: seq<GenericArg>, fuel: nat)
      requires tcx.assocParent(defId).Some? && tcx.assocParent(defId).value.1 == Impl(false)
      requires PathStrWithIter(defId, args, fuel).Ok?
      ensures var parent := tcx.assocParent(defId).value.0;
        var selfTy := tcx.typeOfInst(parent, Take(args, tcx.numGenerics(parent)));
        var own := Take(Drop(args, tcx.numGenerics(parent)), tcx.numGenerics(defId));
        fuel > 0 && TyStr(selfTy, fuel - 1).Ok? && ArgStrs(own, fuel).Ok?
        && PathStrWithIter(defId, args, fuel).value
           == WithArgs(TyStr(selfTy, fuel - 1).value + "::" + tcx.itemName(defId), ArgStrs(own, fuel).value)
    {
    }

    /** An associated item whose parent is no impl hits the `unreachable!` arm. */
    lemma OtherAssocParentPanics(defId: DefId, args: seq<GenericArg>, fuel: nat)
      requires tcx.assocParent(defId).Some? && !tcx.assocParent(defId).value.1.Impl?
      ensures PathStrWithIter(defId, args, fuel).Panic?
    {
    }

    /** A constant argument panics exactly when it has no `usize` value; a lifetime is
        written as it is. */
    lemma ConstArgPanics(a: GenericArg, fuel: nat)
      ensures a.ConstArg? ==> (ArgStr(a, fuel).Panic? <==> a.c.usize.None?)
      ensures a.Lifetime? ==> ArgStr(a, fuel) == Ok(a.region)
    {
    }
  }
}
