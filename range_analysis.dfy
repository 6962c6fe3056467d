/** How range-analysis results are printed: the kind of a range, an integer interval
    with the names `Min`/`Max` for the type's extremes, and the result tables with
    their places sorted by local. */
module RangeAnalysis {
  import opened Common
  import opened Rustc

  datatype RangeType = Unknown | Regular | Empty

  /** `Display` for `RangeType`. */
  function RangeTypeStr(t: RangeType): (r: string)
    ensures r == "Unknown" || r == "Regular" || r == "Empty"
    ensures ' ' !in r && |r| > 0
  {
    match t
    case Unknown => "Unknown"
    case Regular => "Regular"
    case Empty => "Empty"
  }

  /** The three kinds print differently. */
  lemma RangeTypeStrInjective(a: RangeType, b: RangeType)
    requires RangeTypeStr(a) == RangeTypeStr(b)
    ensures a == b
  {
  }

  // ---------------------------------------------------------------------------
  // Integer types and their extremes

  /** The widths Rust's integer types come in (`isize`/`usize` as 64 bits). */
  type Width = w: nat | w == 8 || w == 16 || w == 32 || w == 64 || w == 128 witness 8

  /** An integer type `T`: `iN` when signed, `uN` otherwise. */
  datatype IntTy = IntTy(signed: bool, bits: Width)

  function Pow2(n: nat): (r: nat)
    ensures r >= 1
  {
    if n == 0 then 1 else 2 * Pow2(n - 1)
  }

  /** `T::min_value()`. */
  function MinValue(t: IntTy): (r: int)
    ensures t.signed ==> r < 0
    ensures !t.signed ==> r == 0
  {
    if t.signed then -(Pow2(t.bits - 1) as int) else 0
  }

  /** `T::max_value()`. */
  function MaxValue(t: IntTy): (r: int)
    ensures r > 0 && r > MinValue(t)
  {
    if t.signed then Pow2(t.bits - 1) - 1 else Pow2(t.bits) - 1
  }

  /** A range over `T`: its kind and its closed interval `[left, right]`. */
  datatype Range = Range(rtype: RangeType, left: int, right: int)

  // ---------------------------------------------------------------------------
  // Display for Range

  /** The name printed for an extreme of `T`, if `x` is one. */
  function BoundName(t: IntTy, x: int): (r: Option<string>)
    ensures r == Some("Min") <==> x == MinValue(t)
    ensures r == Some("Max") <==> x == MaxValue(t)
    ensures r.None? <==> x != MinValue(t) && x != MaxValue(t)
  {
    if x == MinValue(t) then Some("Min")
    else if x == MaxValue(t) then Some("Max")
    else None
  }

  function Bracketed(rt: RangeType, lower: string, upper: string): string
  {
    RangeTypeStr(rt) + " " + "[" + lower + "," + " " + upper + "]"
  }

  /** Both bounds as numbers. */
  function Numeric(r: Range): string
  {
    Bracketed(r.rtype, IntToString(r.left), IntToString(r.right))
  }

  /** `Display` for `Range<T>`: a left bound that is not an extreme prints both bounds
      as numbers at once; so does a right bound that is not one; only when both are
      extremes are the names used. The text is the range type and a bracketed pair,
      and it names an extreme (holds an `M`) exactly when both bounds are extremes. */
  function RangeStr(t: IntTy, r: Range): (s: string)
    ensures StartsWith(s, RangeTypeStr(r.rtype) + " [") && s[|s| - 1] == ']'
    ensures 'M' in s <==> BoundName(t, r.left).Some? && BoundName(t, r.right).Some?
  {
    IntTextNotName(r.left);
    IntTextNotName(r.right);
    match BoundName(t, r.left)
    case None => BracketedShape(r.rtype, IntToString(r.left), IntToString(r.right)); Numeric(r)
    case Some(lower) =>
      match BoundName(t, r.right)
      case None => BracketedShape(r.rtype, IntToString(r.left), IntToString(r.right)); Numeric(r)
      case Some(upper) =>
        assert 'M' in lower && 'M' in upper by { assert lower[0] == 'M' && upper[0] == 'M'; }
        BracketedShape(r.rtype, lower, upper);
        Bracketed(r.rtype, lower, upper)
  }

  /** The frame around the two bound texts: the range type, ` [`, `, ` and `]`,
      none of which holds an `M`. */
  lemma BracketedShape(rt: RangeType, lower: string, upper: string)
    ensures var s := Bracketed(rt, lower, upper);
      StartsWith(s, RangeTypeStr(rt) + " [") && s[|s| - 1] == ']'
      && ('M' in s <==> 'M' in lower || 'M' in upper)
  {
    var head := RangeTypeStr(rt) + " [";
    var s := Bracketed(rt, lower, upper);
    assert s == head + (lower + ", " + upper + "]");
    assert 'M' !in head;
  }

  /** Examples, for every integer type and range type: the full range of `T` prints as
      `[Min, Max]`, the reversed one as `[Max, Min]`, and a range with only one bound an
      extreme prints that bound as a number. */
  lemma RangeStrExamples(t: IntTy, rt: RangeType, x: int)
    requires MinValue(t) < x < MaxValue(t)
    ensures RangeStr(t, Range(rt, MinValue(t), MaxValue(t))) == Bracketed(rt, "Min", "Max")
    ensures RangeStr(t, Range(rt, MaxValue(t), MinValue(t))) == Bracketed(rt, "Max", "Min")
    ensures RangeStr(t, Range(rt, MinValue(t), x)) == Bracketed(rt, IntToString(MinValue(t)), IntToString(x))
    ensures RangeStr(t, Range(rt, x, MaxValue(t))) == Bracketed(rt, IntToString(x), IntToString(MaxValue(t)))
  {
  }

  /** What a bound prints as: a number or one of the two names. */
  function BoundText(t: IntTy, named: bool, x: int): string
  {
    if named && BoundName(t, x).Some? then BoundName(t, x).value else IntToString(x)
  }

  /** A number's text starts with a digit or `-`, never with a letter. */
  lemma IntTextNotName(x: int)
    ensures IntToString(x) != "Min" && IntToString(x) != "Max"
    ensures ',' !in IntToString(x) && ']' !in IntToString(x) && 'M' !in IntToString(x)
  {
    var s := IntToString(x);
    if x < 0 {
      assert s == "-" + NatToString(-x);
      assert forall k :: 1 <= k < |s| ==> IsDigit(s[k]);
    } else {
      assert forall k :: 0 <= k < |s| ==> IsDigit(s[k]);
      assert IsDigit(s[0]);
    }
  }

  /** Splitting `a + [c] + x` at the first `c`. */
  lemma SplitAtFirst(a: string, x: string, b: string, y: string, c: char)
    requires c !in a && c !in b
    requires a + [c] + x == b + [c] + y
    ensures a == b && x == y
  {
    var s, s' := a + [c] + x, b + [c] + y;
    FirstAt(a, x, c);
    FirstAt(b, y, c);
    assert |a| == |b|;
    assert a == s[..|a|] && b == s'[..|b|];
    assert x == s[|a| + 1..] && y == s'[|b| + 1..];
  }

  /** In `a + [c] + x` with `c` not in `a`, the first `c` is at `|a|`. */
  lemma FirstAt(a: string, x: string, c: char)
    requires c !in a
    ensures (a + [c] + x)[|a|] == c
    ensures forall k :: 0 <= k < |a| ==> (a + [c] + x)[k] != c
  {
    assert forall k :: 0 <= k < |a| ==> (a + [c] + x)[k] == a[k];
  }

  /** Equal texts of the same type come from equal ranges: the display loses nothing. */
  lemma RangeStrInjective(t: IntTy, r: Range, q: Range)
    requires RangeStr(t, r) == RangeStr(t, q)
    ensures r == q
  {
    PartsAvoid(t, r);
    PartsAvoid(t, q);
    BracketedSplit(RangeTypeStr(r.rtype), Parts(t, r).0, Parts(t, r).1, RangeTypeStr(q.rtype), Parts(t, q).0, Parts(t, q).1);
    RangeTypeStrInjective(r.rtype, q.rtype);
    PartsDetermine(t, r, q);
  }

  /** The pieces of `{t} [{l}, {u}]` can be read back when `t` has no blank and `l` no comma. */
  lemma BracketedSplit(tr: string, lr: string, ur: string, tq: string, lq: string, uq: string)
    requires ' ' !in tr && ' ' !in tq && ',' !in lr && ',' !in lq
    requires tr + " " + "[" + lr + "," + " " + ur + "]" == tq + " " + "[" + lq + "," + " " + uq + "]"
    ensures tr == tq && lr == lq && ur == uq
  {
    var xr, xq := "[" + lr + "," + " " + ur + "]", "[" + lq + "," + " " + uq + "]";
    Regroup(tr, lr, ur);
    Regroup(tq, lq, uq);
    SplitAtFirst(tr, xr, tq, xq, ' ');
    assert xr[1..] == lr + [','] + (" " + ur + "]");
    assert xq[1..] == lq + [','] + (" " + uq + "]");
    SplitAtFirst(lr, " " + ur + "]", lq, " " + uq + "]", ',');
    assert (" " + ur + "]")[1..] == ur + "]";
    assert (" " + uq + "]")[1..] == uq + "]";
    assert ur == (ur + "]")[..|ur|];
    assert uq == (uq + "]")[..|uq|];
  }

  lemma Regroup(tr: string, l: string, u: string)
    ensures tr + " " + "[" + l + "," + " " + u + "]" == tr + [' '] + ("[" + l + "," + " " + u + "]")
  {
  }

  /** The two bound texts of a range. */
  function Parts(t: IntTy, r: Range): (string, string)
  {
    var named := BoundName(t, r.left).Some? && BoundName(t, r.right).Some?;
    (BoundText(t, named, r.left), BoundText(t, named, r.right))
  }

  lemma PartsAvoid(t: IntTy, r: Range)
    ensures RangeStr(t, r) == Bracketed(r.rtype, Parts(t, r).0, Parts(t, r).1)
    ensures ',' !in Parts(t, r).0
  {
    IntTextNotName(r.left);
  }

  /** Equal bound texts mean equal bounds. */
  lemma PartsDetermine(t: IntTy, r: Range, q: Range)
    requires Parts(t, r) == Parts(t, q)
    ensures r.left == q.left && r.right == q.right
  {
    IntTextNotName(r.left);
    IntTextNotName(r.right);
    IntTextNotName(q.left);
    IntTextNotName(q.right);
    var nr := BoundName(t, r.left).Some? && BoundName(t, r.right).Some?;
    var nq := BoundName(t, q.left).Some? && BoundName(t, q.right).Some?;
    assert nr <==> (Parts(t, r).0 == "Min" || Parts(t, r).0 == "Max");
    assert nq <==> (Parts(t, q).0 == "Min" || Parts(t, q).0 == "Max");
    if !nr {
      IntToStringInjective(r.left, q.left);
      IntToStringInjective(r.right, q.right);
    }
  }

  // ---------------------------------------------------------------------------
  // Result tables

  /** A place: its local and its `{:?}` text. */
  datatype Place = Place(local: Local, debug: string)

  /** One entry of a result map. */
  datatype Entry = Entry(place: Place, range: Range)

  predicate SortedByLocal(es: seq<Entry>)
  {
    forall i, j :: 0 <= i < j < |es| ==> es[i].place.local <= es[j].place.local
  }

  /** Insert `e` after every entry whose local is not larger: `sort_by_key` is stable. */
  function Insert(es: seq<Entry>, e: Entry): (r: seq<Entry>)
    requires SortedByLocal(es)
    ensures SortedByLocal(r)
    ensures multiset(r) == multiset(es) + multiset{e}
    ensures |r| == |es| + 1
  {
    if es == [] || e.place.local < es[0].place.local then
      SortedCons(e, es);
      [e] + es
    else
      var rest := Insert(es[1..], e);
      assert es == [es[0]] + es[1..];
      LowerBoundKept(rest, es[1..], e, es[0].place.local);
      SortedCons(es[0], rest);
      assert multiset([es[0]] + rest) == multiset{es[0]} + multiset(es[1..]) + multiset{e};
      [es[0]] + rest
  }

  /** An entry whose local is at most every local of a sorted list can go in front. */
  lemma SortedCons(x: Entry, s: seq<Entry>)
    requires SortedByLocal(s)
    requires forall k :: 0 <= k < |s| ==> x.place.local <= s[k].place.local
    ensures SortedByLocal([x] + s)
  {
  }

  /** A bound below every entry of `src` and below `e` is below every entry of a
      rearrangement of `src` with `e` added. */
  lemma LowerBoundKept(rest: seq<Entry>, src: seq<Entry>, e: Entry, b: Local)
    requires multiset(rest) == multiset(src) + multiset{e}
    requires b <= e.place.local
    requires forall k :: 0 <= k < |src| ==> b <= src[k].place.local
    ensures forall k :: 0 <= k < |rest| ==> b <= rest[k].place.local
  {
    forall k | 0 <= k < |rest|
      ensures b <= rest[k].place.local
    {
      assert rest[k] in multiset(rest);
      if rest[k] != e {
        assert rest[k] in multiset(src);
        assert rest[k] in src;
      }
    }
  }

  /** `sorted.sort_by_key(|(place, _)| place.local)` on the collected entries. */
  function SortByLocal(es: seq<Entry>): (r: seq<Entry>)
    ensures SortedByLocal(r)
    ensures multiset(r) == multiset(es)
  {
    if es == [] then []
    else
      var init := es[..|es| - 1];
      assert es == init + [es[|es| - 1]];
      Insert(SortByLocal(init), es[|es| - 1])
  }

  /** One table line: indentation, the place, `=>`, the range. */
  function EntryLine(t: IntTy, indent: string, e: Entry): string
  {
    indent + e.place.debug + " => " + RangeStr(t, e.range) + "\n"
  }

  function EntryLines(t: IntTy, indent: string, es: seq<Entry>): (r: string)
  {
    if es == [] then "" else EntryLines(t, indent, es[..|es| - 1]) + EntryLine(t, indent, es[|es| - 1])
  }

  /** Texts written one after the other. */
  function Concat(parts: seq<string>): string
  {
    if parts == [] then "" else Concat(parts[..|parts| - 1]) + parts[|parts| - 1]
  }

  /** The text `f` gives each element, in order. */
  function Texts<X>(xs: seq<X>, f: X -> string): (r: seq<string>)
    ensures |r| == |xs| && forall i :: 0 <= i < |xs| ==> r[i] == f(xs[i])
  {
    seq(|xs|, i requires 0 <= i < |xs| => f(xs[i]))
  }

  lemma TextsSnoc<X>(xs: seq<X>, f: X -> string)
    requires xs != []
    ensures Concat(Texts(xs, f)) == Concat(Texts(xs[..|xs| - 1], f)) + f(xs[|xs| - 1])
  {
    var r := Texts(xs, f);
    assert r[..|r| - 1] == Texts(xs[..|xs| - 1], f);
  }

  /** Each element paired with its position, counting from 0 (`iter().enumerate()`). */
  function Numbered<X>(xs: seq<X>): (r: seq<(nat, X)>)
    ensures |r| == |xs| && forall i :: 0 <= i < |xs| ==> r[i] == (i, xs[i])
  {
    seq(|xs|, i requires 0 <= i < |xs| => (i, xs[i]))
  }

  /** The table lines are one `EntryLine` per entry, in the entries' order. */
  lemma {:induction false} EntryLinesEach(t: IntTy, indent: string, es: seq<Entry>)
    ensures EntryLines(t, indent, es) == Concat(Texts(es, e => EntryLine(t, indent, e)))
  {
    if es != [] {
      EntryLinesEach(t, indent, es[..|es| - 1]);
      TextsSnoc(es, e => EntryLine(t, indent, e));
    }
  }

  /** `Display` for `RAResultWrapper`: one line `place => range` per entry, unindented,
      in the map's iteration order and without sorting. */
  function ResultText(t: IntTy, es: seq<Entry>): (r: string)
    ensures r == Concat(Texts(es, e => EntryLine(t, "", e)))
  {
    EntryLinesEach(t, "", es);
    EntryLines(t, "", es)
  }

  const RESULTS_TITLE := "=== Print range analysis resuts ===\n"

  /** One function's block of `RAResultMapWrapper`: its name, then its entries by local. */
  function FnResultText(t: IntTy, fnName: string, es: seq<Entry>): string
  {
    "Function: " + fnName + " =>\n" + EntryLines(t, "  ", SortByLocal(es))
  }

  /** `Display` for `RAResultMapWrapper`: the title, then one block per function in the
      map's iteration order; `fnName` gives the `{:?}` text of each function's name. */
  function ResultMapText(t: IntTy, fnName: DefId -> string, fns: seq<(DefId, seq<Entry>)>): (r: string)
    ensures r == RESULTS_TITLE + Concat(Texts(fns, (f: (DefId, seq<Entry>)) => FnResultText(t, fnName(f.0), f.1)))
  {
    FnResultTextsEach(t, fnName, fns);
    RESULTS_TITLE + FnResultTexts(t, fnName, fns)
  }

  function FnResultTexts(t: IntTy, fnName: DefId -> string, fns: seq<(DefId, seq<Entry>)>): string
  {
    if fns == [] then ""
    else FnResultTexts(t, fnName, fns[..|fns| - 1]) + FnResultText(t, fnName(fns[|fns| - 1].0), fns[|fns| - 1].1)
  }

  lemma {:induction false} FnResultTextsEach(t: IntTy, fnName: DefId -> string, fns: seq<(DefId, seq<Entry>)>)
    ensures FnResultTexts(t, fnName, fns)
            == Concat(Texts(fns, (f: (DefId, seq<Entry>)) => FnResultText(t, fnName(f.0), f.1)))
  {
    if fns != [] {
      FnResultTextsEach(t, fnName, fns[..|fns| - 1]);
      TextsSnoc(fns, (f: (DefId, seq<Entry>)) => FnResultText(t, fnName(f.0), f.1));
    }
  }

  /** One result set of `RAVecResultMapWrapper`: its number, then its entries by local. */
  function ResultSetText(t: IntTy, i: nat, es: seq<Entry>): string
  {
    "  Result Set #" + NatToString(i) + ":\n" + EntryLines(t, "    ", SortByLocal(es))
  }

  function ResultSetTexts(t: IntTy, sets: seq<seq<Entry>>): string
  {
    if sets == [] then ""
    else ResultSetTexts(t, sets[..|sets| - 1]) + ResultSetText(t, |sets| - 1, sets[|sets| - 1])
  }

  /** The result sets are printed in order, each numbered by its position from 0. */
  lemma {:induction false} ResultSetTextsEach(t: IntTy, sets: seq<seq<Entry>>)
    ensures ResultSetTexts(t, sets) == Concat(Texts(Numbered(sets), (p: (nat, seq<Entry>)) => ResultSetText(t, p.0, p.1)))
  {
    if sets != [] {
      ResultSetTextsEach(t, sets[..|sets| - 1]);
      assert Numbered(sets)[..|sets| - 1] == Numbered(sets[..|sets| - 1]);
      TextsSnoc(Numbered(sets), (p: (nat, seq<Entry>)) => ResultSetText(t, p.0, p.1));
    }
  }

  /** One function's block of `RAVecResultMapWrapper`: its name, then its result sets. */
  function FnVecText(t: IntTy, name: string, sets: seq<seq<Entry>>): (r: string)
    ensures r == "Function: " + name + " =>\n" + Concat(Texts(Numbered(sets), (p: (nat, seq<Entry>)) => ResultSetText(t, p.0, p.1)))
  {
    ResultSetTextsEach(t, sets);
    "Function: " + name + " =>\n" + ResultSetTexts(t, sets)
  }

  function FnVecTexts(t: IntTy, fnName: DefId -> string, fns: seq<(DefId, seq<seq<Entry>>)>): string
  {
    if fns == [] then ""
    else
      var f := fns[|fns| - 1];
      FnVecTexts(t, fnName, fns[..|fns| - 1]) + FnVecText(t, fnName(f.0), f.1)
  }

  lemma {:induction false} FnVecTextsEach(t: IntTy, fnName: DefId -> string, fns: seq<(DefId, seq<seq<Entry>>)>)
    ensures FnVecTexts(t, fnName, fns)
            == Concat(Texts(fns, (f: (DefId, seq<seq<Entry>>)) => FnVecText(t, fnName(f.0), f.1)))
  {
    if fns != [] {
      FnVecTextsEach(t, fnName, fns[..|fns| - 1]);
      TextsSnoc(fns, (f: (DefId, seq<seq<Entry>>)) => FnVecText(t, fnName(f.0), f.1));
    }
  }

  /** `Display` for `RAVecResultMapWrapper`: the title, then one block per function in
      the map's iteration order (see `FnVecText`). */
  function VecResultMapText(t: IntTy, fnName: DefId -> string, fns: seq<(DefId, seq<seq<Entry>>)>): (r: string)
    ensures r == RESULTS_TITLE + Concat(Texts(fns, (f: (DefId, seq<seq<Entry>>)) => FnVecText(t, fnName(f.0), f.1)))
  {
    FnVecTextsEach(t, fnName, fns);
    RESULTS_TITLE + FnVecTexts(t, fnName, fns)
  }

  /** An entry whose local is at least every other one's goes last. */
  lemma {:induction false} InsertAtEnd(es: seq<Entry>, e: Entry)
    requires SortedByLocal(es)
    requires forall k :: 0 <= k < |es| ==> es[k].place.local <= e.place.local
    ensures Insert(es, e) == es + [e]
  {
    if es != [] {
      InsertAtEnd(es[1..], e);
      assert [es[0]] + (es[1..] + [e]) == es + [e];
    }
  }

  /** No two different entries share a local: the sort key decides the order. */
  ghost predicate LocalsDetermine(m: multiset<Entry>)
  {
    forall x, y :: x in m && y in m && x.place.local == y.place.local ==> x == y
  }

  /** Within one list, entries with the same local are the same entry. */
  ghost predicate LocalsDecide(a: seq<Entry>)
  {
    forall i, j :: 0 <= i < |a| && 0 <= j < |a| && a[i].place.local == a[j].place.local ==> a[i] == a[j]
  }

  lemma LocalsDecideOf(a: seq<Entry>)
    requires LocalsDetermine(multiset(a))
    ensures LocalsDecide(a)
  {
    forall i, j | 0 <= i < |a| && 0 <= j < |a| && a[i].place.local == a[j].place.local
      ensures a[i] == a[j]
    {
      assert a[i] in multiset(a) && a[j] in multiset(a);
    }
  }

  /** The first entries of two such lists agree. */
  lemma SortedHeads(a: seq<Entry>, b: seq<Entry>)
    requires a != [] && b != [] && SortedByLocal(a) && SortedByLocal(b)
    requires multiset(a) == multiset(b) && LocalsDecide(a)
    ensures a[0] == b[0]
  {
    assert a[0] in multiset(b) && b[0] in multiset(a);
    var j :| 0 <= j < |b| && b[j] == a[0];
    var i :| 0 <= i < |a| && a[i] == b[0];
    assert a[0].place.local <= a[i].place.local;
    assert b[0].place.local <= b[j].place.local;
  }

  /** Dropping the same first entry from two lists with the same entries leaves the
      same entries. */
  lemma TailsAgree(a: seq<Entry>, b: seq<Entry>)
    requires a != [] && b != [] && a[0] == b[0] && multiset(a) == multiset(b)
    ensures multiset(a[1..]) == multiset(b[1..])
  {
    assert a == [a[0]] + a[1..] && b == [b[0]] + b[1..];
    assert multiset(a[1..]) == multiset(a) - multiset{a[0]};
    assert multiset(b[1..]) == multiset(b) - multiset{b[0]};
  }

  /** Two lists sorted by local holding the same entries are the same list when the
      local determines the entry. */
  lemma {:induction false} SortedUnique(a: seq<Entry>, b: seq<Entry>)
    requires SortedByLocal(a) && SortedByLocal(b)
    requires multiset(a) == multiset(b) && LocalsDecide(a)
    ensures a == b
  {
    assert |a| == |multiset(a)| == |b|;
    if a != [] {
      SortedHeads(a, b);
      TailsAgree(a, b);
      var ta, tb := a[1..], b[1..];
      SortedUnique(ta, tb);
      assert a == [a[0]] + ta && b == [b[0]] + tb;
    }
  }

  /** A function's block of the printed map does not depend on the order in which the
      hash map yields its entries, as long as no two places share a local. */
  lemma FnResultTextOrderFree(t: IntTy, fnName: string, es1: seq<Entry>, es2: seq<Entry>)
    requires multiset(es1) == multiset(es2) && LocalsDetermine(multiset(es1))
    ensures FnResultText(t, fnName, es1) == FnResultText(t, fnName, es2)
  {
    LocalsDecideOf(SortByLocal(es1));
    SortedUnique(SortByLocal(es1), SortByLocal(es2));
  }

  /** The same for one result set of `RAVecResultMapWrapper`. */
  lemma ResultSetTextOrderFree(t: IntTy, i: nat, es1: seq<Entry>, es2: seq<Entry>)
    requires multiset(es1) == multiset(es2) && LocalsDetermine(multiset(es1))
    ensures ResultSetText(t, i, es1) == ResultSetText(t, i, es2)
  {
    LocalsDecideOf(SortByLocal(es1));
    SortedUnique(SortByLocal(es1), SortByLocal(es2));
  }

  /** Whether an entry's place has local `k`. */
  function AtLocal(k: Local): Entry -> bool
  {
    (e: Entry) => e.place.local == k
  }

  /** Inserting `e` puts it after every entry with the same local. */
  lemma {:induction false} InsertStable(es: seq<Entry>, e: Entry, k: Local)
    requires SortedByLocal(es)
    ensures Filter(Insert(es, e), AtLocal(k)) == Filter(es, AtLocal(k)) + (if e.place.local == k then [e] else [])
  {
    if es == [] || e.place.local < es[0].place.local {
      assert Insert(es, e) == [e] + es;
      InsertInFront(es, e, k);
    } else {
      var rest := Insert(es[1..], e);
      assert Insert(es, e) == [es[0]] + rest;
      InsertStable(es[1..], e, k);
      InsertBehind(es, rest, e, k);
    }
  }

  /** Keeping the first entry in front carries the equation for the rest over to the
      whole list. */
  lemma InsertBehind(es: seq<Entry>, rest: seq<Entry>, e: Entry, k: Local)
    requires es != []
    requires Filter(rest, AtLocal(k)) == Filter(es[1..], AtLocal(k)) + (if e.place.local == k then [e] else [])
    ensures Filter([es[0]] + rest, AtLocal(k)) == Filter(es, AtLocal(k)) + (if e.place.local == k then [e] else [])
  {
    FilterConsShift(es[0], rest, es[1..], if e.place.local == k then [e] else [], AtLocal(k));
    assert [es[0]] + es[1..] == es;
  }

  /** An entry below every local of a sorted list is the last of its local once put
      in front. */
  lemma InsertInFront(es: seq<Entry>, e: Entry, k: Local)
    requires SortedByLocal(es)
    requires es == [] || e.place.local < es[0].place.local
    ensures Filter([e] + es, AtLocal(k)) == Filter(es, AtLocal(k)) + (if e.place.local == k then [e] else [])
  {
    FilterCons(e, es, AtLocal(k));
    if e.place.local == k {
      assert forall j :: 0 <= j < |es| ==> !AtLocal(k)(es[j]) by {
        assert forall j :: 0 <= j < |es| ==> es[0].place.local <= es[j].place.local;
      }
      FilterNone(es, AtLocal(k));
    }
  }

  /** The sort is stable: the entries sharing a local, such as `_1` and `_1.0`, keep the
      order in which the map yielded them. */
  lemma {:induction false} SortByLocalStable(es: seq<Entry>, k: Local)
    ensures Filter(SortByLocal(es), AtLocal(k)) == Filter(es, AtLocal(k))
  {
    if es != [] {
      var init, last := es[..|es| - 1], es[|es| - 1];
      var sorted := SortByLocal(init);
      assert SortByLocal(es) == Insert(sorted, last);
      SortByLocalStable(init, k);
      InsertStable(sorted, last, k);
      assert es == init + [last];
      FilterAppend(init, [last], AtLocal(k));
      FilterCons(last, [], AtLocal(k));
      assert [last] + [] == [last];
    }
  }

  /** Entries already in order of local stay as they are: the sort is stable, so
      entries with the same local keep the map's order. */
  lemma {:induction false} SortByLocalKeepsSorted(es: seq<Entry>)
    requires SortedByLocal(es)
    ensures SortByLocal(es) == es
  {
    if es != [] {
      var init := es[..|es| - 1];
      SortByLocalKeepsSorted(init);
      InsertAtEnd(init, es[|es| - 1]);
      assert init + [es[|es| - 1]] == es;
    }
  }
}
