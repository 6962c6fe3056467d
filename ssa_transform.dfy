/** The two self-contained pieces of the SSA pass: `lvalue_check`, which tells whether
    a printed MIR text assigns every local at most once, and `mir_to_dot`, which renders
    a body's control-flow graph as Graphviz text. */
module SsaTransform {
  import opened Common
  import opened Rustc

  // ---------------------------------------------------------------------------
  // The pattern `_(\d+)\s*=`
  //
  // `\s` is the Unicode white space the `regex` crate matches by default. `\d` is taken
  // as the ASCII digits only; the other Unicode decimal digits it also matches are not
  // part of this model.

  /** The pattern matches `s[i..e]` with its digit group `s[i + 1..d]`. */
  ghost predicate PatternAt(s: string, i: nat, d: nat, e: nat)
  {
    i + 1 < d < e <= |s| && s[i] == '_'
    && (forall k :: i + 1 <= k < d ==> IsDigit(s[k]))
    && (forall k :: d <= k < e - 1 ==> IsWhitespace(s[k]))
    && s[e - 1] == '='
  }

  /** The end of the run of digits that starts at `i`. */
  function DigitRunEnd(s: string, i: nat): (e: nat)
    requires i <= |s|
    ensures i <= e <= |s|
    ensures forall k :: i <= k < e ==> IsDigit(s[k])
    ensures e < |s| ==> !IsDigit(s[e])
    decreases |s| - i
  {
    if i < |s| && IsDigit(s[i]) then DigitRunEnd(s, i + 1) else i
  }

  /** The end of the run of whitespace that starts at `i`. */
  function SpaceRunEnd(s: string, i: nat): (e: nat)
    requires i <= |s|
    ensures i <= e <= |s|
    ensures forall k :: i <= k < e ==> IsWhitespace(s[k])
    ensures e < |s| ==> !IsWhitespace(s[e])
    decreases |s| - i
  {
    if i < |s| && IsWhitespace(s[i]) then SpaceRunEnd(s, i + 1) else i
  }

  /** One match: the digits captured and the index just past the `=`. */
  datatype Capture = Capture(digits: string, end: nat)

  /** The match of the pattern that starts at `i`, if there is one. Digits and blanks
      are taken greedily; giving some back never helps, because a digit or a blank is
      never `=`, so this is the only candidate. */
  function MatchAt(s: string, i: nat): (m: Option<Capture>)
    requires i <= |s|
    ensures m.Some? ==> (PatternAt(s, i, i + 1 + |m.value.digits|, m.value.end)
                         && m.value.digits == s[i + 1..i + 1 + |m.value.digits|])
  {
    if i < |s| && s[i] == '_' then
      var d := DigitRunEnd(s, i + 1);
      var e := SpaceRunEnd(s, d);
      if d > i + 1 && e < |s| && s[e] == '=' then Some(Capture(s[i + 1..d], e + 1)) else None
    else None
  }

  /** MatchAt finds a match exactly when the pattern matches at `i`, and then the
      only one there is. */
  lemma MatchAtExact(s: string, i: nat, d: nat, e: nat)
    requires i <= |s|
    requires PatternAt(s, i, d, e)
    ensures MatchAt(s, i) == Some(Capture(s[i + 1..d], e))
  {
    assert !IsDigit(s[d]) by {
      if d < e - 1 {
        assert IsWhitespace(s[d]);
      }
    }
    assert DigitRunEnd(s, i + 1) == d by {
      DigitRunEndAt(s, i + 1, d);
    }
    assert SpaceRunEnd(s, d) == e - 1 by {
      SpaceRunEndAt(s, d, e - 1);
    }
  }

  lemma {:induction false} DigitRunEndAt(s: string, i: nat, d: nat)
    requires i <= d < |s|
    requires forall k :: i <= k < d ==> IsDigit(s[k])
    requires !IsDigit(s[d])
    ensures DigitRunEnd(s, i) == d
    decreases d - i
  {
    if i < d {
      DigitRunEndAt(s, i + 1, d);
    }
  }

  lemma {:induction false} SpaceRunEndAt(s: string, i: nat, d: nat)
    requires i <= d < |s|
    requires forall k :: i <= k < d ==> IsWhitespace(s[k])
    requires !IsWhitespace(s[d])
    ensures SpaceRunEnd(s, i) == d
    decreases d - i
  {
    if i < d {
      SpaceRunEndAt(s, i + 1, d);
    }
  }

  /** The digit groups of the successive non-overlapping matches from `i` on, leftmost
      first: the search resumes just past each match. */
  function Captures(s: string, i: nat): (r: seq<string>)
    requires i <= |s|
    ensures forall k :: 0 <= k < |r| ==> |r[k]| > 0 && AllDigits(r[k])
    decreases |s| - i
  {
    if i == |s| then []
    else match MatchAt(s, i)
      case Some(c) => [c.digits] + Captures(s, c.end)
      case None => Captures(s, i + 1)
  }

  // ---------------------------------------------------------------------------
  // Parsing the captured numbers

  const U32_LIMIT: nat := 0x1_0000_0000
  const PARSE_OVERFLOW := "called `Result::unwrap()` on an `Err` value: ParseIntError { kind: PosOverflow }"

  /** `digits.parse::<u32>().unwrap()`: leading zeros are allowed, a value that does not
      fit in 32 bits panics. */
  function ParseU32(digits: string): (r: Result<nat>)
    requires AllDigits(digits)
    ensures r.Ok? <==> DigitsValue(digits) < U32_LIMIT
    ensures r.Ok? ==> r.value == DigitsValue(digits)
    ensures r.Panic? ==> r.reason == PARSE_OVERFLOW
  {
    var v := DigitsValue(digits);
    if v < U32_LIMIT then Ok(v) else Panic(PARSE_OVERFLOW)
  }

  /** Parsing every digit group in order: a panic as soon as one overflows, otherwise
      their values. */
  function ParseAll(ds: seq<string>): (r: Result<seq<nat>>)
    requires forall k :: 0 <= k < |ds| ==> AllDigits(ds[k])
    ensures r.Ok? <==> forall k :: 0 <= k < |ds| ==> DigitsValue(ds[k]) < U32_LIMIT
    ensures r.Ok? ==> |r.value| == |ds| && forall k :: 0 <= k < |ds| ==> r.value[k] == DigitsValue(ds[k])
    ensures r.Panic? ==> r.reason == PARSE_OVERFLOW
  {
    if forall k :: 0 <= k < |ds| ==> ParseU32(ds[k]).Ok? then
      Ok(seq(|ds|, k requires 0 <= k < |ds| => ParseU32(ds[k]).value))
    else Panic(PARSE_OVERFLOW)
  }

  /** What `lvalue_check` answers for `s`: a panic when a number overflows `u32`,
      otherwise whether no number is assigned twice. */
  ghost function LvalueVerdict(s: string): Result<bool>
  {
    var vals :- ParseAll(Captures(s, 0));
    Ok(NoDup(vals))
  }

  /** The verdict is true exactly when no two matches carry digit strings of the same
      value, so `_01` and `_1` count as one local; a text without matches passes; and
      the check panics exactly when some number does not fit in `u32`. */
  lemma LvalueVerdictMeaning(s: string)
    ensures var caps := Captures(s, 0);
      LvalueVerdict(s).Panic? <==> exists k :: 0 <= k < |caps| && DigitsValue(caps[k]) >= U32_LIMIT
    ensures var caps := Captures(s, 0);
      LvalueVerdict(s).Ok? ==>
        (LvalueVerdict(s).value <==> forall i, j :: 0 <= i < j < |caps| ==> DigitsValue(caps[i]) != DigitsValue(caps[j]))
    ensures Captures(s, 0) == [] ==> LvalueVerdict(s) == Ok(true)
  {
    var caps := Captures(s, 0);
    if ParseAll(caps).Ok? {
      var vals := ParseAll(caps).value;
      assert forall i :: 0 <= i < |caps| ==> vals[i] == DigitsValue(caps[i]);
    }
  }

  /** `lvalue_check`: scan the matches left to right, counting how often each number is
      assigned and noting when a count passes one. */
  method LvalueCheck(s: string) returns (r: Result<bool>)
    ensures r == LvalueVerdict(s)
  {
    var counts: map<nat, nat> := map[];
    var hasDuplicate := false;
    var i := 0;
    ghost var done: seq<string> := [];
    ghost var vals: seq<nat> := [];
    while i < |s|
      invariant i <= |s|
      invariant Captures(s, 0) == done + Captures(s, i)
      invariant forall k :: 0 <= k < |done| ==> AllDigits(done[k])
      invariant ParseAll(done) == Ok(vals)
      invariant Counted(counts, hasDuplicate, vals)
      decreases |s| - i
    {
      var m := MatchAt(s, i);
      if m.None? {
        assert Captures(s, i) == Captures(s, i + 1);
        i := i + 1;
      } else {
        var cap := m.value;
        ghost var later := Captures(s, cap.end);
        assert Captures(s, i) == [cap.digits] + later;
        var parsed := ParseU32(cap.digits);
        if parsed.Panic? {
          OverflowPanics(s, done, cap.digits, later);
          return Panic(parsed.reason);
        }
        var v := parsed.value;
        counts, hasDuplicate := CountOne(counts, hasDuplicate, vals, v);
        ParseStep(done, cap.digits, vals, v);
        AppendAssoc(done, [cap.digits], later);
        done := done + [cap.digits];
        vals := vals + [v];
        i := cap.end;
      }
    }
    assert done == Captures(s, 0);
    VerdictOf(s, vals);
    r := Ok(!hasDuplicate);
  }

  lemma VerdictOf(s: string, vals: seq<nat>)
    requires ParseAll(Captures(s, 0)) == Ok(vals)
    ensures LvalueVerdict(s) == Ok(NoDup(vals))
  {
  }

  /** A match whose number overflows `u32` makes the whole check panic. */
  lemma OverflowPanics(s: string, done: seq<string>, d: string, later: seq<string>)
    requires Captures(s, 0) == done + ([d] + later)
    requires AllDigits(d) && DigitsValue(d) >= U32_LIMIT
    ensures LvalueVerdict(s) == Panic(PARSE_OVERFLOW)
  {
    var caps := Captures(s, 0);
    assert caps[|done|] == d;
    VerdictPanics(s);
  }

  lemma VerdictPanics(s: string)
    requires ParseAll(Captures(s, 0)).Panic?
    ensures LvalueVerdict(s) == Panic(PARSE_OVERFLOW)
  {
  }

  /** The state of the count table after the values `vals`: the table counts each
      value seen, and the flag says whether one was seen twice. */
  ghost predicate Counted(counts: map<nat, nat>, hasDuplicate: bool, vals: seq<nat>)
  {
    (forall v :: v in counts <==> v in vals)
    && (forall v :: v in counts ==> counts[v] == multiset(vals)[v])
    && (hasDuplicate <==> !NoDup(vals))
  }

  /** `*counts.entry(v).or_insert(0) += 1`, noting a count above one. */
  method CountOne(counts: map<nat, nat>, hasDuplicate: bool, ghost vals: seq<nat>, v: nat)
    returns (counts': map<nat, nat>, hasDuplicate': bool)
    requires Counted(counts, hasDuplicate, vals)
    ensures Counted(counts', hasDuplicate', vals + [v])
  {
    var counter := if v in counts then counts[v] + 1 else 1;
    CountStep(counts, hasDuplicate, vals, v);
    counts' := counts[v := counter];
    hasDuplicate' := hasDuplicate;
    if counter > 1 {
      hasDuplicate' := true;
    }
  }

  /** Parsing one more digit group that fits. */
  lemma ParseStep(done: seq<string>, d: string, vals: seq<nat>, v: nat)
    requires forall k :: 0 <= k < |done| ==> AllDigits(done[k])
    requires AllDigits(d) && ParseU32(d) == Ok(v)
    requires ParseAll(done) == Ok(vals)
    ensures forall k :: 0 <= k < |done + [d]| ==> AllDigits((done + [d])[k])
    ensures ParseAll(done + [d]) == Ok(vals + [v])
  {
    var one := ParseAll([d]);
    assert [d][0] == d;
    assert one.Ok? && one.value[0] == v;
    assert one.value == [v];
    ParseAllAppend(done, [d]);
  }

  /** Counting one more value. */
  lemma CountStep(counts: map<nat, nat>, hasDuplicate: bool, vals: seq<nat>, v: nat)
    requires Counted(counts, hasDuplicate, vals)
    ensures var counter := if v in counts then counts[v] + 1 else 1;
      Counted(counts[v := counter], hasDuplicate || counter > 1, vals + [v])
  {
    NoDupSnoc(vals, v);
    assert multiset(vals + [v]) == multiset(vals) + multiset{v};
  }

  /** Parsing a concatenation parses each part in turn. */
  lemma ParseAllAppend(a: seq<string>, b: seq<string>)
    requires forall k :: 0 <= k < |a| ==> AllDigits(a[k])
    requires forall k :: 0 <= k < |b| ==> AllDigits(b[k])
    ensures forall k :: 0 <= k < |a + b| ==> AllDigits((a + b)[k])
    ensures ParseAll(a).Ok? && ParseAll(b).Ok? ==> ParseAll(a + b) == Ok(ParseAll(a).value + ParseAll(b).value)
    ensures ParseAll(a).Panic? || ParseAll(b).Panic? ==> ParseAll(a + b) == Panic(PARSE_OVERFLOW)
  {
    assert forall k :: 0 <= k < |a + b| ==> (a + b)[k] == if k < |a| then a[k] else b[k - |a|];
    if ParseAll(a).Ok? && ParseAll(b).Ok? {
      var x, y, z := ParseAll(a).value, ParseAll(b).value, ParseAll(a + b).value;
      assert |z| == |x + y|;
      forall k | 0 <= k < |z|
        ensures z[k] == (x + y)[k]
      {
        if k < |a| {
          assert (a + b)[k] == a[k];
        } else {
          assert (a + b)[k] == b[k - |a|];
        }
      }
      assert z == x + y;
    } else if ParseAll(a).Panic? {
      var k :| 0 <= k < |a| && DigitsValue(a[k]) >= U32_LIMIT;
      assert (a + b)[k] == a[k];
    } else {
      var k :| 0 <= k < |b| && DigitsValue(b[k]) >= U32_LIMIT;
      assert (a + b)[|a| + k] == b[k];
    }
  }

  /** Appending a value keeps the list duplicate-free exactly when it is new. */
  lemma NoDupSnoc(vals: seq<nat>, v: nat)
    ensures NoDup(vals + [v]) <==> NoDup(vals) && v !in vals
  {
    var w := vals + [v];
    if v in vals {
      var k :| 0 <= k < |vals| && vals[k] == v;
      assert w[k] == w[|vals|];
    }
    if NoDup(w) {
      assert forall i, j :: 0 <= i < j < |vals| ==> vals[i] == w[i] && vals[j] == w[j];
    }
  }

  /** An example: `_01` and `_1` name the same local, so assigning both is a second assignment. */
  lemma LeadingZerosCollide()
    ensures LvalueVerdict("_01=_1=") == Ok(false)
  {
    ExampleCaptures();
    ExampleParse();
    VerdictOf("_01=_1=", [1, 1]);
    assert [1, 1][0] == [1, 1][1];
  }

  /** Both digit groups parse to 1. */
  lemma ExampleParse()
    ensures ParseAll(["01", "1"]) == Ok([1, 1])
  {
    ExampleValues();
    var p := ParseAll(["01", "1"]);
    assert p.Ok? && |p.value| == 2 && p.value[0] == 1 && p.value[1] == 1;
    assert p.value == [1, 1];
  }

  /** The two matches of `_01=_1=`. */
  lemma ExampleCaptures()
    ensures Captures("_01=_1=", 0) == ["01", "1"]
  {
    var s := "_01=_1=";
    assert s[1] == '0' && s[2] == '1' && s[3] == '=' && s[5] == '1' && s[6] == '=';
    assert PatternAt(s, 0, 3, 4);
    MatchAtExact(s, 0, 3, 4);
    assert s[1..3] == "01";
    assert PatternAt(s, 4, 6, 7);
    MatchAtExact(s, 4, 6, 7);
    assert s[5..6] == "1";
    assert Captures(s, 7) == [];
    assert Captures(s, 4) == ["1"] + Captures(s, 7);
  }

  /** Both digit groups are the number 1. */
  lemma ExampleValues()
    ensures AllDigits("01") && AllDigits("1")
    ensures DigitsValue("01") == 1 && DigitsValue("1") == 1
  {
    assert "01"[..1] == "0" && "0"[..0] == "" && "1"[..0] == "";
  }

  // ---------------------------------------------------------------------------
  // MIR as Graphviz text

  const DOT_TITLE := "digraph MIR {"
  const DOT_NODE_STYLE := "  node [shape=box];"
  const DOT_HEADER := DOT_TITLE + "\n" + DOT_NODE_STYLE + "\n"
  const DOT_FOOTER := "}\n"

  predicate IsStorage(st: Statement)
  {
    st.kind.StorageLive? || st.kind.StorageDead?
  }

  /** The `{:?}` texts of the statements that are not storage markers, newlines
      turned into spaces. */
  function StatementTexts(stmts: seq<Statement>): (r: seq<string>)
    ensures |r| <= |stmts|
    ensures forall k :: 0 <= k < |r| ==> '\n' !in r[k]
  {
    if stmts == [] then []
    else
      var rest := StatementTexts(stmts[1..]);
      if IsStorage(stmts[0]) then rest
      else
        var text := ReplaceChar(stmts[0].debug, '\n', ' ');
        assert forall k :: 0 <= k < |text| ==> text[k] != '\n';
        [text] + rest
  }

  /** The statement part of a block's label: the texts joined by DOT's `\l`. */
  function StatementsStr(stmts: seq<Statement>): string
  {
    Join(StatementTexts(stmts), "\\l")
  }

  /** The terminator part of a block's label. */
  function TerminatorStr(t: Option<Terminator>): string
  {
    match t
    case None => "NoTerminator"
    case Some(term) => if term.kind.Assert? then "" else ReplaceAll(term.debug, "->", "-->")
  }

  /** The label of a block after its name: statements, then terminator, each ended by `\l`. */
  function Label(b: BasicBlockData): string
  {
    StatementsStr(b.statements) + "\\l" + TerminatorStr(b.terminator) + "\\l"
  }

  /** The node line of block `i`. */
  function NodeLine(i: nat, b: BasicBlockData): string
  {
    "  " + NatToString(i) + " [label=\"bb" + NatToString(i) + ":\\l" + Label(b) + "\"];\n"
  }

  /** The edge line from block `i` to block `j`. */
  function EdgeLine(i: nat, j: nat): string
  {
    "  " + NatToString(i) + " -> " + NatToString(j) + ";\n"
  }

  /** The successors whose edges are drawn: none without a terminator. */
  function Successors(b: BasicBlockData): seq<nat>
  {
    if b.terminator.Some? then b.terminator.value.successors else []
  }

  /** The edge lines from block `i`, in successor order. */
  function EdgeLines(i: nat, succs: seq<nat>): string
  {
    if succs == [] then "" else EdgeLines(i, succs[..|succs| - 1]) + EdgeLine(i, succs[|succs| - 1])
  }

  /** The node and edge lines of `bs`, block `k` being `bs[k]`. */
  function BlocksDot(bs: seq<BasicBlockData>): string
  {
    if bs == [] then ""
    else
      var k := |bs| - 1;
      BlocksDot(bs[..k]) + NodeLine(k, bs[k]) + EdgeLines(k, Successors(bs[k]))
  }

  /** The DOT text `mir_to_dot` produces for `body`. */
  function MirDot(body: Body): (r: string)
    ensures |r| >= |DOT_HEADER| + |DOT_FOOTER|
    ensures r[..|DOT_HEADER|] == DOT_HEADER
    ensures r[|r| - |DOT_FOOTER|..] == DOT_FOOTER
  {
    DOT_HEADER + BlocksDot(body.blocks) + DOT_FOOTER
  }

  /** `mir_to_dot`: a header, then block by block its node line and its edge lines,
      then the closing brace, appended to one buffer. */
  method MirToDot(body: Body) returns (dot: string)
    ensures dot == MirDot(body)
  {
    dot := "";
    dot := dot + DOT_TITLE + "\n";
    dot := dot + DOT_NODE_STYLE + "\n";
    for bb := 0 to |body.blocks|
      invariant dot == DOT_HEADER + BlocksDot(body.blocks[..bb])
    {
      ghost var done := BlocksDot(body.blocks[..bb]);
      ghost var node, edges := NodeLine(bb, body.blocks[bb]), EdgeLines(bb, Successors(body.blocks[bb]));
      dot := PushBlock(dot, bb, body.blocks[bb]);
      BlocksDotSnoc(body.blocks, bb);
      ConcatAssoc(DOT_HEADER, done, node, edges);
    }
    assert body.blocks[..|body.blocks|] == body.blocks;
    dot := dot + "}\n";
  }

  /** One turn of the block loop of `mir_to_dot`: the node line of block `bb`, then its
      edge lines. */
  method PushBlock(dot: string, bb: nat, data: BasicBlockData) returns (r: string)
    ensures r == dot + NodeLine(bb, data) + EdgeLines(bb, Successors(data))
  {
    var statementsStr := StatementsStr(data.statements);
    var terminatorStr := TerminatorStr(data.terminator);
    var labelText := statementsStr + "\\l" + terminatorStr + "\\l";
    var line := "  " + NatToString(bb) + " [label=\"bb" + NatToString(bb) + ":\\l" + labelText + "\"];\n";
    assert line == NodeLine(bb, data);
    r := dot + line;
    if data.terminator.Some? {
      r := PushEdges(r, bb, data.terminator.value.successors);
    } else {
      assert EdgeLines(bb, Successors(data)) == [];
    }
  }

  /** The text of the first `k + 1` blocks extends that of the first `k` by block `k`. */
  lemma BlocksDotSnoc(bs: seq<BasicBlockData>, k: nat)
    requires k < |bs|
    ensures BlocksDot(bs[..k + 1]) == BlocksDot(bs[..k]) + NodeLine(k, bs[k]) + EdgeLines(k, Successors(bs[k]))
  {
    assert bs[..k + 1][..k] == bs[..k];
  }

  lemma ConcatAssoc<T>(h: seq<T>, b: seq<T>, l: seq<T>, e: seq<T>)
    ensures h + b + l + e == h + (b + l + e)
  {
  }

  /** Append the edge line of every successor of block `bb`, in order. */
  method PushEdges(dot: string, bb: nat, succs: seq<nat>) returns (r: string)
    ensures r == dot + EdgeLines(bb, succs)
  {
    r := dot;
    for k := 0 to |succs|
      invariant r == dot + EdgeLines(bb, succs[..k])
    {
      ghost var prev := EdgeLines(bb, succs[..k]);
      var line := EdgeLine(bb, succs[k]);
      assert succs[..k + 1][..k] == succs[..k];
      assert EdgeLines(bb, succs[..k + 1]) == prev + line;
      r := r + line;
      AppendAssoc(dot, prev, line);
    }
    assert succs[..|succs|] == succs;
  }

  // ---------------------------------------------------------------------------
  // Properties of the rendering

  lemma {:induction false} StatementTextsAppend(a: seq<Statement>, b: seq<Statement>)
    ensures StatementTexts(a + b) == StatementTexts(a) + StatementTexts(b)
  {
    if a == [] {
      assert a + b == b;
    } else {
      assert (a + b)[1..] == a[1..] + b;
      StatementTextsAppend(a[1..], b);
    }
  }

  /** A storage marker contributes nothing to a label, wherever it stands. */
  lemma StorageInvisible(a: seq<Statement>, st: Statement, b: seq<Statement>)
    requires IsStorage(st)
    ensures StatementsStr(a + [st] + b) == StatementsStr(a + b)
  {
    StatementTextsAppend(a + [st], b);
    StatementTextsAppend(a, [st]);
    StatementTextsAppend(a, b);
    assert [st][1..] == [];
    assert StatementTexts([st]) == [];
    assert StatementTexts(a) + [] == StatementTexts(a);
    assert a + [st] + b == (a + [st]) + b;
  }

  /** A statement text, newlines included, appears as a label part of its own. */
  lemma StatementShown(st: Statement)
    requires !IsStorage(st)
    ensures StatementsStr([st]) == ReplaceChar(st.debug, '\n', ' ')
  {
  }

  /** No statement text breaks a label across lines. */
  lemma StatementsOneLine(stmts: seq<Statement>)
    ensures '\n' !in StatementsStr(stmts)
  {
    var texts := StatementTexts(stmts);
    assert forall p :: p in texts ==> '\n' !in p;
    JoinAvoids(texts, "\\l", '\n');
  }

  /** The terminator text: empty for `Assert`, `NoTerminator` when there is none, and
      otherwise the debug text, which is kept as it is when it has no `->`. */
  lemma TerminatorText(t: Option<Terminator>)
    ensures t.None? ==> TerminatorStr(t) == "NoTerminator"
    ensures t.Some? && t.value.kind.Assert? ==> TerminatorStr(t) == ""
    ensures t.Some? && !t.value.kind.Assert? && !Contains(t.value.debug, "->") ==> TerminatorStr(t) == t.value.debug
  {
    if t.Some? && !t.value.kind.Assert? && !Contains(t.value.debug, "->") {
      ReplaceAllAbsent(t.value.debug, "->", "-->");
    }
  }

  /** Two digit strings followed by a non-digit compare as wholes. */
  lemma DigitPrefix(a: string, x: string, b: string, y: string)
    requires AllDigits(a) && AllDigits(b)
    requires |x| > 0 && |y| > 0 && !IsDigit(x[0]) && !IsDigit(y[0])
    requires a + x == b + y
    ensures a == b && x == y
  {
    var m := if |a| < |b| then |a| else |b|;
    assert (a + x)[m] == (b + y)[m];
    assert IsDigit((a + x)[m]) <==> m < |a|;
    assert IsDigit((b + y)[m]) <==> m < |b|;
    assert |a| == |b|;
    {
      assert a == (a + x)[..|a|];
      assert b == (b + y)[..|b|];
      assert x == (a + x)[|a|..];
      assert y == (b + y)[|b|..];
    }
  }

  /** An edge line names its two blocks: equal lines are the same edge. */
  lemma EdgeLineInjective(i: nat, j: nat, i': nat, j': nat)
    requires EdgeLine(i, j) == EdgeLine(i', j')
    ensures i == i' && j == j'
  {
    var a, b := NatToString(i), NatToString(i');
    var c, d := NatToString(j), NatToString(j');
    EdgeTextInjective(a, c, b, d);
    NatToStringInjective(i, i');
    NatToStringInjective(j, j');
  }

  /** The text of an edge line determines its two digit strings. */
  lemma EdgeTextInjective(a: string, c: string, b: string, d: string)
    requires AllDigits(a) && AllDigits(b) && AllDigits(c) && AllDigits(d)
    requires "  " + a + " -> " + c + ";\n" == "  " + b + " -> " + d + ";\n"
    ensures a == b && c == d
  {
    var x, y := a + (" -> " + c + ";\n"), b + (" -> " + d + ";\n");
    assert "  " + a + " -> " + c + ";\n" == "  " + x;
    assert "  " + b + " -> " + d + ";\n" == "  " + y;
    assert x == ("  " + x)[2..];
    assert y == ("  " + y)[2..];
    DigitPrefix(a, " -> " + c + ";\n", b, " -> " + d + ";\n");
    assert (" -> " + c + ";\n")[4..] == c + ";\n";
    assert (" -> " + d + ";\n")[4..] == d + ";\n";
    DigitPrefix(c, ";\n", d, ";\n");
  }

  /** The number of newlines in `s`. */
  function Lines(s: string): nat
  {
    if s == [] then 0 else Lines(s[..|s| - 1]) + (if s[|s| - 1] == '\n' then 1 else 0)
  }

  lemma {:induction false} LinesAppend(a: string, b: string)
    ensures Lines(a + b) == Lines(a) + Lines(b)
    decreases |b|
  {
    if b == [] {
      assert a + b == a;
    } else {
      assert (a + b)[..|a + b| - 1] == a + b[..|b| - 1];
      LinesAppend(a, b[..|b| - 1]);
    }
  }

  lemma {:induction false} LinesNone(s: string)
    requires '\n' !in s
    ensures Lines(s) == 0
    decreases |s|
  {
    if s != [] {
      assert s[..|s| - 1] + [s[|s| - 1]] == s;
      LinesNone(s[..|s| - 1]);
    }
  }

  /** A text without newlines followed by one newline is one line. */
  lemma OneLine(s: string)
    requires '\n' !in s
    ensures Lines(s + "\n") == 1
  {
    LinesAppend(s, "\n");
    LinesNone(s);
  }

  /** Every edge line is one line. */
  lemma EdgeLineIsOneLine(i: nat, j: nat)
    ensures Lines(EdgeLine(i, j)) == 1
  {
    var a, c := NatToString(i), NatToString(j);
    var text := "  " + a + " -> " + c + ";";
    assert '\n' !in a && '\n' !in c;
    assert '\n' !in text;
    assert EdgeLine(i, j) == text + "\n";
    OneLine(text);
  }

  /** One edge line per successor. */
  lemma {:induction false} EdgeLinesCount(i: nat, succs: seq<nat>)
    ensures Lines(EdgeLines(i, succs)) == |succs|
  {
    if succs != [] {
      EdgeLinesCount(i, succs[..|succs| - 1]);
      LinesAppend(EdgeLines(i, succs[..|succs| - 1]), EdgeLine(i, succs[|succs| - 1]));
      EdgeLineIsOneLine(i, succs[|succs| - 1]);
    }
  }

  /** A label has no newline when the terminator's text has none. */
  lemma LabelOneLine(b: BasicBlockData)
    requires b.terminator.Some? ==> '\n' !in b.terminator.value.debug
    ensures '\n' !in Label(b)
  {
    StatementsOneLine(b.statements);
    assert '\n' !in TerminatorStr(b.terminator) by {
      if b.terminator.Some? && !b.terminator.value.kind.Assert? {
        ReplaceAllKeepsOut(b.terminator.value.debug, "->", "-->", '\n');
      }
    }
  }

  /** A node line is one line when the terminator's text has no newline. */
  lemma NodeLineIsOneLine(i: nat, b: BasicBlockData)
    requires b.terminator.Some? ==> '\n' !in b.terminator.value.debug
    ensures Lines(NodeLine(i, b)) == 1
  {
    var n := NatToString(i);
    LabelOneLine(b);
    assert '\n' !in n;
    var text := "  " + n + " [label=\"bb" + n + ":\\l" + Label(b) + "\"];";
    assert '\n' !in text;
    assert NodeLine(i, b) == text + "\n";
    OneLine(text);
  }

  /** ReplaceAll brings in no character that neither the text nor the replacement has. */
  lemma {:induction false} ReplaceAllKeepsOut(s: string, from: string, to: string, c: char)
    requires |from| > 0 && c !in s && c !in to
    ensures c !in ReplaceAll(s, from, to)
    decreases |s|
  {
    if |s| >= |from| {
      if s[..|from|] == from {
        assert forall k :: 0 <= k < |s[|from|..]| ==> s[|from|..][k] == s[k + |from|];
        ReplaceAllKeepsOut(s[|from|..], from, to, c);
      } else {
        assert forall k :: 0 <= k < |s[1..]| ==> s[1..][k] == s[k + 1];
        ReplaceAllKeepsOut(s[1..], from, to, c);
      }
    }
  }

  /** The number of lines of the node and edge lines of `bs`. */
  function EdgeCount(bs: seq<BasicBlockData>): nat
  {
    if bs == [] then 0 else EdgeCount(bs[..|bs| - 1]) + |Successors(bs[|bs| - 1])|
  }

  lemma {:induction false} BlocksDotLines(bs: seq<BasicBlockData>)
    requires forall k :: 0 <= k < |bs| && bs[k].terminator.Some? ==> '\n' !in bs[k].terminator.value.debug
    ensures Lines(BlocksDot(bs)) == |bs| + EdgeCount(bs)
  {
    if bs != [] {
      var k := |bs| - 1;
      BlocksDotLines(bs[..k]);
      LinesAppend(BlocksDot(bs[..k]) + NodeLine(k, bs[k]), EdgeLines(k, Successors(bs[k])));
      LinesAppend(BlocksDot(bs[..k]), NodeLine(k, bs[k]));
      NodeLineIsOneLine(k, bs[k]);
      EdgeLinesCount(k, Successors(bs[k]));
    }
  }

  /** The whole text: three lines of frame, one line per block and one per edge,
      provided the terminators' own texts are single lines (statement texts are made so). */
  lemma MirDotLines(body: Body)
    requires forall k :: 0 <= k < |body.blocks| && body.blocks[k].terminator.Some? ==>
      '\n' !in body.blocks[k].terminator.value.debug
    ensures Lines(MirDot(body)) == 3 + |body.blocks| + EdgeCount(body.blocks)
  {
    var blocks := BlocksDot(body.blocks);
    BlocksDotLines(body.blocks);
    FrameLines();
    LinesAppend(DOT_HEADER + blocks, DOT_FOOTER);
    LinesAppend(DOT_HEADER, blocks);
    assert MirDot(body) == DOT_HEADER + blocks + DOT_FOOTER;
  }

  /** The header is two lines and the footer one. */
  lemma FrameLines()
    ensures Lines(DOT_HEADER) == 2 && Lines(DOT_FOOTER) == 1
  {
    LinesAppend(DOT_TITLE + "\n", DOT_NODE_STYLE + "\n");
    OneLine(DOT_TITLE);
    OneLine(DOT_NODE_STYLE);
    assert DOT_HEADER == (DOT_TITLE + "\n") + (DOT_NODE_STYLE + "\n");
    OneLine("}");
  }
}
