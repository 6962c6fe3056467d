/** The state of one generated test program: the statements emitted so far, the
    variables still available as providers, and the type of every variable made.
    Variables are numbered by how many have been made before them. */
module TestgenContext {
  import opened Common
  import opened Rustc

  /** A variable of the generated program: its number and whether it is a fuzzed input. */
  datatype Var = Var(index: nat, isInput: bool)

  datatype ApiCall = ApiCall(fnDid: DefId, args: seq<Var>)

  datatype StmtKind = InputK | RefK(inner: Var, mutbl: Mutability) | CallK(call: ApiCall)

  /** A statement and the variable it defines. */
  datatype Stmt = Stmt(kind: StmtKind, place: Var)

  /** What the context asks of the compiler: whether a type can be fuzzed, whether it
      implements `Copy`, and the instantiated signature of a function. Type equality
      stands in for the trait solver's unification. */
  datatype Oracle = Oracle(isFuzzable: Ty -> bool, implCopy: Ty -> bool,
                           fnInputs: DefId -> seq<Ty>, fnOutput: DefId -> Ty)

  // ---------------------------------------------------------------------------
  // Inputs built for a type

  /** How many `&` / `&mut` layers wrap the type. */
  function RefDepth(ty: Ty): nat
  {
    if ty.Ref? then 1 + RefDepth(ty.inner) else 0
  }

  /** The variable that stands for an input of type `ty` when the next free number is
      `n`: the innermost value is made first, so the outermost reference gets the
      highest number. */
  function InputVar(n: nat, ty: Ty): (v: Var)
    ensures v.index == n + RefDepth(ty)
    ensures v.isInput <==> !ty.Ref?
  {
    if ty.Ref? then Var(n + RefDepth(ty), false) else Var(n, true)
  }

  /** The statements emitted for an input of type `ty`, starting at number `n`: one
      input statement for the innermost value, then one borrow per reference layer. */
  function InputStmts(n: nat, ty: Ty): seq<Stmt>
  {
    if ty.Ref? then InputStmts(n, ty.inner) + [Stmt(RefK(InputVar(n, ty.inner), ty.mutbl), InputVar(n, ty))]
    else [Stmt(InputK, Var(n, true))]
  }

  /** A type nested `d` references deep yields `d + 1` statements: an input first, then
      borrows, each of the previous statement's variable, the last one defining the
      result; the numbers used are `n` up to `n + d`. */
  lemma {:induction false} InputStmtsShape(n: nat, ty: Ty)
    ensures |InputStmts(n, ty)| == RefDepth(ty) + 1
    ensures InputStmts(n, ty)[0] == Stmt(InputK, Var(n, true))
    ensures InputStmts(n, ty)[RefDepth(ty)].place == InputVar(n, ty)
    ensures forall i :: 0 <= i < |InputStmts(n, ty)| ==> InputStmts(n, ty)[i].place.index == n + i
    ensures forall i :: 0 < i < |InputStmts(n, ty)| ==>
      InputStmts(n, ty)[i].kind.RefK? && InputStmts(n, ty)[i].kind.inner == InputStmts(n, ty)[i - 1].place
  {
    if ty.Ref? {
      InputStmtsShape(n, ty.inner);
      var s := InputStmts(n, ty.inner);
      assert InputStmts(n, ty) == s + [Stmt(RefK(InputVar(n, ty.inner), ty.mutbl), InputVar(n, ty))];
      assert s[RefDepth(ty.inner)].place == InputVar(n, ty.inner);
    }
  }

  /** The statements the argument loop of `add_call_stmt` emits for its first `k`
      parameters when the next free number is `n`: the input statements of each dummy
      argument, parameter by parameter, each built from the number the previous ones
      left. Also the next free number afterwards, which moved by one per statement. */
  function DummyInputStmts(dummy: Var, args: seq<Var>, inputs: seq<Ty>, k: nat, n: nat): (r: (seq<Stmt>, nat))
    requires k <= |inputs|
    ensures r.1 == n + |r.0|
  {
    if k == 0 then ([], n)
    else
      var (prev, m) := DummyInputStmts(dummy, args, inputs, k - 1, n);
      if k - 1 < |args| && args[k - 1] == dummy then
        InputStmtsShape(m, inputs[k - 1]);
        (prev + InputStmts(m, inputs[k - 1]), m + RefDepth(inputs[k - 1]) + 1)
      else (prev, m)
  }

  // ---------------------------------------------------------------------------
  // Removing a provider

  /** A `&mut T`. */
  predicate IsMutRef(ty: Ty)
  {
    ty.Ref? && ty.mutbl == Mut
  }

  /** `remove_var_from_available` on a state: `false` for the dummy input; a panic when
      the variable is not available or has no type; `false` when its type is `Copy`
      and not a `&mut`; otherwise `true`, meaning it is removed. */
  function RemoveOutcome(o: Oracle, dummy: Var, available: set<Var>, varTy: map<Var, Ty>, v: Var): (r: Result<bool>)
    ensures r.Panic? <==> v != dummy && (v !in available || v !in varTy)
    ensures r == Ok(true) <==> v != dummy && v in available && v in varTy
                               && (IsMutRef(varTy[v]) || !o.implCopy(varTy[v]))
  {
    if v == dummy then Ok(false)
    else if v !in available then Panic("var not in available set")
    else if v !in varTy then Panic("no type for var")
    else if !IsMutRef(varTy[v]) && o.implCopy(varTy[v]) then Ok(false)
    else Ok(true)
  }

  /** The available set after the argument loop of `add_call_stmt` has handled the
      first `k` arguments; a panic when an argument is missing or not available. */
  function Consume(o: Oracle, dummy: Var, available: set<Var>, varTy: map<Var, Ty>, args: seq<Var>, k: nat): Result<set<Var>>
  {
    if k == 0 then Ok(available)
    else
      var av :- Consume(o, dummy, available, varTy, args, k - 1);
      if k - 1 >= |args| then Panic("index out of bounds")
      else
        var removed :- RemoveOutcome(o, dummy, av, varTy, args[k - 1]);
        Ok(if removed then av - {args[k - 1]} else av)
  }

  /** Once an argument panics, handling more arguments still panics. */
  lemma {:induction false} ConsumePanicPersists(o: Oracle, dummy: Var, available: set<Var>, varTy: map<Var, Ty>, args: seq<Var>, k: nat, k': nat)
    requires k <= k'
    requires Consume(o, dummy, available, varTy, args, k).Panic?
    ensures Consume(o, dummy, available, varTy, args, k').Panic?
    decreases k'
  {
    if k < k' {
      ConsumePanicPersists(o, dummy, available, varTy, args, k, k' - 1);
    }
  }

  /** The loop only removes providers; it never adds one. */
  lemma {:induction false} ConsumeShrinks(o: Oracle, dummy: Var, available: set<Var>, varTy: map<Var, Ty>, args: seq<Var>, k: nat)
    requires Consume(o, dummy, available, varTy, args, k).Ok?
    ensures Consume(o, dummy, available, varTy, args, k).value <= available
  {
    if k > 0 {
      ConsumeShrinks(o, dummy, available, varTy, args, k - 1);
    }
  }

  /** The loop gets through `k` arguments exactly when there are at least `k` and every
      one of them that is not the dummy was available when it was reached; in
      particular every such argument was available to begin with. */
  lemma {:induction false} ConsumeNeedsProviders(o: Oracle, dummy: Var, available: set<Var>, varTy: map<Var, Ty>, args: seq<Var>, k: nat)
    requires Consume(o, dummy, available, varTy, args, k).Ok?
    ensures k <= |args|
    ensures forall i :: 0 <= i < k ==> args[i] == dummy || (args[i] in available && args[i] in varTy)
  {
    if k > 0 {
      ConsumeNeedsProviders(o, dummy, available, varTy, args, k - 1);
      ConsumeShrinks(o, dummy, available, varTy, args, k - 1);
    }
  }

  /** With nothing available, the loop succeeds iff the first `k` arguments exist and
      are all the dummy input, and then nothing changes. */
  lemma {:induction false} ConsumeFromEmpty(o: Oracle, dummy: Var, varTy: map<Var, Ty>, args: seq<Var>, k: nat)
    ensures Consume(o, dummy, {}, varTy, args, k).Ok? <==> k <= |args| && forall i :: 0 <= i < k ==> args[i] == dummy
    ensures Consume(o, dummy, {}, varTy, args, k).Ok? ==> Consume(o, dummy, {}, varTy, args, k).value == {}
  {
    if k > 0 {
      ConsumeFromEmpty(o, dummy, varTy, args, k - 1);
    }
  }

  /** One more argument consumed: the available set after the removal. */
  lemma ConsumeStep(o: Oracle, dummy: Var, available0: set<Var>, varTy0: map<Var, Ty>, args0: seq<Var>, k: nat,
                    before: set<Var>, removed: bool, after: set<Var>)
    requires k < |args0| && Consume(o, dummy, available0, varTy0, args0, k) == Ok(before)
    requires RemoveOutcome(o, dummy, before, varTy0, args0[k]) == Ok(removed)
    requires after == if removed then before - {args0[k]} else before
    ensures Consume(o, dummy, available0, varTy0, args0, k + 1) == Ok(after)
    ensures after <= before
  {
  }

  /** Types added later do not change the outcome for variables that were already
      typed: only available variables have their type looked up. */
  lemma RemoveOutcomeOnOlder(o: Oracle, dummy: Var, available: set<Var>, older: map<Var, Ty>, newer: map<Var, Ty>, v: Var)
    requires forall u :: u in available ==> u in older
    requires forall u :: u in older ==> u in newer && newer[u] == older[u]
    ensures RemoveOutcome(o, dummy, available, newer, v) == RemoveOutcome(o, dummy, available, older, v)
  {
  }

  // ---------------------------------------------------------------------------
  // The context

  class Context {
    const o: Oracle
    /** `DUMMY_INPUT_VAR`, the placeholder for "make a fresh input here". */
    const dummy: Var
    var stmts: seq<Stmt>
    var available: set<Var>
    var varTy: map<Var, Ty>

    /** Every variable made is numbered below the count of variables, so the next
        number is always fresh; only typed variables are providers. */
    ghost predicate Valid()
      reads this
    {
      (forall v :: v in varTy ==> v.index < |varTy|)
      && (forall v :: v in available ==> v in varTy)
    }

    /** `Context::new`: no statements, no providers, no variables. */
    constructor(o: Oracle, dummy: Var)
      ensures this.o == o && this.dummy == dummy
      ensures stmts == [] && available == {} && varTy == map[]
      ensures Valid()
    {
      this.o := o;
      this.dummy := dummy;
      stmts := [];
      available := {};
      varTy := map[];
    }

    /** `complexity`: the number of statements emitted. */
    function Complexity(): nat
      reads this
    {
      |stmts|
    }

    /** `type_of`: the recorded type; a panic for a variable never made. */
    function TypeOf(v: Var): (r: Result<Ty>)
      reads this
      ensures r.Ok? <==> v in varTy
      ensures r.Ok? ==> r.value == varTy[v]
    {
      if v in varTy then Ok(varTy[v]) else Panic("no type for var")
    }

    /** `all_possible_providers`: the dummy input first when the type is fuzzable, then
        every available variable of that type, each once, in set order. */
    method AllPossibleProviders(ty: Ty) returns (r: seq<Var>)
      requires Valid()
      ensures o.isFuzzable(ty) ==> |r| > 0 && r[0] == dummy
      ensures var rest := if o.isFuzzable(ty) then r[1..] else r;
        NoDup(rest) && forall v :: v in rest <==> v in available && v in varTy && varTy[v] == ty
    {
      r := [];
      if o.isFuzzable(ty) {
        r := [dummy];
      }
      ghost var start := |r|;
      var todo := available;
      while todo != {}
        invariant todo <= available
        invariant |r| >= start && (start == 1 ==> r[0] == dummy)
        invariant NoDup(r[start..])
        invariant forall v :: v in r[start..] <==> v in available - todo && v in varTy && varTy[v] == ty
        decreases |todo|
      {
        var v :| v in todo;
        todo := todo - {v};
        var vty := TypeOf(v);
        assert vty.Ok?;
        if vty.value == ty {
          assert r[start..] + [v] == (r + [v])[start..];
          r := r + [v];
        }
      }
      assert start == (if o.isFuzzable(ty) then 1 else 0);
    }

    /** `mk_var`: a variable numbered by the count of variables made so far, with its type. */
    method MkVar(ty: Ty, isInput: bool) returns (v: Var)
      requires Valid()
      modifies this`varTy
      ensures Valid()
      ensures v == Var(old(|varTy|), isInput) && v !in old(varTy)
      ensures varTy == old(varTy)[v := ty] && |varTy| == old(|varTy|) + 1
    {
      v := Var(|varTy|, isInput);
      varTy := varTy[v := ty];
    }

    /** `add_input_stmt`: a reference input is built by first building its target and
        then borrowing it; anything else is one fuzzed input. The statements appended are
        exactly `InputStmts`, and one fresh variable is made per statement. */
    method AddInputStmt(ty: Ty) returns (v: Var)
      requires Valid()
      modifies this`stmts, this`varTy
      ensures Valid()
      ensures v == InputVar(old(|varTy|), ty) && v !in old(varTy)
      ensures stmts == old(stmts) + InputStmts(old(|varTy|), ty)
      ensures |varTy| == old(|varTy|) + RefDepth(ty) + 1
      ensures forall u :: u in old(varTy) ==> u in varTy && varTy[u] == old(varTy)[u]
      ensures v in varTy && varTy[v] == ty
      decreases ty
    {
      if ty.Ref? {
        var innerVar := AddInputStmt(ty.inner);
        v := MkVar(ty, false);
        stmts := stmts + [Stmt(RefK(innerVar, ty.mutbl), v)];
      } else {
        v := MkVar(ty, true);
        stmts := stmts + [Stmt(InputK, v)];
      }
    }

    /** `remove_var_from_available`: see RemoveOutcome; the variable leaves the set
        exactly when the answer is `true`. */
    method RemoveVarFromAvailable(v: Var) returns (r: Result<bool>)
      modifies this`available
      ensures r == RemoveOutcome(o, dummy, old(available), varTy, v)
      ensures available == if r == Ok(true) then old(available) - {v} else old(available)
    {
      if v == dummy {
        return Ok(false);
      }
      if v !in available {
        return Panic("var not in available set");
      }
      var outputTy := TypeOf(v);
      if outputTy.Panic? {
        return Panic(outputTy.reason);
      }
      var isMutRef := IsMutRef(outputTy.value);
      if !isMutRef && o.implCopy(outputTy.value) {
        return Ok(false);
      }
      available := available - {v};
      r := Ok(true);
    }

    /** `add_call_stmt`: each parameter's argument is removed from the providers when it
        is not `Copy`, and a dummy argument is replaced by a freshly built input of the
        parameter's type; the call is appended last, defining a fresh non-input
        variable of the output type. */
    method AddCallStmt(call: ApiCall) returns (r: Result<Var>, made: ApiCall)
      requires Valid()
      modifies this`stmts, this`varTy, this`available
      ensures r.Panic? <==> Consume(o, dummy, old(available), old(varTy), call.args, |o.fnInputs(call.fnDid)|).Panic?
      ensures r.Ok? ==> Valid()
      ensures r.Ok? ==> available == Consume(o, dummy, old(available), old(varTy), call.args, |o.fnInputs(call.fnDid)|).value
      ensures r.Ok? ==>
        var (inputStmts, next) := DummyInputStmts(dummy, call.args, o.fnInputs(call.fnDid), |o.fnInputs(call.fnDid)|, old(|varTy|));
        stmts == old(stmts) + inputStmts + [Stmt(CallK(made), r.value)] && r.value == Var(next, false)
      ensures r.Ok? ==> |varTy| > 0 && r.value == Var(|varTy| - 1, false) && r.value !in old(varTy)
                        && r.value in varTy && varTy[r.value] == o.fnOutput(call.fnDid)
      ensures r.Ok? ==> made.fnDid == call.fnDid
                        && ArgsFilled(dummy, call.args, made.args, o.fnInputs(call.fnDid), |o.fnInputs(call.fnDid)|, old(varTy), varTy)
    {
      var filled := FillArgs(call.args, o.fnInputs(call.fnDid));
      if filled.Panic? {
        return Panic(filled.reason), call;
      }
      made := call.(args := filled.value);
      ghost var before := varTy;
      var v := MkVar(o.fnOutput(call.fnDid), false);
      ArgsFilledGrow(dummy, call.args, made.args, o.fnInputs(call.fnDid), |o.fnInputs(call.fnDid)|, old(varTy), before, varTy);
      stmts := stmts + [Stmt(CallK(made), v)];
      r := Ok(v);
    }

    /** The argument loop of `add_call_stmt`. */
    method FillArgs(args0: seq<Var>, inputs: seq<Ty>) returns (r: Result<seq<Var>>)
      requires Valid()
      modifies this`stmts, this`varTy, this`available
      ensures r.Panic? <==> Consume(o, dummy, old(available), old(varTy), args0, |inputs|).Panic?
      ensures r.Ok? ==> Filling(args0, inputs, r.value, |inputs|, old(available), old(varTy), old(stmts))
    {
      ghost var available0, varTy0, stmts0 := available, varTy, stmts;
      FillingStart(args0, inputs);
      var args := args0;
      var idx := 0;
      while idx < |inputs|
        invariant idx <= |inputs|
        invariant Filling(args0, inputs, args, idx, available0, varTy0, stmts0)
      {
        var step := FillArg(args0, available0, varTy0, stmts0, args, inputs, idx);
        if step.Panic? {
          ConsumePanicPersists(o, dummy, available0, varTy0, args0, idx + 1, |inputs|);
          return Panic(step.reason);
        }
        args := step.value;
        idx := idx + 1;
      }
      r := Ok(args);
    }

    /** The state of the argument loop of `add_call_stmt` after `idx` parameters,
        started from `available0`, `varTy0` and `stmts0`. */
    ghost predicate Filling(args0: seq<Var>, inputs: seq<Ty>, args: seq<Var>, idx: nat,
                            available0: set<Var>, varTy0: map<Var, Ty>, stmts0: seq<Stmt>)
      reads this
    {
      Valid()
      && Consume(o, dummy, available0, varTy0, args0, idx) == Ok(available)
      && available <= available0 && (forall u :: u in available0 ==> u in varTy0)
      && idx <= |inputs|
      && stmts == stmts0 + DummyInputStmts(dummy, args0, inputs, idx, |varTy0|).0
      && |varTy| == DummyInputStmts(dummy, args0, inputs, idx, |varTy0|).1
      && ArgsFilled(dummy, args0, args, inputs, idx, varTy0, varTy)
    }

    lemma FillingStart(args0: seq<Var>, inputs: seq<Ty>)
      requires Valid()
      ensures Filling(args0, inputs, args0, 0, available, varTy, stmts)
    {
      assert stmts + [] == stmts;
    }

    /** One turn of the argument loop of `add_call_stmt`: parameter `idx`. */
    method FillArg(ghost args0: seq<Var>, ghost available0: set<Var>, ghost varTy0: map<Var, Ty>, ghost stmts0: seq<Stmt>,
                   args: seq<Var>, inputs: seq<Ty>, idx: nat) returns (r: Result<seq<Var>>)
      requires idx < |inputs| && Filling(args0, inputs, args, idx, available0, varTy0, stmts0)
      modifies this`stmts, this`varTy, this`available
      ensures r.Panic? ==> Consume(o, dummy, available0, varTy0, args0, idx + 1).Panic?
      ensures r.Ok? ==> Filling(args0, inputs, r.value, idx + 1, available0, varTy0, stmts0)
    {
      if idx >= |args| {
        return Panic("index out of bounds");
      }
      var arg := args[idx];
      assert arg == args0[idx];
      RemoveOutcomeOnOlder(o, dummy, available, varTy0, varTy, arg);
      ghost var availableBefore := available;
      var removed := RemoveVarFromAvailable(arg);
      if removed.Panic? {
        return Panic(removed.reason);
      }
      ConsumeStep(o, dummy, available0, varTy0, args0, idx, availableBefore, removed.value, available);
      assert stmts == stmts0 + DummyInputStmts(dummy, args0, inputs, idx, |varTy0|).0;
      assert ArgsFilled(dummy, args0, args, inputs, idx, varTy0, varTy);
      var placed := PlaceArg(args0, available0, varTy0, stmts0, args, inputs, idx);
      r := Ok(placed);
    }

    /** The rest of one turn of the argument loop, once the argument has been taken
        from the available set: a dummy becomes a fresh input of the parameter's type. */
    method PlaceArg(ghost args0: seq<Var>, ghost available0: set<Var>, ghost varTy0: map<Var, Ty>, ghost stmts0: seq<Stmt>,
                    args: seq<Var>, inputs: seq<Ty>, idx: nat) returns (placed: seq<Var>)
      requires Valid() && idx < |inputs| && idx < |args0| && idx < |args| && args[idx] == args0[idx]
      requires Consume(o, dummy, available0, varTy0, args0, idx + 1) == Ok(available)
      requires available <= available0 && (forall u :: u in available0 ==> u in varTy0)
      requires stmts == stmts0 + DummyInputStmts(dummy, args0, inputs, idx, |varTy0|).0
      requires |varTy| == DummyInputStmts(dummy, args0, inputs, idx, |varTy0|).1
      requires ArgsFilled(dummy, args0, args, inputs, idx, varTy0, varTy)
      modifies this`stmts, this`varTy
      ensures Filling(args0, inputs, placed, idx + 1, available0, varTy0, stmts0)
    {
      if args[idx] == dummy {
        ghost var tyBefore := varTy;
        var v := AddInputStmt(inputs[idx]);
        InputFilled(dummy, args0, args, inputs, idx, varTy0, tyBefore, varTy, stmts0, stmts, v);
        placed := args[idx := v];
      } else {
        ArgsFilledOther(dummy, args0, args, inputs, idx, varTy0, varTy, |varTy0|);
        placed := args;
      }
    }
  }

  /** After the first `k` parameters: `args` is `args0` with each dummy among the first
      `k` replaced by a variable made during the loop (absent from `before`) that has
      the parameter's type and is an input unless that type is a reference; variables
      typed before keep their types. */
  ghost predicate ArgsFilled(dummy: Var, args0: seq<Var>, args: seq<Var>, inputs: seq<Ty>, k: nat,
                             before: map<Var, Ty>, varTy: map<Var, Ty>)
  {
    |args| == |args0| && k <= |inputs|
    && (forall u :: u in before ==> u in varTy && varTy[u] == before[u])
    && (forall i :: 0 <= i < |args0| && (i >= k || args0[i] != dummy) ==> args[i] == args0[i])
    && (forall i :: 0 <= i < k && i < |args0| && args0[i] == dummy ==>
          args[i] !in before && args[i] in varTy && varTy[args[i]] == inputs[i]
          && (args[i].isInput <==> !inputs[i].Ref?))
  }

  /** The dummy case of one turn of the argument loop, on the values it changes. */
  lemma InputFilled(dummy: Var, args0: seq<Var>, args: seq<Var>, inputs: seq<Ty>, idx: nat,
                    varTy0: map<Var, Ty>, before: map<Var, Ty>, after: map<Var, Ty>,
                    stmts0: seq<Stmt>, stmts: seq<Stmt>, v: Var)
    requires idx < |inputs| && idx < |args0| && args0[idx] == dummy
    requires |before| == DummyInputStmts(dummy, args0, inputs, idx, |varTy0|).1
    requires ArgsFilled(dummy, args0, args, inputs, idx, varTy0, before)
    requires stmts == stmts0 + DummyInputStmts(dummy, args0, inputs, idx, |varTy0|).0 + InputStmts(|before|, inputs[idx])
    requires |after| == |before| + RefDepth(inputs[idx]) + 1
    requires forall u :: u in before ==> u in after && after[u] == before[u]
    requires v !in before && v in after && after[v] == inputs[idx] && (v.isInput <==> !inputs[idx].Ref?)
    ensures stmts == stmts0 + DummyInputStmts(dummy, args0, inputs, idx + 1, |varTy0|).0
    ensures |after| == DummyInputStmts(dummy, args0, inputs, idx + 1, |varTy0|).1
    ensures ArgsFilled(dummy, args0, args[idx := v], inputs, idx + 1, varTy0, after)
  {
    var prev := DummyInputStmts(dummy, args0, inputs, idx, |varTy0|);
    assert DummyInputStmts(dummy, args0, inputs, idx + 1, |varTy0|)
      == (prev.0 + InputStmts(prev.1, inputs[idx]), prev.1 + RefDepth(inputs[idx]) + 1);
    ArgsFilledGrow(dummy, args0, args, inputs, idx, varTy0, before, after);
    ArgsFilledDummy(dummy, args0, args, inputs, idx, varTy0, after, v);
  }

  lemma ArgsFilledGrow(dummy: Var, args0: seq<Var>, args: seq<Var>, inputs: seq<Ty>, k: nat,
                       before: map<Var, Ty>, mid: map<Var, Ty>, after: map<Var, Ty>)
    requires ArgsFilled(dummy, args0, args, inputs, k, before, mid)
    requires forall u :: u in mid ==> u in after && after[u] == mid[u]
    ensures ArgsFilled(dummy, args0, args, inputs, k, before, after)
  {
  }

  lemma ArgsFilledDummy(dummy: Var, args0: seq<Var>, args: seq<Var>, inputs: seq<Ty>, k: nat,
                        before: map<Var, Ty>, varTy: map<Var, Ty>, v: Var)
    requires ArgsFilled(dummy, args0, args, inputs, k, before, varTy)
    requires k < |inputs| && k < |args0| && args0[k] == dummy
    requires v !in before && v in varTy && varTy[v] == inputs[k] && (v.isInput <==> !inputs[k].Ref?)
    ensures ArgsFilled(dummy, args0, args[k := v], inputs, k + 1, before, varTy)
  {
  }

  lemma ArgsFilledOther(dummy: Var, args0: seq<Var>, args: seq<Var>, inputs: seq<Ty>, k: nat,
                        before: map<Var, Ty>, varTy: map<Var, Ty>, n: nat)
    requires ArgsFilled(dummy, args0, args, inputs, k, before, varTy)
    requires k < |inputs| && k < |args0| && args0[k] != dummy
    ensures ArgsFilled(dummy, args0, args, inputs, k + 1, before, varTy)
    ensures DummyInputStmts(dummy, args0, inputs, k + 1, n) == DummyInputStmts(dummy, args0, inputs, k, n)
  {
  }
}
