/** The `rapx` driver's command line: the table of flags that select analyses, the
    pass-through of every other argument, and the splice of the default arguments
    right after the binary name before the compiler is started. */
module RapxCli {
  import opened Common

  /** The `enable_*` calls a flag can make on the callback, with their arguments. */
  datatype Setting =
    | Safedrop
    | Rcanary
    | Infer
    | Verify
    | Opt(level: nat)
    | Mop
    | HeapItem
    | ApiDep
    | Callgraph
    | Dataflow(level: nat)
    | SsaTransform
    | UnsafetyIsolation(mode: nat)
    | ShowMir
    | Testgen

  /** The flag table of `main`: the setting a recognised flag selects, `None` for
      every other argument. Every recognised flag is `-` and at least one more
      character, and only the levels and modes below are handed out. */
  function FlagSetting(arg: string): (r: Option<Setting>)
    ensures r.Some? ==> |arg| > 1 && arg[0] == '-'
    ensures r.Some? && r.value.Opt? ==> r.value.level in {1, 2}
    ensures r.Some? && r.value.Dataflow? ==> r.value.level in {1, 2}
    ensures r.Some? && r.value.UnsafetyIsolation? ==> 1 <= r.value.mode <= 4
  {
    if arg == "-F" || arg == "-uaf" then Some(Safedrop)
    else if arg == "-M" || arg == "-mleak" then Some(Rcanary)
    else if arg == "-I" || arg == "-infer" then Some(Infer)
    else if arg == "-V" || arg == "-verify" then Some(Verify)
    else if arg == "-O" || arg == "-opt" then Some(Opt(1))
    else if arg == "-opt=all" then Some(Opt(2))
    else if arg == "-alias" then Some(Mop)
    else if arg == "-heap" then Some(HeapItem)
    else if arg == "-adg" then Some(ApiDep)
    else if arg == "-callgraph" then Some(Callgraph)
    else if arg == "-dataflow" then Some(Dataflow(1))
    else if arg == "-ssa" then Some(SsaTransform)
    else if arg == "-dataflow=debug" then Some(Dataflow(2))
    else if arg == "-audit" then Some(UnsafetyIsolation(1))
    else if arg == "-doc" then Some(UnsafetyIsolation(2))
    else if arg == "-upg" then Some(UnsafetyIsolation(3))
    else if arg == "-ucons" then Some(UnsafetyIsolation(4))
    else if arg == "-mir" then Some(ShowMir)
    else if arg == "-testgen" then Some(Testgen)
    else None
  }

  /** The levels and modes the table hands out. */
  lemma FlagTable(arg: string)
    ensures FlagSetting(arg) == Some(Opt(1)) <==> arg == "-O" || arg == "-opt"
    ensures FlagSetting(arg) == Some(Opt(2)) <==> arg == "-opt=all"
    ensures FlagSetting(arg) == Some(Dataflow(1)) <==> arg == "-dataflow"
    ensures FlagSetting(arg) == Some(Dataflow(2)) <==> arg == "-dataflow=debug"
    ensures FlagSetting(arg) == Some(UnsafetyIsolation(1)) <==> arg == "-audit"
    ensures FlagSetting(arg) == Some(UnsafetyIsolation(2)) <==> arg == "-doc"
    ensures FlagSetting(arg) == Some(UnsafetyIsolation(3)) <==> arg == "-upg"
    ensures FlagSetting(arg) == Some(UnsafetyIsolation(4)) <==> arg == "-ucons"
  {
  }

  /** The compiler callback, seen through the settings it has been asked to enable. */
  class RapCallback {
    var requested: seq<Setting>

    /** `RapCallback::default()`. */
    constructor()
      ensures requested == []
    {
      requested := [];
    }

    /** One `enable_*` call. */
    method Enable(s: Setting)
      modifies this
      ensures requested == old(requested) + [s]
    {
      requested := requested + [s];
    }
  }

  /** The arguments passed on to the compiler: every one the table does not know, in order. */
  function Forwarded(argv: seq<string>): (r: seq<string>)
    ensures |r| <= |argv|
    ensures forall a :: a in r ==> a in argv && FlagSetting(a).None?
  {
    if argv == [] then []
    else
      var last := argv[|argv| - 1];
      var init := Forwarded(argv[..|argv| - 1]);
      if FlagSetting(last).Some? then init else init + [last]
  }

  /** The settings the flags select, in order. */
  function Requested(argv: seq<string>): (r: seq<Setting>)
    ensures |r| <= |argv|
  {
    if argv == [] then []
    else
      var last := argv[|argv| - 1];
      var init := Requested(argv[..|argv| - 1]);
      match FlagSetting(last)
      case Some(s) => init + [s]
      case None => init
  }

  /** The argument loop of `main`: a recognised flag enables its setting and is dropped,
      anything else is pushed onto the arguments for the compiler. */
  method ParseArgs(argv: seq<string>) returns (args: seq<string>, compiler: RapCallback)
    ensures fresh(compiler)
    ensures args == Forwarded(argv)
    ensures compiler.requested == Requested(argv)
  {
    args := [];
    compiler := new RapCallback();
    for i := 0 to |argv|
      invariant args == Forwarded(argv[..i])
      invariant compiler.requested == Requested(argv[..i])
    {
      var arg := argv[i];
      assert argv[..i + 1][..i] == argv[..i];
      match FlagSetting(arg)
      case Some(s) =>
        compiler.Enable(s);
      case None =>
        args := args + [arg];
    }
    assert argv[..|argv|] == argv;
  }

  /** Every argument is either a flag or forwarded: none is lost and none is made up. */
  lemma {:induction false} ArgsPartition(argv: seq<string>)
    ensures |Forwarded(argv)| + |Requested(argv)| == |argv|
    ensures forall a :: a in argv && FlagSetting(a).None? ==> a in Forwarded(argv)
  {
    if argv != [] {
      var init, x := argv[..|argv| - 1], argv[|argv| - 1];
      ArgsPartition(init);
      assert argv == init + [x];
      ForwardedSnoc(init, x);
      RequestedSnoc(init, x);
    }
  }

  /** One more argument: its setting is requested when it is a flag. */
  lemma RequestedSnoc(s: seq<string>, x: string)
    ensures Requested(s + [x]) == Requested(s) + if FlagSetting(x).Some? then [FlagSetting(x).value] else []
  {
    assert (s + [x])[..|s|] == s;
  }

  /** Forwarding a concatenation forwards each part in turn, so the order is kept. */
  lemma {:induction false} ForwardedAppend(a: seq<string>, b: seq<string>)
    ensures Forwarded(a + b) == Forwarded(a) + Forwarded(b)
    decreases |b|
  {
    if b == [] {
      assert a + b == a;
    } else {
      var init, x := b[..|b| - 1], b[|b| - 1];
      assert b == init + [x];
      assert a + b == (a + init) + [x];
      ForwardedAppend(a, init);
      ForwardedSnoc(a + init, x);
      ForwardedSnoc(init, x);
      var tail := if FlagSetting(x).Some? then [] else [x];
      AppendAssoc(Forwarded(a), Forwarded(init), tail);
    }
  }

  /** One more argument: forwarded unless it is a flag. */
  lemma ForwardedSnoc(s: seq<string>, x: string)
    ensures Forwarded(s + [x]) == Forwarded(s) + if FlagSetting(x).Some? then [] else [x]
  {
    assert (s + [x])[..|s|] == s;
  }

  /** Without flags the arguments pass unchanged. */
  lemma {:induction false} ForwardedNoFlags(argv: seq<string>)
    requires forall k :: 0 <= k < |argv| ==> FlagSetting(argv[k]).None?
    ensures Forwarded(argv) == argv
    ensures Requested(argv) == []
  {
    if argv != [] {
      ForwardedNoFlags(argv[..|argv| - 1]);
      assert argv[..|argv| - 1] + [argv[|argv| - 1]] == argv;
    }
  }

  const SPLICE_PANIC := "range end index 1 out of range for slice of length 0"

  /** `args.splice(1..1, defaults)` in `run_complier`: the defaults go right after the
      first argument; an empty argument list makes the range out of bounds. */
  function SpliceDefaults(args: seq<string>, defaults: seq<string>): (r: Result<seq<string>>)
    ensures r.Panic? <==> args == []
    ensures r.Ok? ==> (|r.value| == |args| + |defaults| && r.value[0] == args[0]
                       && r.value[1..1 + |defaults|] == defaults
                       && r.value[..1] + r.value[1 + |defaults|..] == args)
  {
    if args == [] then Panic(SPLICE_PANIC)
    else
      var r := args[..1] + defaults + args[1..];
      assert r[1..1 + |defaults|] == defaults;
      assert r[1 + |defaults|..] == args[1..];
      assert args[..1] + args[1..] == args;
      Ok(r)
  }

  /** What the compiler is started with: the binary name, the default arguments, then
      every argument after the binary name that is not a flag, in order. */
  lemma CompilerArgs(argv: seq<string>, defaults: seq<string>)
    requires |argv| > 0 && FlagSetting(argv[0]).None?
    ensures SpliceDefaults(Forwarded(argv), defaults) == Ok([argv[0]] + defaults + Forwarded(argv[1..]))
  {
    ForwardedHead(argv);
    SpliceAfterHead(Forwarded(argv), argv[0], Forwarded(argv[1..]), defaults);
  }

  /** An argument that is not a flag is forwarded first. */
  lemma ForwardedHead(argv: seq<string>)
    requires |argv| > 0 && FlagSetting(argv[0]).None?
    ensures Forwarded(argv) == [argv[0]] + Forwarded(argv[1..])
  {
    var x := argv[0];
    assert argv == [x] + argv[1..];
    ForwardedAppend([x], argv[1..]);
    ForwardedSnoc([], x);
    assert [] + [x] == [x];
  }

  lemma SpliceAfterHead(f: seq<string>, x: string, rest: seq<string>, defaults: seq<string>)
    requires f == [x] + rest
    ensures SpliceDefaults(f, defaults) == Ok([x] + defaults + rest)
  {
    assert f[..1] == [x] && f[1..] == rest;
  }
}
