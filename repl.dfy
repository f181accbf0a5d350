/**
 * The REPL session of `REPL#go`: the state the `prompt` block carries from
 * one input to the next (`env`, `vars`, `repl_num`), the require prefix of
 * the first snippet, the three parse outcomes, the rewrite that prints the
 * value of the last statement, and the compile-load-evaluate sequence.
 *
 * The parser and the compiler are not part of this model: they are
 * function parameters.  Temporary files, the dynamic loader and file
 * removal are recorded as an effect log instead of being performed.
 */
module Repl {
  import opened Wrappers

  /** The statements of a parsed program; only the shape the rewrite builds is spelled out. */
  datatype Node =
    /** A statement as the parser produced it. */
    | Stmt(id: nat)
    /** `s(:call, receiver, message, *args)` */
    | Call(receiver: Option<Node>, message: string, args: seq<Node>)
    /** `s(:lasgn, name, value)` */
    | Lasgn(name: string, value: Node)

  datatype ParseOutcome =
    /** `Parser::IncompleteExpression`: more input is needed. */
    | Incomplete
    /** `SyntaxError`, with its message. */
    | SyntaxError(message: string)
    /** The statements of `s(:block, ...)`. */
    | Parsed(program: seq<Node>)

  /** The compiler's local-variable table, `context[:vars]`. */
  type Vars = map<string, nat>

  datatype CompileOutcome = Compiled(vars: Vars) | CompileFailed(message: string)

  /** A handle returned by the loaded library's `build_top_env`. */
  type EnvHandle = nat

  /** What the block hands back to the driver, or the exception that escapes it. */
  datatype Signal = Continue | Next | Raised(message: string)

  /** The outside effects of a session, in the order they happen. */
  datatype Effect =
    | DisableGc
    | Stderr(message: string)
    | CreateTemp(path: string)
    | Compile(program: seq<Node>, replNum: nat, vars: Vars, outPath: string)
    | Dlopen(path: string)
    | CallGcDisable(path: string)
    | BuildTopEnv(path: string)
    | Eval(path: string, env: EnvHandle)
    | Unlink(path: string)
    | RemoveDir(path: string)

  // ---------------------------------------------------------------------
  // The source text handed to the parser.

  function RequireLine(req: string): string {
    "require '" + req + "'\n"
  }

  /** `requires.join`: one require line per entry, in order. */
  function RequirePrefix(reqs: seq<string>): string {
    if reqs == [] then "" else RequireLine(reqs[0]) + RequirePrefix(reqs[1..])
  }

  lemma {:induction false} RequirePrefixAppend(a: seq<string>, b: seq<string>)
    ensures RequirePrefix(a + b) == RequirePrefix(a) + RequirePrefix(b)
    decreases |a|
  {
    if a == [] {
      assert a + b == b;
    } else {
      assert (a + b)[1..] == a[1..] + b;
      RequirePrefixAppend(a[1..], b);
    }
  }

  /** The prefix holds one `require` line per entry: each entry adds exactly its own line at the end. */
  lemma RequirePrefixLines(reqs: seq<string>, req: string)
    ensures RequirePrefix(reqs + [req]) == RequirePrefix(reqs) + "require '" + req + "'\n"
    ensures |RequirePrefix(reqs + [req])| == |RequirePrefix(reqs)| + |req| + 11
  {
    RequirePrefixAppend(reqs, [req]);
    assert [req][1..] == [];
  }

  /**
   * The input as the parser sees it: the require lines come first until a
   * snippet has been handed to the compiler, which sets `repl_num` before
   * compiling.
   */
  function Input(replNum: nat, reqs: seq<string>, cmd: string): (r: string)
    ensures replNum > 0 || reqs == [] ==> r == cmd
    ensures replNum == 0 && reqs != [] ==> r == RequirePrefix(reqs) + cmd
    ensures |r| >= |cmd| && r[|r| - |cmd|..] == cmd
  {
    if replNum == 0 && |reqs| > 0 then RequirePrefix(reqs) + cmd else cmd
  }

  // ---------------------------------------------------------------------
  // The rewrite of the last statement.

  /** `puts((_ = last).inspect)` */
  function PrintValue(last: Node): Node {
    Call(None, "puts", [Call(Some(Lasgn("_", last)), "inspect", [])])
  }

  /** The statement a `puts((_ = x).inspect)` prints, if the node has that shape. */
  function Printed(n: Node): Option<Node> {
    if n.Call? && n.receiver.None? && n.message == "puts" && |n.args| == 1
       && n.args[0].Call? && n.args[0].receiver.Some? && n.args[0].message == "inspect" && n.args[0].args == []
       && n.args[0].receiver.value.Lasgn? && n.args[0].receiver.value.name == "_"
    then Some(n.args[0].receiver.value.value)
    else None
  }

  /** `ast.pop` followed by `ast << ...`: only the last statement changes. */
  function Rewrite(program: seq<Node>): seq<Node>
    requires program != []
  {
    program[..|program| - 1] + [PrintValue(program[|program| - 1])]
  }

  /** The rewrite keeps the statement count and the earlier statements, and wraps the last one. */
  lemma RewriteWrapsLast(program: seq<Node>)
    requires program != []
    ensures |Rewrite(program)| == |program|
    ensures forall i :: 0 <= i < |program| - 1 ==> Rewrite(program)[i] == program[i]
    ensures Printed(Rewrite(program)[|program| - 1]) == Some(program[|program| - 1])
  {
  }

  /** The original program can be read back from the rewritten one. */
  function Unrewrite(program: seq<Node>): Option<seq<Node>> {
    if program == [] then None
    else
      match Printed(program[|program| - 1])
      case None => None
      case Some(last) => Some(program[..|program| - 1] + [last])
  }

  lemma RewriteRoundTrip(program: seq<Node>)
    requires program != []
    ensures Unrewrite(Rewrite(program)) == Some(program)
  {
    var r := Rewrite(program);
    assert r[..|r| - 1] == program[..|program| - 1];
    assert program[..|program| - 1] + [program[|program| - 1]] == program;
  }

  // ---------------------------------------------------------------------
  // Counting effects.

  function Compiles(es: seq<Effect>): nat {
    if es == [] then 0 else Compiles(es[..|es| - 1]) + (if es[|es| - 1].Compile? then 1 else 0)
  }

  function Builds(es: seq<Effect>): nat {
    if es == [] then 0 else Builds(es[..|es| - 1]) + (if es[|es| - 1].BuildTopEnv? then 1 else 0)
  }

  lemma {:induction false} CountsAppend(a: seq<Effect>, b: seq<Effect>)
    ensures Compiles(a + b) == Compiles(a) + Compiles(b)
    ensures Builds(a + b) == Builds(a) + Builds(b)
    decreases |b|
  {
    if b == [] {
      assert a + b == a;
    } else {
      var b0 := b[..|b| - 1];
      assert (a + b)[..|a + b| - 1] == a + b0;
      CountsAppend(a, b0);
    }
  }

  /** The effects of loading and running one compiled snippet from `path`. */
  function LoadEffects(path: string, build: bool, env: EnvHandle, dsym: bool): seq<Effect> {
    [Dlopen(path), CallGcDisable(path)]
    + (if build then [BuildTopEnv(path)] else [])
    + [Eval(path, env), Unlink(path)]
    + (if dsym then [RemoveDir(path + ".dSYM")] else [])
  }

  lemma LoadEffectsCounts(path: string, build: bool, env: EnvHandle, dsym: bool)
    ensures Compiles(LoadEffects(path, build, env, dsym)) == 0
    ensures Builds(LoadEffects(path, build, env, dsym)) == if build then 1 else 0
  {
    var head: seq<Effect> := [Dlopen(path), CallGcDisable(path)];
    var built: seq<Effect> := if build then [BuildTopEnv(path)] else [];
    var tail: seq<Effect> := [Eval(path, env), Unlink(path)];
    var removed: seq<Effect> := if dsym then [RemoveDir(path + ".dSYM")] else [];
    CountsAppend(head, built);
    CountsAppend(head + built, tail);
    CountsAppend(head + built + tail, removed);
    CountsAppend([Dlopen(path)], [CallGcDisable(path)]);
    CountsAppend([Eval(path, env)], [Unlink(path)]);
    assert [Dlopen(path)] + [CallGcDisable(path)] == head;
    assert [Eval(path, env)] + [Unlink(path)] == tail;
  }

  // ---------------------------------------------------------------------
  // The session invariant and the steps that keep it.

  /** Every evaluation in the log ran in `env`. */
  ghost predicate EvalsUse(es: seq<Effect>, env: Option<EnvHandle>) {
    forall i :: 0 <= i < |es| && es[i].Eval? ==> env == Some(es[i].env)
  }

  /**
   * `repl_num` counts the compiled snippets, `build_top_env` has run at
   * most once and exactly when `env` is set, and every evaluation used
   * that same `env`.
   */
  ghost predicate Consistent(replNum: nat, env: Option<EnvHandle>, es: seq<Effect>) {
    && replNum == Compiles(es)
    && Builds(es) <= 1
    && (env.Some? <==> Builds(es) == 1)
    && EvalsUse(es, env)
  }

  lemma ConsistentAfterStderr(replNum: nat, env: Option<EnvHandle>, es: seq<Effect>, message: string)
    requires Consistent(replNum, env, es)
    ensures Consistent(replNum, env, es + [Stderr(message)])
  {
    CountsAppend(es, [Stderr(message)]);
    assert [Stderr(message)][..0] == [];
  }

  lemma ConsistentAfterCompile(replNum: nat, env: Option<EnvHandle>, es: seq<Effect>,
                               path: string, program: seq<Node>, vars: Vars)
    requires Consistent(replNum, env, es)
    ensures Consistent(replNum + 1, env, es + [CreateTemp(path), Compile(program, replNum + 1, vars, path)])
  {
    var created: seq<Effect> := [CreateTemp(path)];
    var compiled: seq<Effect> := [Compile(program, replNum + 1, vars, path)];
    assert created[..0] == [] && compiled[..0] == [];
    CountsAppend(created, compiled);
    assert created + compiled == [CreateTemp(path), Compile(program, replNum + 1, vars, path)];
    CountsAppend(es, created + compiled);
  }

  lemma ConsistentAfterLoad(replNum: nat, env: Option<EnvHandle>, es: seq<Effect>,
                            path: string, topEnv: EnvHandle, dsym: bool)
    requires Consistent(replNum, env, es)
    ensures var env' := if env.Some? then env else Some(topEnv);
      Consistent(replNum, env', es + LoadEffects(path, env.None?, env'.value, dsym))
  {
    var env' := if env.Some? then env else Some(topEnv);
    var loaded := LoadEffects(path, env.None?, env'.value, dsym);
    LoadEffectsCounts(path, env.None?, env'.value, dsym);
    CountsAppend(es, loaded);
    assert forall i :: 0 <= i < |loaded| && loaded[i].Eval? ==> loaded[i].env == env'.value;
    forall i | 0 <= i < |es + loaded| && (es + loaded)[i].Eval?
      ensures env' == Some((es + loaded)[i].env)
    {
      if i >= |es| {
        assert (es + loaded)[i] == loaded[i - |es|];
      } else {
        assert (es + loaded)[i] == es[i];
      }
    }
  }

  // ---------------------------------------------------------------------
  // The session.

  class Session {
    const required: seq<string>
    var env: Option<EnvHandle>
    var vars: Vars
    var replNum: nat
    var effects: seq<Effect>

    ghost predicate Valid()
      reads this
    {
      Consistent(replNum, env, effects)
    }

    /** The start of `go`: the collector is switched off and the session state is empty. */
    constructor (required: seq<string>)
      ensures this.required == required
      ensures env == None && vars == map[] && replNum == 0 && effects == [DisableGc]
      ensures Valid()
    {
      this.required := required;
      env := None;
      vars := map[];
      replNum := 0;
      effects := [DisableGc];
      assert [DisableGc][..0] == [];
    }

    /**
     * One run of the `prompt` block on the input `cmd`.  `parse` and
     * `compile` stand for the parser and the compiler, `tempPath` for the
     * new temporary file, `topEnv` for what `build_top_env` returns and
     * `dsymExists` for whether the compiler left a `.dSYM` directory.
     */
    method Prompt(cmd: string, parse: string -> ParseOutcome, compile: (seq<Node>, nat, Vars) -> CompileOutcome,
                  tempPath: string, topEnv: EnvHandle, dsymExists: bool) returns (sig: Signal)
      requires Valid()
      modifies this
      ensures Valid()
      // incomplete input and an empty program: nothing happens
      ensures (parse(Input(old(replNum), required, cmd)).Incomplete?
               || parse(Input(old(replNum), required, cmd)) == Parsed([])) ==>
        sig == Continue && env == old(env) && vars == old(vars) && replNum == old(replNum) && effects == old(effects)
      // a syntax error: its message goes to standard error
      ensures parse(Input(old(replNum), required, cmd)).SyntaxError? ==>
        && sig == Next && env == old(env) && vars == old(vars) && replNum == old(replNum)
        && effects == old(effects) + [Stderr(parse(Input(old(replNum), required, cmd)).message)]
      // a program: counted, rewritten, compiled with the current vars and run
      ensures var p := parse(Input(old(replNum), required, cmd));
        p.Parsed? && p.program != [] ==>
          && replNum == old(replNum) + 1
          && var outcome := compile(Rewrite(p.program), replNum, old(vars));
          && (outcome.CompileFailed? ==>
                && sig == Raised(outcome.message) && env == old(env) && vars == old(vars)
                && effects == old(effects) + [CreateTemp(tempPath), Compile(Rewrite(p.program), replNum, old(vars), tempPath)])
          && (outcome.Compiled? ==>
                && sig == Next && vars == outcome.vars
                && env == (if old(env).Some? then old(env) else Some(topEnv))
                && effects == old(effects) + [CreateTemp(tempPath), Compile(Rewrite(p.program), replNum, old(vars), tempPath)]
                   + LoadEffects(tempPath, old(env).None?, env.value, dsymExists))
    {
      var input := cmd;
      if replNum == 0 && |required| > 0 {
        input := RequirePrefix(required) + input;
      }
      var parsed := parse(input);
      if parsed.Incomplete? {
        return Continue;
      }
      if parsed.SyntaxError? {
        ConsistentAfterStderr(replNum, env, effects, parsed.message);
        effects := effects + [Stderr(parsed.message)];
        return Next;
      }
      var program := parsed.program;
      if program == [] {
        return Continue;
      }
      var last := program[|program| - 1];
      program := program[..|program| - 1];
      program := program + [PrintValue(last)];
      sig := Evaluate(program, compile, tempPath, topEnv, dsymExists);
    }

    /** Compiling, loading and running one rewritten program. */
    method Evaluate(program: seq<Node>, compile: (seq<Node>, nat, Vars) -> CompileOutcome,
                    tempPath: string, topEnv: EnvHandle, dsymExists: bool) returns (sig: Signal)
      requires Valid()
      modifies this
      ensures Valid()
      ensures replNum == old(replNum) + 1
      ensures var outcome := compile(program, replNum, old(vars));
        && (outcome.CompileFailed? ==>
              && sig == Raised(outcome.message) && env == old(env) && vars == old(vars)
              && effects == old(effects) + [CreateTemp(tempPath), Compile(program, replNum, old(vars), tempPath)])
        && (outcome.Compiled? ==>
              && sig == Next && vars == outcome.vars
              && env == (if old(env).Some? then old(env) else Some(topEnv))
              && effects == old(effects) + [CreateTemp(tempPath), Compile(program, replNum, old(vars), tempPath)]
                 + LoadEffects(tempPath, old(env).None?, env.value, dsymExists))
    {
      ConsistentAfterCompile(replNum, env, effects, tempPath, program, vars);
      effects := effects + [CreateTemp(tempPath), Compile(program, replNum + 1, vars, tempPath)];
      replNum := replNum + 1;
      var outcome := compile(program, replNum, vars);
      if outcome.CompileFailed? {
        return Raised(outcome.message);
      }
      vars := outcome.vars;
      ConsistentAfterLoad(replNum, env, effects, tempPath, topEnv, dsymExists);
      var build := env.None?;
      if build {
        env := Some(topEnv);
      }
      effects := effects + LoadEffects(tempPath, build, env.value, dsymExists);
      return Next;
    }
  }
}
