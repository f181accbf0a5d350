/**
 * `String#%`: the runtime's own format interpreter.  It copies ordinary
 * characters, expands `%d %s %b %x %%`, passes `%` followed by a newline or
 * a NUL through, handles positional `%N$f` specifiers and raises for
 * malformed specifiers.
 *
 * The reference definition reads the format in two phases: `Tokenize`
 * splits it into directives and `Render` folds the directives over a state
 * holding the output pieces and the argument queue.  `Format` is the
 * single-pass loop of the runtime, proved to compute the same result.
 */
module StringFormat {
  import opened Wrappers
  import Numerals

  /**
   * The objects a format is applied to; only their truthiness and `to_s`
   * matter.  The kinds are those whose `to_s` the interpreter can state
   * without dispatching to other methods, which is why this is not the
   * runtime `Value` of the argument vector: symbols, arrays and hashes
   * would need `to_s` of their own.
   */
  datatype Arg = NilArg | BoolArg(b: bool) | IntArg(i: int) | StrArg(text: string)

  /** The right operand of `%`: one object or an array of them. */
  datatype Operand = Single(arg: Arg) | List(items: seq<Arg>)

  datatype Error =
    | ArgumentError(message: string)
    | RuntimeError(message: string)
    /** `to_s(base)` sent to an object that is not an Integer. */
    | NoRadix(arg: Arg)

  const Incomplete := ArgumentError("incomplete format specifier; use %% (double %) instead")
  const InvalidSpace := ArgumentError("invalid format character - %")
  const TooMany := ArgumentError("too many arguments for format string")
  const Todo := RuntimeError("todo")

  function Malformed(c: char): Error {
    ArgumentError("malformed format string - %" + [c])
  }

  /** `Array(operand)`: an array as it is, nil as no arguments, anything else as one. */
  function ToArray(op: Operand): (r: seq<Arg>)
    ensures op.List? ==> r == op.items
    ensures op.Single? ==> r == if op.arg == NilArg then [] else [op.arg]
  {
    match op
    case List(items) => items
    case Single(a) => if a == NilArg then [] else [a]
  }

  /** Ruby truthiness over `Arg`: everything but nil and false. */
  predicate Truthy(a: Arg) {
    a != NilArg && a != BoolArg(false)
  }

  /** `args.any?`: some remaining argument is truthy. */
  function AnyTruthy(q: seq<Arg>): (b: bool)
    ensures b <==> exists i :: 0 <= i < |q| && Truthy(q[i])
  {
    if q == [] then false else Truthy(q[0]) || AnyTruthy(q[1..])
  }

  function ToS(a: Arg): string {
    match a
    case NilArg => ""
    case BoolArg(b) => if b then "true" else "false"
    case IntArg(i) => Numerals.IntToString(i, 10)
    case StrArg(t) => t
  }

  /** `to_s(base)`: only an Integer takes a base. */
  function ToSBase(a: Arg, base: nat): (r: Result<string, Error>)
    requires 2 <= base <= 16
    ensures r.Ok? <==> a.IntArg?
  {
    if a.IntArg? then Ok(Numerals.IntToString(a.i, base)) else Err(NoRadix(a))
  }

  /** `Array#shift`: the first element and the rest; nil from an empty array. */
  function Shift(q: seq<Arg>): (r: (Arg, seq<Arg>))
    ensures q != [] ==> r == (q[0], q[1..])
    ensures q == [] ==> r == (NilArg, [])
  {
    if q == [] then (NilArg, []) else (q[0], q[1..])
  }

  /** `Array#[]`, where a negative index counts from the end. */
  function Index(xs: seq<Arg>, k: int): (r: Arg)
    ensures 0 <= k < |xs| ==> r == xs[k]
    ensures -|xs| <= k < 0 ==> r == xs[|xs| + k]
    ensures k >= |xs| || k < -|xs| ==> r == NilArg
  {
    if 0 <= k < |xs| then xs[k]
    else if -|xs| <= k < 0 then xs[|xs| + k]
    else NilArg
  }

  /** `format[i]`: nil past the end. */
  function CharAt(s: string, i: nat): (r: Option<char>)
    ensures i < |s| ==> r == Some(s[i])
    ensures i >= |s| ==> r == None
  {
    if i < |s| then Some(s[i]) else None
  }

  /** `s[i..]`, empty once `i` has run past the end. */
  function Suffix(s: string, i: nat): string {
    if i <= |s| then s[i..] else []
  }

  /** The interpreter's state: output pieces, unconsumed arguments, whether `%N$` was seen. */
  datatype State = State(pieces: seq<string>, queue: seq<Arg>, positionalUsed: bool) {
    function Emit(piece: string): State {
      this.(pieces := pieces + [piece])
    }
  }

  /** `arg || args.shift`: an explicit truthy argument, or else the next one in the queue. */
  function Take(arg: Arg, queue: seq<Arg>): (r: (Arg, seq<Arg>))
    ensures Truthy(arg) ==> r == (arg, queue)
    ensures !Truthy(arg) ==> r == Shift(queue)
  {
    if Truthy(arg) then (arg, queue) else Shift(queue)
  }

  /** The `append` lambda: one conversion character, with an optional explicit argument. */
  function Append(f: Option<char>, arg: Arg, st: State): (r: Result<State, Error>)
    ensures r.Ok? ==> r.value.positionalUsed == st.positionalUsed
  {
    match f
    case None => Err(Incomplete)
    case Some(c) =>
      if c == 'd' || c == 's' then
        var (x, q) := Take(arg, st.queue);
        Ok(st.Emit(ToS(x)).(queue := q))
      else if c == 'b' || c == 'x' then
        var (x, q) := Take(arg, st.queue);
        match ToSBase(x, if c == 'b' then 2 else 16)
        case Ok(text) => Ok(st.Emit(text).(queue := q))
        case Err(e) => Err(e)
      else if c == '%' then Ok(st.Emit("%"))
      else if c == '\n' then Ok(st.Emit("%\n"))
      else if c == '\0' then Ok(st.Emit("%\0"))
      else if c == ' ' then Err(InvalidSpace)
      else Err(Malformed(c))
  }

  /**
   * What one `append` does: on success it adds exactly one piece to the
   * output and consumes at most the first queued argument; it raises only
   * for a missing or unknown conversion character, or for `%b`/`%x` of an
   * object that is not an Integer.
   */
  lemma AppendEffect(f: Option<char>, arg: Arg, st: State)
    ensures var r := Append(f, arg, st);
      && (r.Ok? ==> |r.value.pieces| == |st.pieces| + 1 && r.value.pieces[..|st.pieces|] == st.pieces)
      && (r.Ok? ==> r.value.queue == st.queue || r.value.queue == Shift(st.queue).1)
      && (r.Err? <==>
          (f.None? || f.value !in "dsbx%\n\0" || (f.value in "bx" && !Take(arg, st.queue).0.IntArg?)))
  {
  }

  /** One unit of a format string. */
  datatype Directive =
    /** A character other than `%`. */
    | Literal(c: char)
    /** `%f`; `None` when the `%` ends the format. */
    | Spec(f: Option<char>)
    /** `%N$f`; `None` when the `$` ends the format. */
    | Positional(position: nat, f: Option<char>)
    /** `%N` not followed by `$`. */
    | Unfinished

  /** The number of leading decimal digits of `s`. */
  function DigitCount(s: string): (n: nat)
    ensures n <= |s|
    ensures forall k :: 0 <= k < n ==> Numerals.IsDecimalDigit(s[k])
    ensures n < |s| ==> !Numerals.IsDecimalDigit(s[n])
  {
    if s == [] || !Numerals.IsDecimalDigit(s[0]) then 0 else 1 + DigitCount(s[1..])
  }

  /** Splits a format string into directives; nothing after an `Unfinished` is read. */
  function Tokenize(s: string): seq<Directive>
    decreases |s|
  {
    if s == [] then []
    else if s[0] != '%' then [Literal(s[0])] + Tokenize(s[1..])
    else if |s| == 1 then [Spec(None)]
    else if !Numerals.IsDecimalDigit(s[1]) then [Spec(Some(s[1]))] + Tokenize(s[2..])
    else
      var j := 1 + DigitCount(s[1..]);
      var n := Numerals.ParseNat(s[1..j], 10);
      if j == |s| || s[j] != '$' then [Unfinished]
      else if j + 1 == |s| then [Positional(n, None)]
      else [Positional(n, Some(s[j + 1]))] + Tokenize(s[j + 2..])
  }

  /** The effect of one directive; `positional` is the operand as an array. */
  function Apply(d: Directive, positional: seq<Arg>, st: State): Result<State, Error> {
    match d
    case Literal(c) => Ok(st.Emit([c]))
    case Spec(f) => Append(f, NilArg, st)
    case Positional(n, f) =>
      var st1 := st.(positionalUsed := true);
      if f.None? then Ok(st1.Emit("%"))
      else Append(f, Index(positional, n as int - 1), st1)
    case Unfinished => Err(Todo)
  }

  /** Applies the directives left to right, stopping at the first error. */
  function Render(ds: seq<Directive>, positional: seq<Arg>, st: State): Result<State, Error>
    decreases |ds|
  {
    if ds == [] then Ok(st)
    else
      match Apply(ds[0], positional, st)
      case Err(e) => Err(e)
      case Ok(st1) => Render(ds[1..], positional, st1)
  }

  /** Interpreting the format `s` from state `st`. */
  function Run(s: string, positional: seq<Arg>, st: State): Result<State, Error> {
    Render(Tokenize(s), positional, st)
  }

  /** `result.join`. */
  function Join(pieces: seq<string>): string {
    if pieces == [] then "" else Join(pieces[..|pieces| - 1]) + pieces[|pieces| - 1]
  }

  /** The reference meaning of `self % operand`, `debug` standing for `$DEBUG`. */
  function FormatSpec(self: string, op: Operand, debug: bool): Result<string, Error> {
    var args := ToArray(op);
    match Run(self, args, State([], args, false))
    case Err(e) => Err(e)
    case Ok(st) =>
      if debug && AnyTruthy(st.queue) && !st.positionalUsed then Err(TooMany)
      else Ok(Join(st.pieces))
  }

  // ---------------------------------------------------------------------
  // Unfolding the tokenizer at a cursor, as the single-pass loop sees it.

  lemma TokenizeLiteralAt(s: string, i: nat)
    requires i < |s| && s[i] != '%'
    ensures Tokenize(s[i..]) == [Literal(s[i])] + Tokenize(Suffix(s, i + 1))
  {
    assert s[i..][1..] == s[i + 1..];
  }

  lemma TokenizeSpecAt(s: string, i: nat)
    requires i < |s| && s[i] == '%'
    requires i + 1 < |s| ==> !Numerals.IsDecimalDigit(s[i + 1])
    ensures Tokenize(s[i..]) == [Spec(CharAt(s, i + 1))] + Tokenize(Suffix(s, i + 2))
  {
    if i + 1 < |s| {
      assert s[i..][2..] == s[i + 2..];
    }
  }

  lemma DigitCountAt(s: string, a: nat, b: nat)
    requires a <= b <= |s|
    requires forall k :: a <= k < b ==> Numerals.IsDecimalDigit(s[k])
    requires b < |s| ==> !Numerals.IsDecimalDigit(s[b])
    ensures DigitCount(s[a..]) == b - a
    decreases b - a
  {
    if a < b {
      DigitCountAt(s, a + 1, b);
      assert s[a..][1..] == s[a + 1..];
    }
  }

  lemma TokenizePositionalAt(s: string, i: nat, j: nat)
    requires i + 1 < j <= |s| && s[i] == '%'
    requires forall k :: i + 1 <= k < j ==> Numerals.IsDecimalDigit(s[k])
    requires j < |s| ==> !Numerals.IsDecimalDigit(s[j])
    ensures Tokenize(s[i..]) ==
      if j == |s| || s[j] != '$' then [Unfinished]
      else [Positional(Numerals.ParseNat(s[i + 1..j], 10), CharAt(s, j + 1))] + Tokenize(Suffix(s, j + 2))
  {
    var t := s[i..];
    DigitCountAt(s, i + 1, j);
    assert t[1..] == s[i + 1..];
    assert t[1..1 + DigitCount(t[1..])] == s[i + 1..j];
    if j + 1 < |s| {
      assert t[j - i + 2..] == s[j + 2..];
    }
  }

  lemma RenderCons(d: Directive, ds: seq<Directive>, positional: seq<Arg>, st: State)
    ensures var a := Apply(d, positional, st);
      Render([d] + ds, positional, st) == if a.Err? then Err(a.error) else Render(ds, positional, a.value)
  {
    assert ([d] + ds)[1..] == ds;
  }

  /** One step of the loop at a character other than `%`. */
  lemma RunLiteralAt(s: string, i: nat, positional: seq<Arg>, st: State)
    requires i < |s| && s[i] != '%'
    ensures Run(s[i..], positional, st) == Run(Suffix(s, i + 1), positional, st.Emit([s[i]]))
  {
    TokenizeLiteralAt(s, i);
    RenderCons(Literal(s[i]), Tokenize(Suffix(s, i + 1)), positional, st);
  }

  /** One step of the loop at a `%` not followed by a digit. */
  lemma RunSpecAt(s: string, i: nat, positional: seq<Arg>, st: State)
    requires i < |s| && s[i] == '%'
    requires i + 1 < |s| ==> !Numerals.IsDecimalDigit(s[i + 1])
    ensures var a := Append(CharAt(s, i + 1), NilArg, st);
      Run(s[i..], positional, st) == if a.Err? then Err(a.error) else Run(Suffix(s, i + 2), positional, a.value)
  {
    TokenizeSpecAt(s, i);
    RenderCons(Spec(CharAt(s, i + 1)), Tokenize(Suffix(s, i + 2)), positional, st);
  }

  /** A `%` followed by the digits `s[i + 1..j]`: the loop's position has been read. */
  predicate PositionRead(s: string, i: nat, j: nat) {
    && i + 1 < j <= |s| && s[i] == '%'
    && (forall k :: i + 1 <= k < j ==> Numerals.IsDecimalDigit(s[k]))
    && (j < |s| ==> !Numerals.IsDecimalDigit(s[j]))
  }

  /** Digits not followed by `$` stop the loop with `raise 'todo'`. */
  lemma RunUnfinishedAt(s: string, i: nat, j: nat, positional: seq<Arg>, st: State)
    requires PositionRead(s, i, j) && (j == |s| || s[j] != '$')
    ensures Run(s[i..], positional, st) == Err(Todo)
  {
    TokenizePositionalAt(s, i, j);
  }

  /** `%N$` at the end of the format emits `%`. */
  lemma RunPositionalEndAt(s: string, i: nat, j: nat, positional: seq<Arg>, st: State)
    requires PositionRead(s, i, j) && j + 1 == |s| && s[j] == '$'
    ensures Run(s[i..], positional, st) == Ok(st.(positionalUsed := true).Emit("%"))
  {
    TokenizePositionalAt(s, i, j);
    RenderCons(Positional(Numerals.ParseNat(s[i + 1..j], 10), None), [], positional, st);
  }

  /** `%N$f` appends `f` with the N-th operand element as its explicit argument. */
  lemma RunPositionalArgAt(s: string, i: nat, j: nat, n: nat, positional: seq<Arg>, st: State, a: Result<State, Error>)
    requires PositionRead(s, i, j) && j + 1 < |s| && s[j] == '$'
    requires n == Numerals.ParseNat(s[i + 1..j], 10)
    requires a == Apply(Positional(n, Some(s[j + 1])), positional, st)
    ensures a.Err? ==> Run(s[i..], positional, st) == Err(a.error)
    ensures a.Ok? ==> Run(s[i..], positional, st) == Run(Suffix(s, j + 2), positional, a.value)
  {
    TokenizePositionalAt(s, i, j);
    RenderCons(Positional(Numerals.ParseNat(s[i + 1..j], 10), Some(s[j + 1])),
      Tokenize(s[j + 2..]), positional, st);
  }

  /** How the final state, or the error, of the interpretation becomes the result. */
  lemma FormatSpecOf(self: string, op: Operand, debug: bool, outcome: Result<State, Error>)
    requires outcome == Run(self, ToArray(op), State([], ToArray(op), false))
    ensures outcome.Err? ==> FormatSpec(self, op, debug) == Err(outcome.error)
    ensures outcome.Ok? ==>
      FormatSpec(self, op, debug) == (if debug && AnyTruthy(outcome.value.queue) && !outcome.value.positionalUsed then Err(TooMany)
       else Ok(Join(outcome.value.pieces)))
  {
  }

  // ---------------------------------------------------------------------
  // The runtime's loop.

  /**
   * The `begin ... end while` loop that accumulates the digits of a
   * positional specifier, starting at the digit `format[from]`.
   */
  method ReadPosition(format: string, from: nat) returns (position: nat, index: nat)
    requires from < |format| && Numerals.IsDecimalDigit(format[from])
    ensures from < index <= |format|
    ensures forall k :: from <= k < index ==> Numerals.IsDecimalDigit(format[k])
    ensures index < |format| ==> !Numerals.IsDecimalDigit(format[index])
    ensures position == Numerals.ParseNat(format[from..index], 10)
  {
    index := from;
    var d := CharAt(format, index);
    position := 0;
    assert format[from..index] == [];
    // the first pass of `begin ... end while` runs unconditionally
    while true
      invariant from <= index < |format|
      invariant d == Some(format[index]) && Numerals.IsDecimalDigit(format[index])
      invariant forall k :: from <= k < index ==> Numerals.IsDecimalDigit(format[k])
      invariant position == Numerals.ParseNat(format[from..index], 10)
      decreases |format| - index
    {
      assert format[from..index + 1][..index - from] == format[from..index];
      position := position * 10 + Numerals.DigitValue(d.value);
      index := index + 1;
      d := CharAt(format, index);
      if !(d.Some? && Numerals.IsDecimalDigit(d.value)) {
        return;
      }
    }
  }

  /**
   * One pass of the body of the main loop: handles the directive that starts
   * at `format[index]` and returns where the cursor stops (the index of the
   * last character consumed) together with the new state, or the error raised.
   */
  method Step(format: string, index: nat, positional: seq<Arg>, st: State) returns (r: Result<(nat, State), Error>)
    requires index < |format|
    ensures r.Err? ==> Run(format[index..], positional, st) == Err(r.error)
    ensures r.Ok? ==> index <= r.value.0 <= |format|
    ensures r.Ok? ==> Run(format[index..], positional, st) == Run(Suffix(format, r.value.0 + 1), positional, r.value.1)
  {
    var c := format[index];
    if c != '%' {
      RunLiteralAt(format, index, positional, st);
      return Ok((index, st.Emit([c])));
    }
    var i := index + 1;
    var f := CharAt(format, i);
    if !(f.Some? && Numerals.IsDecimalDigit(f.value)) {
      RunSpecAt(format, index, positional, st);
      var appended := Append(f, NilArg, st);
      if appended.Err? {
        return Err(appended.error);
      }
      return Ok((i, appended.value));
    }
    var position, next := ReadPosition(format, i);
    i := next;
    var d := CharAt(format, i);
    assert PositionRead(format, index, i);
    if d != Some('$') {
      RunUnfinishedAt(format, index, i, positional, st);
      return Err(Todo);
    }
    i := i + 1;
    var marked := st.(positionalUsed := true);
    f := CharAt(format, i);
    if f.None? {
      RunPositionalEndAt(format, index, i - 1, positional, st);
      return Ok((i, marked.Emit("%")));
    }
    var appended := Append(f, Index(positional, position as int - 1), marked);
    RunPositionalArgAt(format, index, i - 1, position, positional, st, appended);
    if appended.Err? {
      return Err(appended.error);
    }
    return Ok((i, appended.value));
  }

  /** `String#%` as the runtime runs it: one cursor, one output buffer, one argument queue. */
  method Format(self: string, op: Operand, debug: bool) returns (r: Result<string, Error>)
    ensures r == FormatSpec(self, op, debug)
  {
    var positional := ToArray(op);
    var args := ToArray(op);
    var format := self;
    var index := 0;
    var result: seq<string> := [];
    var positionalUsed := false;
    // what is left to do from the current state always yields the same outcome
    ghost var outcome := Run(format, positional, State([], args, false));
    FormatSpecOf(self, op, debug, outcome);
    assert Suffix(format, 0) == format;
    while index < |format|
      invariant index <= |format| + 1
      invariant Run(Suffix(format, index), positional, State(result, args, positionalUsed)) == outcome
    {
      var step := Step(format, index, positional, State(result, args, positionalUsed));
      if step.Err? {
        return Err(step.error);
      }
      index := step.value.0;
      result, args, positionalUsed := step.value.1.pieces, step.value.1.queue, step.value.1.positionalUsed;
      index := index + 1;
    }
    assert outcome == Ok(State(result, args, positionalUsed)) by {
      assert Suffix(format, index) == [];
      assert Tokenize([]) == [];
    }
    if debug && AnyTruthy(args) && !positionalUsed {
      return Err(TooMany);
    }
    return Ok(Join(result));
  }

  // ---------------------------------------------------------------------
  // What the interpreter promises, stated on the reference definition.

  /** One output piece per character. */
  function Pieces(p: string): (r: seq<string>)
    ensures |r| == |p| && forall i :: 0 <= i < |p| ==> r[i] == [p[i]]
  {
    if p == [] then [] else [[p[0]]] + Pieces(p[1..])
  }

  /** `to_s` of each argument, in order. */
  function Rendered(q: seq<Arg>): (r: seq<string>)
    ensures |r| == |q| && forall i :: 0 <= i < |q| ==> r[i] == ToS(q[i])
  {
    if q == [] then [] else [ToS(q[0])] + Rendered(q[1..])
  }

  /** `k` copies of `p`. */
  function Repeat(p: string, k: nat): string {
    if k == 0 then [] else p + Repeat(p, k - 1)
  }

  lemma {:induction false} JoinAppend(a: seq<string>, b: seq<string>)
    ensures Join(a + b) == Join(a) + Join(b)
    decreases |b|
  {
    if b == [] {
      assert a + b == a;
    } else {
      var b0 := b[..|b| - 1];
      assert (a + b)[..|a + b| - 1] == a + b0;
      JoinAppend(a, b0);
    }
  }

  lemma {:induction false} JoinPieces(p: string)
    ensures Join(Pieces(p)) == p
    decreases |p|
  {
    if p != [] {
      assert Pieces(p) == [[p[0]]] + Pieces(p[1..]);
      JoinAppend([[p[0]]], Pieces(p[1..]));
      JoinPieces(p[1..]);
      assert Join([[p[0]]]) == [p[0]] by {
        assert [[p[0]]][..0] == [];
      }
    }
  }

  /** Characters other than `%` are copied to the output, one piece each, in order. */
  lemma {:induction false} RunLiterals(p: string, s: string, positional: seq<Arg>, st: State)
    requires forall i :: 0 <= i < |p| ==> p[i] != '%'
    ensures Run(p + s, positional, st) == Run(s, positional, st.(pieces := st.pieces + Pieces(p)))
    decreases |p|
  {
    if p == [] {
      assert p + s == s && st.pieces + Pieces(p) == st.pieces;
    } else {
      var t := p + s;
      var st1 := st.Emit([p[0]]);
      assert Run(t, positional, st) == Run(p[1..] + s, positional, st1) by {
        RunLiteralAt(t, 0, positional, st);
        assert t[0..] == t && Suffix(t, 1) == p[1..] + s;
      }
      RunLiterals(p[1..], s, positional, st1);
      assert st1.pieces + Pieces(p[1..]) == st.pieces + Pieces(p);
    }
  }

  /** A format without `%` is returned unchanged; its arguments are unused surplus. */
  lemma FormatPlainText(self: string, op: Operand, debug: bool)
    requires forall i :: 0 <= i < |self| ==> self[i] != '%'
    ensures FormatSpec(self, op, debug) ==
      if debug && AnyTruthy(ToArray(op)) then Err(TooMany) else Ok(self)
  {
    var args := ToArray(op);
    var st := State([], args, false);
    var st1 := st.(pieces := Pieces(self));
    assert Run(self, args, st) == Ok(st1) by {
      RunLiterals(self, [], args, st);
      assert self + [] == self && [] + Pieces(self) == Pieces(self);
      assert Tokenize([]) == [];
    }
    JoinPieces(self);
    FormatSpecOf(self, op, debug, Ok(st1));
  }

  /** `%` followed by a non-digit `c` is one `append` of `c` without an explicit argument. */
  lemma RunSpec(c: char, s: string, positional: seq<Arg>, st: State)
    requires !Numerals.IsDecimalDigit(c)
    ensures var a := Append(Some(c), NilArg, st);
      Run(['%', c] + s, positional, st) == if a.Err? then Err(a.error) else Run(s, positional, a.value)
  {
    var t := ['%', c] + s;
    RunSpecAt(t, 0, positional, st);
    assert t[0..] == t && Suffix(t, 2) == s;
  }

  /** `%%` emits one `%` and consumes no argument. */
  lemma RunPercent(s: string, positional: seq<Arg>, st: State)
    ensures Run("%%" + s, positional, st) == Run(s, positional, st.Emit("%"))
  {
    RunSpec('%', s, positional, st);
  }

  /** `%d` and `%s` render the first queued argument and remove it from the queue. */
  lemma RunNext(c: char, s: string, positional: seq<Arg>, st: State)
    requires c == 'd' || c == 's'
    ensures Run(['%', c] + s, positional, st) ==
      Run(s, positional, State(st.pieces + [ToS(Shift(st.queue).0)], Shift(st.queue).1, st.positionalUsed))
  {
    RunSpec(c, s, positional, st);
  }

  /** `%b` and `%x` render the first queued argument in base 2 or 16; it must be an Integer. */
  lemma RunRadix(c: char, s: string, positional: seq<Arg>, st: State)
    requires c == 'b' || c == 'x'
    ensures var x := Shift(st.queue).0;
      Run(['%', c] + s, positional, st) ==
        if x.IntArg? then
          Run(s, positional, State(st.pieces + [Numerals.IntToString(x.i, if c == 'b' then 2 else 16)],
                                   Shift(st.queue).1, st.positionalUsed))
        else Err(NoRadix(x))
  {
    RunSpec(c, s, positional, st);
  }

  /** `%` before a newline or a NUL is kept together with that character. */
  lemma RunEscape(c: char, s: string, positional: seq<Arg>, st: State)
    requires c == '\n' || c == '\0'
    ensures Run(['%', c] + s, positional, st) == Run(s, positional, st.Emit(['%', c]))
  {
    RunSpec(c, s, positional, st);
  }

  /** A `%` that ends the format is an incomplete specifier. */
  lemma RunTrailingPercent(positional: seq<Arg>, st: State)
    ensures Run("%", positional, st) == Err(Incomplete)
  {
    RunSpecAt("%", 0, positional, st);
    assert "%"[0..] == "%";
  }

  /** `% ` is an invalid format character; any other unknown character is malformed. */
  lemma RunUnknown(c: char, s: string, positional: seq<Arg>, st: State)
    requires c !in "dsbx%\n\0" && !Numerals.IsDecimalDigit(c)
    ensures Run(['%', c] + s, positional, st) == Err(if c == ' ' then InvalidSpace else Malformed(c))
  {
    RunSpec(c, s, positional, st);
  }

  /** A format that starts with `%`, the decimal digits of `n` and `$` reads position `n`. */
  lemma PositionalDigits(t: string, n: nat)
    requires 1 + |Numerals.NatToString(n, 10)| < |t|
    requires t[..1 + |Numerals.NatToString(n, 10)|] == "%" + Numerals.NatToString(n, 10)
    requires t[1 + |Numerals.NatToString(n, 10)|] == '$'
    ensures var j := 1 + |Numerals.NatToString(n, 10)|;
      PositionRead(t, 0, j) && n == Numerals.ParseNat(t[1..j], 10)
  {
    var digits := Numerals.NatToString(n, 10);
    var j := 1 + |digits|;
    assert t[1..j] == digits by {
      assert t[1..j] == t[..j][1..];
    }
    forall k | 1 <= k < j
      ensures Numerals.IsDecimalDigit(t[k])
    {
      assert t[k] == digits[k - 1] && Numerals.IsDigitIn(digits[k - 1], 10);
    }
    Numerals.ParseNatToString(n, 10);
  }

  /**
   * `%N$c` appends `c` with the N-th element of the operand (1-based; `0`
   * reads the last one) as its explicit argument, and marks the format as
   * positional.
   */
  lemma RunPositional(n: nat, c: char, s: string, positional: seq<Arg>, st: State)
    ensures var a := Append(Some(c), Index(positional, n as int - 1), st.(positionalUsed := true));
      Run("%" + Numerals.NatToString(n, 10) + "$" + [c] + s, positional, st) ==
        if a.Err? then Err(a.error) else Run(s, positional, a.value)
  {
    var digits := Numerals.NatToString(n, 10);
    var t := "%" + digits + "$" + [c] + s;
    var j := 1 + |digits|;
    assert t[..j] == "%" + digits && t[j] == '$' && t[j + 1] == c;
    assert t[0..] == t && Suffix(t, j + 2) == s;
    PositionalDigits(t, n);
    var a := Apply(Positional(n, Some(c)), positional, st);
    assert Run(t, positional, st) == if a.Err? then Err(a.error) else Run(s, positional, a.value) by {
      RunPositionalArgAt(t, 0, j, n, positional, st, a);
    }
  }

  /** An explicit argument that is nil or false gives way to the next queued one. */
  lemma AppendFalsyArg(f: Option<char>, arg: Arg, st: State)
    requires !Truthy(arg)
    ensures Append(f, arg, st) == Append(f, NilArg, st)
  {
  }

  /** `%N$` at the end of the format emits `%`. */
  lemma RunPositionalEnd(n: nat, positional: seq<Arg>, st: State)
    ensures Run("%" + Numerals.NatToString(n, 10) + "$", positional, st) ==
      Ok(st.(positionalUsed := true).Emit("%"))
  {
    var digits := Numerals.NatToString(n, 10);
    var t := "%" + digits + "$";
    var j := 1 + |digits|;
    assert t[..j] == "%" + digits && t[0..] == t;
    PositionalDigits(t, n);
    RunPositionalEndAt(t, 0, j, positional, st);
  }

  /** Digits after `%` that are not followed by `$` raise `todo`. */
  lemma RunDigitsWithoutDollar(n: nat, s: string, positional: seq<Arg>, st: State)
    requires s == [] || (s[0] != '$' && !Numerals.IsDecimalDigit(s[0]))
    ensures Run("%" + Numerals.NatToString(n, 10) + s, positional, st) == Err(Todo)
  {
    var digits := Numerals.NatToString(n, 10);
    var t := "%" + digits + s;
    var j := 1 + |digits|;
    forall k | 1 <= k < j
      ensures Numerals.IsDecimalDigit(t[k])
    {
      assert t[k] == digits[k - 1] && Numerals.IsDigitIn(digits[k - 1], 10);
    }
    assert j < |t| ==> t[j] == s[0];
    RunUnfinishedAt(t, 0, j, positional, st);
    assert t[0..] == t;
  }

  /** `k` times `%s` renders the first `k` queued arguments, left to right. */
  lemma {:induction false} RunConsumesInOrder(k: nat, s: string, positional: seq<Arg>, st: State)
    requires k <= |st.queue|
    ensures Run(Repeat("%s", k) + s, positional, st) ==
      Run(s, positional, State(st.pieces + Rendered(st.queue[..k]), st.queue[k..], st.positionalUsed))
    decreases k
  {
    var q := st.queue;
    if k == 0 {
      assert Repeat("%s", 0) + s == s;
      assert Rendered(q[..0]) == [] && q[0..] == q;
      assert st.pieces + [] == st.pieces;
    } else {
      var rest := Repeat("%s", k - 1) + s;
      assert Repeat("%s", k) + s == ['%', 's'] + rest;
      var st1 := State(st.pieces + [ToS(q[0])], q[1..], st.positionalUsed);
      assert Run(['%', 's'] + rest, positional, st) == Run(rest, positional, st1) by {
        RunNext('s', rest, positional, st);
      }
      RunConsumesInOrder(k - 1, s, positional, st1);
      assert q[1..][..k - 1] == q[1..k] && q[1..][k - 1..] == q[k..];
      assert st1.pieces + Rendered(q[1..k]) == st.pieces + Rendered(q[..k]);
    }
  }

  lemma RunEachArgument(xs: seq<Arg>)
    ensures Run(Repeat("%s", |xs|), xs, State([], xs, false)) == Ok(State(Rendered(xs), [], false))
  {
    var format := Repeat("%s", |xs|);
    RunConsumesInOrder(|xs|, [], xs, State([], xs, false));
    assert format + [] == format;
    assert xs[..|xs|] == xs && xs[|xs|..] == [];
    assert [] + Rendered(xs) == Rendered(xs);
    assert Tokenize([]) == [];
  }

  /** Formatting `%s` once per argument prints them all in order and leaves no surplus. */
  lemma FormatEachArgument(xs: seq<Arg>, debug: bool)
    ensures FormatSpec(Repeat("%s", |xs|), List(xs), debug) == Ok(Join(Rendered(xs)))
  {
    RunEachArgument(xs);
    FormatSpecOf(Repeat("%s", |xs|), List(xs), debug, Ok(State(Rendered(xs), [], false)));
  }

  /** `$DEBUG` only adds the surplus-argument error; it never changes an output or another error. */
  lemma DebugOnlyAddsSurplusCheck(self: string, op: Operand)
    ensures FormatSpec(self, op, true) == FormatSpec(self, op, false) || FormatSpec(self, op, true) == Err(TooMany)
    ensures FormatSpec(self, op, false).Err? ==> FormatSpec(self, op, true) == FormatSpec(self, op, false)
  {
  }

  // ---------------------------------------------------------------------
  // Worked examples.

  lemma JoinOne(a: string)
    ensures Join([a]) == a
  {
    assert [a][..0] == [];
  }

  lemma JoinThree(a: string, b: string, c: string)
    ensures Join([a, b, c]) == a + b + c
  {
    assert [a, b, c][..2] == [a, b] && [a, b][..1] == [a];
    JoinOne(a);
  }

  lemma RunEmpty(positional: seq<Arg>, st: State)
    ensures Run([], positional, st) == Ok(st)
  {
    assert Tokenize([]) == [];
  }

  /** `%d` and `%s` take the arguments in order. */
  lemma ExampleSequentialRun(args: seq<Arg>)
    requires args == [IntArg(1), StrArg("a")]
    ensures Run("%d %s", args, State([], args, false)) == Ok(State(["1", " ", "a"], [], false))
  {
    var st := State([], args, false);
    assert "%d %s" == ['%', 'd'] + " %s" && " %s" == " " + "%s" && "%s" == ['%', 's'] + [];
    var st1 := State(["1"], [StrArg("a")], false);
    assert Run("%d %s", args, st) == Run(" %s", args, st1) by {
      RunNext('d', " %s", args, st);
      assert Numerals.IntToString(1, 10) == "1";
      assert ToS(IntArg(1)) == "1" && Shift(args) == (IntArg(1), [StrArg("a")]);
      assert st.pieces + ["1"] == ["1"];
    }
    var st2 := State(["1", " "], [StrArg("a")], false);
    assert Run(" %s", args, st1) == Run("%s", args, st2) by {
      RunLiterals(" ", "%s", args, st1);
      assert Pieces(" ") == [" "];
      assert st1.(pieces := st1.pieces + Pieces(" ")) == st2;
    }
    var st3 := State(["1", " ", "a"], [], false);
    RunNext('s', [], args, st2);
    assert st2.queue[1..] == [];
    assert st2.pieces + ["a"] == st3.pieces;
    RunEmpty(args, st3);
  }

  lemma ExampleSequential()
    ensures FormatSpec("%d %s", List([IntArg(1), StrArg("a")]), true) == Ok("1 a")
  {
    var args := [IntArg(1), StrArg("a")];
    ExampleSequentialRun(args);
    JoinThree("1", " ", "a");
    assert "1" + " " + "a" == "1 a";
    FormatSpecOf("%d %s", List(args), true, Ok(State(["1", " ", "a"], [], false)));
  }

  /** `%1$s` at the end of `ExamplePositional` emits the first element. */
  lemma ExamplePositionalLast(args: seq<Arg>)
    requires args == [StrArg("a"), StrArg("b")]
    ensures Run("%1$s", args, State(["b", "-"], args, true)) == Ok(State(["b", "-", "a"], args, true))
  {
    var st2 := State(["b", "-"], args, true);
    var st3 := State(["b", "-", "a"], args, true);
    assert Numerals.NatToString(1, 10) == "1";
    assert "%1$s" == "%" + Numerals.NatToString(1, 10) + "$" + ['s'] + [];
    RunPositional(1, 's', [], args, st2);
    assert Append(Some('s'), StrArg("a"), st2) == Ok(st3) by {
      assert st2.pieces + ["a"] == st3.pieces;
    }
    RunEmpty(args, st3);
  }

  /** The tail of `ExamplePositional`, after `%2$s` has emitted `b`. */
  lemma ExamplePositionalTail(args: seq<Arg>)
    requires args == [StrArg("a"), StrArg("b")]
    ensures Run("-%1$s", args, State(["b"], args, true)) == Ok(State(["b", "-", "a"], args, true))
  {
    var st1 := State(["b"], args, true);
    var st2 := State(["b", "-"], args, true);
    assert "-%1$s" == "-" + "%1$s";
    RunLiterals("-", "%1$s", args, st1);
    assert Pieces("-") == ["-"];
    assert st1.(pieces := st1.pieces + Pieces("-")) == st2;
    ExamplePositionalLast(args);
  }

  /** `%2$s` emits the second element and leaves the queue alone. */
  lemma ExamplePositionalHead(args: seq<Arg>)
    requires args == [StrArg("a"), StrArg("b")]
    ensures Run("%2$s-%1$s", args, State([], args, false)) == Run("-%1$s", args, State(["b"], args, true))
  {
    var st := State([], args, false);
    assert Numerals.NatToString(2, 10) == "2";
    assert "%2$s-%1$s" == "%" + Numerals.NatToString(2, 10) + "$" + ['s'] + "-%1$s";
    RunPositional(2, 's', "-%1$s", args, st);
    assert Append(Some('s'), StrArg("b"), st.(positionalUsed := true)) == Ok(State(["b"], args, true)) by {
      assert [] + ["b"] == ["b"];
    }
  }

  lemma ExamplePositionalRun(args: seq<Arg>)
    requires args == [StrArg("a"), StrArg("b")]
    ensures Run("%2$s-%1$s", args, State([], args, false)) == Ok(State(["b", "-", "a"], args, true))
  {
    ExamplePositionalHead(args);
    ExamplePositionalTail(args);
  }

  lemma ExamplePositional()
    ensures FormatSpec("%2$s-%1$s", List([StrArg("a"), StrArg("b")]), true) == Ok("b-a")
  {
    var args := [StrArg("a"), StrArg("b")];
    ExamplePositionalRun(args);
    JoinThree("b", "-", "a");
    assert "b" + "-" + "a" == "b-a";
    FormatSpecOf("%2$s-%1$s", List(args), true, Ok(State(["b", "-", "a"], args, true)));
  }

  /** `%0$` reads index -1, the last element of the operand. */
  lemma ExampleZeroPosition()
    ensures FormatSpec("%0$s", List([StrArg("a"), StrArg("b")]), false) == Ok("b")
  {
    var args := [StrArg("a"), StrArg("b")];
    var st := State([], args, false);
    var st1 := State(["b"], args, true);
    assert Run("%0$s", args, st) == Ok(st1) by {
      assert Numerals.NatToString(0, 10) == "0";
      assert "%0$s" == "%" + Numerals.NatToString(0, 10) + "$" + ['s'] + [];
      RunPositional(0, 's', [], args, st);
      assert Append(Some('s'), StrArg("b"), st.(positionalUsed := true)) == Ok(st1) by {
        assert [] + ["b"] == ["b"];
      }
      RunEmpty(args, st1);
    }
    JoinOne("b");
    FormatSpecOf("%0$s", List(args), false, Ok(st1));
  }

  /** An unused argument is an error only under `$DEBUG`. */
  lemma ExampleSurplus()
    ensures FormatSpec("%s", List([StrArg("a"), StrArg("b")]), false) == Ok("a")
    ensures FormatSpec("%s", List([StrArg("a"), StrArg("b")]), true) == Err(TooMany)
  {
    var args := [StrArg("a"), StrArg("b")];
    var st := State([], args, false);
    var st1 := State(["a"], [StrArg("b")], false);
    assert Run("%s", args, st) == Ok(st1) by {
      assert "%s" == ['%', 's'] + [];
      RunNext('s', [], args, st);
      assert args[1..] == [StrArg("b")] && [] + ["a"] == ["a"];
      RunEmpty(args, st1);
    }
    JoinOne("a");
    assert AnyTruthy(st1.queue) by {
      assert Truthy(st1.queue[0]);
    }
    FormatSpecOf("%s", List(args), false, Ok(st1));
    FormatSpecOf("%s", List(args), true, Ok(st1));
  }

  lemma ExampleHex()
    ensures FormatSpec("%x", Single(IntArg(255)), false) == Ok("ff")
  {
    var args := [IntArg(255)];
    var st := State([], args, false);
    var st1 := State(["ff"], [], false);
    assert Run("%x", args, st) == Ok(st1) by {
      assert Numerals.IntToString(255, 16) == "ff" by {
        assert Numerals.NatToString(15, 16) == "f";
        Numerals.DivStep(255, 16);
        assert Numerals.NatToString(255, 16) == Numerals.NatToString(15, 16) + "f";
      }
      assert "%x" == ['%', 'x'] + [];
      RunRadix('x', [], args, st);
      assert args[1..] == [] && [] + ["ff"] == ["ff"];
      RunEmpty(args, st1);
    }
    JoinOne("ff");
    FormatSpecOf("%x", Single(IntArg(255)), false, Ok(st1));
  }
}
