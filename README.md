# Natalie runtime core: a Dafny model

This project models four pieces of the Natalie Ruby implementation and
proves properties of the model.

- **`Args`** (`args.dfy`) is the argument vector that every native method and
  block receives. The model covers indexed access with and without a
  default, `shift`, and `to_array_for_block`. That last one packs the
  arguments for a block call: it spreads a single array argument, truncates
  to the block's maximum and pads with nil up to its minimum. The model also
  covers the three arity checks with their `ArgumentError` messages, and
  keyword-argument lookup in the trailing keyword hash. An `Args` is a
  value: copying and assigning it copies its two fields. `to_array_for_block`
  builds a new array object and truncates or fills it in place, so that array
  is a class, `Args.ArrayObject`.
- **`String#%`** (`string_format.dfy`) is the runtime's own format
  interpreter, written in Ruby. It handles `%d %s %b %x %%`, `%` followed by
  a newline or NUL, and positional `%N$f`. It raises for every malformed
  specifier, and under `$DEBUG` it raises when arguments are left over.
  The model has two halves:
  - a reference definition, in which `Tokenize` splits the format into
    directives and `Render` folds the directives over a state of output
    pieces and the argument queue;
  - the single-pass loop the runtime runs (`Format`, one pass per `Step`),
    proved equal to the reference.

  Properties are then proved on the reference.
- **Symbols** (`symbol_object.dfy`) covers:
  - the process-wide intern table, modelled as a class holding a map from
    names to symbol objects;
  - `all_symbols`;
  - the cached frozen string returned by `name`;
  - `<=>`, `casecmp` and `casecmp?`;
  - the decision whether `inspect` quotes a symbol name.

  That decision depends on a regular expression built with the ignore-case
  option. The model writes that expression out as a grammar of predicates
  (`IsSpecialGlobal`, `IsVariableLike`, `IsOperator`).
- **The REPL session** (`repl.dfy`) models `REPL#go` and the body of its
  `prompt` block, with these parts:
  - the session state `env`, `vars` and `repl_num`;
  - the `require` lines put in front of the input;
  - the three parse outcomes;
  - the rewrite that prints the value of the last statement;
  - compilation with the snippet number and the current variables;
  - loading, building the top environment once, evaluating, and cleaning up.

  The parser and the compiler are function parameters. The temporary file,
  the dynamic loader, the calls into the loaded library, standard error and
  file removal are recorded in an effect log, `Session.effects`, which the
  session invariant talks about.

Shared support:
- `wrappers.dfy` holds `Option`, `Result` and `Outcome`.
- `values.dfy` holds the runtime values the core inspects.
- `numerals.dfy` renders integers in bases 2 to 16 and proves the rendering
  round-trips through a parser. Both `to_s(base)` and the size formatting in
  the arity messages use it.

What the REPL code does, as modelled:
- `repl_num` is incremented while the compiler is set up, before `compile`
  runs. A snippet whose compilation raises has therefore still used up a
  number, and the exception leaves the block: `Prompt` returns `Raised`.
- The temporary file is removed only on the success path. Nothing removes it
  when compilation raises.
- The `require` lines are put in front of every input until a snippet has
  been handed to the compiler, a compilation that raises included. They are
  added again after an incomplete input, a syntax error or an empty program
  (`Repl.Input`).
- The loaded library is never closed.

Two observations about `Symbol#inspect` follow from the proofs. Both are
about names made of ASCII bytes, where the ignore-case pattern matches
exactly what the grammar of predicates accepts:
- For such names the loop over the name's bytes never changes the
  decision, because every name the pattern accepts is printable
  (`Symbols.NeedsQuoteByPattern`). Under Unicode case folding the pattern
  can also match some bytes outside ASCII, and for those names the loop
  does matter.
- Every name of two or more bytes that starts with `$` is printed bare,
  `:"$ x"` included (`Symbols.DollarExamples`).

## Model

| member | source | states |
|---|---|---|
| Args.At | src/args.cpp:5-15 | `operator[]` and `at(index)`: for an index the caller guarantees is in range, the argument at that position |
| Args.AtOr | src/args.cpp:17-21 | the default for every index at or past the end, otherwise the same value as `At` |
| Args.Shift | src/args.cpp:43-49 | the vector without its first argument: one shorter, element `i` is old element `i + 1`, keyword flag kept; a one-argument vector becomes the default empty vector |
| Args.ShiftAtOr | src/args.cpp:43-49 | index `i` of the shifted vector reads index `i + 1` of the original, defaults included |
| Args.ToAry | src/args.cpp:57 | the spread argument as an array: an Array's own elements, any other value as a one-element array |
| Args.BlockArgs | src/args.cpp:55-71 | the block receives the first `kept` source values in order and nil after them, where `kept` is `max_count` when the source is truncated and the source size otherwise |
| Args.BlockArgsLength | src/args.cpp:55-71 | the block receives `max_count` values when a spread array was truncated; otherwise the kept values padded up to `min_count` |
| Args.TruncateThenPad | src/args.cpp:65-69 | without spreading, padding follows truncation (`[a, b]` with max 1, min 3 gives `[a, nil, nil]`); a truncated spread array is not padded |
| Args.ArrayObject.constructor | src/args.cpp:66 | a new array holding exactly the given elements |
| Args.ArrayObject.Truncate | src/args.cpp:60 | the elements from index `size` on are dropped; a shorter array is unchanged |
| Args.ArrayObject.Fill | src/args.cpp:62 | positions `start` to `start + length - 1` hold the value, growing the array as needed; every other element is unchanged |
| Args.ToArrayForBlock | src/args.cpp:55-71 | a fresh array whose elements are `BlockArgs`, built by truncating or filling in place |
| Args.WrongNumber | src/args.cpp:75 | the ArgumentError text `wrong number of arguments (given N, expected E)`, with the given count in decimal |
| Args.EnsureArgcIs | src/args.cpp:73-76 | raises exactly when the count differs from `expected`, with "wrong number of arguments (given N, expected M)" |
| Args.EnsureArgcBetween | src/args.cpp:78-81 | raises exactly when the count is outside `low..high`, with "(given N, expected L..H)" |
| Args.EnsureArgcAtLeast | src/args.cpp:83-86 | raises exactly when the count is below `expected`, with "(given N, expected M+)" |
| Args.ArityChecksAgree | src/args.cpp:73-86 | an exact check passes iff the range check `n..n` passes, and then the at-least check passes |
| Args.ExactArityMessages | src/args.cpp:73-76 | the messages test/natalie/method_test.rb lines 103 and 108 expect for a one-argument method called with 0 and 2 arguments |
| Args.RangeArityMessages | src/args.cpp:78-81 | the messages test/natalie/method_test.rb lines 104 and 109 expect for a 1..2 method called with 0 and 3 arguments |
| Args.WrongNumberInjective | src/args.cpp:75 | the given count can be read back from the message: different counts give different messages |
| Args.HashGet | src/args.cpp:94 | the hash's value for the key, or null exactly when the key is absent |
| Args.KeywordArg | src/args.cpp:88-95 | nil without a keyword flag, without arguments or when the last argument is not a hash; otherwise the hash's entry for the symbol `name` |
| Numerals.NatToString | src/string.rb:16-20 | a rendering is non-empty, uses only digits of the base and has no leading zero |
| Numerals.ParseNatToString | src/string.rb:16-20 | parsing the rendering of a natural number gives it back |
| Numerals.IntToStringRoundTrip | src/string.rb:16-20 | parsing the rendering of any integer, sign included, gives it back |
| Numerals.IntToStringInjective | src/string.rb:16-20 | distinct integers render differently |
| StringFormat.ToArray | src/string.rb:6-7 | `Array(operand)`: an array as it is, nil as no arguments, anything else as a single argument |
| StringFormat.AnyTruthy | src/string.rb:74 | `args.any?` holds iff some remaining argument is neither nil nor false |
| StringFormat.ToSBase | src/string.rb:17-20 | `to_s(2)` and `to_s(16)` succeed exactly on Integers |
| StringFormat.Shift | src/string.rb:16 | `args.shift`: the first argument and the rest, nil from an empty queue |
| StringFormat.Index | src/string.rb:58 | `positional_args[position - 1]`: in-range index, negative index from the end, nil otherwise |
| StringFormat.CharAt | src/string.rb:43 | `format[index]`: the character, or nil past the end |
| StringFormat.Take | src/string.rb:16 | `arg \|\| args.shift`: a truthy explicit argument leaves the queue alone, otherwise the queue is shifted |
| StringFormat.Append | src/string.rb:13-36 | the `append` lambda: `%d`/`%s` emit `to_s` and `%b`/`%x` base 2/16 of `arg \|\| args.shift`; `%`, newline and NUL are passed through; a space, a missing character and any other character raise their three errors; the positional flag is kept |
| StringFormat.ToS | src/string.rb:16 | `to_s` of the modelled argument kinds: nil as the empty string, booleans as `true`/`false`, Integers in decimal, Strings as themselves |
| StringFormat.AppendEffect | src/string.rb:13-36 | a successful `append` adds exactly one output piece and consumes at most the first queued argument; it raises iff the character is missing or unknown, or `%b`/`%x` meets a non-Integer |
| StringFormat.Tokenize | src/string.rb:38-72 | the reference reading of the format: a literal per ordinary character, `%f`, `%N$f` (or `%N$` at the end), a trailing `%`, and `%N` without `$`, after which nothing more is read |
| StringFormat.Render | src/string.rb:38-72 | the directives applied left to right to the output and argument queue, stopping at the first error |
| StringFormat.FormatSpec | src/string.rb:5-79 | the reference meaning of `self % operand`: render the format over `Array(operand)`, raise "too many arguments" under `$DEBUG` when a truthy argument is left and no positional specifier was used, else join the pieces |
| StringFormat.DigitCount | src/string.rb:48-52 | the length of the leading run of decimal digits |
| StringFormat.ReadPosition | src/string.rb:45-52 | the `begin ... end while` loop stops at the first non-digit and has accumulated the decimal value of the digits it passed |
| StringFormat.Step | src/string.rb:39-71 | one pass of the main loop: the outcome of the rest of the format is unchanged, or the error it raises is the one the reference raises |
| StringFormat.Format | src/string.rb:5-79 | the runtime loop computes exactly the reference result `FormatSpec`, errors included |
| StringFormat.RunLiterals | src/string.rb:68-69 | characters other than `%` are copied to the output one by one, touching no argument |
| StringFormat.FormatPlainText | src/string.rb:5-79 | a format without `%` gives itself, except that `$DEBUG` with a truthy argument raises "too many arguments" |
| StringFormat.RunSpec | src/string.rb:65-66 | `%f` with `f` not a digit acts as `append` of `f` and resumes after it |
| StringFormat.RunPercent | src/string.rb:23-24 | `%%` outputs one `%` |
| StringFormat.RunNext | src/string.rb:15-22 | `%d` and `%s` output `to_s` of the next queued argument and consume it |
| StringFormat.RunRadix | src/string.rb:17-20 | `%b`/`%x` output the next argument in base 2/16 and consume it, or raise for a non-Integer |
| StringFormat.RunEscape | src/string.rb:25-28 | `%` followed by a newline or NUL outputs both characters |
| StringFormat.RunTrailingPercent | src/string.rb:31-32 | a format ending in `%` raises "incomplete format specifier" |
| StringFormat.RunUnknown | src/string.rb:29-34 | any other character after `%` raises: "invalid format character" for a space, "malformed format string - %c" otherwise |
| StringFormat.PositionalDigits | src/string.rb:45-52 | the digits of `%N$` are read as the number `N` |
| StringFormat.RunPositional | src/string.rb:53-58 | `%N$f` marks positional use and appends `f` with argument `N - 1` of the operand (counted from the end when `N` is 0) |
| StringFormat.AppendFalsyArg | src/string.rb:16 | an explicit nil or false argument is replaced by the next queued argument |
| StringFormat.RunPositionalEnd | src/string.rb:59-60 | `%N$` at the end of the format outputs `%` |
| StringFormat.RunDigitsWithoutDollar | src/string.rb:62-63 | `%N` not followed by `$` raises "todo" |
| StringFormat.RunConsumesInOrder | src/string.rb:21-22 | `k` copies of `%s` output the first `k` queued arguments in order and leave the rest queued |
| StringFormat.RunEachArgument | src/string.rb:38-72 | one `%s` per argument uses up the whole queue and renders every argument |
| StringFormat.FormatEachArgument | src/string.rb:5-79 | one `%s` per array element gives the elements' `to_s` joined, with or without `$DEBUG` |
| StringFormat.DebugOnlyAddsSurplusCheck | src/string.rb:74-76 | `$DEBUG` changes a result only into "too many arguments", and never changes an error |
| StringFormat.ExampleSequential | src/string.rb:38-72 | `"%d %s" % [1, "a"]` is `"1 a"` |
| StringFormat.ExamplePositional | src/string.rb:53-58 | `"%2$s-%1$s" % ["a", "b"]` is `"b-a"` |
| StringFormat.ExampleZeroPosition | src/string.rb:58 | `"%0$s" % ["a", "b"]` reads index -1 and gives `"b"` |
| StringFormat.ExampleSurplus | src/string.rb:74-76 | `"%s" % ["a", "b"]` is `"a"`, and raises "too many arguments" under `$DEBUG` |
| StringFormat.ExampleHex | src/string.rb:19-20 | `"%x" % 255` is `"ff"` |
| Symbols.StringObject.constructor | src/symbol_object.cpp:143 | a new unfrozen string with the given text |
| Symbols.StringObject.Freeze | src/symbol_object.cpp:144 | the string is frozen |
| Symbols.SymbolObject.constructor | src/symbol_object.cpp:14 | a new symbol with the name and no cached string |
| Symbols.SymbolTable.constructor | src/symbol_object.cpp:11 | the table starts empty and valid |
| Symbols.SymbolTable.Intern | src/symbol_object.cpp:5-17 | a known name gives its existing symbol and leaves the table unchanged; a new name gets a fresh symbol and exactly one new entry; the table stays keyed by name |
| Symbols.SymbolTable.AllSymbols | src/symbol_object.cpp:19-25 | one element per table entry: every element is the table's symbol for its name, every interned symbol appears, no symbol twice |
| Symbols.SymbolTable.Name | src/symbol_object.cpp:140-147 | a frozen string with the symbol's name, cached on the interned symbol: created on the first call, the identical object on every later call; every other symbol keeps its entry and its cached string |
| Symbols.NameIsStable | src/symbol_object.cpp:140-147 | `name` of a symbol returns the identical frozen string again after `name` of any other symbol |
| Symbols.DistinctNamesDistinctSymbols | src/symbol_object.cpp:10-17 | two names share a symbol iff they are the same name |
| Symbols.InternTwice | src/symbol_object.cpp:10-17 | interning a name twice gives the identical symbol and adds at most one entry |
| Symbols.Compare | src/symbol_object.cpp:125 | the name order is -1, 0 or 1 |
| Symbols.CompareZeroIffEqual | src/symbol_object.cpp:122-126 | the order is 0 iff the names are equal |
| Symbols.CompareAntisymmetric | src/symbol_object.cpp:122-126 | swapping the operands negates the order |
| Symbols.CompareTransitive | src/symbol_object.cpp:122-126 | the order is transitive |
| Symbols.Cmp | src/symbol_object.cpp:122-126 | `<=>` is nil against a non-symbol, otherwise the Integer order `Compare` of the two names, which is 0 iff the names are equal |
| Symbols.Downcase | src/symbol_object.cpp:90-91 | `downcase(:ascii)` keeps the length and changes exactly `A`-`Z` |
| Symbols.DowncaseIdempotent | src/symbol_object.cpp:90-91 | downcasing twice is downcasing once |
| Symbols.Casecmp | src/symbol_object.cpp:86-93 | nil against a non-symbol, otherwise the order of the downcased names |
| Symbols.IsCasecmp | src/symbol_object.cpp:95-105 | nil against a non-symbol, otherwise a boolean |
| Symbols.CasecmpAgree | src/symbol_object.cpp:86-105 | `casecmp?` is true iff `casecmp` is 0, and nil iff `casecmp` is nil |
| Symbols.CasecmpIgnoresCase | src/symbol_object.cpp:86-93 | downcasing either operand first does not change `casecmp` |
| Symbols.CasecmpAntisymmetric | src/symbol_object.cpp:86-93 | swapping the operands negates `casecmp` |
| Symbols.IsPlain | src/symbol_object.cpp:30-31 | the ignore-case pattern matches the whole name: a special global, an identifier with optional `@`, `@@` or `$` and optional `?`/`!`/`=`, or one of the listed operators |
| Symbols.NeedsQuote | src/symbol_object.cpp:31-38 | quoted when the pattern fails or a byte is outside 33..126, except that a name of two or more bytes starting with `$` is never quoted |
| Symbols.Inspect | src/symbol_object.cpp:27-46 | `:` followed by the name, quoted by the string's `inspect` exactly when `NeedsQuote` holds (pattern mismatch or an unprintable byte, overridden by the `$` rule) |
| Symbols.PlainIsPrintable | src/symbol_object.cpp:30-36 | every name the pattern accepts consists of bytes 33 to 126 |
| Symbols.NeedsQuoteByPattern | src/symbol_object.cpp:30-38 | a name is quoted iff the `$` rule does not apply and the pattern rejects it |
| Symbols.UnprintableIsQuoted | src/symbol_object.cpp:32-38 | a name with an unprintable byte is quoted iff it is not a `$` name of two or more bytes |
| Symbols.BareIdentifierExamples | src/symbol_object.cpp:30 | `:foo`, `:foo?` and `:Foo=` print bare |
| Symbols.BareVariableExamples | src/symbol_object.cpp:30 | `:@x`, `:@@x` and `:$stdout` print bare |
| Symbols.BareOperatorExamples | src/symbol_object.cpp:30 | `:==`, `:[]=` and `:**` print bare |
| Symbols.QuotedExamples | src/symbol_object.cpp:30-31 | the empty name, `foo bar` and `9a` are quoted |
| Symbols.DollarExamples | src/symbol_object.cpp:37-38 | `$ x` and `$-w` print bare |
| Repl.RequirePrefixAppend | lib/natalie/repl/main.rb:18-19 | the require prefix of a concatenated list is the concatenation of the prefixes |
| Repl.RequirePrefixLines | lib/natalie/repl/main.rb:18-19 | each entry adds exactly the line `require '<entry>'` and a newline, after those of the earlier entries |
| Repl.Input | lib/natalie/repl/main.rb:17-20 | the input always ends with the user's text; the require lines come first exactly while `repl_num` is 0 (no snippet has yet been handed to the compiler) and some are configured |
| Repl.Rewrite | lib/natalie/repl/main.rb:31-32 | `ast.pop` then `ast << puts((_ = last).inspect)`: the earlier statements followed by the wrapped last one |
| Repl.RewriteWrapsLast | lib/natalie/repl/main.rb:31-32 | the rewrite keeps the statement count and every statement but the last; the last becomes `puts((_ = last).inspect)` |
| Repl.RewriteRoundTrip | lib/natalie/repl/main.rb:31-32 | the original program can be read back from the rewritten one |
| Repl.LoadEffects | lib/natalie/repl/main.rb:41-48 | in order: `dlopen`, the library's `GC_disable`, `build_top_env` only when `env` is nil, `EVAL(env)`, unlinking the file, and removing the `.dSYM` directory when there is one |
| Repl.LoadEffectsCounts | lib/natalie/repl/main.rb:41-48 | loading a snippet compiles nothing and builds the top environment only when asked to |
| Repl.Consistent | lib/natalie/repl/main.rb:10-45 | the session invariant: `repl_num` counts the compilations, `build_top_env` ran at most once and exactly when `env` is set, and every `EVAL` used that `env` |
| Repl.ConsistentAfterStderr | lib/natalie/repl/main.rb:25-27 | reporting a syntax error keeps the session invariant |
| Repl.ConsistentAfterCompile | lib/natalie/repl/main.rb:33-39 | a compilation with the next snippet number keeps the invariant |
| Repl.ConsistentAfterLoad | lib/natalie/repl/main.rb:41-48 | loading and evaluating keeps the invariant: the environment is built at most once and every evaluation uses it |
| Repl.Session.constructor | lib/natalie/repl/main.rb:9-12 | the collector is disabled; `env` is nil, `vars` is empty, `repl_num` is 0, and the invariant holds |
| Repl.Session.Prompt | lib/natalie/repl/main.rb:15-50 | incomplete input or an empty program returns `:continue` with nothing changed; a syntax error goes to standard error and returns `:next`; a program is counted, rewritten, compiled with the current vars, then loaded and run in the one environment; the invariant is kept |
| Repl.Session.Evaluate | lib/natalie/repl/main.rb:33-49 | `repl_num` goes up by one before compilation; a failed compilation leaves vars and env alone; otherwise vars become the compiler's, env is built once, and the run is logged in order |

## Left out

- `Args::to_array` and the constructors, copy constructor and assignment operator of `Args` (src/args.cpp:23-41, 51-53) are not separate members: `Args` is a value, so copying it copies its fields.
- Args.ToAry: `to_ary` is not part of this model. An Array gives its elements and any other value a one-element array; conversion methods defined by the user are not modelled.
- Args.HashGet: `HashObject::get` is not part of this model. It is modelled as a map lookup that returns null for a missing key, without `default` procs or `eql?`/`hash` dispatch.
- Args.BlockArgs: requires `max_count >= -1`, because callers pass -1 for "no maximum". A more negative value, which the C++ would cast to an enormous `size_t`, is not modelled.
- The `assert` in `operator[]`, `at(index)` and `shift` becomes a precondition of `At` and `Shift`.
- Numerals: the `{}` formatting of `size_t` and `Integer#to_s` are not part of this model. Both are modelled as plain decimal rendering (and bases 2 and 16 for `%b`/`%x`).
- StringFormat.ToS: `to_s` is modelled only for nil, booleans, Integers and Strings. Method dispatch to other objects' `to_s` is not modelled. `to_s(base)` on a non-Integer is modelled as the error `NoRadix`, because its message comes from code outside this model.
- StringFormat.ToArray: `Array()` of hashes and of objects with `to_a`/`to_ary` is not modelled.
- String#% runs on characters, not on bytes or encodings.
- Symbols.Compare: `String::cmp` is not part of this model. It is modelled as byte-wise lexicographic order normalised to -1, 0 or 1, with a proper prefix ordered first.
- Symbols.IsCasecmp: its contract states only that the result is a boolean. How it relates to the names is stated by `CasecmpAgree`.
- Symbols.Inspect: `StringObject#inspect` is not part of this model; it is passed in as the function `quoteString`. The regular-expression engine is replaced by the equivalent hand-written grammar, and Unicode case folding under the ignore-case option is not modelled.
- Symbols.SymbolTable.AllSymbols: the table's iteration order is not modelled. The model picks any not yet listed name at each step.
- `intern(const char *, size_t)` (src/symbol_object.cpp:5-8) only converts its arguments to a string; `Intern` takes the string.
- `dbg_inspect`, `eqtilde`, `succ`, `upcase`, `downcase`, `swapcase`, `capitalize`, `to_proc`, `start_with`, `end_with`, `length` and `ref` of `SymbolObject` are not modelled. They are outside the modelled core and delegate to String.
- Repl: the parser, the compiler, `Tempfile`, `Fiddle` and `FileUtils` are not part of this model. The parser and the compiler are function parameters, and the other three are entries in the effect log. The temporary path, the handle `build_top_env` returns and whether a `.dSYM` directory exists are parameters of `Prompt`.
- Repl: a parser exception other than `IncompleteExpression` and `SyntaxError`, and exceptions raised while loading or evaluating, are not modelled.
- Repl.Session.Prompt: the REPL driver (`GenericRepl` or `NonTTYRepl`, chosen at lib/natalie/repl/main.rb:55-61) is not part of this model. It reads the input and acts on `:continue` and `:next`. The model has one call of the `prompt` block per input.
- The source position that `last_node.new` copies onto the new call node is not modelled.
