/**
 * Symbols: the global name-to-symbol table behind `intern`, the comparison
 * methods `<=>`, `casecmp` and `casecmp?`, the cached frozen `name` string
 * and the decision whether `inspect` quotes a symbol.
 *
 * A symbol name is a byte string; each `char` of a name stands for one
 * byte (0 to 255), so character order is byte order.
 */
module Symbols {
  import opened Values

  // ---------------------------------------------------------------------
  // Objects.

  /** A runtime string object: its bytes and whether it has been frozen. */
  class StringObject {
    const text: string
    var frozen: bool

    constructor (text: string)
      ensures this.text == text && !frozen
    {
      this.text := text;
      frozen := false;
    }

    method Freeze()
      modifies this
      ensures frozen
    {
      frozen := true;
    }
  }

  /** A symbol: its name and the string `name` caches on it (`m_string`). */
  class SymbolObject {
    const name: string
    var cached: StringObject?

    constructor (name: string)
      ensures this.name == name && cached == null
    {
      this.name := name;
      cached := null;
    }
  }

  /** The process-wide table `s_symbols`. */
  class SymbolTable {
    var symbols: map<string, SymbolObject>

    /** The strings cached on the interned symbols. */
    ghost function Cached(): set<StringObject>
      reads this, symbols.Values
    {
      set n | n in symbols && symbols[n].cached != null :: symbols[n].cached
    }

    /** Every entry is keyed by its own name. */
    ghost predicate KeyedByName()
      reads this
    {
      forall n :: n in symbols ==> symbols[n].name == n
    }

    /** The table is keyed by name, and a cached string is a frozen copy of the name. */
    ghost predicate Valid()
      reads this, symbols.Values, Cached()
    {
      && KeyedByName()
      && forall n :: n in symbols && symbols[n].cached != null ==>
           symbols[n].cached.text == n && symbols[n].cached.frozen
    }

    constructor ()
      ensures symbols == map[] && Valid()
    {
      symbols := map[];
    }

    /** `SymbolObject::intern`: get the symbol of `name`, creating it on first use. */
    method Intern(name: string) returns (sym: SymbolObject)
      requires Valid()
      modifies this
      ensures Valid()
      ensures sym.name == name && name in symbols && symbols[name] == sym
      ensures name in old(symbols) ==> sym == old(symbols[name]) && symbols == old(symbols)
      ensures name !in old(symbols) ==>
        fresh(sym) && sym.cached == null && symbols == old(symbols)[name := sym]
    {
      if name in symbols {
        return symbols[name];
      }
      sym := new SymbolObject(name);
      symbols := symbols[name := sym];
    }

    /** `Symbol.all_symbols`: one array element per table entry, in table order. */
    method AllSymbols() returns (r: seq<SymbolObject>)
      requires KeyedByName()
      ensures |r| == |symbols|
      ensures forall i :: 0 <= i < |r| ==> r[i].name in symbols && symbols[r[i].name] == r[i]
      ensures forall n :: n in symbols ==> symbols[n] in r
      ensures forall i, j :: 0 <= i < j < |r| ==> r[i] != r[j]
    {
      var remaining := symbols.Keys;
      ghost var done: set<string> := {};
      r := [];
      while remaining != {}
        invariant remaining + done == symbols.Keys && remaining !! done
        invariant Listed(symbols, r, done)
        decreases |remaining|
      {
        // the table's iteration order is its own; any order will do
        var n :| n in remaining;
        ListOneMore(symbols, r, done, n);
        r := r + [symbols[n]];
        remaining := remaining - {n};
        done := done + {n};
      }
      assert done == symbols.Keys;
    }

    /**
     * `Symbol#name`: the symbol interned under `sym`'s name, with its frozen
     * string created on the first call and returned again on every later one.
     */
    method Name(sym: SymbolObject) returns (s: StringObject)
      requires Valid()
      modifies this, symbols.Values
      ensures Valid()
      ensures sym.name in symbols && symbols[sym.name].cached == s
      ensures s.text == sym.name && s.frozen
      ensures sym.name in old(symbols) ==> symbols == old(symbols)
      ensures sym.name in old(symbols) && old(symbols[sym.name].cached) != null ==>
        s == old(symbols[sym.name].cached)
      ensures sym.name in old(symbols) && old(symbols[sym.name].cached) == null ==> fresh(s)
      ensures sym.name !in old(symbols) ==>
        fresh(s) && fresh(symbols[sym.name]) && symbols == old(symbols)[sym.name := symbols[sym.name]]
      // every other symbol keeps its entry and its cached string
      ensures forall n :: n in old(symbols) && n != sym.name ==>
        n in symbols && symbols[n] == old(symbols[n]) && symbols[n].cached == old(symbols[n].cached)
    {
      var owner := Intern(sym.name);
      if owner.cached == null {
        var str := new StringObject(sym.name);
        str.Freeze();
        owner.cached := str;
      }
      s := owner.cached;
    }
  }

  /** `r` lists the symbols of the names in `done`, once each. */
  ghost predicate Listed(symbols: map<string, SymbolObject>, r: seq<SymbolObject>, done: set<string>) {
    && |r| == |done|
    && (forall i :: 0 <= i < |r| ==> r[i].name in done && r[i].name in symbols && symbols[r[i].name] == r[i])
    && (forall n :: n in done && n in symbols ==> symbols[n] in r)
    && (forall i, j :: 0 <= i < j < |r| ==> r[i].name != r[j].name)
  }

  lemma ListOneMore(symbols: map<string, SymbolObject>, r: seq<SymbolObject>, done: set<string>, n: string)
    requires Listed(symbols, r, done) && n in symbols && n !in done && symbols[n].name == n
    ensures Listed(symbols, r + [symbols[n]], done + {n})
  {
  }

  /** `name` returns the identical string on a later call, whatever was asked in between. */
  method NameIsStable(t: SymbolTable, a: SymbolObject, b: SymbolObject) returns (first: StringObject, last: StringObject)
    requires t.Valid()
    modifies t, t.symbols.Values
    ensures first == last && first.text == a.name && first.frozen
  {
    first := t.Name(a);
    var _ := t.Name(b);
    last := t.Name(a);
  }

  /** Interning never maps two different names to the same symbol. */
  lemma DistinctNamesDistinctSymbols(t: SymbolTable, a: string, b: string)
    requires t.KeyedByName() && a in t.symbols && b in t.symbols
    ensures t.symbols[a] == t.symbols[b] <==> a == b
  {
  }

  /** Interning a name twice gives the identical symbol and adds one entry at most. */
  method InternTwice(t: SymbolTable, name: string) returns (first: SymbolObject, second: SymbolObject)
    requires t.Valid()
    modifies t
    ensures name in t.symbols && t.symbols[name] == first && first == second
    ensures |t.symbols| <= |old(t.symbols)| + 1
  {
    first := t.Intern(name);
    second := t.Intern(name);
  }

  // ---------------------------------------------------------------------
  // Comparisons.

  /**
   * Byte-wise comparison of two names: -1, 0 or 1, with a proper prefix
   * ordered first.
   */
  function Compare(a: string, b: string): (r: int)
    ensures -1 <= r <= 1
  {
    if a == [] && b == [] then 0
    else if a == [] then -1
    else if b == [] then 1
    else if a[0] < b[0] then -1
    else if a[0] > b[0] then 1
    else Compare(a[1..], b[1..])
  }

  lemma {:induction false} CompareZeroIffEqual(a: string, b: string)
    ensures Compare(a, b) == 0 <==> a == b
  {
    if a != [] && b != [] && a[0] == b[0] {
      CompareZeroIffEqual(a[1..], b[1..]);
      assert a == [a[0]] + a[1..] && b == [b[0]] + b[1..];
    }
  }

  lemma {:induction false} CompareAntisymmetric(a: string, b: string)
    ensures Compare(a, b) == -Compare(b, a)
  {
    if a != [] && b != [] && a[0] == b[0] {
      CompareAntisymmetric(a[1..], b[1..]);
    }
  }

  lemma {:induction false} CompareTransitive(a: string, b: string, c: string)
    requires Compare(a, b) < 0 && Compare(b, c) < 0
    ensures Compare(a, c) < 0
  {
    if a != [] && b != [] && c != [] && a[0] == b[0] && b[0] == c[0] {
      CompareTransitive(a[1..], b[1..], c[1..]);
    }
  }

  /** `Symbol#<=>`: nil against anything but a symbol, otherwise the order of the names. */
  function Cmp(name: string, other: Value): (r: Value)
    ensures !other.Sym? ==> r == Nil
    ensures other.Sym? ==> r == Int(Compare(name, other.name))
    ensures other.Sym? ==> r.Int? && (r.i == 0 <==> name == other.name)
  {
    CompareZeroIffEqual(name, if other.Sym? then other.name else "");
    if other.Sym? then Int(Compare(name, other.name)) else Nil
  }

  /** `downcase(:ascii)`: only `A`-`Z` change. */
  function Downcase(s: string): (r: string)
    ensures |r| == |s|
    ensures forall i :: 0 <= i < |s| ==> r[i] == DowncaseChar(s[i])
  {
    if s == [] then [] else [DowncaseChar(s[0])] + Downcase(s[1..])
  }

  function DowncaseChar(c: char): char {
    if 'A' <= c <= 'Z' then (c as int - 'A' as int + 'a' as int) as char else c
  }

  lemma DowncaseIdempotent(s: string)
    ensures Downcase(Downcase(s)) == Downcase(s)
  {
    assert forall i :: 0 <= i < |s| ==> DowncaseChar(DowncaseChar(s[i])) == DowncaseChar(s[i]);
  }

  /** `Symbol#casecmp`: nil against a non-symbol, else the order of the ASCII-downcased names. */
  function Casecmp(name: string, other: Value): (r: Value)
    ensures !other.Sym? ==> r == Nil
    ensures other.Sym? ==> r == Int(Compare(Downcase(name), Downcase(other.name)))
  {
    if other.Sym? then Int(Compare(Downcase(name), Downcase(other.name))) else Nil
  }

  /** `Symbol#casecmp?`: nil against a non-symbol, else whether the downcased names are equal. */
  function IsCasecmp(name: string, other: Value): (r: Value)
    ensures !other.Sym? ==> r == Nil
    ensures other.Sym? ==> r.Bool?
  {
    if !other.Sym? then Nil
    else if Downcase(name) == Downcase(other.name) then Bool(true)
    else Bool(false)
  }

  /** `casecmp?` is true exactly when `casecmp` is 0, and nil exactly when it is nil. */
  lemma CasecmpAgree(name: string, other: Value)
    ensures IsCasecmp(name, other) == Bool(true) <==> Casecmp(name, other) == Int(0)
    ensures IsCasecmp(name, other) == Nil <==> Casecmp(name, other) == Nil
  {
    if other.Sym? {
      CompareZeroIffEqual(Downcase(name), Downcase(other.name));
    }
  }

  /** `casecmp` ignores the case of ASCII letters on both sides. */
  lemma CasecmpIgnoresCase(name: string, other: string)
    ensures Casecmp(Downcase(name), Sym(other)) == Casecmp(name, Sym(other))
    ensures Casecmp(name, Sym(Downcase(other))) == Casecmp(name, Sym(other))
  {
    DowncaseIdempotent(name);
    DowncaseIdempotent(other);
  }

  /** `casecmp` swaps sign when its operands are swapped. */
  lemma CasecmpAntisymmetric(a: string, b: string)
    ensures Casecmp(a, Sym(b)).i == -Casecmp(b, Sym(a)).i
  {
    CompareAntisymmetric(Downcase(a), Downcase(b));
  }

  // ---------------------------------------------------------------------
  // `inspect`.

  /** The ignore-case `[a-z_]` of the quoting pattern. */
  predicate IsIdentStart(c: char) {
    'a' <= c <= 'z' || 'A' <= c <= 'Z' || c == '_'
  }

  /** The ignore-case `[a-z0-9_]`. */
  predicate IsIdentChar(c: char) {
    IsIdentStart(c) || '0' <= c <= '9'
  }

  /** `[a-z_][a-z0-9_]*` */
  predicate IsIdentifier(s: string) {
    |s| > 0 && IsIdentStart(s[0]) && forall i :: 1 <= i < |s| ==> IsIdentChar(s[i])
  }

  /** `$` followed by a digit, `?`, `!` or `~`. */
  predicate IsSpecialGlobal(s: string) {
    |s| == 2 && s[0] == '$' && ('0' <= s[1] <= '9' || s[1] == '?' || s[1] == '!' || s[1] == '~')
  }

  /** The length of the leading `@`, `@@` or `$`, if any. */
  function SigilLength(s: string): (n: nat)
    ensures n <= |s|
  {
    if |s| >= 2 && s[0] == '@' && s[1] == '@' then 2
    else if |s| >= 1 && (s[0] == '@' || s[0] == '$') then 1
    else 0
  }

  /** `[?!=]` */
  predicate IsNameSuffix(c: char) {
    c == '?' || c == '!' || c == '='
  }

  /** `(@{0,2}|\$)[a-z_][a-z0-9_]*[?!=]?` */
  predicate IsVariableLike(s: string) {
    var rest := s[SigilLength(s)..];
    var body := if |rest| > 0 && IsNameSuffix(rest[|rest| - 1]) then rest[..|rest| - 1] else rest;
    IsIdentifier(body)
  }

  /** The one-byte operators `%`, `!`, `+`, `-`, `/`, `*`, `<`, `>` and `&`. */
  predicate IsOperatorChar(c: char) {
    c == '%' || c == '!' || c == '+' || c == '-' || c == '/' || c == '*' || c == '<' || c == '>' || c == '&'
  }

  /** `%|==|\!|\!=|\+|\-|/|\*{1,2}|<<?|>>?|\[\]\=?|&` */
  predicate IsOperator(s: string) {
    || (|s| == 1 && IsOperatorChar(s[0]))
    || (|s| == 2 &&
        (|| (s[0] == '=' && s[1] == '=')
         || (s[0] == '!' && s[1] == '=')
         || (s[0] == '*' && s[1] == '*')
         || (s[0] == '<' && s[1] == '<')
         || (s[0] == '>' && s[1] == '>')
         || (s[0] == '[' && s[1] == ']')))
    || (|s| == 3 && s[0] == '[' && s[1] == ']' && s[2] == '=')
  }

  /** A name the quoting pattern matches as a whole. */
  predicate IsPlain(name: string) {
    IsSpecialGlobal(name) || IsVariableLike(name) || IsOperator(name)
  }

  /** A byte outside the printable range 33..126. */
  predicate IsUnprintable(c: char) {
    c as int < 33 || c as int > 126
  }

  /**
   * Whether `inspect` quotes the name: when the pattern does not match or a
   * byte is unprintable, except that a name of two or more bytes starting
   * with `$` is never quoted.
   */
  predicate NeedsQuote(name: string) {
    if |name| > 1 && name[0] == '$' then false
    else !IsPlain(name) || exists i :: 0 <= i < |name| && IsUnprintable(name[i])
  }

  /**
   * `Symbol#inspect`: `:` and the name, quoted by `quoteString` (the string
   * object's own `inspect`) when `NeedsQuote` says so.
   */
  method Inspect(name: string, quoteString: string -> string) returns (s: string)
    ensures s == ":" + (if NeedsQuote(name) then quoteString(name) else name)
  {
    var quote := !IsPlain(name);
    var i := 0;
    while i < |name|
      invariant i <= |name|
      invariant quote == (!IsPlain(name) || exists k :: 0 <= k < i && IsUnprintable(name[k]))
    {
      if name[i] as int < 33 || name[i] as int > 126 {
        quote := true;
      }
      i := i + 1;
    }
    if |name| > 1 && name[0] == '$' {
      quote := false;
    }
    if quote {
      s := ":" + quoteString(name);
    } else {
      s := ":" + name;
    }
  }

  /** Every name the pattern accepts is printable, so the byte loop never changes the outcome. */
  lemma PlainIsPrintable(name: string)
    requires IsPlain(name)
    ensures forall i :: 0 <= i < |name| ==> !IsUnprintable(name[i])
  {
    if IsVariableLike(name) && !IsSpecialGlobal(name) && !IsOperator(name) {
      var n := SigilLength(name);
      var rest := name[n..];
      forall i | 0 <= i < |name|
        ensures !IsUnprintable(name[i])
      {
        if i >= n {
          assert name[i] == rest[i - n];
        }
      }
    }
  }

  /** So the quoting decision is the pattern and the `$` rule alone. */
  lemma NeedsQuoteByPattern(name: string)
    ensures NeedsQuote(name) <==> !(|name| > 1 && name[0] == '$') && !IsPlain(name)
  {
    if IsPlain(name) {
      PlainIsPrintable(name);
    }
  }

  /** A name with an unprintable byte is quoted unless it is a `$` name of two or more bytes. */
  lemma UnprintableIsQuoted(name: string, i: nat)
    requires i < |name| && IsUnprintable(name[i])
    ensures NeedsQuote(name) <==> !(|name| > 1 && name[0] == '$')
  {
    if !(|name| > 1 && name[0] == '$') && IsPlain(name) {
      PlainIsPrintable(name);
    }
  }

  /** Identifiers, with or without a `?`, `!` or `=` suffix, print bare. */
  lemma BareIdentifierExamples()
    ensures !NeedsQuote("foo") && !NeedsQuote("foo?") && !NeedsQuote("Foo=")
  {
    assert IsIdentifier("foo");
    assert IsIdentifier("Foo");
    assert SigilLength("foo") == 0 && "foo"[0..] == "foo" && IsVariableLike("foo");
    assert SigilLength("foo?") == 0 && "foo?"[0..][..3] == "foo";
    assert SigilLength("Foo=") == 0 && "Foo="[0..][..3] == "Foo";
    NeedsQuoteByPattern("foo");
    NeedsQuoteByPattern("foo?");
    NeedsQuoteByPattern("Foo=");
  }

  /** Instance, class and global variable names print bare. */
  lemma BareVariableExamples()
    ensures !NeedsQuote("@x") && !NeedsQuote("@@x") && !NeedsQuote("$stdout")
  {
    assert IsIdentifier("x");
    assert SigilLength("@x") == 1 && "@x"[1..] == "x";
    assert SigilLength("@@x") == 2 && "@@x"[2..] == "x";
    NeedsQuoteByPattern("@x");
    NeedsQuoteByPattern("@@x");
  }

  /** The listed operators print bare. */
  lemma BareOperatorExamples()
    ensures !NeedsQuote("==") && !NeedsQuote("[]=") && !NeedsQuote("**")
  {
    assert IsOperator("==") && IsOperator("[]=") && IsOperator("**");
  }

  /** Names the pattern rejects are quoted, the empty name included. */
  lemma QuotedExamples()
    ensures NeedsQuote("") && NeedsQuote("foo bar") && NeedsQuote("9a")
  {
    assert "foo bar"[0..] == "foo bar" && !IsIdentChar("foo bar"[3]);
  }

  /** A `$` name of two or more bytes is never quoted, even with a space in it. */
  lemma DollarExamples()
    ensures !NeedsQuote("$ x") && !NeedsQuote("$-w")
  {
  }
}
