/**
 * The argument vector handed to every native method and block: indexed
 * access, dropping the first argument, packing the arguments for a block
 * call, arity checks and keyword-argument lookup.
 */
module Args {
  import opened Wrappers
  import opened Values
  import Numerals

  datatype Error = ArgumentError(message: string)

  /**
   * An argument vector: the values in call order and whether the last one
   * is the keyword hash.  Copying and assigning an `Args` copies these two
   * fields, which is the value semantics of this datatype.
   */
  datatype Args = Args(data: seq<Value>, hasKeywordHash: bool)

  /** The vector built by the default constructor. */
  const Empty := Args([], false)

  /** `operator[]` and `at(index)`: the caller guarantees the index is in range. */
  function At(args: Args, index: nat): (v: Value)
    requires index < |args.data|
    ensures v == args.data[index]
  {
    args.data[index]
  }

  /** `at(index, default)`: the default stands in for every missing argument. */
  function AtOr(args: Args, index: nat, default: Value): (v: Value)
    ensures index >= |args.data| ==> v == default
    ensures index < |args.data| ==> v == At(args, index)
  {
    if index >= |args.data| then default else args.data[index]
  }

  /** `Args::shift`: the same call without its first argument. */
  function Shift(args: Args): (r: Args)
    requires |args.data| > 0
    ensures |args.data| == 1 ==> r == Empty
    ensures |args.data| > 1 ==> r.hasKeywordHash == args.hasKeywordHash
    ensures |r.data| == |args.data| - 1
    ensures forall i :: 0 <= i < |r.data| ==> r.data[i] == args.data[i + 1]
  {
    if |args.data| == 1 then Empty else Args(args.data[1..], args.hasKeywordHash)
  }

  /** Index `i` of the shifted vector is index `i + 1` of the original, defaults included. */
  lemma ShiftAtOr(args: Args, index: nat, default: Value)
    requires |args.data| > 0
    ensures AtOr(Shift(args), index, default) == AtOr(args, index + 1, default)
  {
  }

  /**
   * The conversion of the single spread argument to an array.  The
   * conversion routine itself is not part of this model: an Array argument
   * gives its elements and any other value a one-element array.
   */
  function ToAry(v: Value): (r: seq<Value>)
    ensures v.Ary? ==> r == v.elems
    ensures !v.Ary? ==> r == [v]
  {
    if v.Ary? then v.elems else [v]
  }

  /** Whether `to_array_for_block` spreads the single argument. */
  predicate Spreads(args: Args, spread: bool) {
    |args.data| == 1 && spread
  }

  /** The values the block's arguments are taken from. */
  function BlockSource(args: Args, spread: bool): seq<Value> {
    if Spreads(args, spread) then ToAry(args.data[0]) else args.data
  }

  /** Whether the source is cut down to `maxCount` values. */
  predicate Truncates(args: Args, maxCount: int, spread: bool) {
    if Spreads(args, spread) then maxCount != -1 && |BlockSource(args, spread)| > maxCount
    else 0 <= maxCount < |args.data|
  }

  /**
   * The elements of the array `to_array_for_block` returns.  `maxCount` is
   * -1 when the block takes any number of arguments.
   */
  function BlockArgs(args: Args, minCount: int, maxCount: int, spread: bool): (r: seq<Value>)
    requires maxCount >= -1
    // the first `kept` source values, in order, then nil padding
    ensures var src := BlockSource(args, spread);
      var kept := if Truncates(args, maxCount, spread) then maxCount else |src|;
      forall i :: 0 <= i < |r| ==> r[i] == (if i < kept then src[i] else Nil)
  {
    var src := BlockSource(args, spread);
    if Spreads(args, spread) then
      if maxCount != -1 && |src| > maxCount then src[..maxCount]
      else if |src| < minCount then src + Nils(minCount - |src|)
      else src
    else
      var len := if maxCount >= 0 && maxCount < |src| then maxCount else |src|;
      if len < minCount then src[..len] + Nils(minCount - len) else src[..len]
  }

  /**
   * The number of values the block receives: the kept source values padded
   * up to `minCount`, except that a spread array that was truncated is
   * never padded, so truncation and padding never both happen to it.
   */
  lemma {:induction false} BlockArgsLength(args: Args, minCount: int, maxCount: int, spread: bool)
    requires maxCount >= -1
    ensures var kept := if Truncates(args, maxCount, spread) then maxCount else |BlockSource(args, spread)|;
      |BlockArgs(args, minCount, maxCount, spread)|
        == if Spreads(args, spread) && Truncates(args, maxCount, spread) then kept
           else if kept < minCount then minCount
           else kept
  {
  }

  /** Without spreading, padding follows truncation: `max 1, min 3` turns `[a, b]` into `[a, nil, nil]`. */
  lemma TruncateThenPad(a: Value, b: Value)
    ensures BlockArgs(Args([a, b], false), 3, 1, false) == [a, Nil, Nil]
    ensures BlockArgs(Args([Ary([a, b])], false), 3, 1, true) == [a]
  {
    assert Nils(2) == [Nil, Nil];
  }

  /** The growable array the runtime hands to a block. */
  class ArrayObject {
    var elems: seq<Value>

    constructor (elems: seq<Value>)
      ensures this.elems == elems
    {
      this.elems := elems;
    }

    /** Drop every element from index `size` on. */
    method Truncate(size: nat)
      modifies this
      ensures elems == if size < |old(elems)| then old(elems)[..size] else old(elems)
    {
      if size < |elems| {
        elems := elems[..size];
      }
    }

    /** `fill(value, start, length)` with `start` at most the size: overwrite or append. */
    method Fill(value: Value, start: nat, length: nat)
      requires start <= |elems|
      modifies this
      ensures |elems| == if start + length > |old(elems)| then start + length else |old(elems)|
      ensures forall i :: 0 <= i < |elems| ==>
        elems[i] == (if start <= i < start + length then value else old(elems)[i])
    {
      var i := start;
      while i < start + length
        invariant start <= i <= start + length
        invariant |elems| == if i > |old(elems)| then i else |old(elems)|
        invariant forall k :: 0 <= k < |elems| ==>
          elems[k] == (if start <= k < i then value else old(elems)[k])
      {
        if i < |elems| {
          elems := elems[i := value];
        } else {
          elems := elems + [value];
        }
        i := i + 1;
      }
    }
  }

  /** `to_array_for_block`: a fresh array holding the block's arguments. */
  method ToArrayForBlock(args: Args, minCount: int, maxCount: int, spread: bool) returns (ary: ArrayObject)
    requires maxCount >= -1
    ensures fresh(ary)
    ensures ary.elems == BlockArgs(args, minCount, maxCount, spread)
  {
    if |args.data| == 1 && spread {
      ary := new ArrayObject(ToAry(args.data[0]));
      var count := |ary.elems|;
      if maxCount != -1 && count > maxCount {
        ary.Truncate(maxCount);
      } else if count < minCount {
        ary.Fill(Nil, |ary.elems|, minCount - |ary.elems|);
        assert ary.elems == ToAry(args.data[0]) + Nils(minCount - count);
      }
      return;
    }
    var len := if maxCount >= 0 && maxCount < |args.data| then maxCount else |args.data|;
    ary := new ArrayObject(args.data[..len]);
    var count := |ary.elems|;
    if count < minCount {
      ary.Fill(Nil, |ary.elems|, minCount - |ary.elems|);
      assert ary.elems == args.data[..len] + Nils(minCount - count);
    }
  }

  /** The message of the ArgumentError an arity check raises. */
  function WrongNumber(given: nat, expected: string): string {
    "wrong number of arguments (given " + Numerals.NatToString(given, 10) + ", expected " + expected + ")"
  }

  /** `ensure_argc_is`: raises exactly when the count differs from `expected`. */
  function EnsureArgcIs(args: Args, expected: nat): (r: Outcome<Error>)
    ensures r.Fail? <==> |args.data| != expected
    ensures r.Fail? ==>
      r.error == ArgumentError(WrongNumber(|args.data|, Numerals.NatToString(expected, 10)))
  {
    if |args.data| != expected then
      Fail(ArgumentError(WrongNumber(|args.data|, Numerals.NatToString(expected, 10))))
    else Pass
  }

  /** `ensure_argc_between`: raises exactly when the count is outside `low..high`. */
  function EnsureArgcBetween(args: Args, low: nat, high: nat): (r: Outcome<Error>)
    ensures r.Fail? <==> |args.data| < low || |args.data| > high
    ensures r.Fail? ==> r.error == ArgumentError(WrongNumber(|args.data|,
      Numerals.NatToString(low, 10) + ".." + Numerals.NatToString(high, 10)))
  {
    if |args.data| < low || |args.data| > high then
      Fail(ArgumentError(WrongNumber(|args.data|,
        Numerals.NatToString(low, 10) + ".." + Numerals.NatToString(high, 10))))
    else Pass
  }

  /** `ensure_argc_at_least`: raises exactly when fewer than `expected` arguments came. */
  function EnsureArgcAtLeast(args: Args, expected: nat): (r: Outcome<Error>)
    ensures r.Fail? <==> |args.data| < expected
    ensures r.Fail? ==> r.error == ArgumentError(WrongNumber(|args.data|, Numerals.NatToString(expected, 10) + "+"))
  {
    if |args.data| < expected then
      Fail(ArgumentError(WrongNumber(|args.data|, Numerals.NatToString(expected, 10) + "+")))
    else Pass
  }

  /** The arity checks agree with one another on an exact range. */
  lemma ArityChecksAgree(args: Args, n: nat)
    ensures EnsureArgcIs(args, n).Pass? <==> EnsureArgcBetween(args, n, n).Pass?
    ensures EnsureArgcBetween(args, n, n).Pass? ==> EnsureArgcAtLeast(args, n).Pass?
  {
  }

  /** The messages the method tests expect for a method of exactly one argument. */
  lemma ExactArityMessages()
    ensures EnsureArgcIs(Args([], false), 1)
      == Fail(ArgumentError("wrong number of arguments (given 0, expected 1)"))
    ensures EnsureArgcIs(Args([Int(1), Int(2)], false), 1)
      == Fail(ArgumentError("wrong number of arguments (given 2, expected 1)"))
  {
    assert Numerals.NatToString(0, 10) == "0";
    assert Numerals.NatToString(1, 10) == "1";
    assert Numerals.NatToString(2, 10) == "2";
    assert WrongNumber(0, "1") == "wrong number of arguments (given 0, expected 1)";
    assert WrongNumber(2, "1") == "wrong number of arguments (given 2, expected 1)";
  }

  /** The messages the method tests expect for a method of one or two arguments. */
  lemma RangeArityMessages()
    ensures EnsureArgcBetween(Args([], false), 1, 2)
      == Fail(ArgumentError("wrong number of arguments (given 0, expected 1..2)"))
    ensures EnsureArgcBetween(Args([Int(1), Int(2), Int(3)], false), 1, 2)
      == Fail(ArgumentError("wrong number of arguments (given 3, expected 1..2)"))
  {
    assert Numerals.NatToString(0, 10) == "0";
    assert Numerals.NatToString(3, 10) == "3";
    assert Numerals.NatToString(1, 10) + ".." + Numerals.NatToString(2, 10) == "1..2";
    assert WrongNumber(0, "1..2") == "wrong number of arguments (given 0, expected 1..2)";
    assert WrongNumber(3, "1..2") == "wrong number of arguments (given 3, expected 1..2)";
  }

  /** The given count can be read back from the message: distinct counts give distinct messages. */
  lemma WrongNumberInjective(given1: nat, given2: nat, expected: string)
    requires WrongNumber(given1, expected) == WrongNumber(given2, expected)
    ensures given1 == given2
  {
    var prefix := "wrong number of arguments (given ";
    var s1, s2 := Numerals.NatToString(given1, 10), Numerals.NatToString(given2, 10);
    var m1, m2 := WrongNumber(given1, expected), WrongNumber(given2, expected);
    // the rendering ends at the first ',' after the prefix
    var k := |prefix|;
    assert s1 == m1[k..k + |s1|] == m2[k..k + |s2|] == s2;
    Numerals.IntToStringInjective(given1, given2, 10);
  }

  /** The value a hash holds under `key`; `None` stands for the runtime's null value. */
  function HashGet(entries: map<Value, Value>, key: Value): (r: Option<Value>)
    ensures r.Some? <==> key in entries
    ensures r.Some? ==> r.value == entries[key]
  {
    if key in entries then Some(entries[key]) else None
  }

  /** `keyword_arg`: the value of keyword `name` in the trailing keyword hash, nil if there is none. */
  function KeywordArg(args: Args, name: string): (r: Option<Value>)
    ensures !args.hasKeywordHash || |args.data| == 0 || !args.data[|args.data| - 1].Hash? ==>
      r == Some(Nil)
    ensures args.hasKeywordHash && |args.data| > 0 && args.data[|args.data| - 1].Hash? ==>
      r == HashGet(args.data[|args.data| - 1].entries, Sym(name))
  {
    if !args.hasKeywordHash || |args.data| == 0 then Some(Nil)
    else
      var last := args.data[|args.data| - 1];
      if !last.Hash? then Some(Nil) else HashGet(last.entries, Sym(name))
  }
}
