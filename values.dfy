/**
 * The runtime values the modelled operations pass around.  Only the
 * distinctions the core looks at are kept: nil, booleans, integers,
 * strings, symbols (by name), arrays and hashes.
 */
module Values {

  datatype Value =
    | Nil
    | Bool(b: bool)
    | Int(i: int)
    | Str(text: string)
    | Sym(name: string)
    | Ary(elems: seq<Value>)
    | Hash(entries: map<Value, Value>)

  /** Ruby truthiness: everything except `nil` and `false`. */
  predicate Truthy(v: Value) {
    v != Nil && v != Bool(false)
  }

  /** `n` copies of `nil`. */
  function Nils(n: nat): (r: seq<Value>)
    ensures |r| == n && forall i :: 0 <= i < n ==> r[i] == Nil
  {
    if n == 0 then [] else Nils(n - 1) + [Nil]
  }
}
