/**
 * The generated accessors, described rather than printed as source text. A
 * derived accessor `fn name(&self) -> ret { body }` either forwards one of the
 * three primitive lookups, falls back to a literal when that lookup finds
 * nothing, or, for a type the generator does not support, is an empty stub
 * returning `()`.
 */
module Accessor {
  import opened Schema

  /** The three scalar kinds, one per primitive lookup. */
  datatype Kind = Bool | Int | Str

  /** The primitive lookup that serves a kind. */
  function PrimitiveName(k: Kind): string {
    match k
    case Bool => "get_bool"
    case Int => "get_int"
    case Str => "get_str"
  }

  /** `bool`/`i64`/`String`, `Option<…>` of one of them, or `()`. */
  datatype ReturnType = Plain(kind: Kind) | Optional(kind: Kind) | Unit

  /** The default embedded in an accessor. An integer default is carried as
      the JSON value whose text is handed to the integer literal. */
  datatype Literal = StrLit(s: string) | BoolLit(b: bool) | IntLit(v: Scalar)

  /** `self.get_k(key)`, `self.get_k(key).unwrap_or(fallback)`, or nothing. */
  datatype Body = Lookup(kind: Kind, key: string) | LookupOr(kind: Kind, key: string, fallback: Literal) | Empty

  datatype Getter = Getter(name: string, ret: ReturnType, body: Body)

  predicate LiteralFits(k: Kind, lit: Literal) {
    match k
    case Str => lit.StrLit?
    case Bool => lit.BoolLit?
    case Int => lit.IntLit?
  }

  /** The return type is the one the body produces: a bare lookup is optional,
      a lookup with a fallback of its own kind is plain, an empty body is `()`. */
  predicate WellTyped(g: Getter) {
    match g.body
    case Lookup(k, _) => g.ret == Optional(k)
    case LookupOr(k, _, lit) => g.ret == Plain(k) && LiteralFits(k, lit)
    case Empty => g.ret == Unit
  }

  /** What the host application's three primitive lookups answer, per key. */
  datatype Host = Host(bools: map<string, bool>, ints: map<string, int>, strs: map<string, string>)

  /** `v` is a value of kind `k`: a boolean, a number or a text. */
  predicate OfKind(k: Kind, v: Scalar) {
    match k
    case Bool => v.JBool?
    case Int => v.JNumber?
    case Str => v.JString?
  }

  /** The answer of the primitive lookup of kind `k` for `key`: the host's
      entry for that key among the values of that kind, if it has one. */
  function Fetch(h: Host, k: Kind, key: string): (r: Option<Scalar>)
    ensures r.Some? <==> match k
                         case Bool => key in h.bools
                         case Int => key in h.ints
                         case Str => key in h.strs
    ensures r.Some? ==> OfKind(k, r.value)
    ensures r.Some? ==> match k
                        case Bool => r.value.b == h.bools[key]
                        case Int => r.value.n == h.ints[key]
                        case Str => r.value.s == h.strs[key]
  {
    match k
    case Bool => if key in h.bools then Some(JBool(h.bools[key])) else None
    case Int => if key in h.ints then Some(JNumber(h.ints[key])) else None
    case Str => if key in h.strs then Some(JString(h.strs[key])) else None
  }

  function LiteralValue(lit: Literal): Scalar {
    match lit
    case StrLit(s) => JString(s)
    case BoolLit(b) => JBool(b)
    case IntLit(v) => v
  }

  /** The value an accessor call returns. */
  datatype Returned = Value(v: Scalar) | Maybe(o: Option<Scalar>) | Nothing

  /** Calling the accessor `g` on a host that answers as `h`. A consistently
      typed accessor returns the shape its return type names, and, when its
      fallback (if any) is of its kind, a value of that kind. */
  function Call(g: Getter, h: Host): (r: Returned)
    ensures WellTyped(g) ==> (r.Value? <==> g.ret.Plain?) && (r.Maybe? <==> g.ret.Optional?) && (r.Nothing? <==> g.ret.Unit?)
    ensures WellTyped(g) && (g.body.LookupOr? ==> OfKind(g.body.kind, LiteralValue(g.body.fallback))) ==>
      && (r.Value? ==> OfKind(g.ret.kind, r.v))
      && (r.Maybe? && r.o.Some? ==> OfKind(g.ret.kind, r.o.value))
  {
    match g.body
    case Lookup(k, key) => Maybe(Fetch(h, k, key))
    case LookupOr(k, key, lit) => Value(Fetch(h, k, key).GetOr(LiteralValue(lit)))
    case Empty => Nothing
  }
}
