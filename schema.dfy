/**
 * The configuration schema as the generator receives it once the JSON text
 * has been parsed: a tree of nodes, each with an optional `type`, optional
 * `properties` and an optional `default` taken from the node's extra keys.
 * Besides the data model this module holds the reference definitions the
 * generator is proved against: which nodes are leaves, in which order a
 * depth-first walk meets them, and when a schema is accepted.
 */
module Schema {

  datatype Option<+T> = None | Some(value: T) {
    function GetOr(fallback: T): T {
      match this
      case Some(v) => v
      case None => fallback
    }
  }

  /** A JSON value written as a `default`. Numbers are whole numbers;
      fractions, arrays and objects are all `JOther`. */
  datatype Scalar = JNull | JBool(b: bool) | JNumber(n: int) | JString(s: string) | JOther

  /** One schema node. */
  datatype Node = Node(typ: Option<string>, props: Properties, default: Option<Scalar>)

  /** A node's `properties`: absent, or the entries in the order the parsed
      map yields them. */
  datatype Properties = Missing | Props(entries: seq<(string, Node)>)

  /** The declared type; a node without one is a `string` node. */
  function TypeName(n: Node): string {
    n.typ.GetOr("string")
  }

  predicate IsObject(n: Node) {
    TypeName(n) == "object"
  }

  /** A default may be given to any leaf, but on a `string` leaf it must be a
      JSON string and on a `boolean` leaf a JSON boolean. */
  predicate DefaultFits(n: Node) {
    match n.default
    case None => true
    case Some(d) =>
      && (TypeName(n) == "string" ==> d.JString?)
      && (TypeName(n) == "boolean" ==> d.JBool?)
  }

  /** The schemas the generator accepts: every object node reachable from
      `n` has `properties`, and every leaf's default fits its type. */
  predicate WellFormed(n: Node)
    decreases n
  {
    if IsObject(n) then
      && n.props.Props?
      && forall i | 0 <= i < |n.props.entries| ::
           WellFormed(n.props.entries[i].1)
    else
      DefaultFits(n)
  }

  /** A leaf met by the walk: the property names leading to it, and the node. */
  datatype Leaf = Leaf(route: seq<string>, node: Node)

  /** The leaves below `n`, in depth-first order with properties taken in
      their listed order; an object node is never listed itself. */
  function Leaves(n: Node): (ls: seq<Leaf>)
    ensures forall l <- ls :: !IsObject(l.node)
    decreases n, 1
  {
    if !IsObject(n) then [Leaf([], n)]
    else if n.props.Missing? then []
    else LeavesOf(n, |n.props.entries|)
  }

  /** The leaves below the first `k` properties of `n`. */
  function LeavesOf(n: Node, k: nat): (ls: seq<Leaf>)
    requires n.props.Props? && k <= |n.props.entries|
    ensures forall l <- ls :: !IsObject(l.node)
    decreases n, 0, k
  {
    if k == 0 then []
    else
      var (name, child) := n.props.entries[k - 1];
      LeavesOf(n, k - 1) + Under(name, Leaves(child))
  }

  /** `ls` seen from one level up, through the property `name`. */
  function Under(name: string, ls: seq<Leaf>): seq<Leaf> {
    seq(|ls|, i requires 0 <= i < |ls| => Leaf([name] + ls[i].route, ls[i].node))
  }

  /** `n` with every missing `type` written out as `string`, at every depth. */
  function Typed(n: Node): Node
    decreases n
  {
    Node(Some(TypeName(n)),
         match n.props
         case Missing => Missing
         case Props(ps) => Props(seq(|ps|, i requires 0 <= i < |ps| => (ps[i].0, Typed(ps[i].1)))),
         n.default)
  }
}
