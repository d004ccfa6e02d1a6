/**
 * The schema-to-accessor compiler. Walking the schema depth-first, it extends
 * a dotted path with each property name at every object node and turns every
 * other node into one accessor. `Getters` is the walk as a function, and
 * `GenGetters` is the walk as the generator performs it, with a loop that
 * appends each property's accessors in turn.
 */
module GenGetters {
  import opened Schema
  import opened Naming
  import opened Accessor

  /** The conditions under which the generator gives up on a schema. */
  datatype SchemaError =
    | MissingProperties   // an object node without `properties`
    | DefaultNotString    // a `string` leaf whose default is not a JSON string
    | DefaultNotBoolean   // a `boolean` leaf whose default is not a JSON boolean

  datatype Result<T> = Ok(value: T) | Err(error: SchemaError)

  /** The kind of the supported leaf types; any other type has none. */
  function KindOf(typ: string): (k: Option<Kind>)
    ensures k.Some? <==> typ in {"string", "boolean", "integer"}
  {
    if typ == "string" then Some(Str)
    else if typ == "boolean" then Some(Bool)
    else if typ == "integer" then Some(Int)
    else None
  }

  /** The accessor for the leaf `n` found at `path`. */
  function LeafGetter(path: string, n: Node): (r: Result<Getter>)
    ensures r.Ok? <==> DefaultFits(n)
    ensures r.Ok? ==> r.value.name == Sanitize(path) && WellTyped(r.value)
    ensures r.Ok? ==> (r.value.ret == Unit <==> KindOf(TypeName(n)).None?)
    ensures r.Ok? && r.value.ret != Unit ==>
      && r.value.ret.kind == KindOf(TypeName(n)).value
      && r.value.body.key == path
      && (r.value.ret.Plain? <==> n.default.Some?)
  {
    var name := Sanitize(path);
    match KindOf(TypeName(n))
    case None => Ok(Getter(name, Unit, Empty))
    case Some(k) =>
      match n.default
      case None => Ok(Getter(name, Optional(k), Lookup(k, path)))
      case Some(d) =>
        match k
        case Str => if d.JString? then Ok(Getter(name, Plain(Str), LookupOr(Str, path, StrLit(d.s)))) else Err(DefaultNotString)
        case Bool => if d.JBool? then Ok(Getter(name, Plain(Bool), LookupOr(Bool, path, BoolLit(d.b)))) else Err(DefaultNotBoolean)
        case Int => Ok(Getter(name, Plain(Int), LookupOr(Int, path, IntLit(d))))
  }

  /** A supported leaf's accessor returns what the host has at the leaf's
      path; failing that, the schema's default when there is one, and
      otherwise it reports that nothing was found. */
  lemma LeafGetterCall(path: string, n: Node, h: Host)
    requires LeafGetter(path, n).Ok? && KindOf(TypeName(n)).Some?
    ensures var k := KindOf(TypeName(n)).value;
      Call(LeafGetter(path, n).value, h) ==
        match n.default
        case Some(d) => Value(Fetch(h, k, path).GetOr(d))
        case None => Maybe(Fetch(h, k, path))
  {
  }

  /** A leaf of an unsupported type becomes an empty stub returning `()`,
      whatever its default. */
  lemma UnsupportedLeafIsStub(path: string, n: Node)
    requires !IsObject(n) && KindOf(TypeName(n)).None?
    ensures LeafGetter(path, n) == Ok(Getter(Sanitize(path), Unit, Empty))
  {
  }

  /** The single accessor of a leaf, as a list. */
  function LeafGetters(path: string, n: Node): Result<seq<Getter>> {
    match LeafGetter(path, n)
    case Ok(g) => Ok([g])
    case Err(e) => Err(e)
  }

  /** The accessors for the subtree `n` whose path is `prefix`. */
  function Getters(prefix: string, n: Node): Result<seq<Getter>>
    decreases n, 1
  {
    if !IsObject(n) then LeafGetters(prefix, n)
    else if n.props.Missing? then Err(MissingProperties)
    else PropsGetters(prefix, n, |n.props.entries|)
  }

  /** The accessors for the first `k` properties of `n`, each property's
      subtree complete before the next one's; the first failure wins. */
  function PropsGetters(prefix: string, n: Node, k: nat): Result<seq<Getter>>
    requires n.props.Props? && k <= |n.props.entries|
    decreases n, 0, k
  {
    if k == 0 then Ok([])
    else
      match PropsGetters(prefix, n, k - 1)
      case Err(e) => Err(e)
      case Ok(front) =>
        var (name, child) := n.props.entries[k - 1];
        match Getters(ChildPath(prefix, name), child)
        case Err(e) => Err(e)
        case Ok(more) => Ok(front + more)
  }

  /** Once a property fails, the object as a whole fails with that error. */
  lemma {:induction false} FirstErrorWins(prefix: string, n: Node, k: nat)
    requires n.props.Props? && k <= |n.props.entries|
    requires PropsGetters(prefix, n, k).Err?
    ensures PropsGetters(prefix, n, |n.props.entries|) == PropsGetters(prefix, n, k)
    decreases |n.props.entries| - k
  {
    if k < |n.props.entries| {
      assert PropsGetters(prefix, n, k + 1) == PropsGetters(prefix, n, k) by {
        var e := PropsGetters(prefix, n, k).error;
        assert PropsGetters(prefix, n, k + 1) == Err(e);
      }
      FirstErrorWins(prefix, n, k + 1);
    }
  }

  /** One more property: its accessors follow those of the properties before it. */
  lemma NextProperty(prefix: string, n: Node, k: nat, front: seq<Getter>)
    requires n.props.Props? && k < |n.props.entries|
    requires PropsGetters(prefix, n, k) == Ok(front)
    ensures PropsGetters(prefix, n, k + 1) ==
      match Getters(ChildPath(prefix, n.props.entries[k].0), n.props.entries[k].1)
      case Err(e) => Err(e)
      case Ok(more) => Ok(front + more)
  {
  }

  /** The generator's walk: recursion at object nodes, one loop over the
      properties appending each one's accessors. */
  method GenGetters(prefix: string, n: Node) returns (r: Result<seq<Getter>>)
    ensures r == Getters(prefix, n)
    decreases n
  {
    if !IsObject(n) {
      return LeafGetters(prefix, n);
    }
    if n.props.Missing? {
      return Err(MissingProperties);
    }
    var props := n.props.entries;
    var acc: seq<Getter> := [];
    for i := 0 to |props|
      invariant PropsGetters(prefix, n, i) == Ok(acc)
    {
      var sub := GenGetters(ChildPath(prefix, props[i].0), props[i].1);
      NextProperty(prefix, n, i, acc);
      if sub.Err? {
        FirstErrorWins(prefix, n, i + 1);
        return Err(sub.error);
      }
      acc := acc + sub.value;
    }
    return Ok(acc);
  }

  /** `gs` is exactly one accessor per leaf of `ls`, in the same order, each
      built from the leaf's path below `prefix`. */
  ghost predicate OnePerLeaf(prefix: string, gs: seq<Getter>, ls: seq<Leaf>) {
    && |gs| == |ls|
    && forall i | 0 <= i < |ls| :: LeafGetter(PathOf(prefix, ls[i].route), ls[i].node) == Ok(gs[i])
  }

  /** The accessors of one more property, found below its own path, follow
      on from those of the properties before it. */
  lemma OnePerLeafAppend(prefix: string, name: string, front: seq<Getter>, more: seq<Getter>, lsFront: seq<Leaf>, lsChild: seq<Leaf>)
    requires OnePerLeaf(prefix, front, lsFront)
    requires OnePerLeaf(ChildPath(prefix, name), more, lsChild)
    ensures OnePerLeaf(prefix, front + more, lsFront + Under(name, lsChild))
  {
    var all := lsFront + Under(name, lsChild);
    forall i | |lsFront| <= i < |all|
      ensures LeafGetter(PathOf(prefix, all[i].route), all[i].node) == Ok((front + more)[i])
    {
      var j := i - |lsFront|;
      var route := [name] + lsChild[j].route;
      assert all[i] == Leaf(route, lsChild[j].node);
      assert route[0] == name && route[1..] == lsChild[j].route;
    }
  }

  /** The walk against the depth-first leaves: it succeeds exactly on
      well-formed schemas, and then yields one accessor per leaf, in leaf
      order, each built from the leaf's path below `prefix`. */
  lemma {:induction false} GettersFollowLeaves(prefix: string, n: Node)
    ensures Getters(prefix, n).Ok? <==> WellFormed(n)
    ensures Getters(prefix, n).Ok? ==> OnePerLeaf(prefix, Getters(prefix, n).value, Leaves(n))
    decreases n, 1
  {
    if !IsObject(n) {
      assert PathOf(prefix, []) == prefix;
    } else if n.props.Props? {
      PropsGettersFollowLeaves(prefix, n, |n.props.entries|);
    }
  }

  lemma {:induction false} PropsGettersFollowLeaves(prefix: string, n: Node, k: nat)
    requires n.props.Props? && k <= |n.props.entries|
    ensures PropsGetters(prefix, n, k).Ok? <==> forall j | 0 <= j < k :: WellFormed(n.props.entries[j].1)
    ensures PropsGetters(prefix, n, k).Ok? ==> OnePerLeaf(prefix, PropsGetters(prefix, n, k).value, LeavesOf(n, k))
    decreases n, 0, k
  {
    if k > 0 {
      var (name, child) := n.props.entries[k - 1];
      var path := ChildPath(prefix, name);
      PropsGettersFollowLeaves(prefix, n, k - 1);
      GettersFollowLeaves(path, child);
      assert (forall j | 0 <= j < k :: WellFormed(n.props.entries[j].1)) <==>
             (forall j | 0 <= j < k - 1 :: WellFormed(n.props.entries[j].1)) && WellFormed(child);
      if PropsGetters(prefix, n, k).Ok? {
        OnePerLeafAppend(prefix, name, PropsGetters(prefix, n, k - 1).value, Getters(path, child).value,
                         LeavesOf(n, k - 1), Leaves(child));
      }
    }
  }

  /** For an object root, the number of accessors is the number of leaves
      reachable from it; objects below the root add none of their own. */
  lemma OneGetterPerLeaf(root: Node)
    requires WellFormed(root)
    ensures Getters("", root).Ok? && |Getters("", root).value| == |Leaves(root)|
  {
    GettersFollowLeaves("", root);
  }

  /** From the root, each accessor looks its leaf up by the leaf's full dotted
      path and is named after that path sanitised, provided no route to a
      leaf starts with an empty property name followed by more names. */
  lemma RootAccessorNames(root: Node, i: nat)
    requires Getters("", root).Ok?
    requires i < |Leaves(root)|
    requires var route := Leaves(root)[i].route; |route| <= 1 || route[0] != ""
    ensures i < |Getters("", root).value|
    ensures var g, route := Getters("", root).value[i], Leaves(root)[i].route;
      && g.name == Sanitize(Dotted(route))
      && (g.body.Empty? || g.body.key == Dotted(route))
  {
    GettersFollowLeaves("", root);
    PathOfRoot(Leaves(root)[i].route);
  }

  /** A missing `type` is `string`, at every depth of the schema. */
  lemma {:induction false} UntypedIsString(prefix: string, n: Node)
    ensures Getters(prefix, Typed(n)) == Getters(prefix, n)
    decreases n, 1
  {
    if IsObject(n) && n.props.Props? {
      UntypedIsStringProps(prefix, n, |n.props.entries|);
    }
  }

  lemma {:induction false} UntypedIsStringProps(prefix: string, n: Node, k: nat)
    requires n.props.Props? && k <= |n.props.entries|
    ensures Typed(n).props.Props? && |Typed(n).props.entries| == |n.props.entries|
    ensures PropsGetters(prefix, Typed(n), k) == PropsGetters(prefix, n, k)
    decreases n, 0, k
  {
    var t := Typed(n);
    assert t.props.entries == seq(|n.props.entries|, i requires 0 <= i < |n.props.entries| =>
                                  (n.props.entries[i].0, Typed(n.props.entries[i].1)));
    if k > 0 {
      UntypedIsStringProps(prefix, n, k - 1);
      var (name, child) := n.props.entries[k - 1];
      assert t.props.entries[k - 1] == (name, Typed(child));
      UntypedIsString(ChildPath(prefix, name), child);
    }
  }
}
