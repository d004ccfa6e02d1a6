/**
 * The `TypedConfig` trait the macro expands to: three primitive lookups the
 * host application implements, followed by the accessors derived from the
 * schema, whose walk starts at the root with an empty path.
 */
module TypedConfig {
  import opened Schema
  import opened Naming
  import opened Accessor
  import opened GenGetters

  /** A primitive lookup `fn name(&self, key: &str) -> ret;`, left to the host. */
  datatype Signature = Signature(name: string, ret: ReturnType)

  datatype TraitDef = TraitDef(name: string, primitives: seq<Signature>, getters: seq<Getter>)

  /** `get_bool`, `get_int` and `get_str`, in that order, each returning an
      optional value of its kind. */
  const Primitives: seq<Signature> := [
    Signature(PrimitiveName(Bool), Optional(Bool)),
    Signature(PrimitiveName(Int), Optional(Int)),
    Signature(PrimitiveName(Str), Optional(Str))
  ]

  /** Every accessor is typed consistently and calls only a primitive the
      trait declares, one whose optional result has the kind it expects. */
  ghost predicate SelfContained(t: TraitDef) {
    forall g <- t.getters ::
      && WellTyped(g)
      && (g.body.Empty? || Signature(PrimitiveName(g.body.kind), Optional(g.body.kind)) in t.primitives)
  }

  /** The accessors the walk yields for a well-formed root are well typed and
      call only the three declared primitives. */
  lemma GettersSelfContained(root: Node)
    requires Getters("", root).Ok?
    ensures SelfContained(TraitDef("TypedConfig", Primitives, Getters("", root).value))
  {
    var gs := Getters("", root).value;
    GettersFollowLeaves("", root);
    forall g <- gs
      ensures WellTyped(g)
      ensures g.body.Empty? || Signature(PrimitiveName(g.body.kind), Optional(g.body.kind)) in Primitives
    {
      var i :| 0 <= i < |gs| && gs[i] == g;
      var l := Leaves(root)[i];
      assert LeafGetter(PathOf("", l.route), l.node) == Ok(g);
      if !g.body.Empty? {
        var k := g.body.kind;
        assert Primitives[if k == Bool then 0 else if k == Int then 1 else 2] == Signature(PrimitiveName(k), Optional(k));
      }
    }
  }

  /** The trait generated for the schema `root`. */
  function EmbedTypedConfig(root: Node): (r: Result<TraitDef>)
    ensures r.Ok? <==> WellFormed(root)
    ensures r.Ok? ==>
      && r.value.name == "TypedConfig"
      && r.value.primitives == [Signature("get_bool", Optional(Bool)),
                                Signature("get_int", Optional(Int)),
                                Signature("get_str", Optional(Str))]
      && OnePerLeaf("", r.value.getters, Leaves(root))
      && SelfContained(r.value)
  {
    GettersFollowLeaves("", root);
    match Getters("", root)
    case Err(e) => Err(e)
    case Ok(gs) =>
      GettersSelfContained(root);
      Ok(TraitDef("TypedConfig", Primitives, gs))
  }

  /** The trait of a root the walk accepts holds the walk's accessors. */
  lemma TraitOfGetters(root: Node)
    requires Getters("", root).Ok?
    ensures EmbedTypedConfig(root) == Ok(TraitDef("TypedConfig", Primitives, Getters("", root).value))
  {
  }

  // Worked schemas.

  function LeafNode(typ: string, default: Option<Scalar>): Node {
    Node(Some(typ), Missing, default)
  }

  function ObjectNode(entries: seq<(string, Node)>): Node {
    Node(Some("object"), Props(entries), None)
  }

  /** The identifier for a literal path, read off `Sanitize`'s contract. */
  lemma SanitizedAs(path: string, id: string)
    requires |id| == |path|
    requires forall i | 0 <= i < |path| :: id[i] == if IsSeparator(path[i]) then '_' else path[i]
    ensures Sanitize(path) == id
  {
  }

  /** An object with one property yields exactly that property's accessors. */
  lemma OnlyProperty(prefix: string, name: string, child: Node)
    ensures Getters(prefix, ObjectNode([(name, child)])) == Getters(ChildPath(prefix, name), child)
  {
    var n := ObjectNode([(name, child)]);
    assert PropsGetters(prefix, n, 0) == Ok([]);
    match Getters(ChildPath(prefix, name), child) {
      case Err(e) =>
      case Ok(more) => assert [] + more == more;
    }
  }

  /** An object with two properties yields the first one's accessors, then
      the second one's. */
  lemma TwoProperties(prefix: string, first: (string, Node), second: (string, Node))
    requires Getters(ChildPath(prefix, first.0), first.1).Ok?
    requires Getters(ChildPath(prefix, second.0), second.1).Ok?
    ensures Getters(prefix, ObjectNode([first, second]))
         == Ok(Getters(ChildPath(prefix, first.0), first.1).value + Getters(ChildPath(prefix, second.0), second.1).value)
  {
    var n := ObjectNode([first, second]);
    assert PropsGetters(prefix, n, 0) == Ok([]);
    var one, two := Getters(ChildPath(prefix, first.0), first.1).value, Getters(ChildPath(prefix, second.0), second.1).value;
    assert n.props.entries[0] == first && n.props.entries[1] == second;
    assert PropsGetters(prefix, n, 1) == Ok([] + one);
    assert [] + one == one;
    assert PropsGetters(prefix, n, 2) == Ok(one + two);
    assert Getters(prefix, n) == PropsGetters(prefix, n, 2);
  }

  /** `{"a": integer with default 5, "b": {"c": string}}` yields `a`, a plain
      integer falling back to 5, then `b_c`, an optional text looked up at "b.c". */
  lemma NestedExample()
    ensures Getters("", ObjectNode([("a", LeafNode("integer", Some(JNumber(5)))),
                                     ("b", ObjectNode([("c", LeafNode("string", None))]))]))
         == Ok([Getter("a", Plain(Int), LookupOr(Int, "a", IntLit(JNumber(5)))),
                Getter("b_c", Optional(Str), Lookup(Str, "b.c"))])
  {
    var root := ObjectNode([("a", LeafNode("integer", Some(JNumber(5)))),
                            ("b", ObjectNode([("c", LeafNode("string", None))]))]);
    var a := Getter("a", Plain(Int), LookupOr(Int, "a", IntLit(JNumber(5))));
    var bc := Getter("b_c", Optional(Str), Lookup(Str, "b.c"));
    SanitizedAs("a", "a");
    SanitizedAs("b.c", "b_c");
    assert ChildPath("", "a") == "a" && ChildPath("", "b") == "b" && ChildPath("b", "c") == "b.c";
    assert Getters("a", LeafNode("integer", Some(JNumber(5)))) == Ok([a]);
    OnlyProperty("b", "c", LeafNode("string", None));
    assert Getters("b", ObjectNode([("c", LeafNode("string", None))])) == Ok([bc]);
    TwoProperties("", ("a", LeafNode("integer", Some(JNumber(5)))), ("b", ObjectNode([("c", LeafNode("string", None))])));
    assert Getters("", root) == Ok([a] + [bc]);
    assert [a] + [bc] == [a, bc];
  }

  /** A boolean leaf with default `true` returns a plain boolean that is
      `true` whenever the host has no value for its key. */
  lemma BooleanDefaultExample(h: Host)
    requires "flag" !in h.bools
    ensures var r := Getters("", ObjectNode([("flag", LeafNode("boolean", Some(JBool(true))))]));
      r.Ok? && |r.value| == 1 && r.value[0].ret == Plain(Bool) && Call(r.value[0], h) == Value(JBool(true))
  {
    SanitizedAs("flag", "flag");
    OnlyProperty("", "flag", LeafNode("boolean", Some(JBool(true))));
    assert Getters("flag", LeafNode("boolean", Some(JBool(true))))
        == Ok([Getter("flag", Plain(Bool), LookupOr(Bool, "flag", BoolLit(true)))]);
  }

  /** Nothing stops two leaves from getting the same accessor name: "a-b" and
      "a"."b" both become `a_b`, with different lookup keys. */
  lemma CollidingNames()
    ensures var r := Getters("", ObjectNode([("a-b", LeafNode("string", None)),
                                             ("a", ObjectNode([("b", LeafNode("string", None))]))]));
      && r.Ok? && |r.value| == 2
      && r.value[0].name == r.value[1].name == "a_b"
      && r.value[0].body.key == "a-b" && r.value[1].body.key == "a.b"
  {
    var root := ObjectNode([("a-b", LeafNode("string", None)),
                            ("a", ObjectNode([("b", LeafNode("string", None))]))]);
    var dash := Getter("a_b", Optional(Str), Lookup(Str, "a-b"));
    var dot := Getter("a_b", Optional(Str), Lookup(Str, "a.b"));
    SanitizedAs("a-b", "a_b");
    SanitizedAs("a.b", "a_b");
    assert ChildPath("", "a-b") == "a-b" && ChildPath("", "a") == "a" && ChildPath("a", "b") == "a.b";
    assert Getters("a-b", LeafNode("string", None)) == Ok([dash]);
    OnlyProperty("a", "b", LeafNode("string", None));
    assert Getters("a", ObjectNode([("b", LeafNode("string", None))])) == Ok([dot]);
    TwoProperties("", ("a-b", LeafNode("string", None)), ("a", ObjectNode([("b", LeafNode("string", None))])));
  }

  /** A string leaf at a path that is already an identifier yields one optional text
      accessor named and keyed by that path. */
  lemma StringLeaf(path: string)
    requires Sanitize(path) == path
    ensures Getters(path, LeafNode("string", None)) == Ok([Getter(path, Optional(Str), Lookup(Str, path))])
  {
  }

  /** Each primitive's name is already an identifier: sanitizing leaves it be. */
  lemma PrimitiveNameSanitized(k: Kind)
    ensures Sanitize(PrimitiveName(k)) == PrimitiveName(k)
  {
    SanitizedAs(PrimitiveName(k), PrimitiveName(k));
  }

  /** Nor is a leaf kept from taking a primitive's name: a string property
      called like a primitive lookup yields an accessor of that very name. */
  lemma PrimitiveNameTaken(k: Kind)
    ensures var r := EmbedTypedConfig(ObjectNode([(PrimitiveName(k), LeafNode("string", None))]));
      && r.Ok? && |r.value.getters| == 1
      && r.value.getters[0].name == PrimitiveName(k)
      && Signature(PrimitiveName(k), Optional(k)) in r.value.primitives
  {
    var name := PrimitiveName(k);
    var root := ObjectNode([(name, LeafNode("string", None))]);
    var g := Getter(name, Optional(Str), Lookup(Str, name));
    assert Getters("", root) == Ok([g]) by {
      OnlyProperty("", name, LeafNode("string", None));
      PrimitiveNameSanitized(k);
      StringLeaf(name);
    }
    TraitOfGetters(root);
    assert Primitives[if k == Bool then 0 else if k == Int then 1 else 2] == Signature(name, Optional(k));
  }

  /** An object node without `properties` stops the generation. */
  lemma MissingPropertiesExample()
    ensures EmbedTypedConfig(ObjectNode([("db", Node(Some("object"), Missing, None))])) == Err(MissingProperties)
  {
    OnlyProperty("", "db", Node(Some("object"), Missing, None));
  }
}
