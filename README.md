# config-schema-gen in Dafny

A model of the schema-to-accessor compiler behind the `embed_typed_config!`
procedural macro. The macro reads a JSON schema (a tree of nodes with an
optional `type` of `string`, `boolean`, `integer` or `object`, `properties`
on objects and an optional `default` on leaves). It then expands to a
`TypedConfig` trait. The trait declares three primitive lookups
(`get_bool`, `get_int`, `get_str`) and one derived accessor per leaf of the
schema.

`gen_getters` walks the tree depth-first. At each object node it extends a
dotted path with each property name. The root's path is empty, so the root's
children carry no leading dot. At each other node it emits one accessor:

- Its name is the path with `.` and `-` replaced by `_`.
- Its lookup key is the path itself.
- A `string`/`boolean`/`integer` leaf gets an `Option<…>` return type that
  forwards the lookup, or, when it has a default, a plain return type that
  falls back to the default.
- A leaf of any other type gets an empty stub returning `()`.

A node without a `type` is a `string` node.

The model works on the parsed tree and describes accessors as data
(`Accessor.Getter`: name, return type, body) rather than as Rust tokens.

- `schema.dfy` (module `Schema`) holds the node datatype and the reference
  definitions the generator is proved against:
  - `WellFormed`, the schemas the generator accepts;
  - `Leaves`, the leaves in depth-first order, each with its route of
    property names;
  - `Typed`, a schema with every missing type written out.
- `naming.dfy` (module `Naming`) holds path construction and identifier
  sanitisation.
- `accessor.dfy` (module `Accessor`) holds the accessor descriptors, and
  `Call`, what a generated accessor returns for a given host's lookups.
- `gen_getters.dfy` (module `GenGetters`) holds the compiler:
  - the leaf mapping `LeafGetter`;
  - the walk as the function `Getters`;
  - the walk as the method `GenGetters`, a recursion with a loop that
    appends each property's accessors, proved equal to `Getters`;
  - the theorems tying the walk to `Leaves` and `WellFormed`.
- `typed_config.dfy` (module `TypedConfig`) holds the trait assembly
  `EmbedTypedConfig` and worked schemas.

The schema errors are the generator's panics:

- an object without `properties`;
- a `default` that is not a JSON string on a `string` leaf;
- a `default` that is not a JSON boolean on a `boolean` leaf.

They are modelled as `Result.Err`. The first one met in depth-first order
aborts the whole walk.

Some behaviour of the code that a schema author might not expect, modelled as the code has it:

- An object with an empty `properties` map is accepted and yields no accessors.
- `properties` on a leaf and `default` on an object are ignored.
- No check is made for two paths that sanitise to the same identifier.
  `CollidingNames` exhibits such a schema, and the walk accepts it.
- The panics carry no node path, so the errors carry none either.

## Model

| member | source | states |
|---|---|---|
| Naming.ChildPath | src/lib.rs:54-58 | a child's path from its parent's path and its property name; it has no contract of its own, and `ChildPathParts` states what it builds |
| Naming.ChildPathParts | src/lib.rs:54-58 | below the empty root path a child's path is its bare name; below any other path it is that path, one dot, then the name |
| Naming.PathOfBelow | src/lib.rs:54-58 | below a non-empty path, following a route adds a dot and the route's names joined by dots |
| Naming.PathOfRoot | src/lib.rs:33 | from the root's empty path, a route's path is its names joined by dots, unless the route has two or more names and starts with an empty one |
| Naming.EmptyNameAbsorbed | src/lib.rs:54-55 | an empty first property name vanishes from the path: `"" / "b"` gets the path `b`, not `.b` |
| Naming.Replace | src/lib.rs:64 | replacing a character keeps the length and changes exactly the positions that held it |
| Naming.Sanitize | src/lib.rs:64 | the identifier has the path's length, holds no `.` or `-`, has `_` where the path has `.` or `-`, and agrees with the path everywhere else |
| Naming.SanitizeIdempotent | src/lib.rs:64 | sanitising an identifier again leaves it unchanged |
| Naming.SanitizeSame | src/lib.rs:64 | two paths give the same identifier if and only if they have equal length and differ only where both hold one of `.`, `_`, `-` |
| Naming.SanitizeNotInjective | src/lib.rs:64 | `a.b` and `a-b` are different paths with the same identifier `a_b` |
| Schema.TypeName | src/lib.rs:49 | a node's type, `string` when it has none; it has no contract of its own, and `GenGetters.UntypedIsString` states that writing the default out changes no output |
| Schema.Leaves | src/lib.rs:51-62 | the depth-first leaf list never lists an object node |
| Schema.LeavesOf | src/lib.rs:52-61 | the leaves below the first k properties, in property order, never list an object node |
| Accessor.Fetch | src/lib.rs:37-41 | a primitive lookup finds a value exactly when the host has one for that key and kind; the value found is of that kind (`Option<bool>`, `Option<i64>`, `Option<String>`) and is the host's value |
| Accessor.Call | src/lib.rs:69-100 | a consistently typed accessor returns a plain value, an optional value or `()` exactly as its return type is plain, optional or `()`; when any fallback literal is of the accessor's kind, every value it returns is of the kind its return type names |
| GenGetters.KindOf | src/lib.rs:69-99 | exactly `string`, `boolean` and `integer` are supported leaf types |
| GenGetters.LeafGetter | src/lib.rs:64-107 | a leaf maps to an accessor exactly when its default fits its type. The accessor is named after the sanitised path, is consistently typed, and is `()`-returning exactly for unsupported types. Otherwise it looks up the full path with the primitive of the leaf's kind and is plain exactly when a default is given |
| GenGetters.LeafGetterCall | src/lib.rs:69-98 | the accessor of a supported leaf returns the host's value at the leaf's path, else the schema default when there is one; without a default it forwards the optional lookup result unchanged |
| GenGetters.UnsupportedLeafIsStub | src/lib.rs:99-100 | a leaf of an unsupported type yields an empty stub returning `()`, never an error, whatever its default |
| GenGetters.Getters | src/lib.rs:48-62 | the depth-first walk as a function; it has no contract of its own, and `GettersFollowLeaves`, `OneGetterPerLeaf`, `RootAccessorNames` and `UntypedIsString` state its properties |
| GenGetters.PropsGetters | src/lib.rs:52-61 | the walk over an object's first k properties; it has no contract of its own, and `PropsGettersFollowLeaves`, `FirstErrorWins` and `UntypedIsStringProps` state its properties |
| GenGetters.FirstErrorWins | src/lib.rs:53-61 | once one property's subtree fails, the whole object fails with that same error |
| GenGetters.GenGetters | src/lib.rs:48-109 | the generator's loop over properties (appending each property's accessors, aborting on the first failure) computes exactly the depth-first walk `Getters` |
| GenGetters.OnePerLeafAppend | src/lib.rs:53-61 | appending one more property's accessors keeps the one-accessor-per-leaf correspondence, with that property's name prefixed to the routes |
| GenGetters.GettersFollowLeaves | src/lib.rs:48-62 | the walk succeeds if and only if the schema is well formed. It then yields exactly one accessor per depth-first leaf, in leaf order, each the leaf's accessor at the leaf's path |
| GenGetters.PropsGettersFollowLeaves | src/lib.rs:52-61 | the same for the first k properties: success if and only if each of their subtrees is well formed, and one accessor per leaf below them, in order |
| GenGetters.OneGetterPerLeaf | src/lib.rs:51-62 | for a well-formed schema the number of accessors equals the number of leaves reachable from the root; nested objects add none of their own |
| GenGetters.RootAccessorNames | src/lib.rs:33 | from the root, each accessor's lookup key is its leaf's full dotted path and its name that path sanitised, when the route does not start with an empty name followed by more |
| GenGetters.UntypedIsString | src/lib.rs:49 | writing `string` wherever `type` is missing, at every depth, changes nothing in the output |
| GenGetters.UntypedIsStringProps | src/lib.rs:49 | the same for the first k properties of an object |
| TypedConfig.GettersSelfContained | src/lib.rs:35-45 | every accessor of the trait is consistently typed and calls only one of the three declared primitives, of matching kind |
| TypedConfig.EmbedTypedConfig | src/lib.rs:33-45 | the trait exists if and only if the schema is well formed. It is named `TypedConfig`. Its primitives are exactly `get_bool`, `get_int`, `get_str`, in that order, returning `Option<bool>`, `Option<i64>`, `Option<String>`. Its accessors are one per depth-first leaf, in leaf order, each the leaf's accessor at the leaf's path from the root. Every accessor is consistently typed and calls a declared primitive of its kind |
| TypedConfig.OnlyProperty | src/lib.rs:52-62 | an object with a single property yields exactly that property's accessors |
| TypedConfig.TwoProperties | src/lib.rs:52-62 | an object with two properties yields the first one's accessors, then the second one's |
| TypedConfig.SanitizedAs | src/lib.rs:64 | a path's identifier is determined by the per-character rule |
| TypedConfig.NestedExample | src/lib.rs:69-98 | `{a: integer, default 5; b: {c: string}}` yields `a` (plain integer, falls back to 5, key `a`) then `b_c` (optional text, key `b.c`) |
| TypedConfig.BooleanDefaultExample | src/lib.rs:79-85 | a boolean leaf with default `true` yields a plain boolean accessor that returns `true` when the host has no value |
| TypedConfig.CollidingNames | src/lib.rs:64 | properties `a-b` and `a`/`b` are both accepted and both produce an accessor named `a_b`, with keys `a-b` and `a.b` |
| TypedConfig.PrimitiveNameSanitized | src/lib.rs:36-40 | the names `get_bool`, `get_int`, `get_str` are unchanged by sanitising |
| TypedConfig.PrimitiveNameTaken | src/lib.rs:36-43 | a string property named like any of the three primitives is accepted and produces an accessor with that primitive's name, next to the primitive itself |
| TypedConfig.MissingPropertiesExample | src/lib.rs:53 | an object node without `properties`, even below the root, makes generation fail |

## Left out

- Locating and reading the schema file (`CARGO_MANIFEST_DIR`, the optional file-name argument, `fs::read_to_string`) is environment access and I/O. The model starts from a parsed tree.
- Parsing the JSON text into a schema is a foreign library call. The order in which the parsed `properties` map yields its entries is taken as given: the model's `Properties` sequence is that order. If the parsed map does not keep insertion order (a hash map does not), the accessors come out in the map's iteration order, not the document's. `TypedConfig.NestedExample` and `TypedConfig.CollidingNames` list properties in that iteration order; `a` before `b_c` there is an assumption about it.
- Rendering accessors as Rust tokens is a proc-macro library's work. The model describes each accessor as a name, a return type and a body.
- Accepting a name as a Rust identifier is not modelled. A name with characters other than letters, digits and `_` (or starting with a digit) would make `Ident::new` panic; the model gives such a leaf an accessor. A root that is itself a leaf gets the empty name, which `Ident::new` would also reject.
- GenGetters.LeafGetter: the integer literal constructor rejects text that is not an integer literal, and that is not modelled. For an `integer` leaf the model embeds the default whatever its JSON kind (`IntLit`), as the generator hands it over unchecked. Whether an integer default fits in `i64` is left to the compiler of the generated code.
- Accessor.Fetch: the host's integers are unbounded `int`, while `get_int` returns `i64`. The model does not restrict them to 64 bits, because the generated code only forwards the value or falls back to the default and never does arithmetic on it.
- Defaults that are fractions, arrays or objects are one value, `JOther`. That is enough for the kind checks the generator makes.
- The proc-macro entry point is compiler plumbing.
- Whether the generated trait compiles (duplicate accessor names, a name taken by a primitive) is the Rust compiler's concern. The model only shows that such output is produced.
