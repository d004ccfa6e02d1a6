/**
 * Names of generated accessors: the dotted lookup path of a leaf, built one
 * property at a time, and the identifier obtained from it by sanitising.
 */
module Naming {

  /** The path of a property called `name` below the path `prefix`: the root's
      path is empty, so its children carry no leading dot. */
  function ChildPath(prefix: string, name: string): string {
    if prefix == "" then name else prefix + "." + name
  }

  /** A child's path is its bare name below the root; below any other path it
      is that path, one dot, then the name. */
  lemma ChildPathParts(prefix: string, name: string)
    ensures var p := ChildPath(prefix, name);
      && (prefix == "" ==> p == name)
      && (prefix != "" ==>
            && |p| == |prefix| + 1 + |name|
            && p[..|prefix|] == prefix && p[|prefix|] == '.' && p[|prefix| + 1..] == name)
  {
  }

  /** The path reached from `prefix` by following `route`, one `ChildPath` per step. */
  function PathOf(prefix: string, route: seq<string>): string
    decreases |route|
  {
    if route == [] then prefix else PathOf(ChildPath(prefix, route[0]), route[1..])
  }

  /** The names of `route` joined by dots. */
  function Dotted(route: seq<string>): string
    decreases |route|
  {
    if route == [] then ""
    else if |route| == 1 then route[0]
    else route[0] + "." + Dotted(route[1..])
  }

  /** Below a non-empty path, each step adds a dot and the next name. */
  lemma {:induction false} PathOfBelow(prefix: string, route: seq<string>)
    requires prefix != ""
    ensures PathOf(prefix, route) == if route == [] then prefix else prefix + "." + Dotted(route)
    decreases |route|
  {
    if route != [] {
      var next := prefix + "." + route[0];
      PathOfBelow(next, route[1..]);
      if |route| > 1 {
        calc {
          PathOf(prefix, route);
          PathOf(next, route[1..]);
          next + "." + Dotted(route[1..]);
          prefix + "." + (route[0] + "." + Dotted(route[1..]));
        }
      }
    }
  }

  /** From the root, the path of a route is its dotted join, unless the route
      has two or more names and starts with an empty one. */
  lemma {:induction false} PathOfRoot(route: seq<string>)
    requires |route| <= 1 || route[0] != ""
    ensures PathOf("", route) == Dotted(route)
  {
    if route != [] {
      assert PathOf("", route) == PathOf(route[0], route[1..]);
      if |route| > 1 {
        PathOfBelow(route[0], route[1..]);
      }
    }
  }

  /** An empty first property name is absorbed: its child's path has no
      leading dot, the same path as a child of the root called "b". */
  lemma EmptyNameAbsorbed()
    ensures PathOf("", ["", "b"]) == PathOf("", ["b"]) == "b"
    ensures Dotted(["", "b"]) == ".b"
  {
  }

  /** `s` with every `from` replaced by `to`. */
  function Replace(s: string, from: char, to: char): (r: string)
    ensures |r| == |s|
    ensures forall i | 0 <= i < |s| :: r[i] == if s[i] == from then to else s[i]
    decreases |s|
  {
    if s == [] then []
    else [if s[0] == from then to else s[0]] + Replace(s[1..], from, to)
  }

  predicate IsSeparator(c: char) {
    c == '.' || c == '-'
  }

  /** The accessor identifier for a dotted path: dots, then dashes, become
      underscores. */
  function Sanitize(path: string): (id: string)
    ensures |id| == |path|
    ensures forall i | 0 <= i < |path| :: id[i] == if IsSeparator(path[i]) then '_' else path[i]
    ensures '.' !in id && '-' !in id
  {
    Replace(Replace(path, '.', '_'), '-', '_')
  }

  /** Sanitising an identifier again changes nothing. */
  lemma SanitizeIdempotent(path: string)
    ensures Sanitize(Sanitize(path)) == Sanitize(path)
  {
  }

  /** Two paths give the same identifier exactly when they have the same
      length and differ only where both hold a dot, a dash or an underscore. */
  lemma SanitizeSame(p: string, q: string)
    ensures Sanitize(p) == Sanitize(q) <==>
      && |p| == |q|
      && forall i | 0 <= i < |p| :: p[i] == q[i] || (p[i] in "._-" && q[i] in "._-")
  {
    if Sanitize(p) == Sanitize(q) {
      forall i | 0 <= i < |p|
        ensures p[i] == q[i] || (p[i] in "._-" && q[i] in "._-")
      {
        assert Sanitize(p)[i] == Sanitize(q)[i];
      }
    }
    if |p| == |q| && forall i | 0 <= i < |p| :: p[i] == q[i] || (p[i] in "._-" && q[i] in "._-") {
      forall i | 0 <= i < |p| ensures Sanitize(p)[i] == Sanitize(q)[i] {
      }
    }
  }

  /** Sanitising is not injective, and nothing downstream notices. */
  lemma SanitizeNotInjective()
    ensures "a.b" != "a-b" && Sanitize("a.b") == Sanitize("a-b") == "a_b"
  {
    assert "a.b"[1] != "a-b"[1];
  }
}
