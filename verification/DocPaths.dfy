/** Dotted paths and `find` on the finished tree (crates/sap-automate-kb/src/doc_tree.rs). */
module DocPaths {
  import opened Wrappers
  import opened DocTree

  // ----- decimal numbers and dotted paths ------------------------------------------------

  function Digit(k: nat): char
    requires k < 10
  {
    '0' + k as char
  }

  function Decimal(n: nat): string {
    if n < 10 then [Digit(n)] else Decimal(n / 10) + [Digit(n % 10)]
  }

  function DigitValue(c: char): nat {
    if '0' <= c <= '9' then (c - '0') as nat else 0
  }

  /** Reads a decimal number back. */
  function Value(s: string): nat {
    if s == "" then 0 else 10 * Value(s[..|s| - 1]) + DigitValue(s[|s| - 1])
  }

  lemma {:induction false} ValueOfDecimal(n: nat)
    ensures Value(Decimal(n)) == n && Decimal(n) != "" && '.' !in Decimal(n)
  {
    var s := Decimal(n);
    if n >= 10 {
      ValueOfDecimal(n / 10);
      assert s[..|s| - 1] == Decimal(n / 10);
    } else {
      assert s[..0] == "";
    }
  }

  /** The path of the node at an address, numbering children from 1. */
  function PathOf(a: Address): string
    requires a != []
  {
    if |a| == 1 then Decimal(a[0] + 1) else PathOf(a[..|a| - 1]) + "." + Decimal(a[|a| - 1] + 1)
  }

  lemma DotBefore(p: string, x: string, q: string, y: string)
    requires '.' !in x && p + "." + x == q + "." + y
    ensures |q| <= |p|
  {
    var s := p + "." + x;
    assert s[|q|] == (q + "." + y)[|q|] == '.';
  }

  /** The last dot of a string decides where its last component starts. */
  lemma LastComponent(p: string, x: string, q: string, y: string)
    requires '.' !in x && '.' !in y && p + "." + x == q + "." + y
    ensures p == q && x == y
  {
    DotBefore(p, x, q, y);
    DotBefore(q, y, p, x);
    var s := p + "." + x;
    assert p == s[..|p|] && q == s[..|q|];
    assert x == s[|p| + 1..] && y == (q + "." + y)[|q| + 1..];
  }

  /** Different nodes have different paths, as strings. */
  lemma {:induction false} PathInjective(a: Address, b: Address)
    requires a != [] && b != [] && PathOf(a) == PathOf(b)
    ensures a == b
    decreases |a|
  {
    var x, y := a[|a| - 1] + 1, b[|b| - 1] + 1;
    ValueOfDecimal(x);
    ValueOfDecimal(y);
    if |a| == 1 && |b| == 1 {
      assert a == [a[0]] && b == [b[0]];
    } else if |a| > 1 && |b| > 1 {
      LastComponent(PathOf(a[..|a| - 1]), Decimal(x), PathOf(b[..|b| - 1]), Decimal(y));
      PathInjective(a[..|a| - 1], b[..|b| - 1]);
      assert a == a[..|a| - 1] + [a[|a| - 1]] && b == b[..|b| - 1] + [b[|b| - 1]];
    } else {
      DotInside(a);
      DotInside(b);
    }
  }

  lemma DotInside(a: Address)
    requires a != []
    ensures PathOf(a) != "" && ('.' in PathOf(a) <==> |a| > 1)
  {
    ValueOfDecimal(a[|a| - 1] + 1);
    if |a| > 1 {
      var p := PathOf(a[..|a| - 1]);
      assert PathOf(a)[|p|] == '.';
    }
  }

  // ----- assigning paths -----------------------------------------------------------------

  function AssignPaths(n: Node, path: string): Node {
    n.(path := path,
       children := seq(|n.children|, i requires 0 <= i < |n.children| =>
                         AssignPaths(n.children[i], path + "." + Decimal(i + 1))))
  }

  function AssignRoots(f: Forest): Forest {
    seq(|f|, i requires 0 <= i < |f| => AssignPaths(f[i], Decimal(i + 1)))
  }

  /** Every node of `f`, whose addresses extend `at`, carries the path of its address. */
  ghost predicate Addressed(f: Forest, at: Address) {
    forall i :: 0 <= i < |f| ==> f[i].path == PathOf(at + [i]) && Addressed(f[i].children, at + [i])
  }

  lemma {:induction false} AssignedIsAddressed(n: Node, a: Address)
    requires a != []
    ensures Addressed(AssignPaths(n, PathOf(a)).children, a)
  {
    var kids := AssignPaths(n, PathOf(a)).children;
    forall i | 0 <= i < |kids|
      ensures kids[i].path == PathOf(a + [i]) && Addressed(kids[i].children, a + [i])
    {
      assert (a + [i])[..|a|] == a;
      AssignedIsAddressed(n.children[i], a + [i]);
    }
  }

  lemma RootIsAddressed(n: Node, i: nat)
    ensures var r := AssignPaths(n, Decimal(i + 1)); r.path == PathOf([i]) && Addressed(r.children, [i])
  {
    AssignedIsAddressed(n, [i]);
  }

  lemma RootsAreAddressed(f: Forest)
    ensures Addressed(AssignRoots(f), [])
  {
    var roots := AssignRoots(f);
    forall i | 0 <= i < |roots|
      ensures roots[i].path == PathOf([] + [i]) && Addressed(roots[i].children, [] + [i])
    {
      RootIsAddressed(f[i], i);
      assert [] + [i] == [i];
    }
  }

  // ----- find ----------------------------------------------------------------------------

  function Find(n: Node, path: string): Option<Node>
    decreases n, 0
  {
    if n.path == path then Some(n) else FindFrom(n.children, 0, path)
  }

  function FindFrom(f: Forest, i: nat, path: string): Option<Node>
    requires i <= |f|
    decreases f, |f| - i
  {
    if i == |f| then None
    else match Find(f[i], path)
      case Some(n) => Some(n)
      case None => FindFrom(f, i + 1, path)
  }

  predicate Below(at: Address, t: Address) {
    |at| < |t| && t[..|at|] == at
  }

  /** What the search should find: the node at `t`, if `t` lies among the siblings from `i` on. */
  function Sought(f: Forest, at: Address, i: nat, t: Address): Option<Node> {
    if Below(at, t) && i <= t[|at|] && ValidAddress(f, t[|at|..]) then Some(Deref(f, t[|at|..])) else None
  }

  lemma SoughtHere(f: Forest, at: Address, i: nat, t: Address)
    requires i < |f|
    ensures at + [i] == t ==> Sought(f, at, i, t) == Some(f[i])
    ensures at + [i] != t ==>
              Sought(f, at, i, t) == match Sought(f[i].children, at + [i], 0, t)
                                     case Some(n) => Some(n)
                                     case None => Sought(f, at, i + 1, t)
  {
    var here := at + [i];
    if here == t {
      assert t[|at|..] == [i] && t[..|at|] == at && t[|at|] == i;
      assert ValidAddress(f[i].children, [i][1..]);
      assert ValidAddress(f, [i]) && Deref(f, [i]) == f[i];
    } else if Below(at, t) && t[|at|] == i {
      assert t[..|here|] == here;
      assert t[|at|..][1..] == t[|here|..];
    } else {
      assert !Below(here, t);
    }
  }

  /** The test `find` makes at each node decides whether it stands at the address. */
  lemma PathTest(f: Forest, at: Address, i: nat, t: Address)
    requires Addressed(f, at) && i < |f| && t != []
    ensures f[i].path == PathOf(t) <==> at + [i] == t
    ensures Addressed(f[i].children, at + [i])
  {
    assert f[i].path == PathOf(at + [i]);
    if PathOf(at + [i]) == PathOf(t) {
      PathInjective(at + [i], t);
    }
  }

  /** Depth-first search for the path of address `t` meets exactly the node at `t`. */
  lemma {:induction false} FindsAddress(f: Forest, at: Address, i: nat, t: Address, path: string)
    requires Addressed(f, at) && i <= |f| && t != [] && path == PathOf(t)
    ensures FindFrom(f, i, path) == Sought(f, at, i, t)
    decreases f, |f| - i
  {
    if i < |f| {
      PathTest(f, at, i, t);
      SoughtHere(f, at, i, t);
      FindsAddress(f, at, i + 1, t, path);
      FindsAddress(f[i].children, at + [i], 0, t, path);
    }
  }

  lemma {:induction false} AddressedPath(f: Forest, at: Address, a: Address)
    requires Addressed(f, at) && a != [] && ValidAddress(f, a)
    ensures Deref(f, a).path == PathOf(at + a)
    decreases |a|
  {
    if |a| == 1 {
      assert at + a == at + [a[0]];
    } else {
      AddressedPath(f[a[0]].children, at + [a[0]], a[1..]);
      assert at + [a[0]] + a[1..] == at + a;
    }
  }

  /** For every node of the finished tree, `find` with its path returns that node. */
  lemma FindReturnsNode(root: Node, f: Forest, a: Address)
    requires root.path == "" && root.children == AssignRoots(f) && a != [] && ValidAddress(root.children, a)
    ensures Find(root, Deref(root.children, a).path) == Some(Deref(root.children, a))
  {
    RootsAreAddressed(f);
    AddressedPath(root.children, [], a);
    assert [] + a == a && a[0..] == a;
    DotInside(a);
    FindsAddress(root.children, [], 0, a, PathOf(a));
  }
}
