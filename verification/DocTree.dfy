/** The document tree builder of crates/sap-automate-kb/src/doc_tree.rs: a list of sections is
    folded into a forest with a stack of raw pointers into growing vectors. */
module DocTree {

  datatype Section = Section(depth: nat, title: string, start: nat, end: nat)

  datatype Node = Node(section: Section, path: string, children: seq<Node>)

  type Forest = seq<Node>

  /** Where a node lives: the index to take in `roots`, then in each `children` vector. */
  type Address = seq<nat>

  predicate ValidAddress(f: Forest, a: Address)
    decreases |a|
  {
    a == [] || (a[0] < |f| && ValidAddress(f[a[0]].children, a[1..]))
  }

  function Deref(f: Forest, a: Address): Node
    requires a != [] && ValidAddress(f, a)
    decreases |a|
  {
    if |a| == 1 then f[a[0]] else Deref(f[a[0]].children, a[1..])
  }

  /** Appends `n` to the children of the node at `a`, or to the roots. */
  function PushAt(f: Forest, a: Address, n: Node): Forest
    requires ValidAddress(f, a)
    decreases |a|
  {
    if a == [] then f + [n]
    else f[a[0] := f[a[0]].(children := PushAt(f[a[0]].children, a[1..], n))]
  }

  /** Growing the vector that holds the children of `a` may reallocate it: every pointer to one
      of those children dangles.  Deeper nodes live in vectors of their own and stay put. */
  predicate Moved(a: Address, pointer: Address) {
    |pointer| == |a| + 1 && pointer[..|a|] == a
  }

  // ----- reading a forest back -----------------------------------------------------------

  /** The number of nodes. */
  function Size(f: Forest): nat {
    if f == [] then 0 else Size(f[..|f| - 1]) + 1 + Size(f[|f| - 1].children)
  }

  /** The sections of a forest in source order: each node before its children. */
  function Preorder(f: Forest): seq<Section> {
    if f == [] then []
    else Preorder(f[..|f| - 1]) + [f[|f| - 1].section] + Preorder(f[|f| - 1].children)
  }

  /** For each node in preorder, the preorder index of its parent (or `parent` for the roots),
      when the first node has index `base`. */
  function Parents(f: Forest, base: nat, parent: int): seq<int> {
    if f == [] then []
    else
      var front := f[..|f| - 1];
      var here := base + Size(front);
      Parents(front, base, parent) + [parent] + Parents(f[|f| - 1].children, here + 1, here)
  }

  lemma {:induction false} SizeOfPreorder(f: Forest)
    ensures |Preorder(f)| == Size(f)
  {
    if f != [] {
      SizeOfPreorder(f[..|f| - 1]);
      SizeOfPreorder(f[|f| - 1].children);
    }
  }

  // ----- the stack -----------------------------------------------------------------------

  /** A stack entry: the depth it was pushed with, the pointer, and (for the proof) the position
      of its section. */
  datatype Entry = Entry(depth: nat, pointer: Address, index: nat)

  /** The stack is a top segment of the rightmost spine of `f`, whose nodes have addresses
      extending `at` and preorder indices from `base` on. */
  predicate Spine(f: Forest, at: Address, base: nat, stack: seq<Entry>)
    decreases |stack|
  {
    stack == [] ||
    (f != [] &&
     var last := |f| - 1;
     && stack[0].pointer == at + [last]
     && stack[0].depth == f[last].section.depth
     && stack[0].index == base + Size(f[..last])
     && Spine(f[last].children, at + [last], stack[0].index + 1, stack[1..]))
  }

  function Top(stack: seq<Entry>, at: Address): Address {
    if stack == [] then at else stack[|stack| - 1].pointer
  }

  predicate Ascending(stack: seq<Entry>) {
    forall i, j :: 0 <= i < j < |stack| ==> stack[i].depth < stack[j].depth
  }

  lemma {:induction false} SpinePointers(f: Forest, at: Address, base: nat, stack: seq<Entry>)
    requires Spine(f, at, base, stack)
    ensures forall k :: 0 <= k < |stack| ==>
              |stack[k].pointer| == |at| + k + 1 && stack[k].pointer[..|at|] == at
    ensures |Top(stack, at)| == |at| + |stack| && ValidAddress(f, Top(stack, at)[|at|..])
    decreases |stack|
  {
    if stack != [] {
      var last := |f| - 1;
      SpinePointers(f[last].children, at + [last], stack[0].index + 1, stack[1..]);
      forall k | 0 <= k < |stack|
        ensures |stack[k].pointer| == |at| + k + 1 && stack[k].pointer[..|at|] == at
      {
        if k > 0 {
          assert stack[k] == stack[1..][k - 1];
          assert stack[k].pointer[..|at|] == stack[k].pointer[..|at| + 1][..|at|];
        }
      }
      var top := Top(stack, at);
      assert top == Top(stack[1..], at + [last]);
      assert top[|at|..][0] == last && top[|at|..][1..] == top[|at| + 1..] by {
        assert top[..|at| + 1] == at + [last];
        assert top[|at|] == top[..|at| + 1][|at|] == last;
      }
    }
  }

  /** No pointer on the stack is moved by a push below the top. */
  lemma PushMovesNoPointer(f: Forest, stack: seq<Entry>)
    requires Spine(f, [], 0, stack)
    ensures forall k :: 0 <= k < |stack| ==> !Moved(Top(stack, []), stack[k].pointer)
  {
    SpinePointers(f, [], 0, stack);
  }

  /** How many nodes sit in the vector that `PushAt` would grow. */
  function ChildCount(f: Forest, a: Address): nat
    requires ValidAddress(f, a)
    decreases |a|
  {
    if a == [] then |f| else ChildCount(f[a[0]].children, a[1..])
  }

  /** The push, seen from the spine: descend along the stack, then append. */
  function Grow(f: Forest, at: Address, base: nat, stack: seq<Entry>, n: Node): Forest
    requires Spine(f, at, base, stack)
    decreases |stack|
  {
    if stack == [] then f + [n]
    else
      var last := |f| - 1;
      f[last := f[last].(children := Grow(f[last].children, at + [last], stack[0].index + 1, stack[1..], n))]
  }

  function GrownPointer(f: Forest, at: Address, base: nat, stack: seq<Entry>): Address
    requires Spine(f, at, base, stack)
    decreases |stack|
  {
    if stack == [] then at + [|f|]
    else GrownPointer(f[|f| - 1].children, at + [|f| - 1], stack[0].index + 1, stack[1..])
  }

  function GrownEntry(f: Forest, at: Address, base: nat, stack: seq<Entry>, depth: nat): Entry
    requires Spine(f, at, base, stack)
  {
    Entry(depth, GrownPointer(f, at, base, stack), base + Size(f))
  }

  lemma {:induction false} GrowIsPush(f: Forest, at: Address, base: nat, stack: seq<Entry>, n: Node)
    requires Spine(f, at, base, stack)
    ensures var a := Top(stack, at);
            && |at| <= |a| && ValidAddress(f, a[|at|..])
            && Grow(f, at, base, stack, n) == PushAt(f, a[|at|..], n)
            && GrownPointer(f, at, base, stack) == a + [ChildCount(f, a[|at|..])]
    decreases |stack|
  {
    SpinePointers(f, at, base, stack);
    if stack != [] {
      var last, a := |f| - 1, Top(stack, at);
      GrowIsPush(f[last].children, at + [last], stack[0].index + 1, stack[1..], n);
      SpinePointers(f[last].children, at + [last], stack[0].index + 1, stack[1..]);
      assert a == Top(stack[1..], at + [last]);
      assert a[..|at| + 1] == at + [last];
      assert a[|at|..][0] == last && a[|at|..][1..] == a[|at| + 1..];
    }
  }

  /** Pushing a leaf below the top of the spine appends it to the preorder ... */
  lemma {:induction false} GrowPreorder(f: Forest, at: Address, base: nat, stack: seq<Entry>, n: Node)
    requires Spine(f, at, base, stack) && n.children == []
    ensures Preorder(Grow(f, at, base, stack, n)) == Preorder(f) + [n.section]
    decreases |stack|
  {
    var f' := Grow(f, at, base, stack, n);
    if stack == [] {
      assert f'[..|f|] == f;
    } else {
      var last := |f| - 1;
      GrowPreorder(f[last].children, at + [last], stack[0].index + 1, stack[1..], n);
      assert f'[..last] == f[..last];
    }
  }

  lemma ParentsSplit(front: Forest, n: Node, base: nat, parent: int)
    ensures var here := base + Size(front);
            Parents(front + [n], base, parent)
            == Parents(front, base, parent) + [parent] + Parents(n.children, here + 1, here)
  {
    assert (front + [n])[..|front|] == front;
  }

  lemma ParentsLeaf(front: Forest, n: Node, base: nat, parent: int)
    requires n.children == []
    ensures Parents(front + [n], base, parent) == Parents(front, base, parent) + [parent]
  {
    ParentsSplit(front, n, base, parent);
  }

  lemma ParentsAppend(front: Forest, n: Node, n': Node, base: nat, parent: int, top: int)
    requires var here := base + Size(front);
             Parents(n'.children, here + 1, here) == Parents(n.children, here + 1, here) + [top]
    ensures Parents(front + [n'], base, parent) == Parents(front + [n], base, parent) + [top]
  {
    ParentsSplit(front, n, base, parent);
    ParentsSplit(front, n', base, parent);
  }

  lemma GrowBelow(f: Forest, at: Address, base: nat, stack: seq<Entry>, n: Node)
    requires Spine(f, at, base, stack) && stack != []
    ensures var last := |f| - 1;
            var kids' := Grow(f[last].children, at + [last], stack[0].index + 1, stack[1..], n);
            && f == f[..last] + [f[last]]
            && Grow(f, at, base, stack, n) == f[..last] + [f[last].(children := kids')]
  {}

  function TopIndex(stack: seq<Entry>, parent: int): int {
    if stack == [] then parent else stack[|stack| - 1].index
  }

  lemma TopIndexBelow(stack: seq<Entry>, parent: int)
    requires stack != []
    ensures TopIndex(stack[1..], stack[0].index) == TopIndex(stack, parent)
  {}

  lemma GrowParentsBelow(f: Forest, at: Address, base: nat, stack: seq<Entry>, n: Node, parent: int)
    requires Spine(f, at, base, stack) && stack != []
    requires var last, here := |f| - 1, stack[0].index;
             var kids' := Grow(f[last].children, at + [last], here + 1, stack[1..], n);
             Parents(kids', here + 1, here) == Parents(f[last].children, here + 1, here) + [TopIndex(stack, parent)]
    ensures Parents(Grow(f, at, base, stack, n), base, parent) == Parents(f, base, parent) + [TopIndex(stack, parent)]
  {
    var last := |f| - 1;
    var kids' := Grow(f[last].children, at + [last], stack[0].index + 1, stack[1..], n);
    GrowBelow(f, at, base, stack, n);
    ParentsAppend(f[..last], f[last], f[last].(children := kids'), base, parent, TopIndex(stack, parent));
  }

  /** ... gives it the top as parent ... */
  lemma {:induction false} GrowParents(f: Forest, at: Address, base: nat, stack: seq<Entry>, n: Node, parent: int)
    requires Spine(f, at, base, stack) && n.children == []
    ensures Parents(Grow(f, at, base, stack, n), base, parent) == Parents(f, base, parent) + [TopIndex(stack, parent)]
    decreases |stack|
  {
    if stack == [] {
      ParentsLeaf(f, n, base, parent);
    } else {
      GrowParents(f[|f| - 1].children, at + [|f| - 1], stack[0].index + 1, stack[1..], n, stack[0].index);
      TopIndexBelow(stack, parent);
      GrowParentsBelow(f, at, base, stack, n, parent);
    }
  }

  /** ... and makes it the new end of the spine. */
  lemma {:induction false} GrowSpine(f: Forest, at: Address, base: nat, stack: seq<Entry>, n: Node)
    requires Spine(f, at, base, stack) && n.children == []
    ensures Spine(Grow(f, at, base, stack, n), at, base,
                  stack + [GrownEntry(f, at, base, stack, n.section.depth)])
    decreases |stack|
  {
    var f' := Grow(f, at, base, stack, n);
    var e := GrownEntry(f, at, base, stack, n.section.depth);
    if stack == [] {
      assert f'[..|f|] == f;
      assert [e][1..] == [];
    } else {
      var last := |f| - 1;
      GrowSpine(f[last].children, at + [last], stack[0].index + 1, stack[1..], n);
      assert f'[..last] == f[..last];
      assert (stack + [e])[1..] == stack[1..] + [e];
    }
  }

  // ----- the nearest earlier section of smaller depth --------------------------------------

  /** The last position before `i` whose depth is below `d`, or -1. */
  function Nearest(depths: seq<nat>, d: nat, i: nat): int
    requires i <= |depths|
  {
    if i == 0 then -1 else if depths[i - 1] < d then i - 1 else Nearest(depths, d, i - 1)
  }

  lemma {:induction false} NearestSkips(depths: seq<nat>, d: nat, lo: nat, hi: nat)
    requires lo <= hi <= |depths| && forall i :: lo <= i < hi ==> depths[i] >= d
    ensures Nearest(depths, d, hi) == Nearest(depths, d, lo)
  {
    if lo < hi { NearestSkips(depths, d, lo, hi - 1); }
  }

  lemma {:induction false} NearestOfPrefix(depths: seq<nat>, more: seq<nat>, d: nat, i: nat)
    requires i <= |depths|
    ensures Nearest(depths + more, d, i) == Nearest(depths, d, i)
  {
    if i > 0 { NearestOfPrefix(depths, more, d, i - 1); }
  }

  /** Where the gap below stack entry `k` starts. */
  function After(stack: seq<Entry>, k: int): nat
    requires -1 <= k < |stack|
  {
    if k < 0 then 0 else stack[k].index + 1
  }

  predicate AllAtLeast(depths: seq<nat>, lo: nat, hi: nat, d: nat) {
    forall i :: lo <= i < hi && i < |depths| ==> depths[i] >= d
  }

  /** Entry `k` names a section by its depth, and no section between the entry below and it is
      shallower. */
  predicate Linked(depths: seq<nat>, stack: seq<Entry>, k: nat)
    requires k < |stack|
  {
    var e := stack[k];
    e.index < |depths| && depths[e.index] == e.depth && AllAtLeast(depths, After(stack, k - 1), e.index, e.depth)
  }

  predicate Chain(depths: seq<nat>, stack: seq<Entry>) {
    forall k {:trigger Linked(depths, stack, k)} :: 0 <= k < |stack| ==> Linked(depths, stack, k)
  }

  /** `d` would be popped down to this stack: everything behind its top is at least as deep. */
  predicate PoppedTo(depths: seq<nat>, stack: seq<Entry>, d: nat) {
    AllAtLeast(depths, After(stack, |stack| - 1), |depths|, d)
  }

  lemma PopFindsNearest(depths: seq<nat>, stack: seq<Entry>, d: nat)
    requires Chain(depths, stack) && PoppedTo(depths, stack, d)
    requires stack != [] ==> stack[|stack| - 1].depth < d
    ensures Nearest(depths, d, |depths|) == TopIndex(stack, -1)
  {
    if stack != [] {
      assert Linked(depths, stack, |stack| - 1);
    }
    NearestSkips(depths, d, After(stack, |stack| - 1), |depths|);
  }

  // ----- building the forest -------------------------------------------------------------

  function Leaf(s: Section): Node {
    Node(s, "", [])
  }

  function Depths(sections: seq<Section>): seq<nat> {
    seq(|sections|, i requires 0 <= i < |sections| => sections[i].depth)
  }

  /** The invariant of the stack: the rightmost spine, of strictly increasing depth, each entry the
      nearest shallower section of the next. */
  predicate Sound(f: Forest, depths: seq<nat>, stack: seq<Entry>) {
    Spine(f, [], 0, stack) && Ascending(stack) && Chain(depths, stack)
  }

  lemma PopKeepsChain(depths: seq<nat>, stack: seq<Entry>)
    requires Chain(depths, stack) && stack != []
    ensures Chain(depths, stack[..|stack| - 1])
  {
    var rest := stack[..|stack| - 1];
    forall k | 0 <= k < |rest| ensures Linked(depths, rest, k) {
      assert Linked(depths, stack, k);
    }
  }

  lemma PopGoesOn(depths: seq<nat>, stack: seq<Entry>, d: nat)
    requires Chain(depths, stack) && stack != [] && PoppedTo(depths, stack, d) && stack[|stack| - 1].depth >= d
    ensures PoppedTo(depths, stack[..|stack| - 1], d)
  {
    var rest, top := stack[..|stack| - 1], |stack| - 1;
    assert Linked(depths, stack, top);
    assert After(rest, top - 1) == After(stack, top - 1);
  }

  lemma PopKeepsSound(f: Forest, depths: seq<nat>, stack: seq<Entry>)
    requires Sound(f, depths, stack) && stack != []
    ensures Sound(f, depths, stack[..|stack| - 1])
  {
    SpinePrefix(f, [], 0, stack);
    PopKeepsChain(depths, stack);
  }

  /** Drops the entries that are not strict ancestors of a section of depth `d`. */
  method PopTo(stack0: seq<Entry>, d: nat, ghost f: Forest, ghost depths: seq<nat>) returns (stack: seq<Entry>)
    requires Sound(f, depths, stack0) && TopIndex(stack0, -1) == |depths| - 1
    ensures Sound(f, depths, stack)
    ensures TopIndex(stack, -1) == Nearest(depths, d, |depths|)
    ensures PoppedTo(depths, stack, d) && (stack != [] ==> stack[|stack| - 1].depth < d)
  {
    stack := stack0;
    while stack != [] && stack[|stack| - 1].depth >= d
      invariant Sound(f, depths, stack) && PoppedTo(depths, stack, d)
      decreases |stack|
    {
      PopKeepsSound(f, depths, stack);
      PopGoesOn(depths, stack, d);
      stack := stack[..|stack| - 1];
    }
    PopFindsNearest(depths, stack, d);
  }

  lemma {:induction false} SpinePrefix(f: Forest, at: Address, base: nat, stack: seq<Entry>)
    requires Spine(f, at, base, stack) && stack != []
    ensures Spine(f, at, base, stack[..|stack| - 1])
    decreases |stack|
  {
    if |stack| > 1 {
      SpinePrefix(f[|f| - 1].children, at + [|f| - 1], stack[0].index + 1, stack[1..]);
      assert stack[..|stack| - 1][1..] == stack[1..][..|stack| - 2];
    }
  }

  lemma ChainGrows(depths: seq<nat>, stack: seq<Entry>, e: Entry)
    requires Chain(depths, stack) && PoppedTo(depths, stack, e.depth) && e.index == |depths|
    ensures Chain(depths + [e.depth], stack + [e])
  {
    var depths', stack' := depths + [e.depth], stack + [e];
    forall k | 0 <= k < |stack'| ensures Linked(depths', stack', k) {
      if k < |stack| {
        assert Linked(depths, stack, k);
      }
    }
  }

  lemma GrowIsPushHere(f: Forest, stack: seq<Entry>, n: Node)
    requires Spine(f, [], 0, stack)
    ensures var a := Top(stack, []);
            ValidAddress(f, a) && Grow(f, [], 0, stack, n) == PushAt(f, a, n)
            && GrownPointer(f, [], 0, stack) == a + [ChildCount(f, a)]
  {
    GrowIsPush(f, [], 0, stack, n);
    var a := Top(stack, []);
    assert a[0..] == a;
  }

  /** `f'` reads as `f` with one more section, whose parent is `parent`. */
  ghost predicate ReadsAs(f: Forest, s: Section, parent: int, f': Forest) {
    Preorder(f') == Preorder(f) + [s] && Parents(f', 0, -1) == Parents(f, 0, -1) + [parent]
  }

  lemma GrowReadsAs(f: Forest, stack: seq<Entry>, n: Node, f': Forest)
    requires Spine(f, [], 0, stack) && n.children == [] && f' == Grow(f, [], 0, stack, n)
    ensures ReadsAs(f, n.section, TopIndex(stack, -1), f')
  {
    GrowPreorder(f, [], 0, stack, n);
    GrowParents(f, [], 0, stack, n, -1);
  }

  /** The push appends the section to everything read back ... */
  lemma PushReadsAs(f: Forest, stack: seq<Entry>, n: Node)
    requires Spine(f, [], 0, stack) && n.children == []
    ensures ValidAddress(f, Top(stack, [])) && ReadsAs(f, n.section, TopIndex(stack, -1), PushAt(f, Top(stack, []), n))
  {
    GrowIsPushHere(f, stack, n);
    GrowReadsAs(f, stack, n, PushAt(f, Top(stack, []), n));
  }

  lemma SpineGrows(f: Forest, stack: seq<Entry>, n: Node, f': Forest, e: Entry)
    requires Spine(f, [], 0, stack) && n.children == [] && f' == Grow(f, [], 0, stack, n)
    requires e == GrownEntry(f, [], 0, stack, n.section.depth)
    ensures Spine(f', [], 0, stack + [e])
  {
    GrowSpine(f, [], 0, stack, n);
  }

  lemma AscendingGrows(stack: seq<Entry>, e: Entry)
    requires Ascending(stack) && (stack != [] ==> stack[|stack| - 1].depth < e.depth)
    ensures Ascending(stack + [e])
  {
  }

  /** ... and keeps the stack invariant. */
  lemma PushKeepsSound(f: Forest, depths: seq<nat>, stack: seq<Entry>, n: Node)
    requires Sound(f, depths, stack) && n.children == [] && Size(f) == |depths|
    requires PoppedTo(depths, stack, n.section.depth)
    requires stack != [] ==> stack[|stack| - 1].depth < n.section.depth
    ensures var a := Top(stack, []);
            && ValidAddress(f, a)
            && Sound(PushAt(f, a, n), depths + [n.section.depth],
                     stack + [Entry(n.section.depth, a + [ChildCount(f, a)], |depths|)])
  {
    GrowIsPushHere(f, stack, n);
    var a := Top(stack, []);
    var e := Entry(n.section.depth, a + [ChildCount(f, a)], |depths|);
    SpineGrows(f, stack, n, PushAt(f, a, n), e);
    AscendingGrows(stack, e);
    ChainGrows(depths, stack, e);
  }

  /** The unsafe push: `live` are the raw pointers still held.  None may point into the vector that
      grows; then all of them still point to a node afterwards. */
  method PushNode(f: Forest, a: Address, n: Node, ghost live: seq<Entry>) returns (f': Forest, pointer: Address)
    requires ValidAddress(f, a)
    requires forall k :: 0 <= k < |live| ==> ValidAddress(f, live[k].pointer) && !Moved(a, live[k].pointer)
    ensures f' == PushAt(f, a, n) && pointer == a + [ChildCount(f, a)]
    ensures ValidAddress(f', pointer) && Deref(f', pointer) == n
    ensures forall k :: 0 <= k < |live| ==> ValidAddress(f', live[k].pointer)
  {
    f' := PushAt(f, a, n);
    pointer := a + [ChildCount(f, a)];
    PushedNode(f, a, n);
    forall k | 0 <= k < |live| ensures ValidAddress(f', live[k].pointer) {
      PushKeepsAddress(f, a, n, live[k].pointer);
    }
  }

  lemma {:induction false} PushedNode(f: Forest, a: Address, n: Node)
    requires ValidAddress(f, a)
    ensures var p := a + [ChildCount(f, a)]; ValidAddress(PushAt(f, a, n), p) && Deref(PushAt(f, a, n), p) == n
    decreases |a|
  {
    var p := a + [ChildCount(f, a)];
    if a == [] {
      assert p[1..] == [];
    } else {
      PushedNode(f[a[0]].children, a[1..], n);
      assert p[1..] == a[1..] + [ChildCount(f, a)];
    }
  }

  lemma {:induction false} PushKeepsAddress(f: Forest, a: Address, n: Node, p: Address)
    requires ValidAddress(f, a) && ValidAddress(f, p)
    ensures ValidAddress(PushAt(f, a, n), p)
    decreases |a|
  {
    if a != [] && p != [] && p[0] == a[0] {
      PushKeepsAddress(f[a[0]].children, a[1..], n, p[1..]);
    }
  }

  /** For each section the nearest earlier section of smaller depth, looked for from the back. */
  function NearestAll(sections: seq<Section>): seq<int> {
    if sections == [] then []
    else
      var front := sections[..|sections| - 1];
      NearestAll(front) + [Nearest(Depths(front), sections[|sections| - 1].depth, |front|)]
  }

  lemma {:induction false} NearestAllAt(sections: seq<Section>, j: nat)
    requires j < |sections|
    ensures |NearestAll(sections)| == |sections|
    ensures NearestAll(sections)[j] == Nearest(Depths(sections), sections[j].depth, j)
  {
    var front, last := sections[..|sections| - 1], sections[|sections| - 1];
    assert Depths(sections) == Depths(front) + [last.depth];
    NearestOfPrefix(Depths(front), [last.depth], sections[j].depth, j);
    if j < |front| {
      NearestAllAt(front, j);
    } else if front != [] {
      NearestAllAt(front, 0);
    }
  }

  lemma NearestAllGrows(sections: seq<Section>, s: Section)
    ensures NearestAll(sections + [s]) == NearestAll(sections) + [Nearest(Depths(sections), s.depth, |sections|)]
  {
    assert (sections + [s])[..|sections|] == sections;
  }

  lemma SpineAddresses(f: Forest, stack: seq<Entry>)
    requires Spine(f, [], 0, stack)
    ensures forall k :: 0 <= k < |stack| ==> ValidAddress(f, stack[k].pointer)
    decreases |stack|
  {
    if stack != [] {
      SpinePointers(f, [], 0, stack);
      SpinePrefix(f, [], 0, stack);
      SpineAddresses(f, stack[..|stack| - 1]);
      var a := stack[|stack| - 1].pointer;
      assert a[0..] == a;
    }
  }

  /** The forest holds the sections in order, each below its nearest shallower one. */
  ghost predicate ReadsBack(done: seq<Section>, roots: Forest) {
    Preorder(roots) == done && Parents(roots, 0, -1) == NearestAll(done)
  }

  /** The loop invariant: what has been built reads back as the sections done so far. */
  ghost predicate Built(done: seq<Section>, roots: Forest, stack: seq<Entry>) {
    && ReadsBack(done, roots)
    && Sound(roots, Depths(done), stack) && TopIndex(stack, -1) == |done| - 1
  }

  lemma PushReadsBack(done: seq<Section>, f: Forest, stack: seq<Entry>, s: Section, f': Forest)
    requires ReadsBack(done, f) && Spine(f, [], 0, stack)
    requires TopIndex(stack, -1) == Nearest(Depths(done), s.depth, |done|)
    requires ValidAddress(f, Top(stack, [])) && f' == PushAt(f, Top(stack, []), Leaf(s))
    ensures ReadsBack(done + [s], f')
  {
    PushReadsAs(f, stack, Leaf(s));
    NearestAllGrows(done, s);
  }

  lemma DepthsGrow(done: seq<Section>, s: Section)
    ensures Depths(done + [s]) == Depths(done) + [s.depth]
  {
  }

  /** The stack after a section has been pushed. */
  function Stacked(f: Forest, stack: seq<Entry>, s: Section, index: nat): seq<Entry>
    requires ValidAddress(f, Top(stack, []))
  {
    stack + [Entry(s.depth, Top(stack, []) + [ChildCount(f, Top(stack, []))], index)]
  }

  lemma PushStaysSound(done: seq<Section>, f: Forest, stack: seq<Entry>, s: Section)
    requires Sound(f, Depths(done), stack) && PoppedTo(Depths(done), stack, s.depth) && Size(f) == |done|
    requires stack != [] ==> stack[|stack| - 1].depth < s.depth
    ensures ValidAddress(f, Top(stack, []))
    ensures Sound(PushAt(f, Top(stack, []), Leaf(s)), Depths(done + [s]), Stacked(f, stack, s, |done|))
  {
    PushKeepsSound(f, Depths(done), stack, Leaf(s));
    DepthsGrow(done, s);
  }

  lemma PushBuilds(done: seq<Section>, f: Forest, stack: seq<Entry>, s: Section)
    requires ReadsBack(done, f) && Sound(f, Depths(done), stack) && PoppedTo(Depths(done), stack, s.depth)
    requires TopIndex(stack, -1) == Nearest(Depths(done), s.depth, |done|)
    requires stack != [] ==> stack[|stack| - 1].depth < s.depth
    ensures ValidAddress(f, Top(stack, []))
    ensures Built(done + [s], PushAt(f, Top(stack, []), Leaf(s)), Stacked(f, stack, s, |done|))
  {
    SizeOfPreorder(f);
    PushStaysSound(done, f, stack, s);
    PushReadsBack(done, f, stack, s, PushAt(f, Top(stack, []), Leaf(s)));
  }

  method AddSection(ghost done: seq<Section>, roots0: Forest, stack0: seq<Entry>, s: Section, index: nat)
    returns (roots: Forest, stack: seq<Entry>)
    requires index == |done| && Built(done, roots0, stack0)
    ensures Built(done + [s], roots, stack)
  {
    stack := PopTo(stack0, s.depth, roots0, Depths(done));
    PushBuilds(done, roots0, stack, s);
    PushMovesNoPointer(roots0, stack);
    SpineAddresses(roots0, stack);
    var pointer;
    roots, pointer := PushNode(roots0, Top(stack, []), Leaf(s), stack);
    stack := stack + [Entry(s.depth, pointer, index)];
  }

  lemma NothingIsBuilt()
    ensures Built([], [], [])
  {
  }

  /** The largest depth of the sections, zero if there are none. */
  ghost predicate Deepest(sections: seq<Section>, depth: nat) {
    && (forall s :: s in sections ==> s.depth <= depth)
    && (depth == 0 || exists s :: s in sections && s.depth == depth)
  }

  function LargestDepth(sections: seq<Section>): nat {
    if sections == [] then 0
    else
      var largest, s := LargestDepth(sections[..|sections| - 1]), sections[|sections| - 1];
      if s.depth > largest then s.depth else largest
  }

  lemma {:induction false} LargestIsDeepest(sections: seq<Section>)
    ensures Deepest(sections, LargestDepth(sections))
  {
    if sections != [] {
      var front, s := sections[..|sections| - 1], sections[|sections| - 1];
      LargestIsDeepest(front);
      assert sections == front + [s];
      if s.depth <= LargestDepth(front) && LargestDepth(front) > 0 {
        var t :| t in front && t.depth == LargestDepth(front);
        assert t in sections;
      }
    }
  }

  lemma LargestGrows(done: seq<Section>, s: Section)
    ensures var largest := LargestDepth(done);
            LargestDepth(done + [s]) == if s.depth > largest then s.depth else largest
  {
    assert (done + [s])[..|done|] == done;
  }

  /** Folds the sections into a forest: their order is the preorder of the forest, and each
      section's parent is the nearest earlier section of smaller depth. */
  method BuildForest(sections: seq<Section>) returns (roots: Forest, maxDepth: nat)
    ensures Preorder(roots) == sections && Parents(roots, 0, -1) == NearestAll(sections)
    ensures Deepest(sections, maxDepth)
  {
    roots, maxDepth := [], 0;
    var stack: seq<Entry> := [];
    NothingIsBuilt();
    for i := 0 to |sections|
      invariant Built(sections[..i], roots, stack) && maxDepth == LargestDepth(sections[..i])
    {
      var s := sections[i];
      ghost var done := sections[..i];
      assert sections[..i + 1] == done + [s];
      LargestGrows(done, s);
      maxDepth := if s.depth > maxDepth then s.depth else maxDepth;
      roots, stack := AddSection(done, roots, stack, s, i);
    }
    assert sections[..|sections|] == sections;
    BuiltReadsBack(sections, roots, stack);
    LargestIsDeepest(sections);
  }

  lemma BuiltReadsBack(done: seq<Section>, roots: Forest, stack: seq<Entry>)
    requires Built(done, roots, stack)
    ensures Preorder(roots) == done && Parents(roots, 0, -1) == NearestAll(done)
  {
  }
}
