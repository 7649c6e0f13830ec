/** Heading detection and section ranges (crates/sap-automate-kb/src/doc_tree.rs), and the whole of
    `build_document_tree`.  A body is a sequence of bytes, written as characters. */
module DocSections {
  import opened Wrappers
  import opened DocDialects
  import opened DocTree
  import opened DocPaths

  datatype Heading = Heading(depth: nat, title: string, marker: nat, bodyStart: nat)

  // ----- all lines -----------------------------------------------------------------------

  function LineEnd(body: string, i: nat): (j: nat)
    requires i <= |body|
    ensures i <= j <= |body| && (j < |body| ==> body[j] == '\n')
    decreases |body| - i
  {
    if i < |body| && body[i] != '\n' then LineEnd(body, i + 1) else i
  }

  /** The heading on the line from `i` to `j`, if there is one. */
  function Emit(d: Dialect, body: string, i: nat, j: nat): seq<Heading>
    requires i <= j <= |body|
  {
    match d(body[i..j])
    case Some(m) => [Heading(m.depth, m.title, i, if j < |body| then j + 1 else j)]
    case None => []
  }

  /** The headings from byte `i`, the start of a line, on. */
  function Headings(d: Dialect, body: string, i: nat): seq<Heading>
    decreases |body| - i
  {
    if i >= |body| then []
    else Emit(d, body, i, LineEnd(body, i)) + Headings(d, body, LineEnd(body, i) + 1)
  }

  method FindLineEnd(body: string, i: nat) returns (j: nat)
    requires i <= |body|
    ensures j == LineEnd(body, i)
  {
    j := i;
    while j < |body| && body[j] != '\n'
      invariant i <= j <= |body| && LineEnd(body, i) == LineEnd(body, j)
    {
      j := j + 1;
    }
  }

  lemma HeadingsNext(d: Dialect, body: string, i: nat, out: seq<Heading>)
    requires i < |body|
    ensures var j := LineEnd(body, i);
            out + Headings(d, body, i) == (out + Emit(d, body, i, j)) + Headings(d, body, j + 1)
  {
    var j := LineEnd(body, i);
    Associate(out, Emit(d, body, i, j), Headings(d, body, j + 1));
  }

  method Detect(d: Dialect, body: string) returns (out: seq<Heading>)
    ensures out == Headings(d, body, 0)
  {
    out := [];
    var i := 0;
    while i < |body|
      invariant out + Headings(d, body, i) == Headings(d, body, 0)
      decreases |body| - i
    {
      var j := FindLineEnd(body, i);
      HeadingsNext(d, body, i, out);
      out := out + Emit(d, body, i, j);
      i := j + 1;
    }
  }

  /** Headings lie in the body, none has depth zero, and the text of each starts behind its marker and no
      later than the next marker or the end. */
  predicate Ordered(headings: seq<Heading>, lo: nat, hi: nat) {
    && (forall k :: 0 <= k < |headings| ==>
          lo <= headings[k].marker < headings[k].bodyStart <= hi && headings[k].depth > 0)
    && (forall k, l :: 0 <= k < l < |headings| ==> headings[k].bodyStart <= headings[l].marker)
  }

  lemma OrderedWidens(headings: seq<Heading>, from: nat, lo: nat, hi: nat)
    requires Ordered(headings, from, hi) && lo <= from
    ensures Ordered(headings, lo, hi)
  {
  }

  lemma OrderedGrows(h: Heading, rest: seq<Heading>, lo: nat, hi: nat)
    requires lo <= h.marker < h.bodyStart <= hi && h.depth > 0 && Ordered(rest, h.bodyStart, hi)
    ensures Ordered([h] + rest, lo, hi)
  {
    var all := [h] + rest;
    forall k, l | 0 <= k < l < |all| ensures all[k].bodyStart <= all[l].marker {
      assert all[l] == rest[l - 1];
      if k > 0 {
        assert all[k] == rest[k - 1];
      }
    }
  }

  lemma {:induction false} HeadingsOrdered(d: Dialect, body: string, i: nat)
    requires Sensible(d)
    ensures Ordered(Headings(d, body, i), i, |body|)
    decreases |body| - i
  {
    if i < |body| {
      HeadingsOrdered(d, body, LineEnd(body, i) + 1);
      OrderedBefore(d, body, i);
    }
  }

  lemma OrderedBefore(d: Dialect, body: string, i: nat)
    requires Sensible(d) && i < |body|
    requires var j := LineEnd(body, i); Ordered(Headings(d, body, j + 1), j + 1, |body|)
    ensures Ordered(Headings(d, body, i), i, |body|)
  {
    var j := LineEnd(body, i);
    var rest := Headings(d, body, j + 1);
    assert Headings(d, body, i) == Emit(d, body, i, j) + rest;
    LineIsOrdered(d, body, i, j, rest);
  }

  lemma LineIsOrdered(d: Dialect, body: string, i: nat, j: nat, rest: seq<Heading>)
    requires Sensible(d) && i <= j <= |body| && i < |body| && Ordered(rest, j + 1, |body|)
    ensures Ordered(Emit(d, body, i, j) + rest, i, |body|)
  {
    if d(body[i..j]).None? {
      OrderedWidens(rest, j + 1, i, |body|);
      assert Emit(d, body, i, j) + rest == rest;
    } else {
      assert body[i..j] != "";
      var h := Emit(d, body, i, j)[0];
      OrderedWidens(rest, j + 1, h.bodyStart, |body|);
      OrderedGrows(h, rest, i, |body|);
    }
  }

  /** The first dialect that finds a heading wins. */
  function BodyHeadings(body: string): seq<Heading> {
    if Headings(AtxLine, body, 0) != [] then Headings(AtxLine, body, 0) else Headings(MarkerLine, body, 0)
  }

  lemma BodyIsOrdered(body: string)
    ensures Ordered(BodyHeadings(body), 0, |body|)
  {
    HeadingsOrdered(AtxLine, body, 0);
    HeadingsOrdered(MarkerLine, body, 0);
  }

  // ----- exactly the heading lines -------------------------------------------------------

  /** A line of the body, its newline not included. */
  predicate LineAt(body: string, i: nat, j: nat) {
    && i <= j <= |body| && i < |body| && (i == 0 || body[i - 1] == '\n') && (j == |body| || body[j] == '\n')
    && forall k :: i <= k < j ==> body[k] != '\n'
  }

  /** The heading starts at its line, and its text behind that line. */
  predicate Spans(body: string, h: Heading, j: nat) {
    LineAt(body, h.marker, j) && h.bodyStart == if j < |body| then j + 1 else j
  }

  ghost predicate HeadingOn(d: Dialect, body: string, h: Heading) {
    exists j: nat :: Spans(body, h, j) && d(body[h.marker..j]) == Some(Mark(h.depth, h.title))
  }

  lemma {:induction false} LineEndIs(body: string, i: nat, j: nat)
    requires i <= j <= |body| && (forall k :: i <= k < j ==> body[k] != '\n') && (j < |body| ==> body[j] == '\n')
    ensures LineEnd(body, i) == j
    decreases j - i
  {
    if i < j {
      LineEndIs(body, i + 1, j);
    }
  }

  lemma {:induction false} LineEndHolds(body: string, i: nat)
    requires i <= |body|
    ensures forall k :: i <= k < LineEnd(body, i) ==> body[k] != '\n'
    decreases |body| - i
  {
    if i < |body| && body[i] != '\n' {
      LineEndHolds(body, i + 1);
    }
  }

  lemma EmittedIs(d: Dialect, body: string, i: nat, h: Heading)
    requires i < |body| && (i == 0 || body[i - 1] == '\n')
    ensures h in Emit(d, body, i, LineEnd(body, i)) <==> h.marker == i && HeadingOn(d, body, h)
  {
    var j := LineEnd(body, i);
    LineEndHolds(body, i);
    assert LineAt(body, i, j);
    if h in Emit(d, body, i, j) {
      assert Spans(body, h, j) && d(body[h.marker..j]) == Some(Mark(h.depth, h.title));
    }
    if h.marker == i && HeadingOn(d, body, h) {
      var k: nat :| Spans(body, h, k) && d(body[h.marker..k]) == Some(Mark(h.depth, h.title));
      LineEndIs(body, i, k);
    }
  }

  lemma {:induction false} HeadingsAre(d: Dialect, body: string, i: nat, h: Heading)
    requires i == 0 || i > |body| || body[i - 1] == '\n'
    ensures h in Headings(d, body, i) <==> h.marker >= i && HeadingOn(d, body, h)
    decreases |body| - i
  {
    if i < |body| {
      HeadingsAre(d, body, LineEnd(body, i) + 1, h);
      HeadingsFromLine(d, body, i, h);
    }
  }

  lemma HeadingsFromLine(d: Dialect, body: string, i: nat, h: Heading)
    requires i < |body| && (i == 0 || body[i - 1] == '\n')
    requires var j := LineEnd(body, i);
             h in Headings(d, body, j + 1) <==> h.marker > j && HeadingOn(d, body, h)
    ensures h in Headings(d, body, i) <==> h.marker >= i && HeadingOn(d, body, h)
  {
    var on := HeadingOn(d, body, h);
    EmittedIs(d, body, i, h);
    HeadingsAtLine(d, body, i, h);
    if on && i < h.marker {
      NextLineIsBehind(d, body, i, h);
    }
  }

  lemma HeadingsAtLine(d: Dialect, body: string, i: nat, h: Heading)
    requires i < |body|
    ensures var j := LineEnd(body, i);
            h in Headings(d, body, i) <==> h in Emit(d, body, i, j) || h in Headings(d, body, j + 1)
  {
    var j := LineEnd(body, i);
    var front, rest := Emit(d, body, i, j), Headings(d, body, j + 1);
    assert Headings(d, body, i) == front + rest;
    assert h in front + rest <==> h in front || h in rest;
  }

  lemma NextLineIsBehind(d: Dialect, body: string, i: nat, h: Heading)
    requires HeadingOn(d, body, h) && i < h.marker
    ensures i <= |body| && LineEnd(body, i) < h.marker
  {
    var j: nat :| Spans(body, h, j) && d(body[h.marker..j]) == Some(Mark(h.depth, h.title));
    LineEndHolds(body, i);
    assert body[h.marker - 1] == '\n';
  }

  ghost predicate AtxHeading(body: string, h: Heading) {
    exists j: nat :: Spans(body, h, j) && IsAtx(body[h.marker..j], h.depth, h.title)
  }

  ghost predicate MarkedHeading(body: string, h: Heading) {
    exists j: nat :: Spans(body, h, j) && IsMarked(body[h.marker..j], h.depth, h.title)
  }

  /** A heading of the body: one of the first dialect, or of the other if the first has none in the whole body. */
  ghost predicate HeadingOf(body: string, h: Heading) {
    AtxHeading(body, h) || (MarkedHeading(body, h) && !exists g :: AtxHeading(body, g))
  }

  lemma AtxHeadingIs(body: string, h: Heading)
    ensures h in Headings(AtxLine, body, 0) <==> AtxHeading(body, h)
  {
    HeadingsAre(AtxLine, body, 0, h);
    forall j: nat | Spans(body, h, j)
      ensures AtxLine(body[h.marker..j]) == Some(Mark(h.depth, h.title)) <==> IsAtx(body[h.marker..j], h.depth, h.title)
    {
      AtxIsExact(body[h.marker..j], h.depth, h.title);
    }
  }

  lemma MarkedHeadingIs(body: string, h: Heading)
    ensures h in Headings(MarkerLine, body, 0) <==> MarkedHeading(body, h)
  {
    HeadingsAre(MarkerLine, body, 0, h);
    forall j: nat | Spans(body, h, j)
      ensures MarkerLine(body[h.marker..j]) == Some(Mark(h.depth, h.title))
              <==> IsMarked(body[h.marker..j], h.depth, h.title)
    {
      MarkedIsExact(body[h.marker..j], h.depth, h.title);
    }
  }

  /** All the headings of the body, in order, and nothing else. */
  ghost predicate IsHeadingList(body: string, headings: seq<Heading>) {
    Ordered(headings, 0, |body|) && forall h :: h in headings <==> HeadingOf(body, h)
  }

  lemma HeadingsAreExact(body: string)
    ensures IsHeadingList(body, BodyHeadings(body))
  {
    BodyIsOrdered(body);
    forall h ensures h in Headings(AtxLine, body, 0) <==> AtxHeading(body, h) {
      AtxHeadingIs(body, h);
    }
    forall h ensures h in Headings(MarkerLine, body, 0) <==> MarkedHeading(body, h) {
      MarkedHeadingIs(body, h);
    }
    if Headings(AtxLine, body, 0) != [] {
      assert AtxHeading(body, Headings(AtxLine, body, 0)[0]);
    }
  }

  method DetectHeadings(body: string) returns (headings: seq<Heading>)
    ensures headings == BodyHeadings(body) && IsHeadingList(body, headings)
  {
    headings := Detect(AtxLine, body);
    if headings == [] {
      headings := Detect(MarkerLine, body);
    }
    HeadingsAreExact(body);
  }

  // ----- section ranges ------------------------------------------------------------------

  function Prepared(headings: seq<Heading>, bodyLen: nat): seq<Section> {
    if headings == [] then []
    else
      var h := headings[0];
      var end := if |headings| > 1 then headings[1].marker else bodyLen;
      (if h.depth == 0 then [] else [Section(h.depth, h.title, h.marker, end)]) + Prepared(headings[1..], bodyLen)
  }

  /** Pairs each heading with the next, after a sentinel at the end of the body. */
  method Prepare(headings: seq<Heading>, bodyLen: nat) returns (out: seq<Section>)
    ensures out == Prepared(headings, bodyLen)
  {
    out := [];
    var closed := headings + [Heading(0, "", bodyLen, bodyLen)];
    for w := 0 to |headings|
      invariant out + Prepared(headings[w..], bodyLen) == Prepared(headings, bodyLen)
    {
      var cur, next := closed[w], closed[w + 1];
      assert headings[w..][1..] == headings[w + 1..];
      if cur.depth != 0 {
        out := out + [Section(cur.depth, cur.title, cur.marker, next.marker)];
      }
    }
  }

  function SectionAt(headings: seq<Heading>, bodyLen: nat, k: nat): Section
    requires k < |headings|
  {
    Section(headings[k].depth, headings[k].title, headings[k].marker,
            if k + 1 < |headings| then headings[k + 1].marker else bodyLen)
  }

  /** Every heading opens one section, which ends where the next begins. */
  lemma {:induction false} PreparedAt(headings: seq<Heading>, bodyLen: nat, lo: nat, k: nat)
    requires Ordered(headings, lo, bodyLen) && k < |headings|
    ensures |Prepared(headings, bodyLen)| == |headings|
    ensures Prepared(headings, bodyLen)[k] == SectionAt(headings, bodyLen, k)
  {
    if |headings| > 1 {
      PreparedAt(headings[1..], bodyLen, lo, if k > 0 then k - 1 else 0);
    }
  }

  /** Neighbouring ranges share their border; together they run from the first heading to the end. */
  lemma RangesAdjacent(headings: seq<Heading>, bodyLen: nat, lo: nat)
    requires Ordered(headings, lo, bodyLen) && headings != []
    ensures var s := Prepared(headings, bodyLen);
            && |s| == |headings| && s[0].start == headings[0].marker && s[|s| - 1].end == bodyLen
            && (forall k {:trigger s[k].end} :: 0 <= k < |s| - 1 ==> s[k].end == s[k + 1].start)
  {
    forall k | 0 <= k < |headings|
      ensures |Prepared(headings, bodyLen)| == |headings|
      ensures Prepared(headings, bodyLen)[k] == SectionAt(headings, bodyLen, k)
    {
      PreparedAt(headings, bodyLen, lo, k);
    }
    PreparedAt(headings, bodyLen, lo, 0);
  }

  /** The text of a section is a range inside it: the slice its summary is taken from exists. */
  lemma TextLiesInSection(headings: seq<Heading>, bodyLen: nat, lo: nat, k: nat)
    requires Ordered(headings, lo, bodyLen) && k < |headings|
    ensures var s := Prepared(headings, bodyLen);
            |s| == |headings| && s[k].start < headings[k].bodyStart <= s[k].end <= bodyLen
  {
    PreparedAt(headings, bodyLen, lo, k);
  }

  predicate Inside(s: Section, p: nat) {
    s.start <= p < s.end
  }

  /** Each byte from the first heading on lies in exactly one range. */
  lemma RangesTile(headings: seq<Heading>, bodyLen: nat, lo: nat, p: nat) returns (j: nat)
    requires Ordered(headings, lo, bodyLen) && headings != [] && headings[0].marker <= p < bodyLen
    ensures var s := Prepared(headings, bodyLen);
            |s| == |headings| && j < |s| && forall k :: 0 <= k < |s| ==> (Inside(s[k], p) <==> k == j)
  {
    PreparedAt(headings, bodyLen, lo, 0);
    j := 0;
    while j + 1 < |headings| && headings[j + 1].marker <= p
      invariant j < |headings| && headings[j].marker <= p
      decreases |headings| - j
    {
      j := j + 1;
    }
    var s := Prepared(headings, bodyLen);
    forall k | 0 <= k < |s| ensures Inside(s[k], p) <==> k == j {
      PreparedAt(headings, bodyLen, lo, k);
    }
  }

  // ----- the whole tree ------------------------------------------------------------------

  /** The same tree, up to the paths. */
  ghost predicate SameShape(f: Forest, g: Forest) {
    |f| == |g| && forall i :: 0 <= i < |f| ==> f[i].section == g[i].section && SameShape(f[i].children, g[i].children)
  }

  lemma {:induction false} PathsKeepShape(n: Node, path: string)
    ensures SameShape(n.children, AssignPaths(n, path).children)
  {
    forall i | 0 <= i < |n.children|
      ensures SameShape(n.children[i].children, AssignPaths(n, path).children[i].children)
    {
      PathsKeepShape(n.children[i], path + "." + Decimal(i + 1));
    }
  }

  lemma RootPathsKeepShape(f: Forest)
    ensures SameShape(f, AssignRoots(f))
  {
    forall i | 0 <= i < |f| ensures SameShape(f[i].children, AssignRoots(f)[i].children) {
      PathsKeepShape(f[i], Decimal(i + 1));
    }
  }

  lemma {:induction false} ShapePreorder(f: Forest, g: Forest)
    requires SameShape(f, g)
    ensures Size(f) == Size(g) && Preorder(f) == Preorder(g)
  {
    if f != [] {
      ShapePreorder(f[..|f| - 1], g[..|f| - 1]);
      ShapePreorder(f[|f| - 1].children, g[|f| - 1].children);
    }
  }

  lemma ParentsAgree(front: Forest, n: Node, front': Forest, n': Node, base: nat, parent: int)
    requires Size(front) == Size(front') && Parents(front, base, parent) == Parents(front', base, parent)
    requires var here := base + Size(front);
             Parents(n.children, here + 1, here) == Parents(n'.children, here + 1, here)
    ensures Parents(front + [n], base, parent) == Parents(front' + [n'], base, parent)
  {
    ParentsSplit(front, n, base, parent);
    ParentsSplit(front', n', base, parent);
  }

  lemma FrontAndLast(f: Forest)
    requires f != []
    ensures f == f[..|f| - 1] + [f[|f| - 1]]
  {
  }

  lemma {:induction false} ShapeParents(f: Forest, g: Forest, base: nat, parent: int)
    requires SameShape(f, g)
    ensures Parents(f, base, parent) == Parents(g, base, parent)
    decreases f
  {
    if f != [] {
      var last := |f| - 1;
      var here := base + Size(f[..last]);
      ShapePreorder(f[..last], g[..last]);
      ShapeParents(f[..last], g[..last], base, parent);
      ShapeParents(f[last].children, g[last].children, here + 1, here);
      ParentsAgree(f[..last], f[last], g[..last], g[last], base, parent);
      FrontAndLast(f);
      FrontAndLast(g);
    }
  }

  /** One section for each heading, up to the next one. */
  predicate SectionsOf(headings: seq<Heading>, bodyLen: nat, sections: seq<Section>) {
    |sections| == |headings| && forall k :: 0 <= k < |sections| ==> sections[k] == SectionAt(headings, bodyLen, k)
  }

  lemma PreparedAreSections(headings: seq<Heading>, bodyLen: nat)
    requires Ordered(headings, 0, bodyLen)
    ensures SectionsOf(headings, bodyLen, Prepared(headings, bodyLen))
  {
    var sections := Prepared(headings, bodyLen);
    PreparedLength(headings, bodyLen, 0);
    forall k | 0 <= k < |sections| ensures sections[k] == SectionAt(headings, bodyLen, k) {
      PreparedAt(headings, bodyLen, 0, k);
    }
  }

  lemma PreparedLength(headings: seq<Heading>, bodyLen: nat, lo: nat)
    requires Ordered(headings, lo, bodyLen)
    ensures |Prepared(headings, bodyLen)| == |headings|
  {
    if headings != [] {
      PreparedAt(headings, bodyLen, lo, 0);
    }
  }

  /** Preorder and parents of the roots with their paths assigned. */
  lemma PathsKeepReading(roots: Forest)
    ensures Preorder(AssignRoots(roots)) == Preorder(roots)
    ensures Parents(AssignRoots(roots), 0, -1) == Parents(roots, 0, -1)
  {
    RootPathsKeepShape(roots);
    ShapePreorder(roots, AssignRoots(roots));
    ShapeParents(roots, AssignRoots(roots), 0, -1);
  }

  /** The tree of a document.  The root spans the body; its forest reads back as one section for each heading
      of the body, each below the nearest earlier section of smaller depth.  Without a heading the root stands
      alone. */
  method BuildDocumentTree(title: string, body: string) returns (root: Node, maxDepth: nat)
    ensures root.section == Section(0, title, 0, |body|) && root.path == ""
    ensures IsHeadingList(body, BodyHeadings(body))
    ensures SectionsOf(BodyHeadings(body), |body|, Preorder(root.children))
    ensures Parents(root.children, 0, -1) == NearestAll(Preorder(root.children))
    ensures exists f :: root.children == AssignRoots(f)
    ensures Deepest(Preorder(root.children), maxDepth)
  {
    var headings := DetectHeadings(body);
    var sections := Prepare(headings, |body|);
    PreparedAreSections(headings, |body|);
    var roots;
    roots, maxDepth := BuildForest(sections);
    PathsKeepReading(roots);
    root := Node(Section(0, title, 0, |body|), "", AssignRoots(roots));
  }
}
