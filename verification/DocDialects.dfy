/** The heading dialects of crates/sap-automate-kb/src/doc_tree.rs: how one line is read, and exactly which lines are
    headings. */
module DocDialects {
  import opened Wrappers
  import opened Trimming

  datatype Mark = Mark(depth: nat, title: string)

  /** A heading dialect reads one line. */
  type Dialect = string -> Option<Mark>

  // ----- one line ------------------------------------------------------------------------

  predicate Hash(c: char) {
    c == '#'
  }

  function Hashes(s: string): (k: nat)
    ensures k <= |s|
  {
    if s != "" && s[0] == '#' then 1 + Hashes(s[1..]) else 0
  }

  /** `#` to `######`, a blank, and a title. */
  function AtxLine(line: string): Option<Mark> {
    AtxMark(TrimStart(line, Space))
  }

  function AtxMark(t: string): Option<Mark> {
    var k := Hashes(t);
    if !(1 <= k <= 6) || k == |t| || t[k] !in " \t" then None
    else
      var title := Trim(TrimEnd(Trim(t[k..]), Hash));
      if title == "" then None else Some(Mark(k, title))
  }

  predicate Digit(c: char) {
    '0' <= c <= '9'
  }

  function DigitRun(s: string, i: nat): (j: nat)
    requires i <= |s|
    ensures i <= j <= |s|
    decreases |s| - i
  {
    if i < |s| && Digit(s[i]) then DigitRun(s, i + 1) else i
  }

  /** Leading groups of digits and a dot: where they end, and how many there are. */
  function Groups(s: string, i: nat, depth: nat): (r: Option<(nat, nat)>)
    requires i <= |s|
    ensures r.Some? ==> r.value.0 <= |s|
    decreases |s| - i
  {
    var j := DigitRun(s, i);
    if j == i then Some((i, depth))
    else if j < |s| && s[j] == '.' then Groups(s, j + 1, depth + 1)
    else None
  }

  function NumberedLine(line: string): Option<Mark> {
    match Groups(line, 0, 0)
    case None => None
    case Some((k, depth)) =>
      if depth == 0 || k == |line| || line[k] !in " \t" || Trim(line[k..]) == "" then None
      else Some(Mark(depth, Trim(line[k..])))
  }

  function MarkerLine(line: string): Option<Mark> {
    SectionMark(TrimStart(line, Space))
  }

  function SectionMark(t: string): Option<Mark> {
    if "SECTION:" <= t then
      var title := Trim(t[8..]);
      if title == "" then None else Some(Mark(1, title))
    else NumberedLine(t)
  }

  // ----- what the dialects accept --------------------------------------------------------

  predicate BlankAt(s: string, i: nat) {
    i < |s| && (s[i] == ' ' || s[i] == '\t')
  }

  /** A title that is not empty: the core of what follows the marker. */
  ghost predicate Titled(rest: string, title: string) {
    title != "" && Core(rest, Space, title)
  }

  /** The same with closing hashes: the core of the core without them. */
  ghost predicate TitledInside(rest: string, title: string) {
    title != "" && exists core, open :: Core(rest, Space, core) && Front(core, Hash, open) && Core(open, Space, title)
  }

  /** Hashes, at least one and at most six, a blank, and a title. */
  ghost predicate AtxText(t: string, depth: nat, title: string) {
    && 1 <= depth <= 6 && BlankAt(t, depth) && (forall k :: 0 <= k < depth ==> t[k] == '#')
    && TitledInside(t[depth..], title)
  }

  /** A heading of that depth and title in the first dialect, behind white space. */
  ghost predicate IsAtx(line: string, depth: nat, title: string) {
    exists t :: Rest(line, Space, t) && AtxText(t, depth, title)
  }

  /** Digits from `i` to `e`, and a dot there. */
  predicate GroupAt(s: string, i: nat, e: nat) {
    i < e < |s| && s[e] == '.' && forall k :: i <= k < e ==> Digit(s[k])
  }

  /** That many such groups from `i` to `k`. */
  predicate Grouped(s: string, i: nat, k: nat, groups: nat)
    decreases groups
  {
    if groups == 0 then i == k else exists e: nat :: e < |s| && GroupAt(s, i, e) && Grouped(s, e + 1, k, groups - 1)
  }

  /** As many groups of digits closed by a dot as the depth says, at least one, a blank, and a title. */
  ghost predicate NumberedText(t: string, depth: nat, title: string) {
    depth > 0 && exists k: nat :: BlankAt(t, k) && Grouped(t, 0, k, depth) && Titled(t[k..], title)
  }

  ghost predicate SectionText(t: string, depth: nat, title: string) {
    depth == 1 && "SECTION:" <= t && Titled(t[8..], title)
  }

  /** A heading in the other dialect, behind white space: a section marker with its title, or a numbered title. */
  ghost predicate IsMarked(line: string, depth: nat, title: string) {
    exists t :: Rest(line, Space, t) && (SectionText(t, depth, title) || NumberedText(t, depth, title))
  }

  lemma {:induction false} HashesAre(s: string, k: nat)
    ensures Hashes(s) == k <==> k <= |s| && (forall i :: 0 <= i < k ==> s[i] == '#') && (k < |s| ==> s[k] != '#')
  {
    if s != "" && s[0] == '#' && k > 0 {
      HashesAre(s[1..], k - 1);
      assert forall i :: 1 <= i < |s| ==> s[i] == s[1..][i - 1];
    }
  }

  lemma TitledIs(rest: string, title: string)
    ensures Titled(rest, title) <==> title == Trim(rest) && title != ""
  {
    StripIs(rest, Space, title);
  }

  lemma TitledInsideIs(rest: string, title: string)
    ensures TitledInside(rest, title) <==> title == Trim(TrimEnd(Trim(rest), Hash)) && title != ""
  {
    var core := Trim(rest);
    var open := TrimEnd(core, Hash);
    StripIs(rest, Space, core);
    TrimEndIs(core, Hash, open);
    StripIs(open, Space, title);
    if TitledInside(rest, title) {
      var core', open' :| Core(rest, Space, core') && Front(core', Hash, open') && Core(open', Space, title);
      StripIs(rest, Space, core');
      TrimEndIs(core', Hash, open');
    }
  }

  lemma AtxTextIs(t: string, depth: nat, title: string)
    ensures AtxMark(t) == Some(Mark(depth, title)) <==> AtxText(t, depth, title)
  {
    HashesAre(t, Hashes(t));
    if depth <= |t| {
      HashesAre(t, depth);
      TitledInsideIs(t[depth..], title);
    }
  }

  /** A line is a heading in the first dialect exactly when it is written so. */
  lemma AtxIsExact(line: string, depth: nat, title: string)
    ensures AtxLine(line) == Some(Mark(depth, title)) <==> IsAtx(line, depth, title)
  {
    var t := TrimStart(line, Space);
    TrimStartIs(line, Space, t);
    AtxTextIs(t, depth, title);
    if IsAtx(line, depth, title) {
      var t' :| Rest(line, Space, t') && AtxText(t', depth, title);
      TrimStartIs(line, Space, t');
    }
  }

  lemma {:induction false} DigitRunIs(s: string, i: nat, j: nat)
    requires i <= j <= |s| && (forall k :: i <= k < j ==> Digit(s[k])) && (j < |s| ==> !Digit(s[j]))
    ensures DigitRun(s, i) == j
    decreases j - i
  {
    if i < j {
      DigitRunIs(s, i + 1, j);
    }
  }

  lemma {:induction false} DigitRunEnds(s: string, i: nat)
    requires i <= |s|
    ensures var j := DigitRun(s, i);
            (forall k :: i <= k < j ==> Digit(s[k])) && (j < |s| ==> !Digit(s[j]))
    decreases |s| - i
  {
    if i < |s| && Digit(s[i]) {
      DigitRunEnds(s, i + 1);
    }
  }

  lemma GroupsNext(s: string, i: nat, e: nat, depth: nat)
    requires GroupAt(s, i, e)
    ensures Groups(s, i, depth) == Groups(s, e + 1, depth + 1)
  {
    DigitRunIs(s, i, e);
  }

  lemma GroupsEnd(s: string, k: nat, depth: nat)
    requires k <= |s| && (k < |s| ==> !Digit(s[k]))
    ensures Groups(s, k, depth) == Some((k, depth))
  {
    DigitRunIs(s, k, k);
  }

  /** What is read are groups, and no digit follows. */
  lemma {:induction false} GroupsAreGrouped(s: string, i: nat, depth: nat)
    requires i <= |s| && Groups(s, i, depth).Some?
    ensures var (k, n) := Groups(s, i, depth).value;
            depth <= n && Grouped(s, i, k, n - depth) && (k < |s| ==> !Digit(s[k]))
    decreases |s| - i
  {
    var j := DigitRun(s, i);
    DigitRunEnds(s, i);
    if j > i {
      assert GroupAt(s, i, j);
      GroupsAreGrouped(s, j + 1, depth + 1);
    }
  }

  lemma {:induction false} GroupedIsRead(s: string, i: nat, k: nat, depth: nat, groups: nat)
    requires i <= |s| && k <= |s| && Grouped(s, i, k, groups) && (k < |s| ==> !Digit(s[k]))
    ensures Groups(s, i, depth) == Some((k, depth + groups))
    decreases groups
  {
    if groups == 0 {
      GroupsEnd(s, k, depth);
    } else {
      var e: nat :| e < |s| && GroupAt(s, i, e) && Grouped(s, e + 1, k, groups - 1);
      GroupsNext(s, i, e, depth);
      GroupedIsRead(s, e + 1, k, depth + 1, groups - 1);
    }
  }

  lemma NumberedTextIs(t: string, depth: nat, title: string)
    ensures NumberedLine(t) == Some(Mark(depth, title)) <==> NumberedText(t, depth, title)
  {
    if NumberedLine(t) == Some(Mark(depth, title)) {
      GroupsAreGrouped(t, 0, 0);
      var (k, n) := Groups(t, 0, 0).value;
      TitledIs(t[k..], title);
      assert BlankAt(t, k);
    }
    if NumberedText(t, depth, title) {
      var k: nat :| BlankAt(t, k) && Grouped(t, 0, k, depth) && Titled(t[k..], title);
      GroupedIsRead(t, 0, k, 0, depth);
      TitledIs(t[k..], title);
    }
  }

  lemma SectionIsNotNumbered(t: string)
    requires "SECTION:" <= t
    ensures NumberedLine(t).None?
  {
    GroupsEnd(t, 0, 0);
  }

  lemma MarkedTextIs(t: string, depth: nat, title: string)
    ensures SectionText(t, depth, title) || NumberedText(t, depth, title)
            <==> SectionMark(t) == Some(Mark(depth, title))
  {
    NumberedTextIs(t, depth, title);
    if "SECTION:" <= t {
      SectionIsNotNumbered(t);
      TitledIs(t[8..], title);
    }
  }

  /** The same for the other dialect. */
  lemma MarkedIsExact(line: string, depth: nat, title: string)
    ensures MarkerLine(line) == Some(Mark(depth, title)) <==> IsMarked(line, depth, title)
  {
    var t := TrimStart(line, Space);
    TrimStartIs(line, Space, t);
    MarkedTextIs(t, depth, title);
    if IsMarked(line, depth, title) {
      var t' :| Rest(line, Space, t') && (SectionText(t', depth, title) || NumberedText(t', depth, title));
      TrimStartIs(line, Space, t');
    }
  }

  /** A dialect sees no heading on an empty line, and none of depth zero. */
  ghost predicate Sensible(d: Dialect) {
    d("").None? && forall line :: d(line).Some? ==> d(line).value.depth > 0
  }
}
