/** The text chunker of crates/sap-automate-ingest/src/chunker.rs: windows over a UTF-8 body. */
module Chunker {
  import opened Wrappers

  type Byte = b: int | 0 <= b < 256 witness 0

  datatype Window = Window(start: nat, end: nat)

  // ----- UTF-8 ---------------------------------------------------------------------------

  predicate Continuation(b: Byte) {
    128 <= b < 192
  }

  predicate Boundary(body: seq<Byte>, i: nat) {
    i == 0 || i == |body| || (i < |body| && !Continuation(body[i]))
  }

  /** The continuation bytes of UTF-8 are those whose two upper bits are 10. */
  lemma BoundaryIs(body: seq<Byte>, i: nat)
    ensures Boundary(body, i) <==> i == 0 || i == |body| || (i < |body| && body[i] / 64 != 2)
  {
  }

  predicate FourContinuations(body: seq<Byte>, i: nat)
    requires i + 3 < |body|
  {
    Continuation(body[i]) && Continuation(body[i + 1]) && Continuation(body[i + 2]) && Continuation(body[i + 3])
  }

  /** Text starts a character, and no character has more than three continuation bytes. */
  predicate Utf8(body: seq<Byte>) {
    && (body != [] ==> !Continuation(body[0]))
    && (forall i: nat :: i + 3 < |body| ==> !FourContinuations(body, i))
  }

  /** The first boundary at or after `i`. */
  function NextBoundary(body: seq<Byte>, i: nat): (j: nat)
    requires i <= |body|
    ensures i <= j <= |body| && Boundary(body, j)
    ensures forall k :: i <= k < j ==> !Boundary(body, k)
    decreases |body| - i
  {
    if Boundary(body, i) then i else NextBoundary(body, i + 1)
  }

  lemma NextBoundaryIsNear(body: seq<Byte>, i: nat)
    requires Utf8(body) && i <= |body|
    ensures NextBoundary(body, i) <= i + 3
  {
    if i + 3 < |body| {
      assert !FourContinuations(body, i);
      var k := if Continuation(body[i]) then
                 if Continuation(body[i + 1]) then if Continuation(body[i + 2]) then i + 3 else i + 2 else i + 1
               else i;
      assert Boundary(body, k);
      assert NextBoundary(body, i) <= k;
    }
  }

  method SkipToBoundary(body: seq<Byte>, i: nat) returns (j: nat)
    requires i <= |body|
    ensures j == NextBoundary(body, i)
  {
    j := i;
    while j < |body| && !Boundary(body, j)
      invariant j <= |body| && NextBoundary(body, j) == NextBoundary(body, i)
    {
      j := j + 1;
    }
  }

  // ----- where a window may end ----------------------------------------------------------

  predicate Blank(b: Byte) {
    b == 32 || b == 10
  }

  predicate SentenceMark(b: Byte) {
    b == 46 || b == 63 || b == 33
  }

  predicate EndsSentence(bytes: seq<Byte>, i: nat)
    requires 2 <= i <= |bytes|
  {
    SentenceMark(bytes[i - 2]) && Blank(bytes[i - 1])
  }

  /** The last position in (from + 1, to] just behind a sentence mark and a blank. */
  function SentenceEnd(bytes: seq<Byte>, from: nat, to: nat): (r: Option<nat>)
    requires to <= |bytes|
    ensures r.Some? ==> from + 1 < r.value <= to && EndsSentence(bytes, r.value)
    ensures forall i :: (if r.Some? then r.value else from + 1) < i <= to ==> !EndsSentence(bytes, i)
  {
    if to <= from + 1 then None
    else if EndsSentence(bytes, to) then Some(to)
    else SentenceEnd(bytes, from, to - 1)
  }

  /** The last position from `low` to `i` just behind a blank. */
  function SpaceFrom(bytes: seq<Byte>, low: int, i: nat): (r: Option<nat>)
    requires i <= |bytes|
    ensures r.Some? ==> low <= r.value <= i && 0 < r.value && Blank(bytes[r.value - 1])
    ensures forall k :: (if r.Some? then r.value else Max(low - 1, 0)) <= k < i ==> !Blank(bytes[k])
  {
    if i == 0 || i < low then None
    else if Blank(bytes[i - 1]) then Some(i)
    else SpaceFrom(bytes, low, i - 1)
  }

  /** Looks back at most 200 bytes. */
  function SpaceBefore(bytes: seq<Byte>, to: nat): Option<nat>
    requires to <= |bytes|
  {
    SpaceFrom(bytes, to - 200, to)
  }

  method FindSentenceEnd(bytes: seq<Byte>, from: nat, to: nat) returns (r: Option<nat>)
    requires to <= |bytes|
    ensures r == SentenceEnd(bytes, from, to)
  {
    var i: nat := to;
    while i > from + 1
      invariant i <= to && SentenceEnd(bytes, from, i) == SentenceEnd(bytes, from, to)
    {
      if EndsSentence(bytes, i) {
        return Some(i);
      }
      i := i - 1;
    }
    r := None;
  }

  method FindSpace(bytes: seq<Byte>, to: nat) returns (r: Option<nat>)
    requires to <= |bytes|
    ensures r == SpaceBefore(bytes, to)
  {
    var i: nat := to;
    while i > 0
      invariant i <= to && to - i <= 200 && SpaceFrom(bytes, to - 200, i) == SpaceBefore(bytes, to)
    {
      if Blank(bytes[i - 1]) {
        return Some(i);
      }
      i := i - 1;
      if to - i > 200 {
        break;
      }
    }
    r := None;
  }

  /** Where a cut that cannot reach the end of the body is aimed: behind the last sentence of its second
      half if that is within 200 bytes, else behind the last blank within 200 bytes, else at the target. */
  function Cut(body: seq<Byte>, start: nat, target: nat): (cut: nat)
    requires start + target < |body|
    ensures start + target - 200 <= cut <= start + target
  {
    var end := start + target;
    match SentenceEnd(body, Max(Max(end - 200, 0), start + target / 2), end)
    case Some(i) => i
    case None =>
      match SpaceBefore(body, end)
      case Some(i) => i
      case None => end
  }

  /** Where the window from `start` ends. */
  function WindowEnd(body: seq<Byte>, start: nat, target: nat): nat
    requires start < |body|
  {
    if start + target >= |body| then |body| else NextBoundary(body, Cut(body, start, target))
  }

  /** Where the next window starts. */
  function NextStart(body: seq<Byte>, start: nat, end: nat, overlap: nat): nat
    requires start <= end < |body|
  {
    NextBoundary(body, start + Max(end - start - overlap, 1))
  }

  lemma WindowEndBounds(body: seq<Byte>, start: nat, target: nat)
    requires Utf8(body) && start < |body| && target > 200 && Boundary(body, start)
    ensures Fine(body, target, Window(start, WindowEnd(body, start, target)))
  {
    if start + target < |body| {
      NextBoundaryIsNear(body, Cut(body, start, target));
    }
  }

  lemma NextStartBounds(body: seq<Byte>, start: nat, end: nat, overlap: nat)
    requires start < end < |body| && Boundary(body, end)
    ensures var next := NextStart(body, start, end, overlap);
            start < next <= end && end - overlap <= next && Boundary(body, next)
  {
    var from := start + Max(end - start - overlap, 1);
    assert from <= end && Boundary(body, end);
    assert NextBoundary(body, from) <= end;
  }

  // ----- the split -----------------------------------------------------------------------

  predicate Fine(body: seq<Byte>, target: nat, w: Window) {
    && w.start < w.end <= |body| && Boundary(body, w.start) && Boundary(body, w.end)
    && w.end <= w.start + target + 3
    && (w.end < |body| ==> w.end >= w.start + target - 200)
  }

  /** The body goes on behind this window, and the next one starts inside or right behind it, at most
      `overlap` before its end. */
  predicate Chained(body: seq<Byte>, overlap: nat, w: Window, next: Window) {
    w.start < next.start <= w.end < |body| && w.end - overlap <= next.start
  }

  predicate Linked(body: seq<Byte>, windows: seq<Window>, overlap: nat, k: nat)
    requires k + 1 < |windows|
  {
    Chained(body, overlap, windows[k], windows[k + 1])
  }

  /** Every window is fine, and each is linked to the one behind it. */
  predicate Laid(body: seq<Byte>, target: nat, overlap: nat, windows: seq<Window>) {
    && (forall k :: 0 <= k < |windows| ==> Fine(body, target, windows[k]))
    && (forall k: nat :: k + 1 < |windows| ==> Linked(body, windows, overlap, k))
  }

  /** A finished split, or the panic of a slice whose end lies before its start. */
  datatype Outcome = Done(windows: seq<Window>) | Panic

  function Prefixed(w: seq<Window>, r: Outcome): Outcome {
    match r
    case Panic => Panic
    case Done(rest) => Done(w + rest)
  }

  /** The windows from `start` on. */
  function Split(body: seq<Byte>, target: nat, overlap: nat, start: nat): Outcome
    decreases |body| - start
  {
    if start >= |body| then Done([])
    else
      var end := WindowEnd(body, start, target);
      if end < start then Panic
      else if end >= |body| then Done([Window(start, end)])
      else Prefixed([Window(start, end)], Split(body, target, overlap, NextStart(body, start, end, overlap)))
  }

  lemma LaidGrows(body: seq<Byte>, target: nat, overlap: nat, w: Window, rest: seq<Window>)
    requires Fine(body, target, w) && Laid(body, target, overlap, rest)
    requires rest != [] ==> Chained(body, overlap, w, rest[0])
    ensures Laid(body, target, overlap, [w] + rest)
  {
    var grown := [w] + rest;
    forall k: nat | k + 1 < |grown| ensures Linked(body, grown, overlap, k) {
      if k > 0 {
        assert Linked(body, rest, overlap, k - 1);
      }
    }
  }

  /** Laid from `start` to the end of the body. */
  predicate Covers(body: seq<Byte>, target: nat, overlap: nat, start: nat, windows: seq<Window>) {
    && Laid(body, target, overlap, windows)
    && windows != [] && windows[0].start == start && windows[|windows| - 1].end == |body|
  }

  lemma CoversGrows(body: seq<Byte>, target: nat, overlap: nat, w: Window, next: nat, rest: seq<Window>)
    requires Fine(body, target, w) && Chained(body, overlap, w, Window(next, next))
    requires Covers(body, target, overlap, next, rest)
    ensures Covers(body, target, overlap, w.start, [w] + rest)
  {
    LaidGrows(body, target, overlap, w, rest);
  }

  /** Over any UTF-8 body, for any target above 200, the windows lie on character boundaries, have bounded
      size, and are chained without gaps from the start to the last byte. */
  lemma {:induction false} SplitIsLaid(body: seq<Byte>, target: nat, overlap: nat, start: nat)
    requires Utf8(body) && target > 200 && start < |body| && Boundary(body, start)
    ensures var r := Split(body, target, overlap, start);
            r.Done? && Covers(body, target, overlap, start, r.windows)
    decreases |body| - start
  {
    var end := WindowEnd(body, start, target);
    var w := Window(start, end);
    WindowEndBounds(body, start, target);
    if end < |body| {
      NextStartBounds(body, start, end, overlap);
      var next := NextStart(body, start, end, overlap);
      SplitIsLaid(body, target, overlap, next);
      CoversGrows(body, target, overlap, w, next, Split(body, target, overlap, next).windows);
    } else {
      LastCovers(body, target, overlap, w);
    }
  }

  lemma LastCovers(body: seq<Byte>, target: nat, overlap: nat, w: Window)
    requires Fine(body, target, w) && w.end == |body|
    ensures Covers(body, target, overlap, w.start, [w])
  {
    LaidGrows(body, target, overlap, w, []);
    assert [w] + [] == [w];
  }

  /** The windows laid so far and those from `start` on are the whole split. */
  ghost predicate Remains(body: seq<Byte>, target: nat, overlap: nat, start: nat, windows: seq<Window>,
                          whole: Outcome) {
    Prefixed(windows, Split(body, target, overlap, start)) == whole
  }

  lemma RemainsStep(body: seq<Byte>, target: nat, overlap: nat, start: nat, windows: seq<Window>, end: nat,
                    whole: Outcome)
    requires start < |body| && end == WindowEnd(body, start, target)
    requires Remains(body, target, overlap, start, windows, whole)
    ensures var grown := windows + [Window(start, end)];
            if end < start then whole == Panic
            else if end >= |body| then whole == Done(grown)
            else Remains(body, target, overlap, NextStart(body, start, end, overlap), grown, whole)
  {
    if start <= end < |body| {
      PrefixedTwice(windows, [Window(start, end)], Split(body, target, overlap, NextStart(body, start, end, overlap)));
    }
  }

  lemma PrefixedTwice(a: seq<Window>, b: seq<Window>, r: Outcome)
    ensures Prefixed(a, Prefixed(b, r)) == Prefixed(a + b, r)
  {
    if r.Done? {
      assert a + (b + r.windows) == (a + b) + r.windows;
    }
  }

  /** The loop terminates for every body, target and overlap, with exactly the windows of `Split` or its panic. */
  method SplitText(body: seq<Byte>, target: nat, overlap: nat) returns (r: Outcome)
    ensures r == Split(body, target, overlap, 0)
    ensures r.Done? ==> AllEndWell(body, target, overlap, r.windows)
  {
    ghost var whole := Split(body, target, overlap, 0);
    if whole.Done? {
      WindowsEndWell(body, target, overlap, 0);
    }
    var windows: seq<Window> := [];
    var start := 0;
    PrefixedByNothing(whole);
    while start < |body|
      invariant Remains(body, target, overlap, start, windows, whole)
      decreases |body| - start
    {
      var end := FindEnd(body, start, target);
      RemainsStep(body, target, overlap, start, windows, end, whole);
      if end < start {
        return Panic;
      }
      windows := windows + [Window(start, end)];
      if end >= |body| {
        return Done(windows);
      }
      start := FindStart(body, start, end, overlap);
    }
    r := Done(windows);
    assert windows + [] == windows;
  }

  lemma PrefixedByNothing(r: Outcome)
    ensures Prefixed([], r) == r
  {
    if r.Done? {
      assert [] + r.windows == r.windows;
    }
  }

  method FindStart(body: seq<Byte>, start: nat, end: nat, overlap: nat) returns (next: nat)
    requires start <= end < |body|
    ensures next == NextStart(body, start, end, overlap) && start < next
  {
    next := SkipToBoundary(body, start + Max(end - start - overlap, 1));
  }

  method FindEnd(body: seq<Byte>, start: nat, target: nat) returns (end: nat)
    requires start < |body|
    ensures end == WindowEnd(body, start, target)
  {
    end := if start + target < |body| then start + target else |body|;
    if end < |body| {
      var boundary := FindSentenceEnd(body, Max(Max(end - 200, 0), start + target / 2), end);
      if boundary.Some? {
        end := boundary.value;
      } else {
        var space := FindSpace(body, end);
        if space.Some? {
          end := space.value;
        }
      }
    }
    end := SkipToBoundary(body, end);
  }

  // ----- where windows end and start, in the text's own terms ----------------------------

  function Character(b: Byte): char {
    b as char
  }

  /** A sentence ends before `i`: one of `.?!`, and a blank or a newline. */
  predicate SentenceBefore(body: seq<Byte>, i: int) {
    2 <= i <= |body| && Character(body[i - 2]) in ".?!" && Character(body[i - 1]) in " \n"
  }

  predicate WordBefore(body: seq<Byte>, i: int) {
    1 <= i <= |body| && Character(body[i - 1]) in " \n"
  }

  lemma CharactersAre(b: Byte)
    ensures Blank(b) <==> Character(b) in " \n"
    ensures SentenceMark(b) <==> Character(b) in ".?!"
  {
    assert Character(b) as int == b;
  }

  /** The last sentence end that is at most 198 bytes back and more than one byte into the second half. */
  ghost predicate LastSentence(body: seq<Byte>, end: nat, half: nat, i: int) {
    && SentenceBefore(body, i) && i <= end && i >= end - 198 && i > half + 1
    && forall j :: i < j <= end ==> !SentenceBefore(body, j)
  }

  /** The last blank at most 200 bytes back. */
  ghost predicate LastWord(body: seq<Byte>, end: nat, i: int) {
    WordBefore(body, i) && end - 200 <= i <= end && forall j :: i < j <= end ==> !WordBefore(body, j)
  }

  /** `p` is the first character boundary from `from` on. */
  predicate FirstBoundary(body: seq<Byte>, from: int, p: nat) {
    from <= p && Boundary(body, p) && forall k: nat :: from <= k < p ==> !Boundary(body, k)
  }

  /** Behind the last sentence in reach, else behind the last word in reach, else at the full length. */
  ghost predicate AimedAt(body: seq<Byte>, end: nat, half: nat, cut: int) {
    if exists i :: LastSentence(body, end, half, i) then LastSentence(body, end, half, cut)
    else if exists i :: LastWord(body, end, i) then LastWord(body, end, cut)
    else cut == end
  }

  /** The window ends with the body, or at the first character boundary from there on. */
  ghost predicate EndsWell(body: seq<Byte>, target: nat, w: Window) {
    if w.start + target >= |body| then w.end == |body|
    else exists cut :: AimedAt(body, w.start + target, w.start + target / 2, cut) && FirstBoundary(body, cut, w.end)
  }

  /** The next window starts `overlap` bytes before this one's end, moved on to the next character boundary, and
      at least one byte behind this one's start. */
  predicate StartsWell(body: seq<Byte>, overlap: nat, w: Window, next: Window) {
    FirstBoundary(body, if w.end - overlap > w.start then w.end - overlap else w.start + 1, next.start)
  }

  lemma SentenceIsLast(body: seq<Byte>, start: nat, target: nat)
    requires start + target < |body|
    ensures var end, half := start + target, start + target / 2;
            match SentenceEnd(body, Max(Max(end - 200, 0), half), end)
            case Some(i) => LastSentence(body, end, half, i)
            case None => forall i :: !LastSentence(body, end, half, i)
  {
    forall i | 2 <= i <= |body| ensures SentenceBefore(body, i) <==> EndsSentence(body, i) {
      CharactersAre(body[i - 2]);
      CharactersAre(body[i - 1]);
    }
  }

  lemma WordIsLast(body: seq<Byte>, end: nat)
    requires end < |body|
    ensures match SpaceBefore(body, end)
            case Some(i) => LastWord(body, end, i)
            case None => forall i :: !LastWord(body, end, i)
  {
    forall i | 1 <= i <= |body| ensures WordBefore(body, i) <==> Blank(body[i - 1]) {
      CharactersAre(body[i - 1]);
    }
  }

  lemma AimAtSentence(body: seq<Byte>, end: nat, half: nat, i: int)
    requires LastSentence(body, end, half, i)
    ensures AimedAt(body, end, half, i)
  {
  }

  lemma AimAtWord(body: seq<Byte>, end: nat, half: nat, i: int)
    requires LastWord(body, end, i) && forall j :: !LastSentence(body, end, half, j)
    ensures AimedAt(body, end, half, i)
  {
  }

  lemma AimAtEnd(body: seq<Byte>, end: nat, half: nat)
    requires (forall j :: !LastSentence(body, end, half, j)) && forall j :: !LastWord(body, end, j)
    ensures AimedAt(body, end, half, end)
  {
  }

  lemma CutIsAimed(body: seq<Byte>, start: nat, target: nat)
    requires start + target < |body|
    ensures AimedAt(body, start + target, start + target / 2, Cut(body, start, target))
  {
    var end, half := start + target, start + target / 2;
    SentenceIsLast(body, start, target);
    match SentenceEnd(body, Max(Max(end - 200, 0), half), end)
    case Some(i) => AimAtSentence(body, end, half, i);
    case None =>
      WordIsLast(body, end);
      match SpaceBefore(body, end)
      case Some(i) => AimAtWord(body, end, half, i);
      case None => AimAtEnd(body, end, half);
  }

  lemma WindowEndsWell(body: seq<Byte>, start: nat, target: nat)
    requires start < |body|
    ensures EndsWell(body, target, Window(start, WindowEnd(body, start, target)))
  {
    if start + target < |body| {
      var cut := Cut(body, start, target);
      CutIsAimed(body, start, target);
      assert FirstBoundary(body, cut, NextBoundary(body, cut));
    }
  }

  ghost predicate AllEndWell(body: seq<Byte>, target: nat, overlap: nat, windows: seq<Window>) {
    && (forall k :: 0 <= k < |windows| ==> EndsWell(body, target, windows[k]))
    && (forall k: nat :: k + 1 < |windows| ==> StartsWell(body, overlap, windows[k], windows[k + 1]))
  }

  lemma EndWellGrows(body: seq<Byte>, target: nat, overlap: nat, w: Window, rest: seq<Window>)
    requires EndsWell(body, target, w) && AllEndWell(body, target, overlap, rest)
    requires rest != [] ==> StartsWell(body, overlap, w, rest[0])
    ensures AllEndWell(body, target, overlap, [w] + rest)
  {
    var grown := [w] + rest;
    forall k: nat | k + 1 < |grown| ensures StartsWell(body, overlap, grown[k], grown[k + 1]) {
      if k > 0 {
        assert StartsWell(body, overlap, rest[k - 1], rest[k]);
      }
    }
  }

  /** Every window of a finished split, for every body, target and overlap. */
  lemma {:induction false} WindowsEndWell(body: seq<Byte>, target: nat, overlap: nat, start: nat)
    requires Split(body, target, overlap, start).Done?
    ensures var windows := Split(body, target, overlap, start).windows;
            && AllEndWell(body, target, overlap, windows)
            && (start < |body| <==> windows != []) && (windows != [] ==> windows[0].start == start)
    decreases |body| - start
  {
    if start < |body| {
      var end := WindowEnd(body, start, target);
      var w := Window(start, end);
      WindowEndsWell(body, start, target);
      if end < |body| {
        var next := NextStart(body, start, end, overlap);
        WindowsEndWell(body, target, overlap, next);
        EndWellGrows(body, target, overlap, w, Split(body, target, overlap, next).windows);
      } else {
        EndWellGrows(body, target, overlap, w, []);
        assert [w] + [] == [w];
      }
    }
  }

  // ----- what the chain means ------------------------------------------------------------

  /** Linked windows cover every byte. */
  lemma WindowsCover(body: seq<Byte>, target: nat, overlap: nat, windows: seq<Window>, p: nat) returns (k: nat)
    requires Laid(body, target, overlap, windows)
    requires windows != [] && windows[0].start <= p < windows[|windows| - 1].end
    ensures k < |windows| && windows[k].start <= p < windows[k].end
  {
    k := 0;
    while windows[k].end <= p
      invariant k < |windows| && windows[k].start <= p
      decreases |windows| - k
    {
      assert Linked(body, windows, overlap, k);
      k := k + 1;
    }
  }

  /** From one window to the next the start moves on by at least target - 200 - overlap bytes. */
  lemma StartAdvances(body: seq<Byte>, target: nat, overlap: nat, windows: seq<Window>, k: nat)
    requires Laid(body, target, overlap, windows) && k + 1 < |windows|
    ensures windows[k + 1].start >= windows[k].start + (target - 200 - overlap)
  {
    assert Linked(body, windows, overlap, k);
    assert Fine(body, target, windows[k]) && Fine(body, target, windows[k + 1]);
  }

  function Steps(k: nat, step: int): int {
    if k == 0 then 0 else Steps(k - 1, step) + step
  }

  lemma {:induction false} StepsMultiply(k: nat, step: int)
    ensures Steps(k, step) == k * step
  {
    if k > 0 {
      StepsMultiply(k - 1, step);
    }
  }

  lemma {:induction false} StartsStepOn(body: seq<Byte>, target: nat, overlap: nat, windows: seq<Window>, k: nat)
    requires Laid(body, target, overlap, windows) && k < |windows|
    ensures windows[k].start >= windows[0].start + Steps(k, target - 200 - overlap)
  {
    if k > 0 {
      StartsStepOn(body, target, overlap, windows, k - 1);
      StartAdvances(body, target, overlap, windows, k - 1);
    }
  }

  lemma StartsAdvance(body: seq<Byte>, target: nat, overlap: nat, windows: seq<Window>, k: nat)
    requires Laid(body, target, overlap, windows) && k < |windows|
    ensures windows[k].start >= windows[0].start + k * (target - 200 - overlap)
  {
    StartsStepOn(body, target, overlap, windows, k);
    StepsMultiply(k, target - 200 - overlap);
  }

  /** With the default target 1600 and overlap 200 there are at most n / 1200 + 1 windows. */
  lemma DefaultWindowCount(body: seq<Byte>, windows: seq<Window>)
    requires Laid(body, 1600, 200, windows)
    ensures |windows| <= |body| / 1200 + 1
  {
    if windows != [] {
      StartsAdvance(body, 1600, 200, windows, |windows| - 1);
      assert Fine(body, 1600, windows[|windows| - 1]);
    }
  }

  // ----- the bound on the target is exact ------------------------------------------------

  function Repeat(b: Byte, n: nat): (s: seq<Byte>)
    ensures |s| == n && forall i :: 0 <= i < n ==> s[i] == b
  {
    seq(n, i => b)
  }

  /** A blank and then letters. */
  function Awkward(letters: nat): (body: seq<Byte>)
    ensures |body| == letters + 1 && body[0] == 32 && forall i :: 1 <= i < |body| ==> body[i] == 120
    ensures Utf8(body)
  {
    [32] + Repeat(120, letters)
  }

  /** On such a body, a window whose target stays inside it ends right behind the blank whenever the blank is
      within reach, whether or not the window has already passed it. */
  lemma AwkwardEnd(body: seq<Byte>, start: nat, target: nat)
    requires |body| > 1 && body[0] == 32 && forall i :: 1 <= i < |body| ==> body[i] == 120
    requires 1 <= start + target <= 201 && start + target < |body|
    ensures WindowEnd(body, start, target) == 1
  {
    assert Boundary(body, 1);
  }

  lemma AwkwardNext(body: seq<Byte>, start: nat, end: nat, overlap: nat)
    requires |body| > 1 && body[0] == 32 && forall i :: 1 <= i < |body| ==> body[i] == 120
    requires start <= end <= start + 1 && end < |body|
    ensures NextStart(body, start, end, overlap) == start + 1
  {
    assert Boundary(body, start + 1);
  }

  lemma SplitStep(body: seq<Byte>, target: nat, overlap: nat, start: nat, end: nat, next: nat)
    requires start <= end < |body| && WindowEnd(body, start, target) == end
             && NextStart(body, start, end, overlap) == next
    ensures Split(body, target, overlap, start) == Prefixed([Window(start, end)], Split(body, target, overlap, next))
  {
  }

  lemma AwkwardFirst(body: seq<Byte>, target: nat, overlap: nat, end: nat)
    requires |body| > 1 && body[0] == 32 && forall i :: 1 <= i < |body| ==> body[i] == 120
    requires target <= 200 && target < |body| && end == if target == 0 then 0 else 1
    ensures Split(body, target, overlap, 0) == Prefixed([Window(0, end)], Split(body, target, overlap, 1))
  {
    if target == 0 {
      assert Boundary(body, 0);
    } else {
      AwkwardEnd(body, 0, target);
    }
    AwkwardNext(body, 0, end, overlap);
    SplitStep(body, target, overlap, 0, end, 1);
  }

  lemma AwkwardSecond(body: seq<Byte>, target: nat, overlap: nat)
    requires |body| > 2 && body[0] == 32 && forall i :: 1 <= i < |body| ==> body[i] == 120
    requires target <= 200 && target + 1 < |body|
    ensures Split(body, target, overlap, 1) == Prefixed([Window(1, 1)], Split(body, target, overlap, 2))
  {
    AwkwardEnd(body, 1, target);
    AwkwardNext(body, 1, 1, overlap);
    SplitStep(body, target, overlap, 1, 1, 2);
  }

  lemma TwoWindows(a: Window, b: Window, r0: Outcome, r1: Outcome, r2: Outcome)
    requires r0 == Prefixed([a], r1) && r1 == Prefixed([b], r2)
    ensures r0 == Prefixed([a, b], r2)
  {
    PrefixedTwice([a], [b], r2);
    assert [a] + [b] == [a, b];
  }

  /** The first two windows leave the next one to start at byte 2. */
  lemma AwkwardStart(body: seq<Byte>, target: nat, overlap: nat)
    requires |body| > 2 && body[0] == 32 && forall i :: 1 <= i < |body| ==> body[i] == 120
    requires target <= 200 && target + 1 < |body|
    ensures var first := if target == 0 then Window(0, 0) else Window(0, 1);
            Split(body, target, overlap, 0) == Prefixed([first, Window(1, 1)], Split(body, target, overlap, 2))
  {
    var first := if target == 0 then Window(0, 0) else Window(0, 1);
    AwkwardFirst(body, target, overlap, first.end);
    AwkwardSecond(body, target, overlap);
    TwoWindows(first, Window(1, 1), Split(body, target, overlap, 0), Split(body, target, overlap, 1),
               Split(body, target, overlap, 2));
  }

  /** The whole run on a body one byte too long for a single window: for a target from 1 to 200 the second
      window is empty and the third starts behind byte 1; for target 0 both windows are empty. */
  lemma ShortTargetSkipsByte(target: nat, overlap: nat)
    requires target <= 200
    ensures Split(Awkward(target + 1), target, overlap, 0)
            == Done(if target == 0 then [Window(0, 0), Window(1, 1)]
                    else [Window(0, 1), Window(1, 1), Window(2, target + 2)])
  {
    var body := Awkward(target + 1);
    if target == 0 {
      assert Boundary(body, 0);
      AwkwardNext(body, 0, 0, overlap);
      AwkwardEnd(body, 1, 0);
      AwkwardNext(body, 1, 1, overlap);
      SplitStep(body, 0, overlap, 0, 0, 1);
      SplitStep(body, 0, overlap, 1, 1, 2);
    } else {
      AwkwardStart(body, target, overlap);
      assert Split(body, target, overlap, 2) == Done([Window(2, target + 2)]);
    }
  }

  /** One letter more, and for every target below 200 the third window would end before it starts. */
  lemma ShorterTargetPanics(target: nat, overlap: nat)
    requires target < 200
    ensures Split(Awkward(target + 2), target, overlap, 0) == Panic
  {
    var body := Awkward(target + 2);
    AwkwardStart(body, target, overlap);
    AwkwardEnd(body, 2, target);
    assert Split(body, target, overlap, 2) == Panic;
  }

  lemma {:induction false} NoPanic(body: seq<Byte>, target: nat, overlap: nat, start: nat)
    requires target >= 200
    ensures Split(body, target, overlap, start).Done?
    decreases |body| - start
  {
    if start < |body| {
      var end := WindowEnd(body, start, target);
      if start <= end < |body| {
        NoPanic(body, target, overlap, NextStart(body, start, end, overlap));
      }
    }
  }

  /** The split finishes on every UTF-8 body exactly when the target is at least 200. */
  lemma PanicFreeExactly(target: nat, overlap: nat)
    ensures (forall body: seq<Byte> :: Utf8(body) ==> Split(body, target, overlap, 0).Done?) <==> target >= 200
  {
    if target >= 200 {
      forall body: seq<Byte> | Utf8(body) ensures Split(body, target, overlap, 0).Done? {
        NoPanic(body, target, overlap, 0);
      }
    } else {
      ShorterTargetPanics(target, overlap);
      assert Utf8(Awkward(target + 2));
    }
  }

  predicate InWindow(windows: seq<Window>, p: nat) {
    exists k :: 0 <= k < |windows| && windows[k].start <= p < windows[k].end
  }

  /** The split finishes and every byte lies in a window. */
  predicate Complete(body: seq<Byte>, r: Outcome) {
    r.Done? && forall p: nat :: p < |body| ==> InWindow(r.windows, p)
  }

  lemma SplitIsComplete(body: seq<Byte>, target: nat, overlap: nat)
    requires Utf8(body) && target > 200
    ensures Complete(body, Split(body, target, overlap, 0))
  {
    if body != [] {
      SplitIsLaid(body, target, overlap, 0);
      var windows := Split(body, target, overlap, 0).windows;
      forall p: nat | p < |body| ensures InWindow(windows, p) {
        var k := WindowsCover(body, target, overlap, windows, p);
      }
    }
  }

  lemma ShortIsIncomplete(target: nat, overlap: nat)
    requires target <= 200
    ensures var body := Awkward(target + 1); Utf8(body) && !Complete(body, Split(body, target, overlap, 0))
  {
    ShortTargetSkipsByte(target, overlap);
    assert !InWindow(Split(Awkward(target + 1), target, overlap, 0).windows, 1);
  }

  /** Every byte of every UTF-8 body lies in a window exactly when the target is above 200. */
  lemma CompleteExactly(target: nat, overlap: nat)
    ensures (forall body: seq<Byte> :: Utf8(body) ==> Complete(body, Split(body, target, overlap, 0))) <==> target > 200
  {
    if target > 200 {
      forall body: seq<Byte> | Utf8(body) ensures Complete(body, Split(body, target, overlap, 0)) {
        SplitIsComplete(body, target, overlap);
      }
    } else {
      ShortIsIncomplete(target, overlap);
    }
  }
}
