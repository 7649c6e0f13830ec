/** The transactional write gate (crates/sap-automate-rfc/src/transaction.rs) over the BAPIRET2 tree walk
    (crates/sap-automate-rfc/src/bapiret2.rs). */
module WriteGate {
  import opened Wrappers
  import opened Soap

  // ----- BAPIRET2 rows -------------------------------------------------------------------

  datatype Severity = Success | Error | Warning | Info | Abort | Unknown(c: char)

  function Upper(c: char): char {
    if 'a' <= c <= 'z' then 'A' + (c - 'a') else c
  }

  function SeverityOf(c: char): Severity {
    match Upper(c)
    case 'S' => Success
    case 'E' => Error
    case 'W' => Warning
    case 'I' => Info
    case 'A' => Abort
    case other => Unknown(other)
  }

  predicate Failing(s: Severity) {
    s.Error? || s.Abort? || s.Unknown?
  }

  datatype Message = Message(severity: Severity, text: string)

  function Get(fs: seq<Field>, k: string): Json {
    if fs == [] then Null else if fs[0].key == k then fs[0].value else Get(fs[1..], k)
  }

  /** The first of two spellings that holds a string or a number. */
  function FirstStr(fs: seq<Field>, upper: string, lower: string): string {
    var u, l := Get(fs, upper), Get(fs, lower);
    if u.Str? then u.s else if u.Number? then u.text
    else if l.Str? then l.s else if l.Number? then l.text else ""
  }

  predicate IsRow(v: Json) {
    && v.Obj?
    && (HasKey(v.fields, "TYPE") || HasKey(v.fields, "type"))
    && (HasKey(v.fields, "MESSAGE") || HasKey(v.fields, "message"))
  }

  function RowSeverity(v: Json): Severity
    requires v.Obj?
  {
    var t := FirstStr(v.fields, "TYPE", "type");
    if t == "" then Unknown(' ') else SeverityOf(t[0])
  }

  function ParseRow(v: Json): Message
    requires v.Obj?
  {
    Message(RowSeverity(v), FirstStr(v.fields, "MESSAGE", "message"))
  }

  const MAX_WALK: nat := 8

  /** The rows the walk collects below `v`, in order. */
  function Rows(v: Json, depth: nat): (r: seq<Json>)
    ensures forall k :: 0 <= k < |r| ==> IsRow(r[k])
    decreases v, 0
  {
    if depth > MAX_WALK then []
    else if IsRow(v) then [v]
    else match v
      case Obj(fs) => FieldRows(fs, depth + 1)
      case Arr(items) => ItemRows(items, depth + 1)
      case _ => []
  }

  function FieldRows(fs: seq<Field>, depth: nat): (r: seq<Json>)
    ensures forall k :: 0 <= k < |r| ==> IsRow(r[k])
  {
    if fs == [] then [] else Rows(fs[0].value, depth) + FieldRows(fs[1..], depth)
  }

  function ItemRows(items: seq<Json>, depth: nat): (r: seq<Json>)
    ensures forall k :: 0 <= k < |r| ==> IsRow(r[k])
  {
    if items == [] then [] else Rows(items[0], depth) + ItemRows(items[1..], depth)
  }

  /** The walk as written, appending to a shared list. */
  method Walk(v: Json, out0: seq<Json>, depth: nat) returns (out: seq<Json>)
    ensures out == out0 + Rows(v, depth)
    decreases v
  {
    out := out0;
    if depth > MAX_WALK {
      return;
    }
    if IsRow(v) {
      return out + [v];
    }
    match v {
      case Obj(fs) =>
        for i := 0 to |fs|
          invariant out + FieldRows(fs[i..], depth + 1) == out0 + FieldRows(fs, depth + 1)
        {
          assert fs[i..][1..] == fs[i + 1..];
          Associate(out, Rows(fs[i].value, depth + 1), FieldRows(fs[i + 1..], depth + 1));
          out := Walk(fs[i].value, out, depth + 1);
        }
      case Arr(items) =>
        for i := 0 to |items|
          invariant out + ItemRows(items[i..], depth + 1) == out0 + ItemRows(items, depth + 1)
        {
          assert items[i..][1..] == items[i + 1..];
          Associate(out, Rows(items[i], depth + 1), ItemRows(items[i + 1..], depth + 1));
          out := Walk(items[i], out, depth + 1);
        }
      case _ =>
    }
  }

  function Messages(rows: seq<Json>): seq<Message>
    requires forall k :: 0 <= k < |rows| ==> rows[k].Obj?
  {
    seq(|rows|, i requires 0 <= i < |rows| => ParseRow(rows[i]))
  }

  function ParseBapiret2(v: Json): seq<Message> {
    Messages(Rows(v, 0))
  }

  predicate HasFailure(ms: seq<Message>) {
    exists k :: 0 <= k < |ms| && Failing(ms[k].severity)
  }

  // ----- where the rows are --------------------------------------------------------------

  function Arity(v: Json): nat {
    if v.Obj? then |v.fields| else if v.Arr? then |v.items| else 0
  }

  function Child(v: Json, i: nat): Json
    requires i < Arity(v)
  {
    if v.Obj? then v.fields[i].value else v.items[i]
  }

  /** The value `r` sits at `path` below `v`. */
  predicate Reaches(v: Json, path: seq<nat>, r: Json)
    decreases |path|
  {
    if path == [] then r == v else path[0] < Arity(v) && Reaches(Child(v, path[0]), path[1..], r)
  }

  /** An object with an entry of one of the names. */
  predicate HasEntry(v: Json, names: set<string>) {
    v.Obj? && exists i :: 0 <= i < |v.fields| && v.fields[i].key in names
  }

  /** A BAPIRET2 row, by its entries. */
  predicate Row(v: Json) {
    HasEntry(v, {"TYPE", "type"}) && HasEntry(v, {"MESSAGE", "message"})
  }

  lemma {:induction false} HasKeyAt(fs: seq<Field>, k: string)
    ensures HasKey(fs, k) <==> exists i :: 0 <= i < |fs| && fs[i].key == k
  {
    if fs != [] {
      HasKeyAt(fs[1..], k);
      if HasKey(fs[1..], k) {
        var i :| 0 <= i < |fs[1..]| && fs[1..][i].key == k;
        assert fs[i + 1].key == k;
      }
      if i :| 0 < i < |fs| && fs[i].key == k {
        assert fs[1..][i - 1].key == k;
      }
    }
  }

  lemma RowIs(v: Json)
    ensures IsRow(v) <==> Row(v)
  {
    if v.Obj? {
      HasKeyAt(v.fields, "TYPE");
      HasKeyAt(v.fields, "type");
      HasKeyAt(v.fields, "MESSAGE");
      HasKeyAt(v.fields, "message");
    }
  }

  /** No value strictly above the end of `path` is itself a row. */
  predicate Unshadowed(v: Json, path: seq<nat>)
    decreases |path|
  {
    path == [] || (!Row(v) && path[0] < Arity(v) && Unshadowed(Child(v, path[0]), path[1..]))
  }

  /** `r` is a BAPIRET2 row of the reply `v`: at most `levels` deep and not inside another row. */
  ghost predicate RowWithin(v: Json, levels: int, r: Json) {
    Row(r) && exists path :: |path| <= levels && Reaches(v, path, r) && Unshadowed(v, path)
  }

  lemma {:induction false} FieldRowsMember(fs: seq<Field>, depth: nat, r: Json)
    ensures r in FieldRows(fs, depth) <==> exists i :: 0 <= i < |fs| && r in Rows(fs[i].value, depth)
  {
    if fs != [] {
      FieldRowsMember(fs[1..], depth, r);
      if i :| 0 <= i < |fs[1..]| && r in Rows(fs[1..][i].value, depth) {
        assert r in Rows(fs[i + 1].value, depth);
      }
      if i :| 0 < i < |fs| && r in Rows(fs[i].value, depth) {
        assert r in Rows(fs[1..][i - 1].value, depth);
      }
    }
  }

  lemma {:induction false} ItemRowsMember(items: seq<Json>, depth: nat, r: Json)
    ensures r in ItemRows(items, depth) <==> exists i :: 0 <= i < |items| && r in Rows(items[i], depth)
  {
    if items != [] {
      ItemRowsMember(items[1..], depth, r);
      if i :| 0 <= i < |items[1..]| && r in Rows(items[1..][i], depth) {
        assert r in Rows(items[i + 1], depth);
      }
      if i :| 0 < i < |items| && r in Rows(items[i], depth) {
        assert r in Rows(items[1..][i - 1], depth);
      }
    }
  }

  lemma RowsMember(v: Json, depth: nat, r: Json)
    requires depth <= MAX_WALK && !IsRow(v)
    ensures r in Rows(v, depth) <==> exists i :: 0 <= i < Arity(v) && r in Rows(Child(v, i), depth + 1)
  {
    match v
    case Obj(fs) => FieldRowsMember(fs, depth + 1, r);
      if r in Rows(v, depth) {
        var i :| 0 <= i < |fs| && r in Rows(fs[i].value, depth + 1);
        assert r in Rows(Child(v, i), depth + 1);
      }
    case Arr(items) => ItemRowsMember(items, depth + 1, r);
      if r in Rows(v, depth) {
        var i :| 0 <= i < |items| && r in Rows(items[i], depth + 1);
        assert r in Rows(Child(v, i), depth + 1);
      }
    case _ =>
  }

  lemma RowWithinChildren(v: Json, levels: nat, r: Json)
    requires !Row(v)
    ensures RowWithin(v, levels, r) <==> exists i :: 0 <= i < Arity(v) && RowWithin(Child(v, i), levels - 1, r)
  {
    if i :| 0 <= i < Arity(v) && RowWithin(Child(v, i), levels - 1, r) {
      var path :| |path| <= levels - 1 && Reaches(Child(v, i), path, r) && Unshadowed(Child(v, i), path);
      assert ([i] + path)[1..] == path;
      assert Reaches(v, [i] + path, r) && Unshadowed(v, [i] + path);
    }
    if RowWithin(v, levels, r) {
      var path :| |path| <= levels && Reaches(v, path, r) && Unshadowed(v, path);
      assert RowWithin(Child(v, path[0]), levels - 1, r) by {
        assert |path[1..]| <= levels - 1;
      }
    }
  }

  lemma ChildSmaller(v: Json, i: nat)
    requires i < Arity(v)
    ensures Child(v, i) < v
  {}

  /** The walk finds exactly the rows within eight levels that no other row encloses. */
  lemma {:induction false} WalkFindsRows(v: Json, depth: nat, r: Json)
    ensures r in Rows(v, depth) <==> RowWithin(v, MAX_WALK - depth, r)
    decreases v
  {
    RowIs(v);
    if depth > MAX_WALK {
      assert r !in Rows(v, depth);
    } else if IsRow(v) {
      assert Reaches(v, [], v) && Unshadowed(v, []);
    } else {
      RowsMember(v, depth, r);
      RowWithinChildren(v, MAX_WALK - depth, r);
      forall i | 0 <= i < Arity(v)
        ensures r in Rows(Child(v, i), depth + 1) <==> RowWithin(Child(v, i), MAX_WALK - depth - 1, r)
      {
        ChildSmaller(v, i);
        WalkFindsRows(Child(v, i), depth + 1, r);
      }
    }
  }

  // ----- in document order, one for each place -------------------------------------------

  /** `p` comes before `q` in the document, and neither lies inside the other. */
  predicate Before(p: seq<nat>, q: seq<nat>)
    decreases |p|
  {
    p != [] && q != [] && (p[0] < q[0] || (p[0] == q[0] && Before(p[1..], q[1..])))
  }

  /** A place of a row. */
  predicate Place(v: Json, levels: int, p: seq<nat>, r: Json) {
    |p| <= levels && Reaches(v, p, r) && Unshadowed(v, p) && Row(r)
  }

  predicate InOrder(paths: seq<seq<nat>>) {
    forall k, l :: 0 <= k < l < |paths| ==> Before(paths[k], paths[l])
  }

  /** The rows stand at these places, which are in document order. */
  predicate StandAt(v: Json, levels: int, rows: seq<Json>, paths: seq<seq<nat>>) {
    |paths| == |rows| && InOrder(paths) && forall k :: 0 <= k < |rows| ==> Place(v, levels, paths[k], rows[k])
  }

  /** The paths through child `i`. */
  function Through(i: nat, paths: seq<seq<nat>>): (r: seq<seq<nat>>)
    ensures |r| == |paths| && forall k :: 0 <= k < |r| ==> r[k] == [i] + paths[k]
  {
    seq(|paths|, k requires 0 <= k < |paths| => [i] + paths[k])
  }

  /** The places of the rows the walk collects below `v`, in its order. */
  function Places(v: Json, depth: nat): seq<seq<nat>>
    decreases v, 0
  {
    if depth > MAX_WALK then []
    else if IsRow(v) then [[]]
    else match v
      case Obj(fs) => FieldPlaces(fs, 0, depth + 1)
      case Arr(items) => ItemPlaces(items, 0, depth + 1)
      case _ => []
  }

  function FieldPlaces(fs: seq<Field>, from: nat, depth: nat): seq<seq<nat>>
    decreases fs
  {
    if fs == [] then [] else Through(from, Places(fs[0].value, depth)) + FieldPlaces(fs[1..], from + 1, depth)
  }

  function ItemPlaces(items: seq<Json>, from: nat, depth: nat): seq<seq<nat>>
    decreases items
  {
    if items == [] then [] else Through(from, Places(items[0], depth)) + ItemPlaces(items[1..], from + 1, depth)
  }

  /** As `StandAt`, for the children of `v` from `from` on. */
  predicate ChildrenStandAt(v: Json, from: nat, levels: int, rows: seq<Json>, paths: seq<seq<nat>>) {
    && StandAt(v, levels, rows, paths)
    && forall k :: 0 <= k < |paths| ==> paths[k] != [] && paths[k][0] >= from
  }

  lemma PlaceThrough(v: Json, i: nat, levels: int, p: seq<nat>, r: Json)
    requires i < Arity(v) && !Row(v)
    ensures Place(v, levels, [i] + p, r) <==> Place(Child(v, i), levels - 1, p, r)
  {
    assert ([i] + p)[1..] == p;
  }

  lemma BeforeThrough(i: nat, p: seq<nat>, q: seq<nat>)
    ensures Before([i] + p, [i] + q) <==> Before(p, q)
  {
    assert ([i] + p)[1..] == p && ([i] + q)[1..] == q;
  }

  lemma ChildrenJoin(v: Json, i: nat, levels: int, rows: seq<Json>, paths: seq<seq<nat>>, more: seq<Json>,
                     later: seq<seq<nat>>)
    requires i < Arity(v) && !Row(v) && StandAt(Child(v, i), levels - 1, rows, paths)
    requires ChildrenStandAt(v, i + 1, levels, more, later)
    ensures ChildrenStandAt(v, i, levels, rows + more, Through(i, paths) + later)
  {
    var all, whole := rows + more, Through(i, paths) + later;
    forall k | 0 <= k < |all| ensures Place(v, levels, whole[k], all[k]) {
      if k < |rows| {
        PlaceThrough(v, i, levels, paths[k], rows[k]);
      }
    }
    forall k, l | 0 <= k < l < |whole| ensures Before(whole[k], whole[l]) {
      if l < |paths| {
        BeforeThrough(i, paths[k], paths[l]);
      }
    }
  }

  lemma {:induction false} RowsStandAt(v: Json, depth: nat)
    ensures StandAt(v, MAX_WALK - depth, Rows(v, depth), Places(v, depth))
    decreases v, 0
  {
    RowIs(v);
    if depth <= MAX_WALK && !IsRow(v) {
      match v
      case Obj(fs) => FieldsStandAt(v, 0, depth);
      case Arr(items) => ItemsStandAt(v, 0, depth);
      case _ =>
    }
  }

  lemma {:induction false} FieldsStandAt(v: Json, i: nat, depth: nat)
    requires v.Obj? && !Row(v) && i <= |v.fields| && depth <= MAX_WALK
    ensures ChildrenStandAt(v, i, MAX_WALK - depth, FieldRows(v.fields[i..], depth + 1),
                            FieldPlaces(v.fields[i..], i, depth + 1))
    decreases v, 0, |v.fields| - i
  {
    if i < |v.fields| {
      ChildSmaller(v, i);
      RowsStandAt(v.fields[i].value, depth + 1);
      FieldsStandAt(v, i + 1, depth);
      assert v.fields[i..][1..] == v.fields[i + 1..];
      ChildrenJoin(v, i, MAX_WALK - depth, Rows(v.fields[i].value, depth + 1), Places(v.fields[i].value, depth + 1),
                   FieldRows(v.fields[i + 1..], depth + 1), FieldPlaces(v.fields[i + 1..], i + 1, depth + 1));
    }
  }

  lemma {:induction false} ItemsStandAt(v: Json, i: nat, depth: nat)
    requires v.Arr? && !Row(v) && i <= |v.items| && depth <= MAX_WALK
    ensures ChildrenStandAt(v, i, MAX_WALK - depth, ItemRows(v.items[i..], depth + 1),
                            ItemPlaces(v.items[i..], i, depth + 1))
    decreases v, 0, |v.items| - i
  {
    if i < |v.items| {
      ChildSmaller(v, i);
      RowsStandAt(v.items[i], depth + 1);
      ItemsStandAt(v, i + 1, depth);
      assert v.items[i..][1..] == v.items[i + 1..];
      ChildrenJoin(v, i, MAX_WALK - depth, Rows(v.items[i], depth + 1), Places(v.items[i], depth + 1),
                   ItemRows(v.items[i + 1..], depth + 1), ItemPlaces(v.items[i + 1..], i + 1, depth + 1));
    }
  }

  lemma {:induction false} FieldIsVisited(fs: seq<Field>, from: nat, depth: nat, i: nat, p: seq<nat>)
    requires i < |fs| && p in Places(fs[i].value, depth)
    ensures [from + i] + p in FieldPlaces(fs, from, depth)
  {
    if i == 0 {
      var k :| 0 <= k < |Places(fs[0].value, depth)| && Places(fs[0].value, depth)[k] == p;
      assert Through(from, Places(fs[0].value, depth))[k] == [from] + p;
    } else {
      FieldIsVisited(fs[1..], from + 1, depth, i - 1, p);
    }
  }

  lemma {:induction false} ItemIsVisited(items: seq<Json>, from: nat, depth: nat, i: nat, p: seq<nat>)
    requires i < |items| && p in Places(items[i], depth)
    ensures [from + i] + p in ItemPlaces(items, from, depth)
  {
    if i == 0 {
      var k :| 0 <= k < |Places(items[0], depth)| && Places(items[0], depth)[k] == p;
      assert Through(from, Places(items[0], depth))[k] == [from] + p;
    } else {
      ItemIsVisited(items[1..], from + 1, depth, i - 1, p);
    }
  }

  lemma {:induction false} PlaceIsVisited(v: Json, depth: nat, p: seq<nat>, r: Json)
    requires Place(v, MAX_WALK - depth, p, r)
    ensures p in Places(v, depth)
    decreases |p|
  {
    RowIs(v);
    if p != [] {
      var i, q := p[0], p[1..];
      assert [i] + q == p;
      PlaceThrough(v, i, MAX_WALK - depth, q, r);
      PlaceIsVisited(Child(v, i), depth + 1, q, r);
      match v {
        case Obj(fs) => FieldIsVisited(fs, 0, depth + 1, i, q);
        case Arr(items) => ItemIsVisited(items, 0, depth + 1, i, q);
      }
    }
  }

  /** The rows come in document order, each place within eight levels that no other row encloses exactly once. */
  lemma RowsInDocumentOrder(v: Json)
    ensures StandAt(v, 8, Rows(v, 0), Places(v, 0))
    ensures forall p, r :: Place(v, 8, p, r) ==> p in Places(v, 0)
  {
    RowsStandAt(v, 0);
    forall p, r | Place(v, 8, p, r) ensures p in Places(v, 0) {
      PlaceIsVisited(v, 0, p, r);
    }
  }

  // ----- what a row says -----------------------------------------------------------------

  /** The first entry under `k` is the string or number `t`. */
  ghost predicate TextAt(r: Json, k: string, t: string) {
    && r.Obj?
    && exists i :: 0 <= i < |r.fields| && r.fields[i].key == k && r.fields[i].value in {Str(t), Number(t)}
                   && forall j :: 0 <= j < i ==> r.fields[j].key != k
  }

  /** `t` is the text under `upper`, or under `lower` if there is none under `upper`. */
  ghost predicate Says(r: Json, upper: string, lower: string, t: string) {
    TextAt(r, upper, t) || (TextAt(r, lower, t) && !exists u :: TextAt(r, upper, u))
  }

  /** The type text of the row begins with one of these letters. */
  ghost predicate TypeIn(r: Json, letters: string) {
    exists t :: Says(r, "TYPE", "type", t) && t != "" && t[0] in letters
  }

  function Scalar(v: Json): Option<string> {
    match v
    case Str(s) => Some(s)
    case Number(t) => Some(t)
    case _ => None
  }

  lemma {:induction false} GetFirst(fs: seq<Field>, k: string, i: nat)
    requires i < |fs| && fs[i].key == k && forall j :: 0 <= j < i ==> fs[j].key != k
    ensures Get(fs, k) == fs[i].value
  {
    if i > 0 {
      GetFirst(fs[1..], k, i - 1);
    }
  }

  lemma {:induction false} GetNone(fs: seq<Field>, k: string)
    requires !exists i :: 0 <= i < |fs| && fs[i].key == k
    ensures Get(fs, k) == Null
  {
    if fs != [] {
      assert forall i :: 0 <= i < |fs[1..]| ==> fs[1..][i] == fs[i + 1];
      GetNone(fs[1..], k);
    }
  }

  lemma FirstAt(fs: seq<Field>, k: string, n: nat) returns (i: nat)
    requires n < |fs| && fs[n].key == k
    ensures i <= n && fs[i].key == k && forall j :: 0 <= j < i ==> fs[j].key != k
  {
    i := 0;
    while fs[i].key != k
      invariant i <= n && forall j :: 0 <= j < i ==> fs[j].key != k
      decreases n - i
    {
      i := i + 1;
    }
  }

  lemma TextIs(r: Json, k: string, t: string)
    requires r.Obj?
    ensures TextAt(r, k, t) <==> Scalar(Get(r.fields, k)) == Some(t)
  {
    if n :| 0 <= n < |r.fields| && r.fields[n].key == k {
      var i := FirstAt(r.fields, k, n);
      GetFirst(r.fields, k, i);
    } else {
      GetNone(r.fields, k);
    }
  }

  lemma SaysIs(r: Json, upper: string, lower: string, t: string)
    requires r.Obj?
    ensures Says(r, upper, lower, t) ==> FirstStr(r.fields, upper, lower) == t
    ensures FirstStr(r.fields, upper, lower) == t && t != "" ==> Says(r, upper, lower, t)
    ensures (forall u :: !Says(r, upper, lower, u)) ==> FirstStr(r.fields, upper, lower) == ""
  {
    forall u ensures TextAt(r, upper, u) <==> Scalar(Get(r.fields, upper)) == Some(u) {
      TextIs(r, upper, u);
    }
    forall u ensures TextAt(r, lower, u) <==> Scalar(Get(r.fields, lower)) == Some(u) {
      TextIs(r, lower, u);
    }
    var f := FirstStr(r.fields, upper, lower);
    if f != "" {
      assert Says(r, upper, lower, f);
    }
  }

  /** The severity of a row is told by the first letter of its type text, in either case. */
  lemma SeverityIs(r: Json)
    requires r.Obj?
    ensures RowSeverity(r).Success? <==> TypeIn(r, "Ss")
    ensures RowSeverity(r).Error? <==> TypeIn(r, "Ee")
    ensures RowSeverity(r).Warning? <==> TypeIn(r, "Ww")
    ensures RowSeverity(r).Info? <==> TypeIn(r, "Ii")
    ensures RowSeverity(r).Abort? <==> TypeIn(r, "Aa")
  {
    var t := FirstStr(r.fields, "TYPE", "type");
    forall u ensures Says(r, "TYPE", "type", u) && u != "" <==> t == u && u != "" {
      SaysIs(r, "TYPE", "type", u);
    }
    if t != "" {
      UpperIs(t[0]);
      assert Says(r, "TYPE", "type", t);
    }
  }

  lemma UpperIs(c: char)
    ensures forall d :: d in "SEWIA" ==> (Upper(c) == d <==> c == d || c == d + ' ')
  {
  }

  /** The row reports success, information or a warning. */
  ghost predicate Passes(r: Json) {
    TypeIn(r, "SsWwIi")
  }

  lemma FailingIs(r: Json)
    requires r.Obj?
    ensures Failing(RowSeverity(r)) <==> !Passes(r)
  {
    SeverityIs(r);
    if Passes(r) {
      var t :| Says(r, "TYPE", "type", t) && t != "" && t[0] in "SsWwIi";
      assert t[0] in "Ss" || t[0] in "Ww" || t[0] in "Ii";
      assert TypeIn(r, "Ss") || TypeIn(r, "Ww") || TypeIn(r, "Ii");
    }
  }

  /** No row of the reply within eight levels fails. */
  ghost predicate AllPass(v: Json) {
    forall r :: RowWithin(v, 8, r) ==> Passes(r)
  }

  ghost predicate HasRows(v: Json) {
    exists r :: RowWithin(v, 8, r)
  }

  lemma FailureIs(rows: seq<Json>)
    requires forall k :: 0 <= k < |rows| ==> rows[k].Obj?
    ensures HasFailure(Messages(rows)) <==> exists k :: 0 <= k < |rows| && !Passes(rows[k])
  {
    forall k | 0 <= k < |rows| ensures Failing(Messages(rows)[k].severity) <==> !Passes(rows[k]) {
      FailingIs(rows[k]);
    }
    if k :| 0 <= k < |rows| && !Passes(rows[k]) {
      assert Failing(Messages(rows)[k].severity);
    }
  }

  lemma RowsAre(v: Json)
    ensures forall r :: r in Rows(v, 0) <==> RowWithin(v, 8, r)
  {
    forall r ensures r in Rows(v, 0) <==> RowWithin(v, 8, r) {
      WalkFindsRows(v, 0, r);
    }
  }

  /** A reply has a failing message exactly when some row within eight levels is not of type S, W or I, and has
      no message at all exactly when there is no such row. */
  lemma ParsedMessages(v: Json)
    ensures HasFailure(ParseBapiret2(v)) <==> !AllPass(v)
    ensures ParseBapiret2(v) == [] <==> !HasRows(v)
  {
    var rows := Rows(v, 0);
    FailureIs(rows);
    RowsAre(v);
    if !AllPass(v) {
      var r :| RowWithin(v, 8, r) && !Passes(r);
      assert r in rows;
    }
    if rows != [] {
      assert rows[0] in rows;
    }
  }

  /** The text of a message is that of its row, and its severity the one the row's type says. */
  lemma MessageTellsRow(v: Json, k: nat)
    requires k < |ParseBapiret2(v)|
    ensures |Rows(v, 0)| == |ParseBapiret2(v)|
    ensures var m, r := ParseBapiret2(v)[k], Rows(v, 0)[k];
            && (forall t :: Says(r, "MESSAGE", "message", t) ==> m.text == t)
            && ((forall t :: !Says(r, "MESSAGE", "message", t)) ==> m.text == "")
            && (m.severity.Success? <==> TypeIn(r, "Ss")) && (m.severity.Error? <==> TypeIn(r, "Ee"))
            && (m.severity.Warning? <==> TypeIn(r, "Ww")) && (m.severity.Info? <==> TypeIn(r, "Ii"))
            && (m.severity.Abort? <==> TypeIn(r, "Aa"))
  {
    var r := Rows(v, 0)[k];
    SeverityIs(r);
    forall t ensures Says(r, "MESSAGE", "message", t) ==> ParseBapiret2(v)[k].text == t {
      SaysIs(r, "MESSAGE", "message", t);
    }
    SaysIs(r, "MESSAGE", "message", "");
  }

  // ----- the gate ------------------------------------------------------------------------

  datatype Call = Business(function_: string) | Commit | Rollback

  datatype Reply = Answer(value: Json) | Lost(error: string)

  /** An arbitrary client: what it replies may depend on everything it was asked so far. */
  type Client = seq<Call> -> Reply

  datatype Outcome =
    | Refused
    | Failed(error: string)
    | Finished(committed: bool, rolledBack: bool, messages: seq<Message>, result: Json)

  const COMMIT_FN := "BAPI_TRANSACTION_COMMIT"
  const ROLLBACK_FN := "BAPI_TRANSACTION_ROLLBACK"

  /** A reply that arrived and holds no failing message. */
  predicate Clean(r: Reply) {
    r.Answer? && !HasFailure(ParseBapiret2(r.value))
  }

  /** A reply that positively reports success. */
  predicate Confirmed(r: Reply) {
    Clean(r) && ParseBapiret2(r.value) != []
  }

  /** Success is confirmed exactly when the reply holds a BAPIRET2 row within eight levels and the type text of
      every such row begins with S, W or I in either case. */
  lemma ConfirmedMeansRows(v: Json)
    ensures Confirmed(Answer(v)) <==> HasRows(v) && AllPass(v)
    ensures Clean(Answer(v)) <==> AllPass(v)
  {
    ParsedMessages(v);
  }

  /** The reply arrived, and no row of it fails. */
  ghost predicate Passed(r: Reply) {
    r.Answer? && AllPass(r.value)
  }

  lemma RepliesTell(client: Client, trace: seq<Call>)
    ensures Clean(client(trace)) <==> Passed(client(trace))
    ensures Confirmed(client(trace)) <==> Passed(client(trace)) && HasRows(client(trace).value)
    ensures client(trace).Answer? ==> (ParseBapiret2(client(trace).value) == [] <==> !HasRows(client(trace).value))
  {
    if client(trace).Answer? {
      ConfirmedMeansRows(client(trace).value);
      ParsedMessages(client(trace).value);
    }
  }

  /** What a rollback reports: the messages of its reply, or a warning when the reply is lost. */
  function RollbackMessages(r: Reply): seq<Message> {
    match r
    case Answer(v) => ParseBapiret2(v)
    case Lost(e) => [Message(Warning, "rollback could not be confirmed: " + e)]
  }

  /** What an unconfirmed business call reports: its messages, or a warning when there are none. */
  function Noted(messages: seq<Message>): seq<Message> {
    if messages == [] then [Message(Warning, "BAPI returned no BAPIRET2; outcome unconfirmed \U{2014} not committed")]
    else messages
  }

  method IssueRollback(client: Client, trace0: seq<Call>)
      returns (trace: seq<Call>, confirmed: bool, messages: seq<Message>)
    ensures trace == trace0 + [Rollback] && confirmed == Clean(client(trace))
    ensures messages == RollbackMessages(client(trace))
  {
    trace := trace0 + [Rollback];
    match client(trace)
    case Answer(v) =>
      messages := ParseBapiret2(v);
      confirmed := !HasFailure(messages);
    case Lost(e) =>
      messages, confirmed := [Message(Warning, "rollback could not be confirmed: " + e)], false;
  }

  lemma FailureConcat(a: seq<Message>, b: seq<Message>)
    ensures HasFailure(a + b) <==> HasFailure(a) || HasFailure(b)
  {
    if k :| 0 <= k < |a| && Failing(a[k].severity) { assert Failing((a + b)[k].severity); }
    if k :| 0 <= k < |b| && Failing(b[k].severity) { assert Failing((a + b)[|a| + k].severity); }
    if k :| 0 <= k < |a + b| && Failing((a + b)[k].severity) {
      assert if k < |a| then Failing(a[k].severity) else Failing(b[k - |a|].severity);
    }
  }

  /** The unit of work of one business call `b`, case by case. */
  predicate UnitOfWork(client: Client, b: Call, trace: seq<Call>, r: Outcome) {
    && r != Refused && (r.Finished? ==> client([b]).Answer? && r.result == client([b]).value)
    && (client([b]).Lost? ==> trace == [b] && r.Failed?)
    && (client([b]).Answer? && !Confirmed(client([b])) ==>
          && trace == [b, Rollback] && r.Finished? && !r.committed && r.rolledBack == Clean(client([b, Rollback]))
          && r.messages == Noted(ParseBapiret2(client([b]).value)) + RollbackMessages(client([b, Rollback])))
    && (Confirmed(client([b])) && client([b, Commit]).Lost? ==> trace == [b, Commit] && r.Failed?)
    && (Confirmed(client([b])) && client([b, Commit]).Answer? && !Clean(client([b, Commit])) ==>
          && trace == [b, Commit, Rollback] && r.Finished? && !r.committed
          && r.rolledBack == Clean(client([b, Commit, Rollback]))
          && r.messages == ParseBapiret2(client([b]).value) + ParseBapiret2(client([b, Commit]).value)
                           + RollbackMessages(client([b, Commit, Rollback])))
    && (Confirmed(client([b])) && Clean(client([b, Commit])) ==>
          && trace == [b, Commit] && r.Finished? && r.committed && !r.rolledBack
          && r.messages == ParseBapiret2(client([b]).value) + ParseBapiret2(client([b, Commit]).value))
  }

  method RunUnit(client: Client, b: Call) returns (trace: seq<Call>, r: Outcome)
    ensures UnitOfWork(client, b, trace, r)
  {
    trace := [b];
    var reply := client(trace);
    if reply.Lost? {
      return trace, Failed(reply.error);
    }
    var messages := ParseBapiret2(reply.value);
    if HasFailure(messages) || messages == [] {
      var confirmed, more;
      trace, confirmed, more := IssueRollback(client, trace);
      assert trace == [b, Rollback];
      return trace, Finished(false, confirmed, Noted(messages) + more, reply.value);
    }
    trace := [b, Commit];
    var commit := client(trace);
    if commit.Lost? {
      return trace, Failed(commit.error);
    }
    FailureConcat(messages, ParseBapiret2(commit.value));
    messages := messages + ParseBapiret2(commit.value);
    if HasFailure(messages) {
      var confirmed, more;
      trace, confirmed, more := IssueRollback(client, trace);
      assert trace == [b, Commit, Rollback];
      return trace, Finished(false, confirmed, messages + more, reply.value);
    }
    r := Finished(true, false, messages, reply.value);
  }

  lemma TraceTells(client: Client, b: Call, trace: seq<Call>, r: Outcome)
    requires b.Business? && UnitOfWork(client, b, trace, r)
    ensures trace in {[b], [b, Rollback], [b, Commit], [b, Commit, Rollback]}
    ensures Commit in trace <==>
              client([b]).Answer? && HasRows(client([b]).value) && AllPass(client([b]).value)
    ensures r.Failed? ==> Rollback !in trace && client(trace).Lost?
  {
    RepliesTell(client, [b]);
  }

  lemma FlagsTell(client: Client, b: Call, trace: seq<Call>, r: Outcome)
    requires b.Business? && UnitOfWork(client, b, trace, r) && r.Finished?
    ensures r.committed <==> trace == [b, Commit]
    ensures r.committed ==> Passed(client(trace)) && r.messages != [] && !HasFailure(r.messages)
    ensures r.rolledBack <==> Rollback in trace && Passed(client(trace))
    ensures !r.committed ==> Rollback in trace
  {
    RepliesTell(client, trace);
    if r.committed {
      FailureConcat(ParseBapiret2(client([b]).value), ParseBapiret2(client(trace).value));
    }
  }

  lemma FirstWarns(client: Client, b: Call, trace: seq<Call>, r: Outcome)
    requires UnitOfWork(client, b, trace, r) && r.Finished? && !HasRows(r.result)
    ensures r.messages != [] && r.messages[0].severity.Warning?
  {
    RepliesTell(client, [b]);
    assert ParseBapiret2(r.result) == [] && !Confirmed(client([b]));
    assert r.messages == Noted([]) + RollbackMessages(client([b, Rollback]));
  }

  lemma LastWarns(front: seq<Message>, reply: Reply)
    requires reply.Lost?
    ensures var ms := front + RollbackMessages(reply); ms != [] && ms[|ms| - 1].severity.Warning?
  {
  }

  lemma LostRollbackWarns(client: Client, b: Call, trace: seq<Call>, r: Outcome)
    requires UnitOfWork(client, b, trace, r) && r.Finished? && client(trace).Lost?
    ensures r.messages != [] && r.messages[|r.messages| - 1].severity.Warning?
  {
    var first := ParseBapiret2(client([b]).value);
    if trace == [b, Rollback] {
      LastWarns(Noted(first), client(trace));
    } else {
      LastWarns(first + ParseBapiret2(client([b, Commit]).value), client(trace));
    }
  }

  /** Runs a write BAPI and finishes its unit of work.  For every client, with B the BAPI call: nothing
      is sent when the request is refused; a commit is sent exactly when B's reply confirms success;
      a change counts as committed only after a clean reply to the commit, and then it was not rolled
      back; an unconfirmed change is rolled back unless a reply is lost, and the messages warn of a reply
      without a row and of a rollback whose reply is lost. */
  method ExecuteWriteBapi(client: Client, function_: string, readOnly: bool) returns (trace: seq<Call>, r: Outcome)
    ensures r == Refused <==>
              readOnly || function_ in {"BAPI_TRANSACTION_COMMIT", "BAPI_TRANSACTION_ROLLBACK"}
    ensures var b := Business(function_);
            trace in {[], [b], [b, Rollback], [b, Commit], [b, Commit, Rollback]} && (trace == [] <==> r == Refused)
    ensures Commit in trace <==>
              && r != Refused && client([Business(function_)]).Answer?
              && HasRows(client([Business(function_)]).value) && AllPass(client([Business(function_)]).value)
    ensures r.Finished? ==>
              && (r.committed <==> trace == [Business(function_), Commit])
              && (r.committed ==> Passed(client(trace)) && r.messages != [] && !HasFailure(r.messages))
              && (r.rolledBack <==> Rollback in trace && Passed(client(trace)))
              && (!r.committed ==> Rollback in trace)
              && (!HasRows(r.result) ==> r.messages != [] && r.messages[0].severity.Warning?)
              && (client(trace).Lost? ==> r.messages != [] && r.messages[|r.messages| - 1].severity.Warning?)
    ensures r.Failed? ==> Rollback !in trace && client(trace).Lost?
  {
    if readOnly || function_ == COMMIT_FN || function_ == ROLLBACK_FN {
      return [], Refused;
    }
    trace, r := RunUnit(client, Business(function_));
    TraceTells(client, Business(function_), trace, r);
    if r.Finished? {
      FlagsTell(client, Business(function_), trace, r);
      if !HasRows(r.result) {
        FirstWarns(client, Business(function_), trace, r);
      }
      if client(trace).Lost? {
        LostRollbackWarns(client, Business(function_), trace, r);
      }
    }
  }
}
