/** The recursive XML-to-JSON reader of crates/sap-automate-rfc/src/soap.rs, and what it makes of the events
    of a rendered value. */
module SoapRead {
  import opened Wrappers
  import opened Trimming
  import opened SoapText
  import opened Soap

  datatype Outcome<+T> = Ok(value: T) | Err

  /** A parsed element and the events behind its end tag. */
  datatype Parsed = Parsed(json: Json, rest: seq<Event>)

  const MAX_XML_DEPTH: nat := 256

  // ----- the reader ----------------------------------------------------------------------

  function LocalName(q: string): string {
    if q == "" then ""
    else if q[|q| - 1] == ':' then ""
    else LocalName(q[..|q| - 1]) + [q[|q| - 1]]
  }

  function KeyIndex(m: seq<Field>, k: string): (i: nat)
    ensures i <= |m| && (i < |m| ==> m[i].key == k) && (i < |m| <==> HasKey(m, k))
  {
    if m == [] || m[0].key == k then 0 else 1 + KeyIndex(m[1..], k)
  }

  /** Repeated child tags fold into an array. */
  function InsertMerge(m: seq<Field>, k: string, v: Json): seq<Field> {
    var i := KeyIndex(m, k);
    if i == |m| then m + [Field(k, v)]
    else if m[i].value.Arr? then m[i := Field(k, Arr(m[i].value.items + [v]))]
    else m[i := Field(k, Arr([m[i].value, v]))]
  }

  function Finish(m: seq<Field>, text: string, count: nat): Json {
    if count == 0 then Str(Trim(text)) else Obj(m)
  }

  function Unescaped(raw: string): string {
    match Unescape(raw) case Some(t) => t case None => ""
  }

  /** The children of an element whose start tag was just read. */
  function ParseElement(es: seq<Event>, name: string, depth: nat): (r: Outcome<Parsed>)
    ensures r.Ok? ==> |r.value.rest| <= |es|
    decreases |es|, 1
  {
    if depth > MAX_XML_DEPTH then Err else ParseLoop(es, name, depth, [], "", 0)
  }

  function ParseLoop(es: seq<Event>, name: string, depth: nat, m: seq<Field>, text: string,
                     count: nat): (r: Outcome<Parsed>)
    ensures r.Ok? ==> |r.value.rest| <= |es|
    decreases |es|, 0
  {
    if es == [] then Ok(Parsed(Finish(m, text, count), []))
    else match es[0]
      case Start(c) =>
        (match ParseElement(es[1..], c, depth + 1)
         case Err => Err
         case Ok(p) => ParseLoop(p.rest, name, depth, InsertMerge(m, LocalName(c), p.json), text, count + 1))
      case Empty(c) => ParseLoop(es[1..], name, depth, InsertMerge(m, LocalName(c), Str("")), text, count + 1)
      case Text(raw) => ParseLoop(es[1..], name, depth, m, text + Unescaped(raw), count)
      case Declaration => ParseLoop(es[1..], name, depth, m, text, count)
      case End(c) => if c == name then Ok(Parsed(Finish(m, text, count), es[1..])) else Err
      case Broken => Err
  }

  /** The loop as written: a map, a text buffer and a child counter updated event by event. */
  method ParseChildren(es: seq<Event>, name: string, depth: nat) returns (r: Outcome<Parsed>)
    ensures r == ParseElement(es, name, depth)
    decreases |es|
  {
    if depth > MAX_XML_DEPTH {
      return Err;
    }
    var rest, m, text, count := es, [], "", 0;
    while rest != []
      invariant |rest| <= |es|
      invariant ParseLoop(rest, name, depth, m, text, count) == ParseElement(es, name, depth)
      decreases |rest|
    {
      match rest[0] {
        case Start(c) =>
          var child := ParseChildren(rest[1..], c, depth + 1);
          if child.Err? {
            return Err;
          }
          rest, m, count := child.value.rest, InsertMerge(m, LocalName(c), child.value.json), count + 1;
        case Empty(c) =>
          rest, m, count := rest[1..], InsertMerge(m, LocalName(c), Str("")), count + 1;
        case Text(raw) =>
          rest, text := rest[1..], text + Unescaped(raw);
        case Declaration =>
          rest := rest[1..];
        case End(c) =>
          return if c == name then Ok(Parsed(Finish(m, text, count), rest[1..])) else Err;
        case Broken =>
          return Err;
      }
    }
    r := Ok(Parsed(Finish(m, text, count), []));
  }

  /** Skips to the first start tag and reads that element; an end tag before it matches nothing. */
  function ParseDocument(es: seq<Event>): Outcome<Json> {
    if es == [] || es[0].Broken? || es[0].End? then Err
    else if es[0].Start? then
      match ParseElement(es[1..], es[0].name, 1) case Ok(p) => Ok(p.json) case Err => Err
    else ParseDocument(es[1..])
  }

  // ----- normal forms --------------------------------------------------------------------

  /** What a rendered value reads back as. */
  function Normal(v: Json): Json
    decreases v, 0
  {
    match v
    case Null => Str("")
    case Bool(b) => Str(if b then "X" else "")
    case Number(t) => Str(t)
    case Str(s) => Str(Trim(s))
    case Arr(items) => if items == [] then Str("") else Obj(Collected(NormalItems(items)))
    case Obj(fs) => if NormalFields(fs) == [] then Str("") else Obj(NormalFields(fs))
  }

  /** Null entries are not rendered at all. */
  function NormalFields(fs: seq<Field>): seq<Field> {
    if fs == [] then [] else Kept(fs[0].key, fs[0].value) + NormalFields(fs[1..])
  }

  function Kept(k: string, v: Json): seq<Field>
    decreases v, 1
  {
    if v.Null? then [] else [Field(k, Normal(v))]
  }

  function NormalItems(items: seq<Json>): (r: seq<Json>)
    ensures |r| == |items|
  {
    if items == [] then [] else [NormalItem(items[0])] + NormalItems(items[1..])
  }

  /** An array directly inside an array is lost. */
  function NormalItem(v: Json): Json
    decreases v, 1
  {
    if v.Arr? then Str("") else Normal(v)
  }

  /** One item stands alone, several become an array. */
  function Collected(items: seq<Json>): seq<Field> {
    if items == [] then [] else [Field("item", if |items| == 1 then items[0] else Arr(items))]
  }

  /** Nesting within the cap, for an element at `depth`. */
  predicate Fits(v: Json, depth: nat)
    decreases v, 0
  {
    && depth <= MAX_XML_DEPTH
    && (v.Obj? ==> FitFields(v.fields, depth + 1))
    && (v.Arr? ==> FitItems(v.items, depth + 1))
  }

  predicate FitFields(fs: seq<Field>, depth: nat) {
    fs == [] || ((fs[0].value.Null? || Fits(fs[0].value, depth)) && FitFields(fs[1..], depth))
  }

  predicate FitItems(items: seq<Json>, depth: nat) {
    items == [] || (depth <= MAX_XML_DEPTH && (items[0].Arr? || Fits(items[0], depth)) && FitItems(items[1..], depth))
  }

  // ----- reading back what was written ---------------------------------------------------

  lemma {:induction false} PlainLocalName(q: string)
    requires ':' !in q
    ensures LocalName(q) == q
  {
    if q != "" {
      PlainLocalName(q[..|q| - 1]);
    }
  }

  lemma NoTextReadsBack(name: string, depth: nat, rest: seq<Event>)
    requires depth <= MAX_XML_DEPTH
    ensures ParseElement([End(name)] + rest, name, depth) == Ok(Parsed(Str(""), rest))
  {
    assert ([End(name)] + rest)[1..] == rest;
  }

  lemma OneTextReadsBack(raw: string, t: string, name: string, depth: nat, rest: seq<Event>)
    requires depth <= MAX_XML_DEPTH && Unescape(raw) == Some(t)
    ensures ParseElement([Text(raw)] + ([End(name)] + rest), name, depth) == Ok(Parsed(Str(Trim(t)), rest))
  {
    var tail := [End(name)] + rest;
    var es := [Text(raw)] + tail;
    assert tail[1..] == rest && es[1..] == tail && "" + t == t;
    assert ParseLoop(es, name, depth, [], "", 0) == ParseLoop(tail, name, depth, [], t, 0);
  }

  /** A text-only element. */
  lemma TextReadsBack(s: string, name: string, depth: nat, rest: seq<Event>)
    requires depth <= MAX_XML_DEPTH
    ensures ParseElement(TextEvents(Escape(s)) + ([End(name)] + rest), name, depth) == Ok(Parsed(Str(Trim(s)), rest))
  {
    TextComesBack(s);
    var raw, t := Strip(Escape(s), RawSpace), Strip(s, RawSpace);
    if raw == "" {
      NoTextReadsBack(name, depth, rest);
      assert TextEvents(Escape(s)) + ([End(name)] + rest) == [End(name)] + rest;
    } else {
      OneTextReadsBack(raw, t, name, depth, rest);
    }
  }

  lemma NumberCharIsPlain(c: char)
    requires NumberChar(c)
    ensures EscapeChar(c) == [c] && !Space(c)
  {}

  lemma {:induction false} NumberEscapes(t: string)
    requires forall i :: 0 <= i < |t| ==> NumberChar(t[i])
    ensures Escape(t) == t
  {
    if t != "" {
      NumberEscapes(t[1..]);
      NumberCharIsPlain(t[0]);
      assert [t[0]] + t[1..] == t;
    }
  }

  /** A scalar's text, as rendered, reads back trimmed. */
  function ScalarText(v: Json): string
    requires v.Bool? || v.Number? || v.Str?
  {
    if v.Bool? then Flag(v.b) else if v.Number? then v.text else v.s
  }

  lemma ScalarReadsBack(v: Json, name: string, depth: nat, rest: seq<Event>)
    requires (v.Bool? || v.Number? || v.Str?) && Wellformed(v) && depth <= MAX_XML_DEPTH
    ensures ParseElement(BodyEvents(v) + ([End(name)] + rest), name, depth) == Ok(Parsed(Normal(v), rest))
  {
    var t := ScalarText(v);
    TextReadsBack(t, name, depth, rest);
    if v.Number? {
      NumberEscapes(t);
      NumberCharIsPlain(t[0]);
      NumberCharIsPlain(t[|t| - 1]);
    } else if v.Bool? {
      FlagIsPlain(v.b);
    }
  }

  lemma FlagIsPlain(b: bool)
    ensures Escape(Flag(b)) == Flag(b) && Trim(Flag(b)) == Flag(b)
  {
    if b {
      EscapeSingle('X');
      assert Flag(b) == ['X'];
    }
  }

  /** Reading one child element inside the loop of its parent. */
  lemma ChildStep(c: string, body: seq<Event>, more: seq<Event>, j: Json, fits: bool,
                  name: string, depth: nat, m: seq<Field>, n: nat)
    requires ParseElement(body + ([End(c)] + more), c, depth + 1) == if fits then Ok(Parsed(j, more)) else Err
    ensures ParseLoop(([Start(c)] + body + [End(c)]) + more, name, depth, m, "", n)
            == if fits then ParseLoop(more, name, depth, InsertMerge(m, LocalName(c), j), "", n + 1) else Err
  {
    var es := ([Start(c)] + body + [End(c)]) + more;
    Regroup([Start(c)], body, [End(c)], more);
    assert es[0] == Start(c) && es[1..] == body + ([End(c)] + more);
  }

  lemma PlainElement(k: string)
    requires PlainName(k)
    ensures LocalName(k) == k && Markup(k) == Start(k)
  {
    PlainLocalName(k);
    PlainOpens(k);
  }

  lemma MergeNew(m: seq<Field>, k: string, v: Json)
    requires !HasKey(m, k)
    ensures InsertMerge(m, k, v) == m + [Field(k, v)]
  {}

  lemma KeyStep(k: string, body: seq<Event>, more: seq<Event>, j: Json, fits: bool,
                name: string, depth: nat, m: seq<Field>, n: nat)
    requires PlainName(k) && !HasKey(m, k)
    requires ParseElement(body + ([End(k)] + more), k, depth + 1) == if fits then Ok(Parsed(j, more)) else Err
    ensures ParseLoop(([Markup(k)] + body + [End(k)]) + more, name, depth, m, "", n)
            == if fits then ParseLoop(more, name, depth, m + [Field(k, j)], "", n + 1) else Err
  {
    PlainElement(k);
    MergeNew(m, k, j);
    ChildStep(k, body, more, j, fits, name, depth, m, n);
  }

  lemma CollectNext(seen: seq<Json>, v: Json)
    requires forall i :: 0 <= i < |seen| ==> !seen[i].Arr?
    ensures InsertMerge(Collected(seen), "item", v) == Collected(seen + [v])
  {
    var m := Collected(seen);
    if seen != [] {
      assert m[0].key == "item";
      if |seen| == 1 {
        assert seen + [v] == [seen[0], v];
      }
    }
  }

  lemma NormalItemIsNoArray(v: Json)
    ensures !NormalItem(v).Arr?
  {}

  lemma {:induction false} ElementReadsBack(v: Json, name: string, depth: nat, rest: seq<Event>)
    requires !v.Null? && Wellformed(v) && PlainKeys(v)
    ensures ParseElement(BodyEvents(v) + ([End(name)] + rest), name, depth)
            == if Fits(v, depth) then Ok(Parsed(Normal(v), rest)) else Err
    decreases v, 0
  {
    if depth <= MAX_XML_DEPTH {
      var tail := [End(name)] + rest;
      assert tail[1..] == rest;
      match v
      case Arr(items) =>
        ItemsReadBack(items, tail, name, depth, [], 0);
        assert [] + NormalItems(items) == NormalItems(items);
      case Obj(fs) =>
        ApartFromNothing(fs);
        FieldsReadBack(fs, tail, name, depth, [], 0);
        assert [] + NormalFields(fs) == NormalFields(fs);
      case _ =>
        ScalarReadsBack(v, name, depth, rest);
    }
  }

  lemma KeptFields(k: string, v: Json)
    requires !v.Null?
    ensures ValueEvents(k, v) == [Markup(k)] + BodyEvents(v) + [End(k)] && Kept(k, v) == [Field(k, Normal(v))]
  {
  }

  lemma {:induction false} FieldReadsBack(k: string, v: Json, more: seq<Event>, name: string, depth: nat,
                                          m: seq<Field>, n: nat)
    requires Wellformed(v) && (v.Null? || (PlainName(k) && PlainKeys(v))) && !HasKey(m, k)
    ensures ParseLoop(ValueEvents(k, v) + more, name, depth, m, "", n)
            == if v.Null? || Fits(v, depth + 1)
               then ParseLoop(more, name, depth, m + Kept(k, v), "", n + |Kept(k, v)|) else Err
    decreases v, 1
  {
    if v.Null? {
      assert ValueEvents(k, v) + more == more && m + Kept(k, v) == m;
    } else {
      KeptFields(k, v);
      ElementReadsBack(v, k, depth + 1, more);
      KeyStep(k, BodyEvents(v), more, Normal(v), Fits(v, depth + 1), name, depth, m, n);
    }
  }

  /** None of the keys of `fs` is in `m` yet. */
  predicate Apart(fs: seq<Field>, m: seq<Field>) {
    fs == [] || (!HasKey(m, fs[0].key) && Apart(fs[1..], m))
  }

  lemma {:induction false} HasKeyAppend(m: seq<Field>, f: Field, k: string)
    ensures HasKey(m + [f], k) <==> HasKey(m, k) || f.key == k
  {
    if m == [] {
      assert m + [f] == [f];
    } else {
      assert (m + [f])[1..] == m[1..] + [f];
      HasKeyAppend(m[1..], f, k);
    }
  }

  lemma {:induction false} ApartAppend(fs: seq<Field>, m: seq<Field>, f: Field)
    requires Apart(fs, m) && !HasKey(fs, f.key)
    ensures Apart(fs, m + [f])
  {
    if fs != [] {
      HasKeyAppend(m, f, fs[0].key);
      ApartAppend(fs[1..], m, f);
    }
  }

  lemma KeptApart(fs: seq<Field>, m: seq<Field>)
    requires fs != [] && WellformedFields(fs) && Apart(fs, m)
    ensures Apart(fs[1..], m + Kept(fs[0].key, fs[0].value))
  {
    var k, v := fs[0].key, fs[0].value;
    if v.Null? {
      assert m + Kept(k, v) == m;
    } else {
      ApartAppend(fs[1..], m, Field(k, Normal(v)));
    }
  }

  lemma {:induction false} ApartFromNothing(fs: seq<Field>)
    ensures Apart(fs, [])
  {
    if fs != [] { ApartFromNothing(fs[1..]); }
  }

  /** The loop state after all of `fs` has been read, or the failure on the way. */
  function AfterFields(fs: seq<Field>, rest: seq<Event>, name: string, depth: nat, m: seq<Field>,
                       n: nat): Outcome<Parsed> {
    if FitFields(fs, depth + 1)
    then ParseLoop(rest, name, depth, m + NormalFields(fs), "", n + |NormalFields(fs)|) else Err
  }

  lemma AfterFieldsNext(fs: seq<Field>, rest: seq<Event>, name: string, depth: nat, m: seq<Field>, n: nat)
    requires fs != []
    ensures var k, v := fs[0].key, fs[0].value;
            AfterFields(fs, rest, name, depth, m, n)
            == if v.Null? || Fits(v, depth + 1)
               then AfterFields(fs[1..], rest, name, depth, m + Kept(k, v), n + |Kept(k, v)|) else Err
  {
    Associate(m, Kept(fs[0].key, fs[0].value), NormalFields(fs[1..]));
  }

  lemma AfterNoFields(rest: seq<Event>, name: string, depth: nat, m: seq<Field>, n: nat)
    ensures ParseLoop(FieldEvents([]) + rest, name, depth, m, "", n) == AfterFields([], rest, name, depth, m, n)
  {
    assert FieldEvents([]) + rest == rest && m + NormalFields([]) == m;
  }

  lemma {:induction false} FieldsReadBack(fs: seq<Field>, rest: seq<Event>, name: string, depth: nat, m: seq<Field>,
                                          n: nat)
    requires WellformedFields(fs) && PlainFields(fs) && Apart(fs, m)
    ensures ParseLoop(FieldEvents(fs) + rest, name, depth, m, "", n) == AfterFields(fs, rest, name, depth, m, n)
    decreases fs
  {
    if fs == [] {
      AfterNoFields(rest, name, depth, m, n);
    } else {
      var k, v, tail := fs[0].key, fs[0].value, fs[1..];
      KeptApart(fs, m);
      FieldsReadBack(tail, rest, name, depth, m + Kept(k, v), n + |Kept(k, v)|);
      FieldReadsBack(k, v, FieldEvents(tail) + rest, name, depth, m, n);
      AfterFieldsNext(fs, rest, name, depth, m, n);
      assert FieldEvents(fs) + rest == ValueEvents(k, v) + (FieldEvents(tail) + rest) by {
        Associate(ValueEvents(k, v), FieldEvents(tail), rest);
      }
    }
  }

  lemma {:induction false} ItemStep(v: Json, more: seq<Event>, name: string, depth: nat, seen: seq<Json>, n: nat)
    requires Wellformed(v) && (v.Arr? || PlainKeys(v)) && forall i :: 0 <= i < |seen| ==> !seen[i].Arr?
    ensures ParseLoop(([Markup("item")] + ItemBody(v) + [End("item")]) + more, name, depth, Collected(seen), "", n)
            == if ItemFits(v, depth + 1)
               then ParseLoop(more, name, depth, Collected(seen + [NormalItem(v)]), "", n + 1) else Err
    decreases v, 2
  {
    ItemReadsBack(v, depth + 1, more);
    ChildStep("item", ItemBody(v), more, NormalItem(v), ItemFits(v, depth + 1), name, depth, Collected(seen), n);
    PlainElement("item");
    CollectNext(seen, NormalItem(v));
  }

  predicate ItemFits(v: Json, depth: nat) {
    depth <= MAX_XML_DEPTH && (v.Arr? || Fits(v, depth))
  }

  /** The loop state after all items have been read, or the failure on the way. */
  function AfterItems(items: seq<Json>, rest: seq<Event>, name: string, depth: nat, seen: seq<Json>,
                      n: nat): Outcome<Parsed> {
    if FitItems(items, depth + 1)
    then ParseLoop(rest, name, depth, Collected(seen + NormalItems(items)), "", n + |items|) else Err
  }

  lemma AfterItemsNext(items: seq<Json>, rest: seq<Event>, name: string, depth: nat, seen: seq<Json>, n: nat)
    requires items != []
    ensures AfterItems(items, rest, name, depth, seen, n)
            == if ItemFits(items[0], depth + 1)
               then AfterItems(items[1..], rest, name, depth, seen + [NormalItem(items[0])], n + 1) else Err
  {
    Associate(seen, [NormalItem(items[0])], NormalItems(items[1..]));
  }

  lemma {:induction false} ItemsReadBack(items: seq<Json>, rest: seq<Event>, name: string, depth: nat,
                                         seen: seq<Json>, n: nat)
    requires WellformedItems(items) && PlainItems(items)
    requires forall i :: 0 <= i < |seen| ==> !seen[i].Arr?
    ensures ParseLoop(ItemEvents(items) + rest, name, depth, Collected(seen), "", n)
            == AfterItems(items, rest, name, depth, seen, n)
    decreases items
  {
    if items == [] {
      assert ItemEvents(items) + rest == rest && seen + NormalItems(items) == seen;
    } else {
      var v, tail := items[0], items[1..];
      ItemStep(v, ItemEvents(tail) + rest, name, depth, seen, n);
      NormalItemIsNoArray(v);
      ItemsReadBack(tail, rest, name, depth, seen + [NormalItem(v)], n + 1);
      AfterItemsNext(items, rest, name, depth, seen, n);
      assert ItemEvents(items) + rest
          == ([Markup("item")] + ItemBody(v) + [End("item")]) + (ItemEvents(tail) + rest) by {
        Associate([Markup("item")] + ItemBody(v) + [End("item")], ItemEvents(tail), rest);
      }
    }
  }

  lemma {:induction false} ItemReadsBack(v: Json, depth: nat, more: seq<Event>)
    requires Wellformed(v) && (v.Arr? || PlainKeys(v))
    ensures ParseElement(ItemBody(v) + ([End("item")] + more), "item", depth)
            == if ItemFits(v, depth) then Ok(Parsed(NormalItem(v), more)) else Err
    decreases v, 1
  {
    if v.Arr? || v.Null? {
      var tail := [End("item")] + more;
      assert ItemBody(v) + tail == tail && tail[1..] == more;
    } else {
      ElementReadsBack(v, "item", depth, more);
    }
  }
}
