/** What comes back of each parameter, told without the writer's and the reader's own functions, and foreign
    replies with empty-element tags. */
module SoapMirror {
  import opened Wrappers
  import opened Trimming
  import opened SoapText
  import opened Soap
  import opened SoapRead
  import opened SoapRequest

  /** `r` is what should be read where `v` was written: "X" or nothing for a flag, a number's own text, the core
      of a string. Null fields are not there at all; items keep their order, one standing for itself and several as
      an array, and an array directly inside an array comes back as an empty text. */
  ghost predicate Mirrors(v: Json, r: Json)
    decreases v, 0
  {
    match v
    case Null => r == Str("")
    case Bool(b) => (r == Str("X") <==> b) && (r == Str("") <==> !b)
    case Number(t) => r == Str(t)
    case Str(s) => r.Str? && Core(s, Space, r.s)
    case Arr(items) =>
      if items == [] then r == Str("")
      else
        && r.Obj? && |r.fields| == 1 && r.fields[0].key == "item"
        && var w := r.fields[0].value;
           if |items| == 1 then ItemMirrors(items[0], w)
           else w.Arr? && |w.items| == |items| && forall i :: 0 <= i < |items| ==> ItemMirrors(items[i], w.items[i])
    case Obj(fs) =>
      if forall i :: 0 <= i < |fs| ==> fs[i].value.Null? then r == Str("")
      else
        && r.Obj?
        && (forall i :: 0 <= i < |fs| ==> FieldMirrors(fs[i].value, fs[i].key, r.fields))
        && (forall k :: HasKey(r.fields, k) ==> HasKey(fs, k))
  }

  ghost predicate ItemMirrors(v: Json, r: Json)
    decreases v, 1
  {
    if v.Arr? then r == Str("") else Mirrors(v, r)
  }

  ghost predicate FieldMirrors(v: Json, k: string, m: seq<Field>)
    decreases v, 1
  {
    if v.Null? then !HasKey(m, k) else HasKey(m, k) && Mirrors(v, m[KeyIndex(m, k)].value)
  }

  lemma {:induction false} NormalKeys(fs: seq<Field>, k: string)
    ensures HasKey(NormalFields(fs), k) ==> HasKey(fs, k)
  {
    if fs != [] {
      NormalKeys(fs[1..], k);
      if fs[0].value.Null? {
        assert NormalFields(fs) == NormalFields(fs[1..]);
      } else {
        assert NormalFields(fs)[1..] == NormalFields(fs[1..]);
      }
    }
  }

  lemma {:induction false} KeyOfField(fs: seq<Field>, i: nat)
    requires i < |fs|
    ensures HasKey(fs, fs[i].key)
  {
    if i > 0 {
      KeyOfField(fs[1..], i - 1);
    }
  }

  lemma {:induction false} NormalField(fs: seq<Field>, i: nat)
    requires WellformedFields(fs) && i < |fs|
    ensures var m, k, v := NormalFields(fs), fs[i].key, fs[i].value;
            if v.Null? then !HasKey(m, k) else HasKey(m, k) && m[KeyIndex(m, k)].value == Normal(v)
  {
    var rest := NormalFields(fs[1..]);
    if fs[0].value.Null? {
      assert NormalFields(fs) == rest;
    } else {
      assert NormalFields(fs)[1..] == rest;
    }
    if i == 0 {
      NormalKeys(fs[1..], fs[0].key);
    } else {
      NormalField(fs[1..], i - 1);
      KeyOfField(fs[1..], i - 1);
    }
  }

  lemma {:induction false} NoNormalFields(fs: seq<Field>)
    ensures NormalFields(fs) == [] <==> forall i :: 0 <= i < |fs| ==> fs[i].value.Null?
  {
    if fs != [] {
      NoNormalFields(fs[1..]);
      if forall i :: 0 <= i < |fs[1..]| ==> fs[1..][i].value.Null? {
        assert forall i :: 1 <= i < |fs| ==> fs[i] == fs[1..][i - 1];
      }
    }
  }

  lemma {:induction false} NormalItemsAt(items: seq<Json>, i: nat)
    requires i < |items|
    ensures NormalItems(items)[i] == NormalItem(items[i])
  {
    if i > 0 {
      NormalItemsAt(items[1..], i - 1);
    }
  }

  lemma {:induction false} WellformedAt(items: seq<Json>, i: nat)
    requires WellformedItems(items) && i < |items|
    ensures Wellformed(items[i])
  {
    if i > 0 {
      WellformedAt(items[1..], i - 1);
    }
  }

  lemma {:induction false} WellformedFieldAt(fs: seq<Field>, i: nat)
    requires WellformedFields(fs) && i < |fs|
    ensures Wellformed(fs[i].value)
  {
    if i > 0 {
      WellformedFieldAt(fs[1..], i - 1);
    }
  }

  lemma {:induction false} NormalMirrors(v: Json)
    requires Wellformed(v)
    ensures Mirrors(v, Normal(v))
    decreases v, 0
  {
    match v
    case Str(s) => StripIsCore(s, Space);
    case Arr(items) => NormalItemsMirror(items);
    case Obj(fs) => NormalFieldsMirror(fs);
    case _ =>
  }

  lemma {:induction false} NormalItemsMirror(items: seq<Json>)
    requires WellformedItems(items)
    ensures Mirrors(Arr(items), Normal(Arr(items)))
    decreases items
  {
    forall i | 0 <= i < |items| ensures ItemMirrors(items[i], NormalItems(items)[i]) {
      NormalItemsAt(items, i);
      WellformedAt(items, i);
      if !items[i].Arr? {
        NormalMirrors(items[i]);
      }
    }
  }

  lemma {:induction false} NormalFieldsMirror(fs: seq<Field>)
    requires WellformedFields(fs)
    ensures Mirrors(Obj(fs), Normal(Obj(fs)))
    decreases fs
  {
    NoNormalFields(fs);
    forall i | 0 <= i < |fs| ensures FieldMirrors(fs[i].value, fs[i].key, NormalFields(fs)) {
      NormalField(fs, i);
      WellformedFieldAt(fs, i);
      if !fs[i].value.Null? {
        NormalMirrors(fs[i].value);
      }
    }
    forall k | HasKey(NormalFields(fs), k) ensures HasKey(fs, k) {
      NormalKeys(fs, k);
    }
  }

  /** Whatever is read back of a validated request mirrors its parameters, at every level. */
  lemma ReadMirrorsParameters(decl: string, attributes: string, f: string, fs: seq<Field>)
    requires '>' !in decl && Attributes(attributes) && SafeName(f)
    requires WellformedFields(fs) && UnsafeKeyOfFields(fs).None?
    requires ReadRequest(Request(decl, attributes, f, fs)).Ok?
    ensures Mirrors(Obj(fs), ReadRequest(Request(decl, attributes, f, fs)).value)
  {
    RequestRoundTrip(decl, attributes, f, fs);
    NormalFieldsMirror(fs);
  }

  /** The entry of `m` under `k`. */
  function Under(m: seq<Field>, k: string): Json
    requires HasKey(m, k)
  {
    m[KeyIndex(m, k)].value
  }

  lemma MirroredField(fs: seq<Field>, r: Json, i: nat)
    requires Mirrors(Obj(fs), r) && i < |fs| && !fs[i].value.Null?
    ensures r.Obj? && HasKey(r.fields, fs[i].key) && Mirrors(fs[i].value, Under(r.fields, fs[i].key))
  {
    assert FieldMirrors(fs[i].value, fs[i].key, r.fields);
  }

  predicate TellsFlag(r: Json, b: bool) {
    (r == Str("X") <==> b) && (r == Str("") <==> !b)
  }

  /** So a flag comes back as "X" if and only if it is true, and as nothing if and only if it is false, as a
      field of the parameters ... */
  lemma FlagComesBack(decl: string, attributes: string, f: string, fs: seq<Field>, i: nat, b: bool)
    requires '>' !in decl && Attributes(attributes) && SafeName(f)
    requires WellformedFields(fs) && UnsafeKeyOfFields(fs).None?
    requires ReadRequest(Request(decl, attributes, f, fs)).Ok? && i < |fs| && fs[i].value == Bool(b)
    ensures var r := ReadRequest(Request(decl, attributes, f, fs)).value;
            r.Obj? && HasKey(r.fields, fs[i].key) && TellsFlag(Under(r.fields, fs[i].key), b)
  {
    ReadMirrorsParameters(decl, attributes, f, fs);
    MirroredField(fs, ReadRequest(Request(decl, attributes, f, fs)).value, i);
  }

  /** The text read for item `n` of a list of that length. */
  function ItemOf(list: Json, length: nat, n: nat): Option<Json> {
    if !(list.Obj? && |list.fields| == 1) then None
    else
      var w := list.fields[0].value;
      if length == 1 then Some(w) else if w.Arr? && |w.items| == length && n < length then Some(w.items[n]) else None
  }

  lemma MirroredItem(items: seq<Json>, list: Json, n: nat)
    requires Mirrors(Arr(items), list) && n < |items|
    ensures ItemOf(list, |items|, n).Some? && ItemMirrors(items[n], ItemOf(list, |items|, n).value)
  {
  }

  /** ... and as an item of a list. */
  lemma FlagItemComesBack(decl: string, attributes: string, f: string, fs: seq<Field>, i: nat, n: nat, b: bool)
    requires '>' !in decl && Attributes(attributes) && SafeName(f)
    requires WellformedFields(fs) && UnsafeKeyOfFields(fs).None?
    requires ReadRequest(Request(decl, attributes, f, fs)).Ok? && i < |fs|
    requires fs[i].value.Arr? && n < |fs[i].value.items| && fs[i].value.items[n] == Bool(b)
    ensures var r := ReadRequest(Request(decl, attributes, f, fs)).value;
            && r.Obj? && HasKey(r.fields, fs[i].key)
            && var w := ItemOf(Under(r.fields, fs[i].key), |fs[i].value.items|, n);
               w.Some? && TellsFlag(w.value, b)
  {
    ReadMirrorsParameters(decl, attributes, f, fs);
    var r := ReadRequest(Request(decl, attributes, f, fs)).value;
    MirroredField(fs, r, i);
    MirroredItem(fs[i].value.items, Under(r.fields, fs[i].key), n);
  }

  // ----- the cap in figures --------------------------------------------------------------

  /** An object inside an object, and so on, `n` times. */
  function Nest(n: nat): Json {
    Obj(if n == 0 then [] else [Field("A", Nest(n - 1))])
  }

  lemma {:induction false} NestIsPlain(n: nat)
    ensures Wellformed(Nest(n)) && UnsafeKey(Nest(n)).None? && PlainKeys(Nest(n))
    ensures Nest(n).Obj? && WellformedFields(Nest(n).fields) && UnsafeKeyOfFields(Nest(n).fields).None?
            && PlainFields(Nest(n).fields)
  {
    if n > 0 {
      NestIsPlain(n - 1);
    }
  }

  lemma {:induction false} NestFits(n: nat, depth: nat)
    ensures Fits(Nest(n), depth) <==> depth + n <= 256
  {
    if n > 0 {
      NestFits(n - 1, depth + 1);
      assert Nest(n).fields == [Field("A", Nest(n - 1))] && [Field("A", Nest(n - 1))][1..] == [];
      assert FitFields(Nest(n).fields, depth + 1) == Fits(Nest(n - 1), depth + 1);
    }
  }

  /** Parameters nested `n` deep come back if and only if `n` is at most 253: the envelope, the body and the call
      take the other three levels of 256. */
  lemma DeepestRequest(decl: string, attributes: string, f: string, n: nat)
    requires '>' !in decl && Attributes(attributes) && SafeName(f) && f[|f| - 1] != '/'
    ensures Nest(n).Obj? && (ReadRequest(Request(decl, attributes, f, Nest(n).fields)).Ok? <==> n <= 253)
  {
    NestIsPlain(n);
    NestFits(n, 3);
    RequestRoundTrip(decl, attributes, f, Nest(n).fields);
  }

  // ----- foreign replies -----------------------------------------------------------------

  /** A text with a reference that is none of the five predefined entities is skipped, any other is read behind
      what was read before. */
  lemma TextIsReadOrSkipped(raw: string, more: seq<Event>, name: string, depth: nat, m: seq<Field>, text: string,
                            count: nat)
    ensures ParseLoop([Text(raw)] + more, name, depth, m, text, count)
            == match Unescape(raw)
               case Some(t) => ParseLoop(more, name, depth, m, text + t, count)
               case None => ParseLoop(more, name, depth, m, text, count)
  {
    assert ([Text(raw)] + more)[1..] == more;
    assert text + "" == text;
  }

  // ----- empty-element tags --------------------------------------------------------------

  /** An empty-element tag reads as its two tags would, at every depth at which the element may stand. */
  lemma EmptyTagReadsAsElement(c: string, more: seq<Event>, name: string, depth: nat, m: seq<Field>, text: string,
                               count: nat)
    ensures ParseLoop([Start(c), End(c)] + more, name, depth, m, text, count)
            == if depth < MAX_XML_DEPTH then ParseLoop([Empty(c)] + more, name, depth, m, text, count) else Err
  {
    var es := [Start(c), End(c)] + more;
    assert es[1..] == [End(c)] + more && es[1..][1..] == more;
    assert ([Empty(c)] + more)[1..] == more;
    if depth < MAX_XML_DEPTH {
      assert ParseElement(es[1..], c, depth + 1) == ParseLoop(es[1..], c, depth + 1, [], "", 0);
      assert Trim("") == "";
    }
  }

  /** In a reply text `<a/>` is such a tag ... */
  lemma EmptyTagText(c: string, rest: string)
    requires PlainName(c)
    ensures Tokenize("<" + (c + "/") + ">" + rest) == [Empty(c)] + Tokenize(rest)
  {
    var body := c + "/";
    TokenTag(body, rest);
    WholeTagName(c);
    assert body[..|body| - 1] == c && body[0] == c[0];
  }

  /** ... and `<a></a>` such two tags. */
  lemma TwoTagsText(c: string, rest: string)
    requires PlainName(c)
    ensures Tokenize(Open(c) + (Close(c) + rest)) == [Start(c), End(c)] + Tokenize(rest)
  {
    TokenClose(c, rest);
    TokenOpen(c, Close(c) + rest);
    PlainOpens(c);
    TwoInFront(Start(c), End(c), Tokenize(rest));
  }

  lemma TwoInFront(a: Event, b: Event, more: seq<Event>)
    ensures [a] + ([b] + more) == [a, b] + more
  {
  }
}
