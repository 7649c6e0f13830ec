/** The SOAP parameter writer and the XML reader of crates/sap-automate-rfc/src/soap.rs.
    The XML library is a tokenizer of start, end and empty tags and trimmed text. */
module Soap {
  import opened Wrappers
  import opened Trimming
  import opened SoapText

  // ----- values --------------------------------------------------------------------------

  /** A JSON value; numbers are kept as their text, objects as their entries in map order. */
  datatype Json =
    | Null
    | Bool(b: bool)
    | Number(text: string)
    | Str(s: string)
    | Arr(items: seq<Json>)
    | Obj(fields: seq<Field>)

  datatype Field = Field(key: string, value: Json)

  predicate NumberChar(c: char) {
    '0' <= c <= '9' || c == '+' || c == '-' || c == '.' || c == 'e' || c == 'E'
  }

  predicate NumberText(t: string) {
    t != "" && forall i :: 0 <= i < |t| ==> NumberChar(t[i])
  }

  predicate HasKey(fs: seq<Field>, k: string) {
    fs != [] && (fs[0].key == k || HasKey(fs[1..], k))
  }

  /** What a JSON value always satisfies: number syntax, and one entry per key. */
  predicate Wellformed(v: Json) {
    match v
    case Number(t) => NumberText(t)
    case Arr(items) => WellformedItems(items)
    case Obj(fs) => WellformedFields(fs)
    case _ => true
  }

  predicate WellformedFields(fs: seq<Field>) {
    fs == [] || (Wellformed(fs[0].value) && !HasKey(fs[1..], fs[0].key) && WellformedFields(fs[1..]))
  }

  predicate WellformedItems(items: seq<Json>) {
    items == [] || (Wellformed(items[0]) && WellformedItems(items[1..]))
  }

  // ----- names ---------------------------------------------------------------------------

  predicate SafeChar(c: char) {
    'A' <= c <= 'Z' || 'a' <= c <= 'z' || '0' <= c <= '9' || c == '_' || c == '/'
  }

  /** The names `validate_keys` accepts. */
  predicate SafeName(s: string) {
    s != "" && |s| <= 60 && forall i :: 0 <= i < |s| ==> SafeChar(s[i])
  }

  const UPPER := "ABCDEFGHIJKLMNOPQRSTUVWXYZ"
  const LOWER := "abcdefghijklmnopqrstuvwxyz"
  const DIGITS := "0123456789"

  lemma UpperAreListed(c: char)
    ensures 'A' <= c <= 'Z' <==> c in UPPER
  {
    if 'A' <= c <= 'Z' {
      assert UPPER[c as int - 'A' as int] == c;
    }
  }

  lemma LowerAreListed(c: char)
    ensures 'a' <= c <= 'z' <==> c in LOWER
  {
    if 'a' <= c <= 'z' {
      assert LOWER[c as int - 'a' as int] == c;
    }
  }

  lemma DigitsAreListed(c: char)
    ensures '0' <= c <= '9' <==> c in DIGITS
  {
    if '0' <= c <= '9' {
      assert DIGITS[c as int - '0' as int] == c;
    }
  }

  predicate Listed(c: char) {
    c in UPPER || c in LOWER || c in DIGITS || c in "_/"
  }

  lemma SafeCharIsListed(c: char)
    ensures SafeChar(c) <==> Listed(c)
  {
    UpperAreListed(c);
    LowerAreListed(c);
    DigitsAreListed(c);
  }

  /** A name is safe exactly when it has one to sixty characters, each a listed letter, a digit, `_` or `/`. */
  lemma SafeNameIsListed(s: string)
    ensures SafeName(s) <==> 1 <= |s| <= 60 && forall i :: 0 <= i < |s| ==> Listed(s[i])
  {
    forall i | 0 <= i < |s| ensures SafeChar(s[i]) <==> Listed(s[i]) {
      SafeCharIsListed(s[i]);
    }
  }

  /** The first key, in document order, that is not safe. */
  function UnsafeKey(v: Json): Option<string> {
    match v
    case Arr(items) => UnsafeKeyOfItems(items)
    case Obj(fs) => UnsafeKeyOfFields(fs)
    case _ => None
  }

  function UnsafeKeyOfFields(fs: seq<Field>): Option<string> {
    if fs == [] then None
    else if !SafeName(fs[0].key) then Some(fs[0].key)
    else if UnsafeKey(fs[0].value).Some? then UnsafeKey(fs[0].value)
    else UnsafeKeyOfFields(fs[1..])
  }

  function UnsafeKeyOfItems(items: seq<Json>): Option<string> {
    if items == [] then None
    else if UnsafeKey(items[0]).Some? then UnsafeKey(items[0]) else UnsafeKeyOfItems(items[1..])
  }

  /** Every key, at every level. */
  function KeysOf(v: Json): set<string> {
    match v
    case Arr(items) => KeysOfItems(items)
    case Obj(fs) => KeysOfFields(fs)
    case _ => {}
  }

  function KeysOfFields(fs: seq<Field>): set<string> {
    if fs == [] then {} else {fs[0].key} + KeysOf(fs[0].value) + KeysOfFields(fs[1..])
  }

  function KeysOfItems(items: seq<Json>): set<string> {
    if items == [] then {} else KeysOf(items[0]) + KeysOfItems(items[1..])
  }

  /** A verdict on a set of keys: the name of an unsafe one, or none if all are safe. */
  predicate Judges(verdict: Option<string>, keys: set<string>) {
    match verdict
    case Some(k) => k in keys && !SafeName(k)
    case None => forall k :: k in keys ==> SafeName(k)
  }

  /** Validation accepts a value exactly when every key at every level is safe, and names one that is not. */
  lemma {:induction false} ValidationIsExact(v: Json)
    ensures Judges(UnsafeKey(v), KeysOf(v))
    decreases v, 0
  {
    match v
    case Arr(items) => ItemValidationIsExact(items);
    case Obj(fs) => FieldValidationIsExact(fs);
    case _ =>
  }

  lemma {:induction false} FieldValidationIsExact(fs: seq<Field>)
    ensures Judges(UnsafeKeyOfFields(fs), KeysOfFields(fs))
    decreases fs
  {
    if fs != [] {
      ValidationIsExact(fs[0].value);
      FieldValidationIsExact(fs[1..]);
    }
  }

  lemma {:induction false} ItemValidationIsExact(items: seq<Json>)
    ensures Judges(UnsafeKeyOfItems(items), KeysOfItems(items))
    decreases items
  {
    if items != [] {
      ValidationIsExact(items[0]);
      ItemValidationIsExact(items[1..]);
    }
  }

  predicate Slashed(s: string) {
    s != "" && (s[0] == '/' || s[|s| - 1] == '/')
  }

  /** A safe name that is also an element name: no slash at either end. */
  predicate PlainName(s: string) {
    SafeName(s) && !Slashed(s)
  }

  /** Every key that is rendered is plain. Not rendered are keys over null and whatever is in an array
      directly inside an array. */
  predicate PlainKeys(v: Json) {
    match v
    case Arr(items) => PlainItems(items)
    case Obj(fs) => PlainFields(fs)
    case _ => true
  }

  predicate PlainFields(fs: seq<Field>) {
    fs == [] || ((fs[0].value.Null? || (PlainName(fs[0].key) && PlainKeys(fs[0].value))) && PlainFields(fs[1..]))
  }

  predicate PlainItems(items: seq<Json>) {
    items == [] || ((items[0].Arr? || PlainKeys(items[0])) && PlainItems(items[1..]))
  }

  // ----- the writer ----------------------------------------------------------------------

  function Open(tag: string): string { "<" + tag + ">" }

  function Close(tag: string): string { "</" + tag + ">" }

  function Flag(b: bool): string { if b then "X" else "" }

  function RenderFields(fs: seq<Field>): string {
    if fs == [] then "" else RenderValue(fs[0].key, fs[0].value) + RenderFields(fs[1..])
  }

  function RenderValue(tag: string, v: Json): string
    decreases v, 1
  {
    if v.Null? then "" else Open(tag) + RenderBody(v) + Close(tag)
  }

  function RenderBody(v: Json): string
    decreases v, 0
  {
    match v
    case Null => ""
    case Bool(b) => Flag(b)
    case Number(t) => t
    case Str(s) => Escape(s)
    case Arr(items) => RenderItems(items)
    case Obj(fs) => RenderFields(fs)
  }

  function RenderItems(items: seq<Json>): string {
    if items == [] then ""
    else Open("item") + RenderItem(items[0]) + Close("item") + RenderItems(items[1..])
  }

  /** Inside an item, an array is dropped. */
  function RenderItem(v: Json): string
    decreases v, 1
  {
    if v.Arr? then "" else RenderBody(v)
  }

  method WriteParams(fs: seq<Field>, out0: string) returns (out: string)
    ensures out == out0 + RenderFields(fs)
    decreases fs
  {
    out := out0;
    for i := 0 to |fs|
      invariant out + RenderFields(fs[i..]) == out0 + RenderFields(fs)
    {
      assert fs[i..][1..] == fs[i + 1..];
      ghost var before := out;
      out := WriteValue(fs[i].key, fs[i].value, out);
      Associate(before, RenderValue(fs[i].key, fs[i].value), RenderFields(fs[i + 1..]));
    }
  }

  method WriteValue(tag: string, v: Json, out0: string) returns (out: string)
    ensures out == out0 + RenderValue(tag, v)
    decreases v, 1
  {
    match v
    case Null => out := out0;
    case Bool(b) => out := out0 + (Open(tag) + Flag(b) + Close(tag));
    case Number(t) => out := out0 + (Open(tag) + t + Close(tag));
    case Str(s) =>
      var e := XmlEscape(s);
      out := out0 + (Open(tag) + e + Close(tag));
    case Arr(items) =>
      out := WriteItems(items, out0 + Open(tag));
      out := out + Close(tag);
      Regroup(out0, Open(tag), RenderItems(items), Close(tag));
    case Obj(fs) =>
      out := WriteParams(fs, out0 + Open(tag));
      out := out + Close(tag);
      Regroup(out0, Open(tag), RenderFields(fs), Close(tag));
  }

  method WriteItem(v: Json, out0: string) returns (out: string)
    ensures out == out0 + (Open("item") + RenderItem(v) + Close("item"))
    decreases v, 1
  {
    out := out0 + Open("item");
    ghost var before := out;
    match v {
      case Obj(fs) => out := WriteParams(fs, out);
      case Str(s) => var e := XmlEscape(s); out := out + e;
      case Number(t) => out := out + t;
      case Bool(b) => out := out + Flag(b);
      case _ =>
    }
    assert out == before + RenderItem(v);
    out := out + Close("item");
    Regroup(out0, Open("item"), RenderItem(v), Close("item"));
  }

  method WriteItems(items: seq<Json>, out0: string) returns (out: string)
    ensures out == out0 + RenderItems(items)
    decreases items, 0
  {
    out := out0;
    for i := 0 to |items|
      invariant out + RenderItems(items[i..]) == out0 + RenderItems(items)
    {
      assert items[i..][1..] == items[i + 1..];
      ghost var before := out;
      out := WriteItem(items[i], out);
      Associate(before, Open("item") + RenderItem(items[i]) + Close("item"), RenderItems(items[i + 1..]));
    }
  }

  // ----- the tokenizer -------------------------------------------------------------------

  datatype Event =
    | Start(name: string) | End(name: string) | Empty(name: string) | Text(raw: string) | Declaration | Broken

  function IndexOf(s: string, c: char): (k: nat)
    ensures k <= |s| && c !in s[..k] && (k < |s| ==> s[k] == c)
  {
    if s == "" || s[0] == c then 0
    else
      assert s[..1 + IndexOf(s[1..], c)] == [s[0]] + s[1..][..IndexOf(s[1..], c)];
      1 + IndexOf(s[1..], c)
  }

  /** The name in a tag: everything before the first space. */
  function TagName(body: string): string {
    if body == "" || RawSpace(body[0]) then "" else [body[0]] + TagName(body[1..])
  }

  function Markup(body: string): Event {
    if body != "" && body[0] == '/' then End(body[1..])
    else if body != "" && body[0] == '?' then Declaration
    else if body != "" && body[|body| - 1] == '/' then Empty(TagName(body[..|body| - 1]))
    else Start(TagName(body))
  }

  /** Text is trimmed, and dropped when nothing is left. */
  function TextEvents(raw: string): seq<Event> {
    var t := Strip(raw, RawSpace);
    if t == "" then [] else [Text(t)]
  }

  function Tokenize(s: string): seq<Event>
    decreases |s|
  {
    if s == "" then []
    else if s[0] == '<' then
      var k := IndexOf(s, '>');
      if k == |s| then [Broken] else [Markup(s[1..k])] + Tokenize(s[k + 1..])
    else
      var k := IndexOf(s, '<');
      TextEvents(s[..k]) + Tokenize(s[k..])
  }

  lemma IndexIs(s: string, c: char, k: nat)
    requires k <= |s| && c !in s[..k] && (k < |s| ==> s[k] == c)
    ensures IndexOf(s, c) == k
  {
    assert IndexOf(s, c) <= |s|;
  }

  lemma TokenTag(body: string, rest: string)
    requires '>' !in body
    ensures Tokenize("<" + body + ">" + rest) == [Markup(body)] + Tokenize(rest)
  {
    var s := "<" + body + ">" + rest;
    var k := |body| + 1;
    assert s[..k] == "<" + body && s[k] == '>' && s[k + 1..] == rest && s[1..k] == body;
    IndexIs(s, '>', k);
  }

  lemma TokenText(raw: string, rest: string)
    requires '<' !in raw && rest != "" && rest[0] == '<'
    ensures Tokenize(raw + rest) == TextEvents(raw) + Tokenize(rest)
  {
    var s := raw + rest;
    if raw == "" {
      assert s == rest;
      assert TextEvents(raw) == [];
    } else {
      assert s[..|raw|] == raw && s[|raw|..] == rest;
      IndexIs(s, '<', |raw|);
    }
  }

  lemma {:induction false} WholeTagName(body: string)
    requires forall i :: 0 <= i < |body| ==> !RawSpace(body[i])
    ensures TagName(body) == body
  {
    if body != "" {
      WholeTagName(body[1..]);
    }
  }

  lemma TokenOpen(name: string, rest: string)
    requires '>' !in name
    ensures Tokenize(Open(name) + rest) == [Markup(name)] + Tokenize(rest)
  {
    TokenTag(name, rest);
  }

  lemma ClosingMarkup(name: string)
    ensures Markup("/" + name) == End(name) && Close(name) == "<" + ("/" + name) + ">"
    ensures '>' !in name ==> '>' !in "/" + name
  {
    assert ("/" + name)[1..] == name;
  }

  lemma TokenClose(name: string, rest: string)
    requires '>' !in name
    ensures Tokenize(Close(name) + rest) == [End(name)] + Tokenize(rest)
  {
    ClosingMarkup(name);
    TokenTag("/" + name, rest);
  }

  /** A name that no space cuts off and no slash turns into another tag. */
  lemma PlainOpens(name: string)
    requires !Slashed(name) && name != "" && name[0] != '?' && forall i :: 0 <= i < |name| ==> !RawSpace(name[i])
    ensures Markup(name) == Start(name)
  {
    WholeTagName(name);
  }

  // ----- the rendered text has the intended structure ------------------------------------

  function FieldEvents(fs: seq<Field>): seq<Event> {
    if fs == [] then [] else ValueEvents(fs[0].key, fs[0].value) + FieldEvents(fs[1..])
  }

  function ValueEvents(tag: string, v: Json): seq<Event>
    decreases v, 1
  {
    if v.Null? then [] else [Markup(tag)] + BodyEvents(v) + [End(tag)]
  }

  function BodyEvents(v: Json): seq<Event>
    decreases v, 0
  {
    match v
    case Null => []
    case Bool(b) => TextEvents(Flag(b))
    case Number(t) => TextEvents(t)
    case Str(s) => TextEvents(Escape(s))
    case Arr(items) => ItemEvents(items)
    case Obj(fs) => FieldEvents(fs)
  }

  function ItemEvents(items: seq<Json>): seq<Event> {
    if items == [] then [] else [Markup("item")] + ItemBody(items[0]) + [End("item")] + ItemEvents(items[1..])
  }

  function ItemBody(v: Json): seq<Event>
    decreases v, 1
  {
    if v.Arr? then [] else BodyEvents(v)
  }

  lemma {:induction false} TokenizeBody(v: Json, tag: string, rest: string)
    requires Wellformed(v) && UnsafeKey(v).None? && '>' !in tag
    ensures Tokenize(RenderBody(v) + (Close(tag) + rest)) == BodyEvents(v) + ([End(tag)] + Tokenize(rest))
    decreases v, 0
  {
    var closed := Close(tag) + rest;
    TokenClose(tag, rest);
    match v
    case Null => assert RenderBody(v) + closed == closed;
    case Bool(b) => TokenText(Flag(b), closed);
    case Number(t) => TokenText(t, closed);
    case Str(s) => EscapeHasNoMarkup(s); TokenText(Escape(s), closed);
    case Arr(items) => TokenizeItems(items, closed);
    case Obj(fs) => TokenizeFields(fs, closed);
  }

  /** An element tokenizes as its tags around whatever its body tokenizes as. */
  lemma TokenizeElement(tag: string, body: string, events: seq<Event>, more: string)
    requires '>' !in tag && Tokenize(body + (Close(tag) + more)) == events + ([End(tag)] + Tokenize(more))
    ensures Tokenize((Open(tag) + body + Close(tag)) + more) == ([Markup(tag)] + events + [End(tag)]) + Tokenize(more)
  {
    TokenOpen(tag, body + (Close(tag) + more));
    Regroup(Open(tag), body, Close(tag), more);
    Regroup([Markup(tag)], events, [End(tag)], Tokenize(more));
  }

  lemma TokenizeValue(tag: string, v: Json, more: string)
    requires '>' !in tag
    requires Tokenize(RenderBody(v) + (Close(tag) + more)) == BodyEvents(v) + ([End(tag)] + Tokenize(more))
    ensures Tokenize(RenderValue(tag, v) + more) == ValueEvents(tag, v) + Tokenize(more)
  {
    if v.Null? {
      assert RenderValue(tag, v) + more == more;
    } else {
      TokenizeElement(tag, RenderBody(v), BodyEvents(v), more);
    }
  }

  lemma TokenizeSequence(a: string, b: string, rest: string, x: seq<Event>, y: seq<Event>)
    requires Tokenize(a + (b + rest)) == x + Tokenize(b + rest) && Tokenize(b + rest) == y + Tokenize(rest)
    ensures Tokenize((a + b) + rest) == (x + y) + Tokenize(rest)
  {
    Associate(a, b, rest);
    Associate(x, y, Tokenize(rest));
  }

  lemma {:induction false} TokenizeFields(fs: seq<Field>, rest: string)
    requires WellformedFields(fs) && UnsafeKeyOfFields(fs).None?
    ensures Tokenize(RenderFields(fs) + rest) == FieldEvents(fs) + Tokenize(rest)
    decreases fs
  {
    if fs == [] {
      assert RenderFields(fs) + rest == rest;
    } else {
      var tag, v, more := fs[0].key, fs[0].value, RenderFields(fs[1..]) + rest;
      TokenizeFields(fs[1..], rest);
      TokenizeBody(v, tag, more);
      TokenizeValue(tag, v, more);
      TokenizeSequence(RenderValue(tag, v), RenderFields(fs[1..]), rest, ValueEvents(tag, v), FieldEvents(fs[1..]));
    }
  }

  lemma {:induction false} TokenizeItems(items: seq<Json>, rest: string)
    requires WellformedItems(items) && UnsafeKeyOfItems(items).None?
    ensures Tokenize(RenderItems(items) + rest) == ItemEvents(items) + Tokenize(rest)
    decreases items
  {
    if items == [] {
      assert RenderItems(items) + rest == rest;
    } else {
      var v, more := items[0], RenderItems(items[1..]) + rest;
      TokenizeItems(items[1..], rest);
      if v.Arr? {
        TokenClose("item", more);
        assert RenderItem(v) + (Close("item") + more) == Close("item") + more;
      } else {
        TokenizeBody(v, "item", more);
      }
      TokenizeElement("item", RenderItem(v), ItemBody(v), more);
      TokenizeSequence(Open("item") + RenderItem(v) + Close("item"), RenderItems(items[1..]), rest,
                       [Markup("item")] + ItemBody(v) + [End("item")], ItemEvents(items[1..]));
    }
  }
}
