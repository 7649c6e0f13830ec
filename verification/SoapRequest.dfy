/** The SOAP request text of crates/sap-automate-rfc/src/soap.rs, and exactly when it reads back. */
module SoapRequest {
  import opened Wrappers
  import opened SoapText
  import opened Soap
  import opened SoapRead

  // ----- an end tag nothing can open -----------------------------------------------------

  /** What validated keys can tokenize into: start tags without a slash at an end, end tags without a colon. */
  predicate Tame(e: Event) {
    (e.Start? ==> !Slashed(e.name)) && (e.End? ==> ':' !in e.name)
  }

  predicate AllTame(es: seq<Event>) {
    forall i :: 0 <= i < |es| ==> Tame(es[i])
  }

  lemma SafeKeyIsTame(k: string)
    requires SafeName(k)
    ensures Tame(Markup(k)) && Tame(End(k))
  {
    WholeTagName(k);
  }

  lemma TextIsTame(raw: string)
    ensures AllTame(TextEvents(raw))
  {
  }

  lemma ElementIsTame(k: string, body: seq<Event>)
    requires SafeName(k) && AllTame(body)
    ensures AllTame([Markup(k)] + body + [End(k)])
  {
    SafeKeyIsTame(k);
  }

  lemma {:induction false} BodyIsTame(v: Json)
    requires UnsafeKey(v).None?
    ensures AllTame(BodyEvents(v))
    decreases v, 0
  {
    match v
    case Bool(b) => TextIsTame(Flag(b));
    case Number(t) => TextIsTame(t);
    case Str(s) => TextIsTame(Escape(s));
    case Arr(items) => ItemsAreTame(items);
    case Obj(fs) => FieldsAreTame(fs);
    case Null =>
  }

  lemma {:induction false} FieldsAreTame(fs: seq<Field>)
    requires UnsafeKeyOfFields(fs).None?
    ensures AllTame(FieldEvents(fs))
    decreases fs
  {
    if fs != [] {
      BodyIsTame(fs[0].value);
      ElementIsTame(fs[0].key, BodyEvents(fs[0].value));
      FieldsAreTame(fs[1..]);
    }
  }

  lemma {:induction false} ItemsAreTame(items: seq<Json>)
    requires UnsafeKeyOfItems(items).None?
    ensures AllTame(ItemEvents(items))
    decreases items
  {
    if items != [] {
      BodyIsTame(items[0]);
      ElementIsTame("item", ItemBody(items[0]));
      ItemsAreTame(items[1..]);
    }
  }

  /** No validated key can close an element whose name has a colon, such as the one the parameters stand in:
      whatever the keys and values are, the call stays one call. */
  lemma NoKeyClosesTheCall(fs: seq<Field>, root: string, rest: string)
    requires WellformedFields(fs) && UnsafeKeyOfFields(fs).None? && ':' in root
    ensures Tokenize(RenderFields(fs) + rest) == FieldEvents(fs) + Tokenize(rest)
    ensures End(root) !in FieldEvents(fs)
  {
    TokenizeFields(fs, rest);
    FieldsAreTame(fs);
  }

  /** Somewhere an element with a slash at an end of its name is closed. */
  predicate ClosesSlashed(es: seq<Event>) {
    exists i :: 0 <= i < |es| && es[i].End? && Slashed(es[i].name)
  }

  lemma ClosesInside(a: seq<Event>, b: seq<Event>, c: seq<Event>)
    requires ClosesSlashed(b)
    ensures ClosesSlashed(a + b + c)
  {
    var i :| 0 <= i < |b| && b[i].End? && Slashed(b[i].name);
    assert (a + b + c)[|a| + i] == b[i];
  }

  lemma ClosesEither(a: seq<Event>, b: seq<Event>)
    requires ClosesSlashed(a) || ClosesSlashed(b)
    ensures ClosesSlashed(a + b)
  {
    if ClosesSlashed(a) {
      ClosesInside([], a, b);
      assert [] + a + b == a + b;
    } else {
      ClosesInside(a, b, []);
      assert a + b + [] == a + b;
    }
  }

  lemma KeyCloses(k: string, body: seq<Event>)
    requires Slashed(k) || ClosesSlashed(body)
    ensures ClosesSlashed([Markup(k)] + body + [End(k)])
  {
    var es := [Markup(k)] + body + [End(k)];
    if Slashed(k) {
      assert es[|es| - 1] == End(k);
    } else {
      ClosesInside([Markup(k)], body, [End(k)]);
    }
  }

  lemma {:induction false} UnplainBodyCloses(v: Json)
    requires UnsafeKey(v).None? && !PlainKeys(v)
    ensures ClosesSlashed(BodyEvents(v))
    decreases v, 0
  {
    match v
    case Arr(items) => UnplainItemsClose(items);
    case Obj(fs) => UnplainFieldsClose(fs);
  }

  lemma {:induction false} UnplainFieldsClose(fs: seq<Field>)
    requires UnsafeKeyOfFields(fs).None? && !PlainFields(fs)
    ensures ClosesSlashed(FieldEvents(fs))
    decreases fs
  {
    var k, v := fs[0].key, fs[0].value;
    if !PlainFields(fs[1..]) {
      UnplainFieldsClose(fs[1..]);
    } else {
      if !PlainKeys(v) {
        UnplainBodyCloses(v);
      }
      KeyCloses(k, BodyEvents(v));
    }
    ClosesEither(ValueEvents(k, v), FieldEvents(fs[1..]));
  }

  lemma {:induction false} UnplainItemsClose(items: seq<Json>)
    requires UnsafeKeyOfItems(items).None? && !PlainItems(items)
    ensures ClosesSlashed(ItemEvents(items))
    decreases items
  {
    var v := items[0];
    if !PlainItems(items[1..]) {
      UnplainItemsClose(items[1..]);
    } else {
      UnplainBodyCloses(v);
      KeyCloses("item", ItemBody(v));
    }
    ClosesEither([Markup("item")] + ItemBody(v) + [End("item")], ItemEvents(items[1..]));
  }

  // ----- such a document is refused ------------------------------------------------------

  /** Start tags before position `n` have no slash at an end. */
  predicate Openable(es: seq<Event>, n: nat) {
    forall i :: 0 <= i < n && i < |es| ==> es[i].Start? ==> !Slashed(es[i].name)
  }

  /** `rest` is what is left of `es`, from position `n` or before. */
  predicate LeftOf(es: seq<Event>, n: nat, rest: seq<Event>) {
    n < |es| && |es| - n <= |rest| <= |es| && rest == es[|es| - |rest|..]
  }

  lemma LeftOfTail(es: seq<Event>, n: nat, rest: seq<Event>, left: seq<Event>, j: nat)
    requires n < |es| && j <= n && rest == es[j..] && LeftOf(rest, n - j, left)
    ensures LeftOf(es, n, left)
  {
    assert left == rest[|rest| - |left|..];
  }

  /** Position `n` closes a slashed name that nothing before it can have opened. */
  predicate Stuck(es: seq<Event>, n: nat) {
    n < |es| && es[n].End? && Slashed(es[n].name) && Openable(es, n)
  }

  /** The read failed, or what is left still holds position `n`; it must fail if `name` is not closed before. */
  predicate NotPassed(es: seq<Event>, n: nat, name: string, r: Outcome<Parsed>) {
    (r.Ok? ==> LeftOf(es, n, r.value.rest)) && (n < |es| && End(name) !in es[..n] ==> r.Err?)
  }

  lemma StuckBehind(es: seq<Event>, n: nat, rest: seq<Event>, name: string)
    requires Stuck(es, n) && LeftOf(es, n, rest)
    ensures var j := |es| - |rest|;
            j <= n && Stuck(rest, n - j) && (End(name) !in es[..n] ==> End(name) !in rest[..n - j])
  {
    var j := |es| - |rest|;
    assert rest[n - j] == es[n] && rest[..n - j] == es[j..n];
    assert forall i :: 0 <= i < |rest| ==> rest[i] == es[j + i];
  }

  /** A successful read never passes the end tag of a slashed name, because nothing can open it. */
  lemma {:induction false} SlashedEndIsNotPassed(es: seq<Event>, n: nat, name: string, depth: nat, m: seq<Field>,
                                                 text: string, count: nat)
    requires Stuck(es, n) && !Slashed(name)
    ensures NotPassed(es, n, name, ParseLoop(es, name, depth, m, text, count))
    decreases |es|, 1
  {
    if n > 0 {
      match es[0]
      case Start(c) =>
        ChildIsNotPassed(es, n, c, depth);
        var child := ParseElement(es[1..], c, depth + 1);
        if child.Ok? {
          NotPassedBehind(es, n, child.value.rest, name, depth, InsertMerge(m, LocalName(c), child.value.json), text,
            count + 1);
        }
      case Empty(c) =>
        NotPassedBehind(es, n, es[1..], name, depth, InsertMerge(m, LocalName(c), Str("")), text, count + 1);
      case Text(raw) =>
        NotPassedBehind(es, n, es[1..], name, depth, m, text + Unescaped(raw), count);
      case Declaration =>
        NotPassedBehind(es, n, es[1..], name, depth, m, text, count);
      case _ =>
    }
  }

  lemma {:induction false} ChildIsNotPassed(es: seq<Event>, n: nat, c: string, depth: nat)
    requires Stuck(es, n) && n > 0 && es[0] == Start(c)
    ensures var child := ParseElement(es[1..], c, depth + 1);
            child.Ok? ==> LeftOf(es, n, child.value.rest) && |child.value.rest| < |es|
    decreases |es|, 0
  {
    var child := ParseElement(es[1..], c, depth + 1);
    if child.Ok? {
      StuckBehind(es, n, es[1..], c);
      SlashedEndIsNotPassed(es[1..], n - 1, c, depth + 1, [], "", 0);
      LeftOfTail(es, n, es[1..], child.value.rest, 1);
    }
  }

  lemma {:induction false} NotPassedBehind(es: seq<Event>, n: nat, rest: seq<Event>, name: string, depth: nat,
                                           m: seq<Field>, text: string, count: nat)
    requires Stuck(es, n) && !Slashed(name) && LeftOf(es, n, rest) && |rest| < |es|
    ensures NotPassed(es, n, name, ParseLoop(rest, name, depth, m, text, count))
    decreases |es|, 0
  {
    var j := |es| - |rest|;
    StuckBehind(es, n, rest, name);
    SlashedEndIsNotPassed(rest, n - j, name, depth, m, text, count);
    var r := ParseLoop(rest, name, depth, m, text, count);
    if r.Ok? {
      LeftOfTail(es, n, rest, r.value.rest, j);
    }
  }

  /** A document that closes a slashed name before its root is refused. */
  lemma SlashedEndIsRefused(root: string, es: seq<Event>, n: nat)
    requires Stuck(es, n) && !Slashed(root) && End(root) !in es[..n]
    ensures ParseDocument([Start(root)] + es) == Err
  {
    SlashedEndIsNotPassed(es, n, root, 1, [], "", 0);
    assert ([Start(root)] + es)[1..] == es;
  }

  // ----- one enclosing element -----------------------------------------------------------

  /** The name of an element that no validated key can close. */
  predicate OuterName(root: string) {
    && ':' in root && !Slashed(root) && root[0] != '?'
    && forall i :: 0 <= i < |root| ==> root[i] != '>' && !RawSpace(root[i])
  }

  lemma TokenizeRoot(root: string, fs: seq<Field>, rest: string)
    requires '>' !in root && WellformedFields(fs) && UnsafeKeyOfFields(fs).None?
    ensures Tokenize((Open(root) + RenderFields(fs) + Close(root)) + rest)
            == ([Markup(root)] + FieldEvents(fs) + [End(root)]) + Tokenize(rest)
  {
    TokenizeBody(Obj(fs), root, rest);
    TokenizeElement(root, RenderFields(fs), FieldEvents(fs), rest);
  }

  lemma UnplainIsRefused(root: string, fs: seq<Field>)
    requires OuterName(root) && UnsafeKeyOfFields(fs).None? && !PlainFields(fs)
    ensures ParseDocument([Start(root)] + (FieldEvents(fs) + [End(root)])) == Err
  {
    var es := FieldEvents(fs) + [End(root)];
    FieldsAreTame(fs);
    UnplainFieldsClose(fs);
    var n :| 0 <= n < |FieldEvents(fs)| && FieldEvents(fs)[n].End? && Slashed(FieldEvents(fs)[n].name);
    assert forall i :: 0 <= i <= n ==> es[i] == FieldEvents(fs)[i];
    SlashedEndIsRefused(root, es, n);
  }

  lemma TokenizeDocument(root: string, fs: seq<Field>)
    requires OuterName(root) && WellformedFields(fs) && UnsafeKeyOfFields(fs).None?
    ensures Tokenize(Open(root) + RenderFields(fs) + Close(root)) == [Start(root)] + (FieldEvents(fs) + [End(root)])
  {
    var text := Open(root) + RenderFields(fs) + Close(root);
    TokenizeRoot(root, fs, "");
    PlainOpens(root);
    assert text + "" == text;
    assert ([Start(root)] + FieldEvents(fs) + [End(root)]) + [] == [Start(root)] + (FieldEvents(fs) + [End(root)]);
  }

  lemma PlainReadsBack(root: string, fs: seq<Field>)
    requires WellformedFields(fs) && PlainFields(fs)
    ensures ParseDocument([Start(root)] + (FieldEvents(fs) + [End(root)]))
            == if FitFields(fs, 2) then Ok(Normal(Obj(fs))) else Err
  {
    var es := FieldEvents(fs) + [End(root)];
    ElementReadsBack(Obj(fs), root, 1, []);
    assert ([Start(root)] + es)[1..] == es && [End(root)] + [] == [End(root)];
  }

  /** Every validated parameter object, inside any element that no key can close, reads back as its normal
      form if every rendered key is plain and the nesting is within the cap, and is refused otherwise. */
  lemma RoundTrip(root: string, fs: seq<Field>)
    requires OuterName(root) && WellformedFields(fs) && UnsafeKeyOfFields(fs).None?
    ensures ParseDocument(Tokenize(Open(root) + RenderFields(fs) + Close(root)))
            == if PlainFields(fs) && FitFields(fs, 2) then Ok(Normal(Obj(fs))) else Err
  {
    TokenizeDocument(root, fs);
    if PlainFields(fs) {
      PlainReadsBack(root, fs);
    } else {
      UnplainIsRefused(root, fs);
    }
  }

  /** A root that is itself a safe name can be closed by a key: behind a first rendered key with a leading
      slash the reader stops, with nothing read if the key closes the root and with an error if it does not. */
  lemma LeadingSlashIsAnEndTag(root: string, fs: seq<Field>)
    requires PlainName(root) && fs != [] && !fs[0].value.Null? && SafeName(fs[0].key) && fs[0].key[0] == '/'
    ensures ParseDocument(Tokenize(Open(root) + RenderFields(fs) + Close(root)))
            == if fs[0].key[1..] == root then Ok(Str("")) else Err
  {
    var k, v := fs[0].key, fs[0].value;
    var tail := (RenderBody(v) + Close(k)) + (RenderFields(fs[1..]) + Close(root));
    assert RenderFields(fs) + Close(root) == Open(k) + tail by {
      Regroup(Open(k), RenderBody(v), Close(k), RenderFields(fs[1..]) + Close(root));
      Associate(RenderBody(v), Close(k), RenderFields(fs[1..]) + Close(root));
      Associate(RenderValue(k, v), RenderFields(fs[1..]), Close(root));
    }
    Associate(Open(root), RenderFields(fs), Close(root));
    TokenOpen(root, Open(k) + tail);
    PlainOpens(root);
    TokenOpen(k, tail);
    EndReadsEmpty(root, k[1..], Tokenize(tail));
  }

  lemma EndReadsEmpty(root: string, name: string, more: seq<Event>)
    ensures ParseDocument([Start(root)] + ([End(name)] + more)) == if name == root then Ok(Str("")) else Err
  {
    var es := [End(name)] + more;
    assert ([Start(root)] + es)[1..] == es && es[1..] == more;
    assert ParseElement(es, root, 1) == ParseLoop(es, root, 1, [], "", 0);
  }

  // ----- the request ---------------------------------------------------------------------

  const ENVELOPE := "soap:Envelope"
  const BODY := "soap:Body"

  function CallTag(f: string): string {
    "rfc:" + f
  }

  /** Namespace declarations, set off by a space. */
  predicate Attributes(s: string) {
    s != "" && RawSpace(s[0]) && '>' !in s && s[|s| - 1] != '/'
  }

  function Call(f: string, fs: seq<Field>): string {
    Open(CallTag(f)) + RenderFields(fs) + Close(CallTag(f))
  }

  /** A declaration, then the call inside a body inside an envelope. */
  function Request(decl: string, attributes: string, f: string, fs: seq<Field>): string {
    Open("?" + decl) + (Open(ENVELOPE + attributes) + (Open(BODY) + (Call(f, fs) + (Close(BODY) + Close(ENVELOPE)))))
  }

  /** The only child of the body. */
  function Payload(root: Json): Outcome<Json> {
    if !root.Obj? || !HasKey(root.fields, "Body") then Err
    else
      var body := root.fields[KeyIndex(root.fields, "Body")].value;
      if body.Obj? && body.fields != [] then Ok(body.fields[0].value) else Err
  }

  function ReadRequest(text: string): Outcome<Json> {
    match ParseDocument(Tokenize(text))
    case Err => Err
    case Ok(root) => Payload(root)
  }

  function CallEvents(f: string, fs: seq<Field>): seq<Event> {
    [Markup(CallTag(f))] + FieldEvents(fs) + [End(CallTag(f))]
  }

  const CLOSING: seq<Event> := [End(BODY), End(ENVELOPE)]

  lemma {:induction false} CutTagName(name: string, more: string)
    requires (forall i :: 0 <= i < |name| ==> !RawSpace(name[i])) && more != "" && RawSpace(more[0])
    ensures TagName(name + more) == name
  {
    if name == "" {
      assert name + more == more;
    } else {
      assert (name + more)[1..] == name[1..] + more;
      CutTagName(name[1..], more);
    }
  }

  lemma EnvelopeOpens(attributes: string)
    requires Attributes(attributes)
    ensures Markup(ENVELOPE + attributes) == Start(ENVELOPE) && '>' !in ENVELOPE + attributes
  {
    CutTagName(ENVELOPE, attributes);
    var body := ENVELOPE + attributes;
    assert body[0] == 's' && body[|body| - 1] == attributes[|attributes| - 1];
  }

  lemma TokenizeClosing()
    ensures Tokenize(Close(BODY) + Close(ENVELOPE)) == CLOSING
  {
    TokenClose(BODY, Close(ENVELOPE));
    TokenClose(ENVELOPE, "");
    assert Close(ENVELOPE) + "" == Close(ENVELOPE);
    assert [End(BODY)] + ([End(ENVELOPE)] + []) == CLOSING;
  }

  lemma CallTagHasNoMarkup(f: string)
    requires SafeName(f)
    ensures '>' !in CallTag(f) && (Slashed(CallTag(f)) <==> f[|f| - 1] == '/')
    ensures !Slashed(CallTag(f)) ==> Markup(CallTag(f)) == Start(CallTag(f))
    ensures Slashed(CallTag(f)) ==> Markup(CallTag(f)).Empty?
  {
    var tag := CallTag(f);
    assert tag[0] == 'r' && tag[|tag| - 1] == f[|f| - 1];
    if !Slashed(tag) {
      PlainOpens(tag);
    }
  }

  lemma TokenizeCall(f: string, fs: seq<Field>)
    requires SafeName(f) && WellformedFields(fs) && UnsafeKeyOfFields(fs).None?
    ensures Tokenize(Call(f, fs) + (Close(BODY) + Close(ENVELOPE))) == CallEvents(f, fs) + CLOSING
  {
    CallTagHasNoMarkup(f);
    TokenizeClosing();
    TokenizeRoot(CallTag(f), fs, Close(BODY) + Close(ENVELOPE));
  }

  predicate NameChar(c: char) {
    c == ':' || SafeChar(c)
  }

  lemma NameOpens(name: string)
    requires name != "" && !Slashed(name) && forall i :: 0 <= i < |name| ==> NameChar(name[i])
    ensures Markup(name) == Start(name) && '>' !in name
  {
    PlainOpens(name);
  }

  lemma BodyOpens()
    ensures Markup(BODY) == Start(BODY) && '>' !in BODY
  {
    NameOpens(BODY);
  }

  lemma TokenizeInner(attributes: string, inner: string)
    requires Attributes(attributes)
    ensures Tokenize(Open(ENVELOPE + attributes) + (Open(BODY) + inner))
            == [Start(ENVELOPE)] + ([Start(BODY)] + Tokenize(inner))
  {
    BodyOpens();
    TokenOpen(BODY, inner);
    EnvelopeOpens(attributes);
    TokenOpen(ENVELOPE + attributes, Open(BODY) + inner);
  }

  /** The tags in front of the call. */
  lemma TokenizeFront(decl: string, attributes: string, inner: string)
    requires '>' !in decl && Attributes(attributes)
    ensures Tokenize(Open("?" + decl) + (Open(ENVELOPE + attributes) + (Open(BODY) + inner)))
            == [Declaration] + ([Start(ENVELOPE)] + ([Start(BODY)] + Tokenize(inner)))
  {
    TokenizeInner(attributes, inner);
    DeclarationOpens(decl);
    TokenOpen("?" + decl, Open(ENVELOPE + attributes) + (Open(BODY) + inner));
  }

  lemma DeclarationOpens(decl: string)
    requires '>' !in decl
    ensures Markup("?" + decl) == Declaration && '>' !in "?" + decl
  {
    assert ("?" + decl)[0] == '?';
  }

  lemma TokenizeRequest(decl: string, attributes: string, f: string, fs: seq<Field>)
    requires '>' !in decl && Attributes(attributes) && SafeName(f)
    requires WellformedFields(fs) && UnsafeKeyOfFields(fs).None?
    ensures Tokenize(Request(decl, attributes, f, fs))
            == [Declaration] + ([Start(ENVELOPE)] + ([Start(BODY)] + (CallEvents(f, fs) + CLOSING)))
  {
    TokenizeCall(f, fs);
    TokenizeFront(decl, attributes, Call(f, fs) + (Close(BODY) + Close(ENVELOPE)));
  }

  lemma {:induction false} LocalPart(prefix: string, local: string)
    requires ':' !in local
    ensures LocalName(prefix + ":" + local) == local
  {
    var q := prefix + ":" + local;
    if local != "" {
      var front := local[..|local| - 1];
      LocalPart(prefix, front);
      assert q[..|q| - 1] == prefix + ":" + front && local == front + [local[|local| - 1]];
    }
  }

  /** An element with one child. */
  lemma OnlyChild(c: string, child: seq<Event>, j: Json, name: string, depth: nat, rest: seq<Event>, fits: bool)
    requires depth <= MAX_XML_DEPTH
    requires ParseElement(child, c, depth + 1) == if fits then Ok(Parsed(j, [End(name)] + rest)) else Err
    ensures ParseElement([Start(c)] + child, name, depth)
            == if fits then Ok(Parsed(Obj([Field(LocalName(c), j)]), rest)) else Err
  {
    var es, tail, m := [Start(c)] + child, [End(name)] + rest, [Field(LocalName(c), j)];
    assert es[0] == Start(c) && es[1..] == child && tail[0] == End(name) && tail[1..] == rest;
    assert InsertMerge([], LocalName(c), j) == m;
    if fits {
      assert ParseLoop(es, name, depth, [], "", 0) == ParseLoop(tail, name, depth, m, "", 1);
    }
  }

  lemma BodyReadsBack(f: string, fs: seq<Field>)
    requires SafeName(f) && f[|f| - 1] != '/' && WellformedFields(fs) && PlainFields(fs)
    ensures ParseElement(CallEvents(f, fs) + CLOSING, BODY, 2)
            == if FitFields(fs, 4)
               then Ok(Parsed(Obj([Field(LocalName(CallTag(f)), Normal(Obj(fs)))]), [End(ENVELOPE)])) else Err
  {
    var tag := CallTag(f);
    CallTagHasNoMarkup(f);
    ElementReadsBack(Obj(fs), tag, 3, CLOSING);
    Regroup([Start(tag)], FieldEvents(fs), [End(tag)], CLOSING);
    assert CLOSING == [End(BODY)] + [End(ENVELOPE)];
    OnlyChild(tag, FieldEvents(fs) + ([End(tag)] + CLOSING), Normal(Obj(fs)), BODY, 2, [End(ENVELOPE)],
              FitFields(fs, 4));
  }

  lemma EnvelopeReadsBack(es: seq<Event>, body: Json, fits: bool)
    requires ParseElement(es, BODY, 2) == if fits then Ok(Parsed(body, [End(ENVELOPE)])) else Err
    ensures ParseDocument([Declaration] + ([Start(ENVELOPE)] + ([Start(BODY)] + es)))
            == if fits then Ok(Obj([Field("Body", body)])) else Err
  {
    var inner := [Start(BODY)] + es;
    var doc := [Start(ENVELOPE)] + inner;
    assert ([Declaration] + doc)[1..] == doc && doc[1..] == inner && [End(ENVELOPE)] == [End(ENVELOPE)] + [];
    LocalPart("soap", "Body");
    assert BODY == "soap" + ":" + "Body";
    OnlyChild(BODY, es, body, ENVELOPE, 1, [], fits);
  }

  lemma BadCallCloses(f: string, fs: seq<Field>) returns (n: nat)
    requires SafeName(f) && UnsafeKeyOfFields(fs).None? && (f[|f| - 1] == '/' || !PlainFields(fs))
    ensures n < |CallEvents(f, fs)| && CallEvents(f, fs)[n].End? && Slashed(CallEvents(f, fs)[n].name)
    ensures Openable(CallEvents(f, fs), n) && End(ENVELOPE) !in CallEvents(f, fs)[..n]
  {
    var es, tag := CallEvents(f, fs), CallTag(f);
    CallTagHasNoMarkup(f);
    FieldsAreTame(fs);
    if f[|f| - 1] != '/' {
      UnplainFieldsClose(fs);
    }
    KeyCloses(tag, FieldEvents(fs));
    n :| n < |es| && es[n].End? && Slashed(es[n].name);
    assert tag[0] == 'r';
    assert forall i :: 0 < i < |es| - 1 ==> es[i] == FieldEvents(fs)[i - 1];
    assert forall i :: 0 < i < |es| - 1 ==> Tame(es[i]);
  }

  lemma Surrounded(call: seq<Event>, n: nat)
    requires n < |call| && Openable(call, n) && End(ENVELOPE) !in call[..n]
    ensures var es := [Start(BODY)] + (call + CLOSING);
            n + 1 < |es| && es[n + 1] == call[n] && Openable(es, n + 1) && End(ENVELOPE) !in es[..n + 1]
  {
    var es := [Start(BODY)] + (call + CLOSING);
    assert es[..n + 1] == [Start(BODY)] + call[..n];
    assert forall i :: 1 <= i < n + 1 ==> es[i] == call[i - 1];
  }

  lemma BadCallIsRefused(f: string, fs: seq<Field>)
    requires SafeName(f) && UnsafeKeyOfFields(fs).None? && (f[|f| - 1] == '/' || !PlainFields(fs))
    ensures ParseDocument([Declaration] + ([Start(ENVELOPE)] + ([Start(BODY)] + (CallEvents(f, fs) + CLOSING)))) == Err
  {
    var n := BadCallCloses(f, fs);
    var call := CallEvents(f, fs);
    Surrounded(call, n);
    SlashedEndIsRefused(ENVELOPE, [Start(BODY)] + (call + CLOSING), n + 1);
    var doc := [Start(ENVELOPE)] + ([Start(BODY)] + (call + CLOSING));
    assert ([Declaration] + doc)[1..] == doc;
  }

  /** The whole request, for every validated function name and parameter object: its payload reads back as the
      normal form of the parameters if the function name does not end in a slash, every rendered key is plain
      and the nesting is within the cap. Otherwise the text is refused. */
  lemma RequestRoundTrip(decl: string, attributes: string, f: string, fs: seq<Field>)
    requires '>' !in decl && Attributes(attributes) && SafeName(f)
    requires WellformedFields(fs) && UnsafeKeyOfFields(fs).None?
    ensures ReadRequest(Request(decl, attributes, f, fs))
            == if f[|f| - 1] != '/' && PlainFields(fs) && FitFields(fs, 4) then Ok(Normal(Obj(fs))) else Err
  {
    TokenizeRequest(decl, attributes, f, fs);
    if f[|f| - 1] != '/' && PlainFields(fs) {
      BodyReadsBack(f, fs);
      EnvelopeReadsBack(CallEvents(f, fs) + CLOSING, Obj([Field(LocalName(CallTag(f)), Normal(Obj(fs)))]),
                        FitFields(fs, 4));
    } else {
      BadCallIsRefused(f, fs);
    }
  }
}
