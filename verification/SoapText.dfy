/** Escaping and trimming of SOAP text (crates/sap-automate-rfc/src/soap.rs). */
module SoapText {
  import opened Wrappers
  import opened Trimming

  // ----- escaping (section 4.6 of XML 1.0) -------------------------------------------------

  function EscapeChar(c: char): (r: string)
    ensures r != "" && '<' !in r && '>' !in r && '"' !in r && '\'' !in r
    ensures RawSpace(r[0]) == RawSpace(r[|r| - 1]) == RawSpace(c)
    ensures RawSpace(c) ==> r == [c]
  {
    if c == '&' then "&amp;"
    else if c == '<' then "&lt;"
    else if c == '>' then "&gt;"
    else if c == '"' then "&quot;"
    else if c == '\'' then "&apos;"
    else [c]
  }

  function Escape(s: string): string {
    if s == "" then "" else EscapeChar(s[0]) + Escape(s[1..])
  }

  lemma EscapeNext(out: string, s: string, i: nat)
    requires i < |s|
    ensures out + Escape(s[i..]) == (out + EscapeChar(s[i])) + Escape(s[i + 1..])
  {
    assert s[i..][1..] == s[i + 1..];
    Associate(out, EscapeChar(s[i]), Escape(s[i + 1..]));
  }

  method XmlEscape(s: string) returns (out: string)
    ensures out == Escape(s)
  {
    out := "";
    for i := 0 to |s|
      invariant out + Escape(s[i..]) == Escape(s)
    {
      EscapeNext(out, s, i);
      out := out + EscapeChar(s[i]);
    }
  }

  /** The character an entity reference at the start of `s` stands for, and its length. */
  function Entity(s: string): (r: Option<(char, nat)>)
    ensures r.Some? ==> 0 < r.value.1 <= |s|
  {
    if "&amp;" <= s then Some(('&', 5))
    else if "&lt;" <= s then Some(('<', 4))
    else if "&gt;" <= s then Some(('>', 4))
    else if "&quot;" <= s then Some(('"', 6))
    else if "&apos;" <= s then Some(('\'', 6))
    else None
  }

  /** Replaces the predefined entities; any other reference is an error. */
  function Unescape(s: string): Option<string> {
    if s == "" then Some("")
    else if s[0] != '&' then
      match Unescape(s[1..])
      case Some(t) => Some([s[0]] + t)
      case None => None
    else match Entity(s)
      case None => None
      case Some((c, k)) =>
        match Unescape(s[k..])
        case Some(t) => Some([c] + t)
        case None => None
  }

  lemma UnescapeChar(c: char, rest: string)
    ensures Unescape(EscapeChar(c) + rest)
            == match Unescape(rest) case Some(t) => Some([c] + t) case None => None
  {
    var e := EscapeChar(c);
    var s := e + rest;
    assert s[|e|..] == rest && s[..|e|] == e;
    if c == '&' || c == '<' || c == '>' || c == '"' || c == '\'' {
      assert s[0] == '&' && s[1] == e[1] && s[2] == e[2];
      assert Entity(s) == Some((c, |e|));
    }
  }

  /** Unescaping undoes escaping. */
  lemma {:induction false} UnescapeEscape(s: string)
    ensures Unescape(Escape(s)) == Some(s)
  {
    if s != "" {
      UnescapeEscape(s[1..]);
      UnescapeChar(s[0], Escape(s[1..]));
      assert [s[0]] + s[1..] == s;
    }
  }

  lemma {:induction false} EscapeConcat(a: string, b: string)
    ensures Escape(a + b) == Escape(a) + Escape(b)
  {
    if a == "" {
      assert a + b == b;
    } else {
      assert (a + b)[1..] == a[1..] + b;
      EscapeConcat(a[1..], b);
    }
  }

  lemma {:induction false} EscapeHasNoMarkup(s: string)
    ensures '<' !in Escape(s) && '>' !in Escape(s) && '"' !in Escape(s) && '\'' !in Escape(s)
    ensures Escape(s) == "" <==> s == ""
  {
    if s != "" { EscapeHasNoMarkup(s[1..]); }
  }

  // ----- trimming ------------------------------------------------------------------------

  /** What the XML reader trims from text. */
  predicate RawSpace(c: char) {
    c == ' ' || c == '\t' || c == '\n' || c == '\r'
  }

  /** The white space of section 2.3 of XML 1.0. */
  lemma RawSpaceIsWhite(c: char)
    ensures RawSpace(c) <==> c as int in {0x20, 0x9, 0xD, 0xA}
  {
  }

  lemma {:induction false} StripLast(s: string, p: char -> bool)
    requires s != "" && p(s[|s| - 1])
    ensures Strip(s, p) == Strip(s[..|s| - 1], p)
  {
    if p(s[0]) && |s| > 1 {
      StripLast(s[1..], p);
      assert s[1..][..|s| - 2] == s[..|s| - 1][1..];
    }
  }

  /** Trimming less first changes nothing. */
  lemma {:induction false} StripTwice(s: string, p: char -> bool, q: char -> bool)
    requires forall c :: p(c) ==> q(c)
    ensures Strip(Strip(s, p), q) == Strip(s, q)
  {
    if s != "" {
      if p(s[0]) {
        StripTwice(s[1..], p, q);
      } else if p(s[|s| - 1]) {
        StripTwice(s[..|s| - 1], p, q);
        StripLast(s, q);
      }
    }
  }

  lemma EscapeSingle(c: char)
    ensures Escape([c]) == EscapeChar(c)
  {
    assert [c][1..] == "";
  }

  lemma EscapeAppend(front: string, c: char)
    ensures Escape(front + [c]) == Escape(front) + EscapeChar(c)
  {
    EscapeConcat(front, [c]);
    EscapeSingle(c);
  }

  lemma EscapeFront(s: string)
    requires s != ""
    ensures Escape(s) != "" && RawSpace(Escape(s)[0]) == RawSpace(s[0])
    ensures RawSpace(s[0]) ==> Escape(s)[1..] == Escape(s[1..])
  {
    var x := EscapeChar(s[0]);
    assert Escape(s) == x + Escape(s[1..]);
  }

  lemma EscapeBack(s: string)
    requires s != ""
    ensures Escape(s) != "" && RawSpace(Escape(s)[|Escape(s)| - 1]) == RawSpace(s[|s| - 1])
    ensures RawSpace(s[|s| - 1]) ==> Escape(s)[..|Escape(s)| - 1] == Escape(s[..|s| - 1])
  {
    EscapeSplits(s);
    EndOf(Escape(s[..|s| - 1]), EscapeChar(s[|s| - 1]));
  }

  lemma EscapeSplits(s: string)
    requires s != ""
    ensures Escape(s) == Escape(s[..|s| - 1]) + EscapeChar(s[|s| - 1])
  {
    FrontAndLast(s);
    EscapeAppend(s[..|s| - 1], s[|s| - 1]);
  }

  lemma FrontAndLast(s: string)
    requires s != ""
    ensures s == s[..|s| - 1] + [s[|s| - 1]]
  {
  }

  lemma EndOf(a: string, b: string)
    requires b != ""
    ensures (a + b)[|a + b| - 1] == b[|b| - 1]
    ensures |b| == 1 ==> (a + b)[..|a + b| - 1] == a
  {
  }

  /** Escaping commutes with trimming. */
  lemma {:induction false} StripEscape(s: string)
    ensures Strip(Escape(s), RawSpace) == Escape(Strip(s, RawSpace))
  {
    if s != "" {
      EscapeFront(s);
      EscapeBack(s);
      if RawSpace(s[0]) {
        StripEscape(s[1..]);
      } else if RawSpace(s[|s| - 1]) {
        StripEscape(s[..|s| - 1]);
      }
    }
  }

  /** What a reader makes of a rendered text: the original, trimmed. */
  lemma TextComesBack(s: string)
    ensures Unescape(Strip(Escape(s), RawSpace)) == Some(Strip(s, RawSpace))
    ensures Trim(Strip(s, RawSpace)) == Trim(s)
  {
    StripEscape(s);
    UnescapeEscape(Strip(s, RawSpace));
    StripTwice(s, RawSpace, Space);
  }
}
