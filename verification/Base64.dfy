/** The inlined Base64 encoder of crates/sap-automate-adt/src/http.rs. */
module Base64 {
  import opened Wrappers

  type Byte = b: int | 0 <= b < 256 witness 0

  function Prepend(front: seq<Byte>, r: Option<seq<Byte>>): Option<seq<Byte>> {
    match r
    case None => None
    case Some(rest) => Some(front + rest)
  }

  // ----- Base64 --------------------------------------------------------------------------

  const UPPER: string := "ABCDEFGHIJKLMNOPQRSTUVWXYZ"
  const LOWER: string := "abcdefghijklmnopqrstuvwxyz"
  const DIGITS: string := "0123456789"
  const TABLE: string := UPPER + LOWER + DIGITS + "+/"

  /** The character of a value, by the ranges of the alphabet in section 4 of RFC 4648. */
  function Symbol(v: nat): char
    requires v < 64
  {
    if v < 26 then (65 + v) as char
    else if v < 52 then (97 + (v - 26)) as char
    else if v < 62 then (48 + (v - 52)) as char
    else if v == 62 then '+'
    else '/'
  }

  lemma LettersAt(v: nat)
    requires v < 26
    ensures |UPPER| == |LOWER| == 26 && UPPER[v] == (65 + v) as char && LOWER[v] == (97 + v) as char
  {
  }

  /** The table of the source is that alphabet. */
  lemma TableIsAlphabet(v: nat)
    requires v < 64
    ensures |TABLE| == 64 && TABLE[v] == Symbol(v)
  {
    if v < 26 {
      LettersAt(v);
    } else if v < 52 {
      LettersAt(v - 26);
    }
  }

  /** The table entry at an index. */
  function Entry(v: nat): (c: char)
    requires v < 64
    ensures c == Symbol(v)
  {
    TableIsAlphabet(v);
    TABLE[v]
  }

  /** Section 4 of RFC 4648, read backwards. */
  function ValueOf(c: char): (v: Option<nat>)
    ensures v.Some? ==> v.value < 64
  {
    if 'A' <= c <= 'Z' then Some((c - 'A') as nat)
    else if 'a' <= c <= 'z' then Some((c - 'a') as nat + 26)
    else if '0' <= c <= '9' then Some((c - '0') as nat + 52)
    else if c == '+' then Some(62)
    else if c == '/' then Some(63)
    else None
  }

  lemma SymbolHasValue(v: nat)
    requires v < 64
    ensures ValueOf(Symbol(v)) == Some(v)
  {
  }

  // The shifts and masks of the source, on bytes.

  function First(b1: Byte): nat {
    b1 / 4
  }

  function Second(b1: Byte, b2: Byte): (v: nat)
    ensures v < 64
  {
    b1 % 4 * 16 + b2 / 16
  }

  function Third(b2: Byte, b3: Byte): (v: nat)
    ensures v < 64
  {
    b2 % 16 * 4 + b3 / 64
  }

  function Fourth(b3: Byte): nat {
    b3 % 64
  }

  function Group(b1: Byte, b2: Byte, b3: Byte): string {
    [Symbol(First(b1)), Symbol(Second(b1, b2)), Symbol(Third(b2, b3)), Symbol(Fourth(b3))]
  }

  function Tail(rest: seq<Byte>): string
    requires |rest| < 3
  {
    if |rest| == 1 then [Symbol(First(rest[0])), Symbol(Second(rest[0], 0)), '=', '=']
    else if |rest| == 2 then
      [Symbol(First(rest[0])), Symbol(Second(rest[0], rest[1])), Symbol(Third(rest[1], 0)), '=']
    else ""
  }

  function Encoded(bytes: seq<Byte>): string {
    if |bytes| >= 3 then Group(bytes[0], bytes[1], bytes[2]) + Encoded(bytes[3..]) else Tail(bytes)
  }

  method Encode(bytes: seq<Byte>) returns (out: string)
    ensures out == Encoded(bytes)
  {
    out := "";
    var i := 0;
    while i + 3 <= |bytes|
      invariant i <= |bytes|
      invariant out + Encoded(bytes[i..]) == Encoded(bytes)
    {
      var b1, b2, b3 := bytes[i], bytes[i + 1], bytes[i + 2];
      assert Encoded(bytes[i..]) == Group(b1, b2, b3) + Encoded(bytes[i + 3..]) by {
        assert bytes[i..][3..] == bytes[i + 3..];
      }
      out := out + [Entry(First(b1)), Entry(Second(b1, b2)), Entry(Third(b2, b3)), Entry(Fourth(b3))];
      i := i + 3;
    }
    if |bytes| - i == 1 {
      var b1 := bytes[i];
      out := out + [Entry(First(b1)), Entry(b1 % 4 * 16), '=', '='];
    } else if |bytes| - i == 2 {
      var b1, b2 := bytes[i], bytes[i + 1];
      out := out + [Entry(First(b1)), Entry(Second(b1, b2)), Entry(b2 % 16 * 4), '='];
    }
  }

  /** A strict decoder of section 4 of RFC 4648: groups of four symbols, padding only in the last group, the
      bits behind the data zero. */
  function Decode(s: string): Option<seq<Byte>> {
    if s == "" then Some([])
    else if |s| < 4 then None
    else if |s| == 4 && s[3] == '=' then DecodeTail(s)
    else
      var v0, v1, v2, v3 := ValueOf(s[0]), ValueOf(s[1]), ValueOf(s[2]), ValueOf(s[3]);
      if v0.None? || v1.None? || v2.None? || v3.None? then None
      else Prepend(Bytes(v0.value, v1.value, v2.value, v3.value), Decode(s[4..]))
  }

  function Lead(v0: nat, v1: nat): Byte
    requires v0 < 64 && v1 < 64
  {
    v0 * 4 + v1 / 16
  }

  function Middle(v1: nat, v2: nat): Byte
    requires v1 < 64 && v2 < 64
  {
    v1 % 16 * 16 + v2 / 4
  }

  function Bytes(v0: nat, v1: nat, v2: nat, v3: nat): seq<Byte>
    requires v0 < 64 && v1 < 64 && v2 < 64 && v3 < 64
  {
    [Lead(v0, v1), Middle(v1, v2), v2 % 4 * 64 + v3]
  }

  function DecodeTail(s: string): Option<seq<Byte>>
    requires |s| == 4
  {
    var v0, v1, v2 := ValueOf(s[0]), ValueOf(s[1]), ValueOf(s[2]);
    if v0.None? || v1.None? then None
    else if s[2] == '=' then
      if v1.value % 16 == 0 then Some([Lead(v0.value, v1.value)]) else None
    else if v2.None? || v2.value % 4 != 0 then None
    else Some([Lead(v0.value, v1.value), Middle(v1.value, v2.value)])
  }

  lemma JoinSixteen(x: nat, y: nat)
    requires y < 16
    ensures (x * 16 + y) / 16 == x && (x * 16 + y) % 16 == y
  {
  }

  lemma JoinFour(x: nat, y: nat)
    requires y < 4
    ensures (x * 4 + y) / 4 == x && (x * 4 + y) % 4 == y
  {
  }

  lemma FirstByte(b1: Byte, b2: Byte)
    ensures Lead(First(b1), Second(b1, b2)) == b1
  {
    var high, low := b1 / 4, b1 % 4;
    assert b1 == 4 * high + low;
    JoinSixteen(low, b2 / 16);
  }

  lemma SecondByte(b1: Byte, b2: Byte, b3: Byte)
    ensures Middle(Second(b1, b2), Third(b2, b3)) == b2
  {
    var high, low := b2 / 16, b2 % 16;
    assert b2 == 16 * high + low;
    JoinSixteen(b1 % 4, high);
    JoinFour(low, b3 / 64);
  }

  lemma ThirdByte(b2: Byte, b3: Byte)
    ensures Third(b2, b3) % 4 * 64 + Fourth(b3) == b3
  {
    var high, low := b3 / 64, b3 % 64;
    assert b3 == 64 * high + low;
    JoinFour(b2 % 16, high);
  }

  lemma GroupReadsBack(b1: Byte, b2: Byte, b3: Byte)
    ensures Bytes(First(b1), Second(b1, b2), Third(b2, b3), Fourth(b3)) == [b1, b2, b3]
  {
    FirstByte(b1, b2);
    SecondByte(b1, b2, b3);
    ThirdByte(b2, b3);
  }

  lemma TwoJoin(b1: Byte, b2: Byte)
    ensures Lead(First(b1), Second(b1, b2)) == b1 && Middle(Second(b1, b2), Third(b2, 0)) == b2
    ensures Second(b1, 0) % 16 == 0 && Third(b2, 0) % 4 == 0
  {
    GroupReadsBack(b1, b2, 0);
  }

  lemma OneDecodes(c0: char, c1: char)
    requires ValueOf(c0).Some? && ValueOf(c1).Some? && ValueOf(c1).value % 16 == 0
    ensures Decode([c0, c1, '=', '=']) == Some([Lead(ValueOf(c0).value, ValueOf(c1).value)])
  {
    assert Decode([c0, c1, '=', '=']) == DecodeTail([c0, c1, '=', '=']);
  }

  lemma TwoDecode(c0: char, c1: char, c2: char)
    requires ValueOf(c0).Some? && ValueOf(c1).Some? && ValueOf(c2).Some? && ValueOf(c2).value % 4 == 0
    ensures Decode([c0, c1, c2, '='])
            == Some([Lead(ValueOf(c0).value, ValueOf(c1).value), Middle(ValueOf(c1).value, ValueOf(c2).value)])
  {
    assert Decode([c0, c1, c2, '=']) == DecodeTail([c0, c1, c2, '=']);
  }

  lemma TailReadsBack(rest: seq<Byte>)
    requires |rest| < 3
    ensures Decode(Tail(rest)) == Some(rest)
  {
    if |rest| > 0 {
      var b1, b2 := rest[0], if |rest| == 2 then rest[1] else 0;
      var v0, v1, v2 := First(b1), Second(b1, b2), Third(b2, 0);
      SymbolHasValue(v0);
      SymbolHasValue(v1);
      SymbolHasValue(v2);
      TwoJoin(b1, b2);
      if |rest| == 1 {
        OneDecodes(Symbol(v0), Symbol(v1));
        assert rest == [b1];
      } else {
        TwoDecode(Symbol(v0), Symbol(v1), Symbol(v2));
        assert rest == [b1, b2];
      }
    }
  }

  lemma DecodeGroup(b1: Byte, b2: Byte, b3: Byte, rest: string)
    ensures Decode(Group(b1, b2, b3) + rest)
            == Prepend([b1, b2, b3], Decode(rest))
  {
    var s := Group(b1, b2, b3) + rest;
    SymbolHasValue(First(b1));
    SymbolHasValue(Second(b1, b2));
    SymbolHasValue(Third(b2, b3));
    SymbolHasValue(Fourth(b3));
    assert s[4..] == rest;
    GroupReadsBack(b1, b2, b3);
  }

  lemma PrependRest(bytes: seq<Byte>)
    requires |bytes| >= 3
    ensures Prepend([bytes[0], bytes[1], bytes[2]], Some(bytes[3..])) == Some(bytes)
  {
    assert bytes == [bytes[0], bytes[1], bytes[2]] + bytes[3..];
  }

  /** A standard decoder inverts the encoder for every byte string. */
  lemma {:induction false} DecodeEncoded(bytes: seq<Byte>)
    ensures Decode(Encoded(bytes)) == Some(bytes)
  {
    if |bytes| >= 3 {
      DecodeEncoded(bytes[3..]);
      DecodeGroup(bytes[0], bytes[1], bytes[2], Encoded(bytes[3..]));
      PrependRest(bytes);
    } else {
      TailReadsBack(bytes);
    }
  }

  /** How many padding characters a byte string of that length needs. */
  function Padding(n: nat): nat {
    if n % 3 == 0 then 0 else 3 - n % 3
  }

  /** Table characters, and behind them `pad` padding characters. */
  predicate Padded(s: string, pad: nat) {
    && pad <= |s|
    && (forall i :: 0 <= i < |s| - pad ==> ValueOf(s[i]).Some?)
    && (forall i :: |s| - pad <= i < |s| ==> s[i] == '=')
  }

  lemma PaddedGroup(b1: Byte, b2: Byte, b3: Byte, rest: string, pad: nat)
    requires Padded(rest, pad)
    ensures Padded(Group(b1, b2, b3) + rest, pad)
  {
    var s := Group(b1, b2, b3) + rest;
    SymbolHasValue(First(b1));
    SymbolHasValue(Second(b1, b2));
    SymbolHasValue(Third(b2, b3));
    SymbolHasValue(Fourth(b3));
    assert forall i :: 4 <= i < |s| ==> s[i] == rest[i - 4];
  }

  lemma TwoArePadded(v0: nat, v1: nat)
    requires v0 < 64 && v1 < 64
    ensures Padded([Symbol(v0), Symbol(v1), '=', '='], 2)
  {
    SymbolHasValue(v0);
    SymbolHasValue(v1);
  }

  lemma ThreeArePadded(v0: nat, v1: nat, v2: nat)
    requires v0 < 64 && v1 < 64 && v2 < 64
    ensures Padded([Symbol(v0), Symbol(v1), Symbol(v2), '='], 1)
  {
    SymbolHasValue(v0);
    SymbolHasValue(v1);
    SymbolHasValue(v2);
  }

  lemma PaddedTail(rest: seq<Byte>)
    requires |rest| < 3
    ensures Padded(Tail(rest), Padding(|rest|))
  {
    if |rest| == 1 {
      TwoArePadded(First(rest[0]), Second(rest[0], 0));
    } else if |rest| == 2 {
      ThreeArePadded(First(rest[0]), Second(rest[0], rest[1]), Third(rest[1], 0));
    }
  }

  lemma {:induction false} EncodedLength(bytes: seq<Byte>)
    ensures |Encoded(bytes)| == 4 * ((|bytes| + 2) / 3)
  {
    if |bytes| >= 3 {
      EncodedLength(bytes[3..]);
      assert (|bytes| + 2) / 3 == (|bytes| - 3 + 2) / 3 + 1;
    }
  }

  lemma {:induction false} EncodedIsPadded(bytes: seq<Byte>)
    ensures Padded(Encoded(bytes), Padding(|bytes|))
  {
    if |bytes| >= 3 {
      EncodedIsPadded(bytes[3..]);
      assert Padding(|bytes|) == Padding(|bytes[3..]|);
      PaddedGroup(bytes[0], bytes[1], bytes[2], Encoded(bytes[3..]), Padding(|bytes|));
    } else {
      PaddedTail(bytes);
    }
  }

  /** The length is 4 * ceil(n / 3), the padding is at the end and nowhere else. */
  lemma EncodedShape(bytes: seq<Byte>)
    ensures |Encoded(bytes)| == 4 * ((|bytes| + 2) / 3)
    ensures Padded(Encoded(bytes), Padding(|bytes|))
  {
    EncodedLength(bytes);
    EncodedIsPadded(bytes);
  }

  // ----- the decoder accepts nothing else -------------------------------------------------

  lemma ValueHasSymbol(c: char)
    requires ValueOf(c).Some?
    ensures Symbol(ValueOf(c).value) == c
  {
  }

  lemma BytesEncodeBack(v0: nat, v1: nat, v2: nat, v3: nat)
    requires v0 < 64 && v1 < 64 && v2 < 64 && v3 < 64
    ensures var b := Bytes(v0, v1, v2, v3);
            First(b[0]) == v0 && Second(b[0], b[1]) == v1 && Third(b[1], b[2]) == v2 && Fourth(b[2]) == v3
  {
  }

  lemma OneEncodesBack(c0: char, c1: char)
    requires ValueOf(c0).Some? && ValueOf(c1).Some? && ValueOf(c1).value % 16 == 0
    ensures Tail([Lead(ValueOf(c0).value, ValueOf(c1).value)]) == [c0, c1, '=', '=']
  {
    var v0, v1 := ValueOf(c0).value, ValueOf(c1).value;
    ValueHasSymbol(c0);
    ValueHasSymbol(c1);
    var b := Lead(v0, v1);
    assert First(b) == v0 && Second(b, 0) == v1;
  }

  lemma TwoEncodeBack(c0: char, c1: char, c2: char)
    requires ValueOf(c0).Some? && ValueOf(c1).Some? && ValueOf(c2).Some? && ValueOf(c2).value % 4 == 0
    ensures var v0, v1, v2 := ValueOf(c0).value, ValueOf(c1).value, ValueOf(c2).value;
            Tail([Lead(v0, v1), Middle(v1, v2)]) == [c0, c1, c2, '=']
  {
    ValueHasSymbol(c0);
    ValueHasSymbol(c1);
    ValueHasSymbol(c2);
    TwoSplit(ValueOf(c0).value, ValueOf(c1).value, ValueOf(c2).value);
  }

  lemma TwoSplit(v0: nat, v1: nat, v2: nat)
    requires v0 < 64 && v1 < 64 && v2 < 64 && v2 % 4 == 0
    ensures var b1, b2 := Lead(v0, v1), Middle(v1, v2);
            First(b1) == v0 && Second(b1, b2) == v1 && Third(b2, 0) == v2
  {
    BytesEncodeBack(v0, v1, v2, 0);
  }

  lemma TailEncodesBack(s: string)
    requires |s| == 4 && s[3] == '=' && DecodeTail(s).Some?
    ensures |DecodeTail(s).value| < 3 && Tail(DecodeTail(s).value) == s
  {
    if s[2] == '=' {
      OneEncodesBack(s[0], s[1]);
      assert s == [s[0], s[1], '=', '='];
    } else {
      TwoEncodeBack(s[0], s[1], s[2]);
      assert s == [s[0], s[1], s[2], '='];
    }
  }

  lemma GroupEncodesBack(s: string, rest: seq<Byte>)
    requires |s| == 4 && forall i :: 0 <= i < 4 ==> ValueOf(s[i]).Some?
    ensures Encoded(Bytes(ValueOf(s[0]).value, ValueOf(s[1]).value, ValueOf(s[2]).value, ValueOf(s[3]).value) + rest)
            == s + Encoded(rest)
  {
    var v0, v1, v2, v3 := ValueOf(s[0]).value, ValueOf(s[1]).value, ValueOf(s[2]).value, ValueOf(s[3]).value;
    var b := Bytes(v0, v1, v2, v3);
    BytesEncodeBack(v0, v1, v2, v3);
    ValueHasSymbol(s[0]);
    ValueHasSymbol(s[1]);
    ValueHasSymbol(s[2]);
    ValueHasSymbol(s[3]);
    assert (b + rest)[3..] == rest;
    assert Group(b[0], b[1], b[2]) == s;
  }

  /** What the decoder accepts is the encoding of what it returns: the two are inverse both ways. */
  lemma {:induction false} EncodedDecode(s: string)
    requires Decode(s).Some?
    ensures Encoded(Decode(s).value) == s
  {
    if s != "" {
      if |s| == 4 && s[3] == '=' {
        TailEncodesBack(s);
      } else {
        EncodedDecode(s[4..]);
        GroupEncodesBack(s[..4], Decode(s[4..]).value);
        assert s == s[..4] + s[4..];
      }
    }
  }
}
