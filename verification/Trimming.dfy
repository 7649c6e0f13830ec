/** Trimming of text, as `str::trim`, `trim_start` and `trim_end_matches` do it. */
module Trimming {

  /** What `str::trim` removes: the characters with the Unicode property White_Space. */
  predicate Space(c: char) {
    || c == ' ' || '\t' <= c <= '\r' || c == '\U{0085}' || c == '\U{00A0}' || c == '\U{1680}'
    || '\U{2000}' <= c <= '\U{200A}' || c == '\U{2028}' || c == '\U{2029}' || c == '\U{202F}' || c == '\U{205F}'
    || c == '\U{3000}'
  }

  /** The same by code point, as the Unicode Character Database lists them. */
  const WHITE_SPACE: set<int> :=
    {0x09, 0x0A, 0x0B, 0x0C, 0x0D, 0x20, 0x85, 0xA0, 0x1680, 0x2000, 0x2001, 0x2002, 0x2003, 0x2004, 0x2005, 0x2006,
     0x2007, 0x2008, 0x2009, 0x200A, 0x2028, 0x2029, 0x202F, 0x205F, 0x3000}

  lemma SpaceIsWhiteSpace(c: char)
    ensures Space(c) <==> c as int in WHITE_SPACE
  {
    var n := c as int;
    if '\U{2000}' <= c <= '\U{200A}' {
      assert n in {0x2000, 0x2001, 0x2002, 0x2003, 0x2004, 0x2005, 0x2006, 0x2007, 0x2008, 0x2009, 0x200A};
    }
  }

  function TrimStart(s: string, p: char -> bool): string {
    if s != "" && p(s[0]) then TrimStart(s[1..], p) else s
  }

  function TrimEnd(s: string, p: char -> bool): string {
    if s != "" && p(s[|s| - 1]) then TrimEnd(s[..|s| - 1], p) else s
  }

  function Strip(s: string, p: char -> bool): string {
    if s == "" then ""
    else if p(s[0]) then Strip(s[1..], p)
    else if p(s[|s| - 1]) then Strip(s[..|s| - 1], p)
    else s
  }

  function Trim(s: string): string {
    Strip(s, Space)
  }

  // ----- what is left --------------------------------------------------------------------

  predicate AllOf(s: string, p: char -> bool) {
    forall i :: 0 <= i < |s| ==> p(s[i])
  }

  /** `t` is `s` without its longest beginning of such characters. */
  predicate Rest(s: string, p: char -> bool, t: string) {
    && |t| <= |s| && AllOf(s[..|s| - |t|], p) && t == s[|s| - |t|..]
    && (t != "" ==> !p(t[0]))
  }

  /** `t` is `s` without its longest end of such characters. */
  predicate Front(s: string, p: char -> bool, t: string) {
    && |t| <= |s| && t == s[..|t|] && AllOf(s[|t|..], p)
    && (t != "" ==> !p(t[|t| - 1]))
  }

  /** `t` stands in `s` at `i`, with such characters only before and behind it. */
  predicate StandsAt(s: string, p: char -> bool, t: string, i: nat) {
    && i + |t| <= |s| && t == s[i..i + |t|]
    && (forall k :: 0 <= k < i ==> p(s[k]))
    && (forall k :: i + |t| <= k < |s| ==> p(s[k]))
  }

  predicate Bare(t: string, p: char -> bool) {
    t != "" ==> !p(t[0]) && !p(t[|t| - 1])
  }

  /** `t` stands in `s` between such characters only, and neither starts nor ends with one. */
  ghost predicate Core(s: string, p: char -> bool, t: string) {
    Bare(t, p) && exists i :: StandsAt(s, p, t, i)
  }

  lemma {:induction false} TrimStartIs(s: string, p: char -> bool, t: string)
    ensures TrimStart(s, p) == t <==> Rest(s, p, t)
  {
    if s != "" && p(s[0]) {
      TrimStartIs(s[1..], p, t);
      if Rest(s, p, t) {
        assert t != s;
        assert s[1..][|s| - 1 - |t|..] == s[|s| - |t|..];
        assert s[1..][..|s| - 1 - |t|] == s[..|s| - |t|][1..];
      }
      if Rest(s[1..], p, t) {
        assert s[..|s| - |t|] == [s[0]] + s[1..][..|s| - 1 - |t|];
      }
    } else if |t| < |s| {
      assert s[..|s| - |t|][0] == s[0];
    }
  }

  lemma {:induction false} TrimEndIs(s: string, p: char -> bool, t: string)
    ensures TrimEnd(s, p) == t <==> Front(s, p, t)
  {
    if s != "" && p(s[|s| - 1]) {
      var front := s[..|s| - 1];
      TrimEndIs(front, p, t);
      if Front(s, p, t) {
        assert t != s;
        assert front[..|t|] == s[..|t|];
        assert front[|t|..] == s[|t|..][..|s| - 1 - |t|];
      }
      if Front(front, p, t) {
        assert s[|t|..] == front[|t|..] + [s[|s| - 1]];
      }
    } else if |t| < |s| {
      assert s[|t|..][|s| - |t| - 1] == s[|s| - 1];
    }
  }

  lemma StandsBehind(s: string, p: char -> bool, t: string, i: nat)
    requires s != "" && p(s[0]) && StandsAt(s[1..], p, t, i)
    ensures StandsAt(s, p, t, i + 1)
  {
    assert forall k :: 1 <= k < |s| ==> s[k] == s[1..][k - 1];
  }

  lemma {:induction false} StripIsCore(s: string, p: char -> bool)
    ensures Core(s, p, Strip(s, p))
  {
    var t := Strip(s, p);
    if s == "" {
      assert StandsAt(s, p, t, 0);
    } else if p(s[0]) {
      StripIsCore(s[1..], p);
      var i: nat :| StandsAt(s[1..], p, t, i);
      StandsBehind(s, p, t, i);
    } else if p(s[|s| - 1]) {
      StripIsCore(s[..|s| - 1], p);
      var i: nat :| StandsAt(s[..|s| - 1], p, t, i);
      assert StandsAt(s, p, t, i);
    } else {
      assert StandsAt(s, p, t, 0);
    }
  }

  /** A bare text that is not empty stands in one place at most, and then no other bare text does. */
  lemma StandsOnce(s: string, p: char -> bool, t: string, i: nat, u: string, j: nat)
    requires StandsAt(s, p, t, i) && Bare(t, p) && t != "" && StandsAt(s, p, u, j) && Bare(u, p)
    ensures u == t
  {
    assert !p(s[i]) && !p(s[i + |t| - 1]);
    assert j <= i && i + |t| <= j + |u|;
    assert !p(s[j]) && !p(s[j + |u| - 1]);
  }

  /** There is only one such core, so trimming is described by it completely. */
  lemma StripIs(s: string, p: char -> bool, t: string)
    ensures Strip(s, p) == t <==> Core(s, p, t)
  {
    StripIsCore(s, p);
    var u := Strip(s, p);
    var j: nat :| StandsAt(s, p, u, j);
    if Core(s, p, t) {
      var i: nat :| StandsAt(s, p, t, i);
      if t != "" {
        StandsOnce(s, p, t, i, u, j);
      } else if u != "" {
        StandsOnce(s, p, u, j, t, i);
      }
    }
  }
}
