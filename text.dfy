/**
 * The .NET string operations the table processor relies on: `Trim`, `TrimEnd(char)`,
 * `string.IsNullOrWhiteSpace`, `string.Join` and `Contains` with
 * `StringComparison.OrdinalIgnoreCase`.
 */
module Text {

  /** `char.IsWhiteSpace`: the characters of the Unicode White_Space property. */
  predicate IsWhiteSpace(c: char)
  {
    c == ' ' || '\t' <= c <= '\r' || c == '\U{85}' || c == '\U{A0}' || c == '\U{1680}'
    || '\U{2000}' <= c <= '\U{200A}' || c == '\U{2028}' || c == '\U{2029}'
    || c == '\U{202F}' || c == '\U{205F}' || c == '\U{3000}'
  }

  /** `string.IsNullOrWhiteSpace` (a `null` string is modelled as the empty one). */
  predicate IsNullOrWhiteSpace(s: string)
  {
    forall i :: 0 <= i < |s| ==> IsWhiteSpace(s[i])
  }

  /** Neither end of `s` is white space. */
  predicate IsTrimmed(s: string)
  {
    s == [] || (!IsWhiteSpace(s[0]) && !IsWhiteSpace(s[|s| - 1]))
  }

  /** `s.TrimStart()`: drops the leading white space. */
  function TrimStart(s: string): string
    decreases |s|
  {
    if s != [] && IsWhiteSpace(s[0]) then TrimStart(s[1..]) else s
  }

  /** `TrimStart` keeps a suffix, drops only white space, and leaves no white space in front. */
  lemma {:induction false} TrimStartSpec(s: string)
    ensures |TrimStart(s)| <= |s| && TrimStart(s) == s[|s| - |TrimStart(s)|..]
    ensures IsNullOrWhiteSpace(s[..|s| - |TrimStart(s)|])
    ensures TrimStart(s) == [] || !IsWhiteSpace(TrimStart(s)[0])
    decreases |s|
  {
    if s != [] && IsWhiteSpace(s[0]) {
      TrimStartSpec(s[1..]);
      var r := TrimStart(s);
      assert s[..|s| - |r|] == [s[0]] + s[1..][..|s| - 1 - |r|];
    }
  }

  /** `s.TrimEnd()`: drops the trailing white space. */
  function TrimEnd(s: string): string
    decreases |s|
  {
    if s != [] && IsWhiteSpace(s[|s| - 1]) then TrimEnd(s[..|s| - 1]) else s
  }

  /** `TrimEnd` keeps a prefix, drops only white space, and leaves no white space at the end. */
  lemma {:induction false} TrimEndSpec(s: string)
    ensures |TrimEnd(s)| <= |s| && TrimEnd(s) == s[..|TrimEnd(s)|]
    ensures IsNullOrWhiteSpace(s[|TrimEnd(s)|..])
    ensures TrimEnd(s) == [] || !IsWhiteSpace(TrimEnd(s)[|TrimEnd(s)| - 1])
    decreases |s|
  {
    if s != [] && IsWhiteSpace(s[|s| - 1]) {
      var init := s[..|s| - 1];
      TrimEndSpec(init);
      var r := TrimEnd(s);
      assert s[|r|..] == init[|r|..] + [s[|s| - 1]];
    }
  }

  /** `r` is the infix of `s` starting at `i`, and everything of `s` around it is white space. */
  predicate IsCoreAt(s: string, r: string, i: int)
  {
    0 <= i <= |s| - |r| && r == s[i..i + |r|]
    && IsNullOrWhiteSpace(s[..i]) && IsNullOrWhiteSpace(s[i + |r|..])
  }

  /**
   * `s.Trim()`: the infix of `s` that neither starts nor ends with white space and has only
   * white space around it.
   */
  function Trim(s: string): string
  {
    TrimEnd(TrimStart(s))
  }

  /** The trimmed form is trimmed, and it is the infix of `s` left after the white space. */
  lemma TrimIsCore(s: string)
    ensures IsTrimmed(Trim(s))
    ensures exists i :: IsCoreAt(s, Trim(s), i)
  {
    var t := TrimStart(s);
    var r := TrimEnd(t);
    TrimStartSpec(s);
    TrimEndSpec(t);
    assert IsCoreAt(s, r, |s| - |t|) by {
      var i := |s| - |t|;
      assert s[i + |r|..] == t[|r|..];
    }
  }

  /** A string without white space at its ends is its own trimmed form. */
  lemma TrimOfTrimmed(s: string)
    requires IsTrimmed(s)
    ensures Trim(s) == s
  {
    TrimIsCore(s);
    var r := Trim(s);
    var i :| IsCoreAt(s, r, i);
  }

  /** Trimming is idempotent. */
  lemma TrimIdempotent(s: string)
    ensures Trim(Trim(s)) == Trim(s)
  {
    TrimIsCore(s);
    TrimOfTrimmed(Trim(s));
  }

  /** Trimming yields "" exactly on white-space-only input. */
  lemma TrimEmptyIff(s: string)
    ensures Trim(s) == [] <==> IsNullOrWhiteSpace(s)
  {
    TrimIsCore(s);
    var r := Trim(s);
    var i :| IsCoreAt(s, r, i);
    if r == [] {
      assert s == s[..i] + s[i..];
    } else {
      assert s[i] == r[0];
    }
  }

  /** `s.TrimEnd(c)`: drops every trailing occurrence of `c`, and nothing else. */
  function TrimEndChar(s: string, c: char): (r: string)
    ensures |r| <= |s| && r == s[..|r|]
    ensures forall i :: |r| <= i < |s| ==> s[i] == c
    ensures r == [] || r[|r| - 1] != c
    decreases |s|
  {
    if s != [] && s[|s| - 1] == c then TrimEndChar(s[..|s| - 1], c) else s
  }

  /** Ordinal case folding, restricted to the ASCII letters. */
  function ToLower(c: char): char
  {
    if 'A' <= c <= 'Z' then (c as int + 32) as char else c
  }

  /** `string.Equals(a, b, StringComparison.OrdinalIgnoreCase)` (ASCII folding). */
  predicate EqualsIgnoreCase(a: string, b: string)
  {
    |a| == |b| && forall i :: 0 <= i < |a| ==> ToLower(a[i]) == ToLower(b[i])
  }

  /** The window of `s` at `i` has the length of `sub` and equals it up to case. */
  predicate MatchesAt(s: string, sub: string, i: int)
  {
    0 <= i <= |s| - |sub| && EqualsIgnoreCase(s[i..i + |sub|], sub)
  }

  /**
   * `s.Contains(sub, StringComparison.OrdinalIgnoreCase)`: some window of `s` equals `sub` up
   * to case.
   */
  function ContainsIgnoreCase(s: string, sub: string): (b: bool)
    ensures b <==> exists i :: MatchesAt(s, sub, i)
    decreases |s|
  {
    if |s| < |sub| then false
    else if EqualsIgnoreCase(s[..|sub|], sub) then (assert MatchesAt(s, sub, 0); true)
    else
      var b := ContainsIgnoreCase(s[1..], sub);
      ShiftMatches(s, sub);
      b
  }

  lemma ShiftMatches(s: string, sub: string)
    requires s != []
    ensures (exists i :: MatchesAt(s, sub, i))
            <==> MatchesAt(s, sub, 0) || exists j :: MatchesAt(s[1..], sub, j)
  {
    forall i | 0 <= i ensures MatchesAt(s[1..], sub, i) <==> MatchesAt(s, sub, i + 1) {
      if 0 <= i <= |s| - 1 - |sub| {
        assert s[1..][i..i + |sub|] == s[i + 1..i + 1 + |sub|];
      }
    }
    if i :| MatchesAt(s, sub, i) {
      if i > 0 { assert MatchesAt(s[1..], sub, i - 1); }
    }
  }

  /** `string.Join(sep, parts)`. */
  function Join(sep: string, parts: seq<string>): string
  {
    if |parts| == 0 then ""
    else if |parts| == 1 then parts[0]
    else Join(sep, parts[..|parts| - 1]) + sep + parts[|parts| - 1]
  }
}
