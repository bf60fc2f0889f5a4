/**
 * The JavaScript string operations the core relies on: `split(' ')`,
 * `trim()` and `includes(...)` over strings as sequences of characters
 * (Unicode scalar values), and the UTF-16 code units a JavaScript string
 * is made of, which the browser-side scorer indexes.
 */
module Text {

  /** Number of occurrences of `c` in `s`. */
  function Count(s: string, c: char): (n: nat)
    ensures n <= |s|
  {
    if |s| == 0 then 0 else (if s[0] == c then 1 else 0) + Count(s[1..], c)
  }

  /**
   * `s.split(sep)` for a one-character separator: the pieces between
   * separators, empty pieces included; the empty string gives one empty piece.
   */
  function Split(s: string, sep: char): (pieces: seq<string>)
    ensures |pieces| == Count(s, sep) + 1
    ensures forall k :: 0 <= k < |pieces| ==> sep !in pieces[k]
  {
    if |s| == 0 then [""]
    else
      var rest := Split(s[1..], sep);
      if s[0] == sep then [""] + rest
      else [[s[0]] + rest[0]] + rest[1..]
  }

  /** `pieces.join(sep)`: the inverse of `Split`. */
  function Join(pieces: seq<string>, sep: char): string
    requires |pieces| >= 1
  {
    if |pieces| == 1 then pieces[0] else pieces[0] + [sep] + Join(pieces[1..], sep)
  }

  /** Splitting loses nothing: joining the pieces gives the string back. */
  lemma {:induction false} JoinOfSplit(s: string, sep: char)
    ensures Join(Split(s, sep), sep) == s
  {
    if |s| > 0 {
      JoinOfSplit(s[1..], sep);
      var rest := Split(s[1..], sep);
      if s[0] == sep {
        assert Split(s, sep) == [""] + rest;
        assert Join(Split(s, sep), sep) == [sep] + Join(rest, sep);
        assert s == [s[0]] + s[1..];
      } else {
        var pieces := Split(s, sep);
        assert pieces == [[s[0]] + rest[0]] + rest[1..];
        if |rest| == 1 {
          assert Join(pieces, sep) == [s[0]] + rest[0];
        } else {
          assert pieces[1..] == rest[1..];
          assert Join(pieces, sep) == [s[0]] + rest[0] + [sep] + Join(rest[1..], sep);
        }
        assert s == [s[0]] + s[1..];
      }
    }
  }

  /** A leading piece free of the separator stays one piece, glued to whatever follows it. */
  lemma {:induction false} SplitAfterPlainPrefix(p: string, t: string, sep: char)
    requires sep !in p
    ensures var rest := Split(t, sep); Split(p + t, sep) == [p + rest[0]] + rest[1..]
  {
    if |p| > 0 {
      SplitAfterPlainPrefix(p[1..], t, sep);
      assert (p + t)[1..] == p[1..] + t;
      assert (p + t)[0] == p[0];
      assert [p[0]] + (p[1..] + Split(t, sep)[0]) == p + Split(t, sep)[0];
    } else {
      var rest := Split(t, sep);
      assert p + t == t;
      assert p + rest[0] == rest[0];
      assert rest == [rest[0]] + rest[1..];
    }
  }

  /** Joining separator-free pieces and splitting again gives the same pieces. */
  lemma {:induction false} SplitOfJoin(pieces: seq<string>, sep: char)
    requires |pieces| >= 1
    requires forall k :: 0 <= k < |pieces| ==> sep !in pieces[k]
    ensures Split(Join(pieces, sep), sep) == pieces
  {
    if |pieces| == 1 {
      SplitAfterPlainPrefix(pieces[0], "", sep);
      assert pieces[0] + "" == pieces[0];
    } else {
      SplitOfJoin(pieces[1..], sep);
      var t := [sep] + Join(pieces[1..], sep);
      assert Split(t, sep) == [""] + Split(Join(pieces[1..], sep), sep) by {
        assert t[1..] == Join(pieces[1..], sep);
      }
      SplitAfterPlainPrefix(pieces[0], t, sep);
      assert pieces[0] + [sep] + Join(pieces[1..], sep) == pieces[0] + t;
      assert pieces[0] + "" == pieces[0];
      assert pieces == [pieces[0]] + pieces[1..];
    }
  }

  /**
   * The characters `String.prototype.trim` removes: the ECMAScript
   * WhiteSpace and LineTerminator code points.
   */
  predicate IsJsWhitespace(c: char)
  {
    || c == '\t' || c == '\n' || c == '\U{000B}' || c == '\U{000C}' || c == '\r' || c == ' '
    || c == '\U{00A0}' || c == '\U{1680}' || ('\U{2000}' <= c <= '\U{200A}')
    || c == '\U{2028}' || c == '\U{2029}' || c == '\U{202F}' || c == '\U{205F}'
    || c == '\U{3000}' || c == '\U{FEFF}'
  }

  /** `s` without its leading whitespace. */
  function TrimStart(s: string): (r: string)
    ensures |r| <= |s| && r == s[|s| - |r|..]
    ensures forall k :: 0 <= k < |s| - |r| ==> IsJsWhitespace(s[k])
    ensures |r| > 0 ==> !IsJsWhitespace(r[0])
  {
    if |s| > 0 && IsJsWhitespace(s[0]) then TrimStart(s[1..]) else s
  }

  /** `s` without its trailing whitespace. */
  function TrimEnd(s: string): (r: string)
    ensures |r| <= |s| && r == s[..|r|]
    ensures forall k :: |r| <= k < |s| ==> IsJsWhitespace(s[k])
    ensures |r| > 0 ==> !IsJsWhitespace(r[|r| - 1])
  {
    if |s| > 0 && IsJsWhitespace(s[|s| - 1]) then TrimEnd(s[..|s| - 1]) else s
  }

  /**
   * `s.trim()`: `s` without the whitespace at either end (what is removed
   * is described by `TrimStart` and `TrimEnd`).
   */
  function Trim(s: string): (r: string)
    ensures |r| <= |s|
    ensures |r| > 0 ==> !IsJsWhitespace(r[0]) && !IsJsWhitespace(r[|r| - 1])
  {
    var u := TrimStart(s);
    var r := TrimEnd(u);
    assert |r| > 0 ==> r[0] == u[0];
    r
  }

  /** A string that neither starts nor ends with whitespace is its own trim, so trimming twice is trimming once. */
  lemma TrimOfTrimmed(s: string)
    requires |s| > 0 ==> !IsJsWhitespace(s[0]) && !IsJsWhitespace(s[|s| - 1])
    ensures Trim(s) == s
  {
    assert TrimStart(s) == s;
    assert TrimEnd(s) == s;
  }

  /** Every character of `t` is whitespace. */
  predicate AllWhitespace(t: string)
  {
    forall k :: 0 <= k < |t| ==> IsJsWhitespace(t[k])
  }

  /**
   * What `trim` removes: `Trim(s)` is a slice of `s`, and everything before
   * and after that slice is whitespace.
   */
  lemma TrimIsMiddle(s: string)
    ensures exists a :: && 0 <= a <= |s| - |Trim(s)|
                        && Trim(s) == s[a..a + |Trim(s)|]
                        && AllWhitespace(s[..a])
                        && AllWhitespace(s[a + |Trim(s)|..])
  {
    var u := TrimStart(s);
    var r := TrimEnd(u);
    var a := |s| - |u|;
    TrimStartDropsWhitespace(s);
    TrimEndDropsWhitespace(u);
    SliceOfSuffix(s, a, r, u);
  }

  lemma TrimStartDropsWhitespace(s: string)
    ensures AllWhitespace(s[..|s| - |TrimStart(s)|])
  {
    var a := |s| - |TrimStart(s)|;
    forall k | 0 <= k < a
      ensures IsJsWhitespace(s[..a][k])
    {
      assert s[..a][k] == s[k];
    }
  }

  lemma TrimEndDropsWhitespace(u: string)
    ensures AllWhitespace(u[|TrimEnd(u)|..])
  {
    var b := |TrimEnd(u)|;
    forall k | 0 <= k < |u| - b
      ensures IsJsWhitespace(u[b..][k])
    {
      assert u[b..][k] == u[b + k];
    }
  }

  /** A prefix `r` of the suffix `u` of `s` starting at `a` is the slice of `s` at `a`. */
  lemma SliceOfSuffix(s: string, a: nat, r: string, u: string)
    requires a <= |s| && u == s[a..] && |r| <= |u| && r == u[..|r|]
    ensures r == s[a..a + |r|] && u[|r|..] == s[a + |r|..]
  {
  }

  /** `sub` occurs in `s` starting at index `i`. */
  ghost predicate OccursAt(s: string, sub: string, i: int)
  {
    0 <= i <= |s| - |sub| && s[i..i + |sub|] == sub
  }

  /** `s.includes(sub)`. */
  function Contains(s: string, sub: string): bool
  {
    if sub <= s then true
    else if |s| == 0 then false
    else Contains(s[1..], sub)
  }

  lemma SliceOfTail(s: string, a: int, b: int)
    requires 1 <= a <= b <= |s|
    ensures s[a..b] == s[1..][a - 1..b - 1]
  {
    assert forall k :: 0 <= k < b - a ==> s[a..b][k] == s[1..][a - 1..b - 1][k];
  }

  /** Where `sub` occurs in a non-empty `s`: at its start, or one further on than in its tail. */
  lemma OccursInTail(s: string, sub: string, i: int)
    requires |s| > 0
    ensures OccursAt(s, sub, i) <==> (i == 0 && sub <= s) || (i >= 1 && OccursAt(s[1..], sub, i - 1))
  {
    if i == 0 {
      assert s[0..|sub|] == s[..|sub|] <== |sub| <= |s|;
    } else if 1 <= i <= |s| - |sub| {
      SliceOfTail(s, i, i + |sub|);
    }
  }

  /** `Contains` holds exactly when `sub` occurs somewhere in `s`. */
  lemma {:induction false} ContainsIsSubstring(s: string, sub: string)
    ensures Contains(s, sub) <==> exists i :: OccursAt(s, sub, i)
  {
    if sub <= s {
      assert OccursAt(s, sub, 0);
    } else if |s| > 0 {
      ContainsIsSubstring(s[1..], sub);
      forall i
        ensures OccursAt(s, sub, i) <==> i >= 1 && OccursAt(s[1..], sub, i - 1)
      {
        OccursInTail(s, sub, i);
      }
      if Contains(s[1..], sub) {
        var j :| OccursAt(s[1..], sub, j);
        assert OccursAt(s, sub, j + 1);
      }
      if exists i :: OccursAt(s, sub, i) {
        var i :| OccursAt(s, sub, i);
        assert OccursAt(s[1..], sub, i - 1);
      }
    }
  }

  /** A UTF-16 code unit: the element of a JavaScript string. */
  newtype CodeUnit = x: int | 0 <= x < 0x1_0000

  predicate IsHighSurrogate(u: CodeUnit) { 0xD800 <= u <= 0xDBFF }

  predicate IsLowSurrogate(u: CodeUnit) { 0xDC00 <= u <= 0xDFFF }

  /** The UTF-16 encoding of one character: itself below U+10000, otherwise a surrogate pair. */
  function EncodeChar(c: char): (us: seq<CodeUnit>)
    ensures |us| == (if c as int < 0x1_0000 then 1 else 2)
    ensures |us| == 1 ==> us[0] as int == c as int && !IsHighSurrogate(us[0]) && !IsLowSurrogate(us[0])
    ensures |us| == 2 ==> IsHighSurrogate(us[0]) && IsLowSurrogate(us[1])
  {
    var v := c as int;
    if v < 0x1_0000 then [v as CodeUnit]
    else [(0xD800 + (v - 0x1_0000) / 0x400) as CodeUnit, (0xDC00 + (v - 0x1_0000) % 0x400) as CodeUnit]
  }

  /** The code units of a string as JavaScript holds it: each character encoded in turn. */
  function Utf16(s: string): (us: seq<CodeUnit>)
    ensures |us| >= |s|
  {
    if |s| == 0 then [] else EncodeChar(s[0]) + Utf16(s[1..])
  }

  /** Code units read back as characters; a lone surrogate reads as U+FFFD. */
  function FromUtf16(us: seq<CodeUnit>): string
  {
    if |us| == 0 then ""
    else if |us| >= 2 && IsHighSurrogate(us[0]) && IsLowSurrogate(us[1]) then
      [(0x1_0000 + (us[0] as int - 0xD800) * 0x400 + (us[1] as int - 0xDC00)) as char] + FromUtf16(us[2..])
    else if IsHighSurrogate(us[0]) || IsLowSurrogate(us[0]) then
      ['\U{FFFD}'] + FromUtf16(us[1..])
    else
      [us[0] as int as char] + FromUtf16(us[1..])
  }

  /** Reading back the encoding of one character yields that character. */
  lemma DecodeEncodedChar(c: char, rest: seq<CodeUnit>)
    ensures FromUtf16(EncodeChar(c) + rest) == [c] + FromUtf16(rest)
  {
    var us := EncodeChar(c) + rest;
    if c as int < 0x1_0000 {
      assert us[1..] == rest;
    } else {
      assert us[2..] == rest;
      assert 0x1_0000 + (us[0] as int - 0xD800) * 0x400 + (us[1] as int - 0xDC00) == c as int;
    }
  }

  /** Reading back a string's code units yields the string. */
  lemma {:induction false} Utf16RoundTrip(s: string)
    ensures FromUtf16(Utf16(s)) == s
  {
    if |s| > 0 {
      DecodeEncodedChar(s[0], Utf16(s[1..]));
      Utf16RoundTrip(s[1..]);
    }
  }

  /** Two strings have the same code units exactly when they are the same string. */
  lemma Utf16Injective(a: string, b: string)
    ensures Utf16(a) == Utf16(b) <==> a == b
  {
    Utf16RoundTrip(a);
    Utf16RoundTrip(b);
  }
}
