/** JavaScript strings are sequences of UTF-16 code units. `length`,
    `substring` and a regular expression without the `u` flag all count
    and cut code units, while a Dafny `string` counts characters. This
    module gives the code units of a string, so that the lengths the
    source measures are measured the same way here. */
module JsString {
  import opened Common

  /** A character of the Basic Multilingual Plane takes one code unit. */
  predicate IsBmp(c: char)
  {
    c as int < 0x10000
  }

  /** A surrogate code unit, half of the pair that encodes a character
      outside the Basic Multilingual Plane. */
  predicate IsSurrogate(u: int)
  {
    0xD800 <= u < 0xE000
  }

  /** The code units of one character: itself, or its surrogate pair. */
  function CodeUnits(c: char): (u: seq<int>)
    ensures |u| == if IsBmp(c) then 1 else 2
    ensures IsBmp(c) ==> u == [c as int]
    ensures !IsBmp(c) ==> IsSurrogate(u[0]) && IsSurrogate(u[1])
  {
    if IsBmp(c) then [c as int]
    else
      var v := c as int - 0x10000;
      [0xD800 + v / 0x400, 0xDC00 + v % 0x400]
  }

  /** The code units of a string, in order. */
  function Utf16(s: string): (u: seq<int>)
    ensures |s| <= |u| <= 2 * |s|
  {
    if s == [] then [] else CodeUnits(s[0]) + Utf16(s[1..])
  }

  lemma {:induction false} Utf16Append(a: string, b: string)
    ensures Utf16(a + b) == Utf16(a) + Utf16(b)
  {
    if a == [] {
      assert a + b == b;
    } else {
      assert (a + b)[1..] == a[1..] + b;
      Utf16Append(a[1..], b);
    }
  }

  /** On text without astral characters the two lengths agree. */
  lemma {:induction false} BmpLengthsAgree(s: string)
    requires forall i :: 0 <= i < |s| ==> IsBmp(s[i])
    ensures |Utf16(s)| == |s|
  {
    if s != [] {
      BmpLengthsAgree(s[1..]);
    }
  }

  /** An emoji is one character but two code units. */
  lemma AstralCharIsTwoUnits()
    ensures |"\U{1F600}"| == 1 && |Utf16("\U{1F600}")| == 2
  {
    assert Utf16("\U{1F600}") == CodeUnits('\U{1F600}') + Utf16([]);
  }

  /** The longest prefix of whole characters that fits in `n` code units.
      `substring(0, n)` may end in half a surrogate pair; that half is what
      this prefix leaves out. */
  function TakeUnits(s: string, n: nat): (t: string)
    ensures |t| <= |s| && t == s[..|t|]
    ensures |Utf16(t)| <= n
    ensures |t| < |s| ==> n < |Utf16(t)| + |CodeUnits(s[|t|])|
  {
    if s == [] || n < |CodeUnits(s[0])| then []
    else
      var rest := TakeUnits(s[1..], n - |CodeUnits(s[0])|);
      assert ([s[0]] + rest)[1..] == rest;
      [s[0]] + rest
  }

  /** A string that fits in `n` code units is kept whole. */
  lemma {:induction false} TakeUnitsWhole(s: string, n: nat)
    requires |Utf16(s)| <= n
    ensures TakeUnits(s, n) == s
  {
    if s != [] {
      TakeUnitsWhole(s[1..], n - |CodeUnits(s[0])|);
      assert [s[0]] + s[1..] == s;
    }
  }

  /** `substring(0, n)` on code units: the whole characters that fit in
      `n` units, then the part of the next character that still fits. That
      part is shorter than the character, so it is half a surrogate pair or
      nothing. */
  lemma SubstringUnits(s: string, n: nat)
    ensures var t := TakeUnits(s, n);
      && (|t| == |s| ==> Utf16(s)[..Min(n, |Utf16(s)|)] == Utf16(t))
      && (|t| < |s| ==> n - |Utf16(t)| < |CodeUnits(s[|t|])|
                        && Utf16(s)[..Min(n, |Utf16(s)|)] == Utf16(t) + CodeUnits(s[|t|])[..n - |Utf16(t)|])
  {
    var t := TakeUnits(s, n);
    var more := s[|t|..];
    assert Utf16(s) == Utf16(t) + Utf16(more) by {
      assert s == t + more;
      Utf16Append(t, more);
    }
    if more != [] {
      assert Utf16(more) == CodeUnits(more[0]) + Utf16(more[1..]);
    }
  }
}
