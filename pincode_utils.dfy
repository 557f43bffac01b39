/** Secret strength rules (src/features/pincode/utils.ts). A secret type is
    the string 'pincode' or 'password'; `None` is `undefined`, and any other
    string is a value outside the declared union. */
module PincodeUtils {
  import opened Common
  import opened JsString

  /** `PIN_BLACKLIST`. */
  const PinBlacklist: seq<string> := [
    "000000", "111111", "222222", "333333", "444444",
    "555555", "666666", "777777", "888888", "999999",
    "123456", "654321"
  ]

  /** `c` repeated `n` times. */
  function Repeat(c: char, n: nat): (s: string)
    ensures |s| == n && forall i :: 0 <= i < n ==> s[i] == c
  {
    if n == 0 then "" else [c] + Repeat(c, n - 1)
  }

  predicate IsAsciiDigit(c: char) { '0' <= c <= '9' }
  predicate IsAsciiLower(c: char) { 'a' <= c <= 'z' }
  predicate IsAsciiUpper(c: char) { 'A' <= c <= 'Z' }

  /** The characters a regular-expression `.` does not match. */
  predicate IsLineTerminator(c: char)
  {
    c == '\n' || c == '\r' || c == '\U{2028}' || c == '\U{2029}'
  }

  /** Every digit's six-fold repetition is blacklisted. */
  lemma BlacklistHasEveryRepeatedDigit(d: char)
    requires IsAsciiDigit(d)
    ensures Repeat(d, 6) in PinBlacklist
  {
    var r := Repeat(d, 6);
    assert r == [d, d, d, d, d, d];
    var k := (d as int) - ('0' as int);
    assert 0 <= k < 10;
    assert PinBlacklist[k] == [d, d, d, d, d, d] by {
      if k < 5 {
        if k == 0 { assert d == '0'; } else if k == 1 { assert d == '1'; }
        else if k == 2 { assert d == '2'; } else if k == 3 { assert d == '3'; }
        else { assert d == '4'; }
      } else {
        if k == 5 { assert d == '5'; } else if k == 6 { assert d == '6'; }
        else if k == 7 { assert d == '7'; } else if k == 8 { assert d == '8'; }
        else { assert d == '9'; }
      }
    }
  }

  /** A six-digit PIN, the only shape the numeric input lets through. */
  predicate IsSixDigitPin(p: string)
  {
    |p| == 6 && forall i :: 0 <= i < 6 ==> IsAsciiDigit(p[i])
  }

  /** Besides the repeated digits the blacklist holds only the two runs
      123456 and 654321. */
  lemma BlacklistShape()
    ensures |PinBlacklist| == 12
    ensures PinBlacklist[10] == "123456" && PinBlacklist[11] == "654321"
    ensures forall i :: 0 <= i < 10 ==> PinBlacklist[i] == Repeat(PinBlacklist[i][0], 6)
  {
    forall i | 0 <= i < 10
      ensures PinBlacklist[i] == Repeat(PinBlacklist[i][0], 6)
    {
      var c := PinBlacklist[i][0];
      assert Repeat(c, 6) == [c, c, c, c, c, c];
    }
  }

  /** Every blacklisted entry is a six-digit PIN. */
  lemma BlacklistIsSixDigitPins()
    ensures forall i :: 0 <= i < |PinBlacklist| ==> IsSixDigitPin(PinBlacklist[i])
  {
    forall i | 0 <= i < |PinBlacklist|
      ensures IsSixDigitPin(PinBlacklist[i])
    {
      var p := PinBlacklist[i];
      if i < 10 {
        BlacklistShape();
        assert IsAsciiDigit(p[0]);
      } else if i == 10 {
        assert p == "123456";
      } else {
        assert p == "654321";
      }
    }
  }

  /** Whether some character of `s` satisfies `p` (one lookahead of the
      password pattern scans for it). */
  function HasCharWhere(s: string, p: char -> bool): (b: bool)
    ensures b <==> exists i :: 0 <= i < |s| && p(s[i])
  {
    if s == [] then false
    else if p(s[0]) then true
    else
      var rest := HasCharWhere(s[1..], p);
      assert forall i :: 1 <= i < |s| ==> s[i] == s[1..][i - 1];
      rest
  }

  /** `/^(?=.*\d)(?=.*[a-z])(?=.*[A-Z]).{6,30}$/`: six to thirty code units
      (the pattern has no `u` flag, so `.` matches each half of a surrogate
      pair), none a line terminator, with a digit, a lowercase and an
      uppercase ASCII letter among them. */
  function MatchesPasswordPattern(value: string): (m: bool)
    ensures m <==>
      && 6 <= |Utf16(value)| <= 30
      && (forall i :: 0 <= i < |value| ==> !IsLineTerminator(value[i]))
      && (exists i :: 0 <= i < |value| && IsAsciiDigit(value[i]))
      && (exists i :: 0 <= i < |value| && IsAsciiLower(value[i]))
      && (exists i :: 0 <= i < |value| && IsAsciiUpper(value[i]))
  {
    && 6 <= |Utf16(value)| <= 30
    && !HasCharWhere(value, IsLineTerminator)
    && HasCharWhere(value, IsAsciiDigit)
    && HasCharWhere(value, IsAsciiLower)
    && HasCharWhere(value, IsAsciiUpper)
  }

  /** How a template literal renders a possibly undefined secret type. */
  function SecretTypeText(secretType: Option<string>): string
  {
    if secretType.None? then "undefined" else secretType.value
  }

  /** `isSecretTooSimple`. */
  function IsSecretTooSimple(value: string, secretType: Option<string>): (r: Result<bool>)
    ensures secretType == Some("pincode") ==> r == Success(value in PinBlacklist)
    ensures secretType == Some("password") ==> r.Success? && (r.value <==> !MatchesPasswordPattern(value))
    ensures r.Failure? <==> secretType != Some("pincode") && secretType != Some("password")
    ensures r.Failure? ==> r.error == "Invalid secret type: " + SecretTypeText(secretType)
  {
    if secretType == Some("pincode") then Success(value in PinBlacklist)
    else if secretType == Some("password") then Success(!MatchesPasswordPattern(value))
    else Failure("Invalid secret type: " + SecretTypeText(secretType))
  }

  /** Any password that is too short or too long, counted in code units,
      is too simple; so is every string of more than thirty characters. */
  lemma PasswordLengthBounds(value: string)
    ensures |Utf16(value)| < 6 || |Utf16(value)| > 30 ==> IsSecretTooSimple(value, Some("password")) == Success(true)
    ensures |value| > 30 ==> IsSecretTooSimple(value, Some("password")) == Success(true)
  {
  }

  /** `n` copies of a character take `n` times its code units. */
  lemma {:induction false} RepeatUnits(c: char, n: nat)
    ensures |Utf16(Repeat(c, n))| == n * |CodeUnits(c)|
  {
    if n > 0 {
      RepeatUnits(c, n - 1);
      assert Repeat(c, n)[1..] == Repeat(c, n - 1);
    }
  }

  /** Three ASCII characters and `n` emoji make `n + 3` characters but
      `2n + 3` code units: from fourteen emoji on (seventeen characters,
      31 units) the pattern refuses them, although they are far fewer than
      thirty characters. */
  lemma AstralPasswordTooLong(n: nat)
    ensures var p := "Aa1" + Repeat('\U{1F600}', n);
      && |p| == n + 3 && |Utf16(p)| == 2 * n + 3
      && (n >= 14 ==> IsSecretTooSimple(p, Some("password")) == Success(true))
  {
    var p := "Aa1" + Repeat('\U{1F600}', n);
    assert |Utf16(p)| == 2 * n + 3 by {
      Utf16Append("Aa1", Repeat('\U{1F600}', n));
      RepeatUnits('\U{1F600}', n);
      BmpLengthsAgree("Aa1");
    }
  }

  /** `s` with its first letter, when a lowercase ASCII letter, in upper case. */
  function CapitalizeFirst(s: string): (r: string)
    ensures |r| == |s| && (s != [] ==> r[1..] == s[1..])
    ensures s != [] && IsAsciiLower(s[0]) ==> IsAsciiUpper(r[0]) && r[0] as int == s[0] as int - 32
    ensures s == [] || !IsAsciiLower(s[0]) ==> r == s
  {
    if s != [] && IsAsciiLower(s[0]) then [(s[0] as int - 32) as char] + s[1..] else s
  }

  /** `secretTypeToLabel`: the type's own name, with a capital first letter
      exactly when `capitalize`. */
  function SecretTypeToLabel(secretType: Option<string>, capitalize: bool): (r: Result<string>)
    ensures r.Success? <==> secretType == Some("pincode") || secretType == Some("password")
    ensures r.Failure? ==> r.error == "Invalid secret type: " + SecretTypeText(secretType)
    ensures r.Success? ==>
      r.value == if capitalize then CapitalizeFirst(secretType.value) else secretType.value
  {
    if secretType == Some("pincode") then Success(if capitalize then "Pincode" else "pincode")
    else if secretType == Some("password") then Success(if capitalize then "Password" else "password")
    else Failure("Invalid secret type: " + SecretTypeText(secretType))
  }
}
