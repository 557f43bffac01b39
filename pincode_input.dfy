/** The PIN / password input (src/features/pincode/PincodeInput.tsx): the
    props chosen for each input type, and the sanitising its change handler
    applies before passing the event on. The React rendering is not part of
    this model. */
module PincodeInput {
  import opened Common
  import opened PincodeUtils
  import opened JsString

  /** `PincodeInputType`, a numeric enum: 0..3 are its members and any other
      number is a value outside it. */
  const NewPincode: int := 0
  const CurrentPincode: int := 1
  const NewPassword: int := 2
  const CurrentPassword: int := 3

  datatype InputProps = InputProps(placeholder: Option<string>, inputMode: string, autoComplete: string)

  /** `getPropsForInputType`. */
  function GetPropsForInputType(inputType: int): (r: Result<InputProps>)
    ensures r.Success? <==> NewPincode <= inputType <= CurrentPassword
    ensures r.Success? ==> (r.value.inputMode == "numeric" <==> inputType == NewPincode || inputType == CurrentPincode)
    ensures r.Success? && r.value.inputMode == "numeric" ==> r.value.placeholder == Some("123456") && r.value.autoComplete == "off"
    ensures r.Success? && r.value.inputMode != "numeric" ==> r.value.inputMode == "text" && r.value.placeholder.None?
    ensures inputType == NewPassword ==> r == Success(InputProps(None, "text", "new-password"))
    ensures inputType == CurrentPassword ==> r == Success(InputProps(None, "text", "current-password"))
  {
    if inputType == NewPincode || inputType == CurrentPincode then
      Success(InputProps(Some("123456"), "numeric", "off"))
    else if inputType == NewPassword then
      Success(InputProps(None, "text", "new-password"))
    else if inputType == CurrentPassword then
      Success(InputProps(None, "text", "current-password"))
    else
      Failure("Unsupported Pincode Type")
  }

  /** The characters of the regular-expression class `\s`. */
  predicate IsJsWhitespace(c: char)
  {
    || c == '\t' || c == '\n' || c == '\U{000B}' || c == '\U{000C}' || c == '\r' || c == ' '
    || c == '\U{00A0}' || c == '\U{1680}' || ('\U{2000}' <= c <= '\U{200A}')
    || c == '\U{2028}' || c == '\U{2029}' || c == '\U{202F}' || c == '\U{205F}'
    || c == '\U{3000}' || c == '\U{FEFF}'
  }

  /** `s.replace(/[^0-9]/g, '')`: the digits of `s`, in order. */
  function KeepDigits(s: string): (r: string)
    ensures |r| <= |s|
    ensures forall i :: 0 <= i < |r| ==> IsAsciiDigit(r[i])
  {
    if s == [] then []
    else if IsAsciiDigit(s[0]) then [s[0]] + KeepDigits(s[1..])
    else KeepDigits(s[1..])
  }

  /** `s.replace(/[\s]/g, '')`: the non-whitespace characters of `s`, in order. */
  function DropWhitespace(s: string): (r: string)
    ensures |r| <= |s|
    ensures forall i :: 0 <= i < |r| ==> !IsJsWhitespace(r[i])
  {
    if s == [] then []
    else if IsJsWhitespace(s[0]) then DropWhitespace(s[1..])
    else [s[0]] + DropWhitespace(s[1..])
  }

  /** A single character is kept exactly when it is a digit. With
      `KeepDigitsAppend` this fixes `KeepDigits` on every string. */
  lemma KeepDigitsOfChar(c: char)
    ensures KeepDigits([c]) == if IsAsciiDigit(c) then [c] else []
  {
    assert [c][1..] == [];
  }

  /** A single character is dropped exactly when it is whitespace. With
      `DropWhitespaceAppend` this fixes `DropWhitespace` on every string. */
  lemma DropWhitespaceOfChar(c: char)
    ensures DropWhitespace([c]) == if IsJsWhitespace(c) then [] else [c]
  {
    assert [c][1..] == [];
  }

  /** Filtering distributes over concatenation: what is kept keeps its order. */
  lemma {:induction false} KeepDigitsAppend(a: string, b: string)
    ensures KeepDigits(a + b) == KeepDigits(a) + KeepDigits(b)
  {
    if a != [] {
      assert (a + b)[1..] == a[1..] + b;
      KeepDigitsAppend(a[1..], b);
    } else {
      assert a + b == b;
    }
  }

  lemma {:induction false} DropWhitespaceAppend(a: string, b: string)
    ensures DropWhitespace(a + b) == DropWhitespace(a) + DropWhitespace(b)
  {
    if a != [] {
      assert (a + b)[1..] == a[1..] + b;
      DropWhitespaceAppend(a[1..], b);
    } else {
      assert a + b == b;
    }
  }

  /** A string with no character to remove is left as it is. */
  lemma {:induction false} KeepDigitsOfDigits(s: string)
    requires forall i :: 0 <= i < |s| ==> IsAsciiDigit(s[i])
    ensures KeepDigits(s) == s
  {
    if s != [] {
      KeepDigitsOfDigits(s[1..]);
    }
  }

  lemma {:induction false} DropWhitespaceOfClean(s: string)
    requires forall i :: 0 <= i < |s| ==> !IsJsWhitespace(s[i])
    ensures DropWhitespace(s) == s
  {
    if s != [] {
      DropWhitespaceOfClean(s[1..]);
    }
  }

  /** The value `handleChange` writes back for a truthy input value. In
      numeric mode `substring(0, 6)` keeps six code units; a surrogate half
      it may leave at the end is not a digit, so keeping the whole
      characters that fit gives the same digits. */
  function Sanitize(value: string, inputMode: string): (r: string)
    ensures inputMode == "numeric" ==> |r| <= 6 && forall i :: 0 <= i < |r| ==> IsAsciiDigit(r[i])
    ensures inputMode != "numeric" ==> forall i :: 0 <= i < |r| ==> !IsJsWhitespace(r[i])
  {
    if inputMode == "numeric" then KeepDigits(TakeUnits(value, 6))
    else DropWhitespace(value)
  }

  /** `replace(/[^0-9]/g, '')` on code units, as JavaScript applies it. */
  function KeepDigitUnits(u: seq<int>): seq<int>
  {
    if u == [] then []
    else (if 0x30 <= u[0] <= 0x39 then [u[0]] else []) + KeepDigitUnits(u[1..])
  }

  lemma {:induction false} KeepDigitUnitsAppend(a: seq<int>, b: seq<int>)
    ensures KeepDigitUnits(a + b) == KeepDigitUnits(a) + KeepDigitUnits(b)
  {
    if a == [] {
      assert a + b == b;
    } else {
      assert (a + b)[1..] == a[1..] + b;
      KeepDigitUnitsAppend(a[1..], b);
    }
  }

  /** The digit units of one character are the units of its digits. */
  lemma DigitUnitsOfChar(c: char)
    ensures KeepDigitUnits(CodeUnits(c)) == Utf16(KeepDigits([c]))
  {
    KeepDigitsOfChar(c);
    var u := CodeUnits(c);
    if IsBmp(c) {
      assert u[1..] == [];
      assert Utf16([c]) == CodeUnits(c) + Utf16([c][1..]);
    } else {
      assert !IsAsciiDigit(c);
      assert KeepDigits([c]) == [];
      assert u[1..][1..] == [];
      assert KeepDigitUnits(u[1..]) == [];
    }
  }

  /** Keeping digit units commutes with encoding: a digit is one unit and
      no other character has a digit unit. */
  lemma {:induction false} DigitUnitsOfString(x: string)
    ensures KeepDigitUnits(Utf16(x)) == Utf16(KeepDigits(x))
  {
    if x != [] {
      DigitUnitsOfString(x[1..]);
      KeepDigitUnitsAppend(CodeUnits(x[0]), Utf16(x[1..]));
      DigitUnitsOfChar(x[0]);
      KeepDigitsAppend([x[0]], x[1..]);
      assert [x[0]] + x[1..] == x;
      Utf16Append(KeepDigits([x[0]]), KeepDigits(x[1..]));
    }
  }

  /** Keeping the digits of the whole characters within the first `n` code
      units gives, unit for unit, the digits of the first `n` code units. */
  lemma DigitsOfTakeUnits(s: string, n: nat)
    ensures Utf16(KeepDigits(TakeUnits(s, n))) == KeepDigitUnits(Utf16(s)[..Min(n, |Utf16(s)|)])
  {
    var t := TakeUnits(s, n);
    SubstringUnits(s, n);
    DigitUnitsOfString(t);
    if |t| < |s| {
      var cut := CodeUnits(s[|t|])[..n - |Utf16(t)|];
      KeepDigitUnitsAppend(Utf16(t), cut);
      NoDigitsInCutChar(s[|t|], n - |Utf16(t)|);
    }
  }

  /** A character cut by `substring` is a surrogate pair cut in half, and
      its first half is not a digit. */
  lemma NoDigitsInCutChar(c: char, n: nat)
    requires n < |CodeUnits(c)|
    ensures KeepDigitUnits(CodeUnits(c)[..n]) == []
  {
    var pre := CodeUnits(c)[..n];
    if n == 1 {
      assert pre[1..] == [];
    }
  }

  /** Numeric mode, stated on code units as JavaScript runs it: the result
      is the digits among the first six code units of the value. */
  lemma NumericSanitizeOnCodeUnits(value: string)
    ensures Utf16(Sanitize(value, "numeric")) == KeepDigitUnits(Utf16(value)[..Min(6, |Utf16(value)|)])
  {
    DigitsOfTakeUnits(value, 6);
  }

  /** Splitting a value anywhere splits its digits at the same place. */
  lemma KeepDigitsSplit(value: string, n: nat)
    requires n <= |value|
    ensures KeepDigits(value) == KeepDigits(value[..n]) + KeepDigits(value[n..])
  {
    assert value == value[..n] + value[n..];
    KeepDigitsAppend(value[..n], value[n..]);
  }

  /** Numeric mode truncates first and filters second: a value of at most
      six code units just loses its non-digits, and of a longer one the
      digits after the cut are exactly what is lost. */
  lemma NumericTruncatesBeforeFiltering(value: string)
    ensures |Utf16(value)| <= 6 ==> Sanitize(value, "numeric") == KeepDigits(value)
    ensures var n := |TakeUnits(value, 6)|;
      && |Utf16(value[..n])| <= 6
      && (n < |value| ==> 6 < |Utf16(value[..n])| + |CodeUnits(value[n])|)
      && KeepDigits(value) == Sanitize(value, "numeric") + KeepDigits(value[n..])
  {
    var n := |TakeUnits(value, 6)|;
    assert KeepDigits(value) == Sanitize(value, "numeric") + KeepDigits(value[n..]) by {
      KeepDigitsSplit(value, n);
    }
    if |Utf16(value)| <= 6 {
      TakeUnitsWhole(value, 6);
    }
  }

  /** Sanitising a sanitised value changes nothing, in both modes. */
  lemma SanitizeIdempotent(value: string, inputMode: string)
    ensures Sanitize(Sanitize(value, inputMode), inputMode) == Sanitize(value, inputMode)
  {
    var once := Sanitize(value, inputMode);
    if inputMode == "numeric" {
      assert forall i :: 0 <= i < |once| ==> IsBmp(once[i]);
      BmpLengthsAgree(once);
      TakeUnitsWhole(once, 6);
      KeepDigitsOfDigits(once);
    } else {
      DropWhitespaceOfClean(once);
    }
  }

  /** The DOM input element whose `value` the handler rewrites. */
  class InputTarget {
    var value: Option<string>

    constructor (initial: Option<string>)
      ensures value == initial
    {
      value := initial;
    }
  }

  /** The parent's `onChange`: each call records the value it received. */
  class ChangeListener {
    var received: seq<Option<string>>

    constructor ()
      ensures received == []
    {
      received := [];
    }

    method OnChange(target: InputTarget)
      modifies this
      ensures received == old(received) + [target.value]
    {
      received := received + [target.value];
    }
  }

  /** `handleChange`: an empty or absent value passes through untouched;
      otherwise the sanitised value is written back first. Either way the
      listener is called exactly once, with what the target then holds. */
  method HandleChange(target: InputTarget, inputMode: string, listener: ChangeListener)
    modifies target, listener
    ensures old(target.value).None? || old(target.value) == Some("") ==> target.value == old(target.value)
    ensures old(target.value).Some? && old(target.value) != Some("") ==>
      target.value == Some(Sanitize(old(target.value).value, inputMode))
    ensures listener.received == old(listener.received) + [target.value]
  {
    var value := target.value;
    if value.Some? && value.value != "" {
      var sanitized := Sanitize(value.value, inputMode);
      target.value := Some(sanitized);
    }
    listener.OnChange(target);
  }
}
