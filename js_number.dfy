/**
 * parseInt(s, 10) as the routes and the environment reader use it: leading
 * white space is skipped, an optional sign is read, then the longest run of
 * decimal digits; anything after the digits is ignored, and a string with
 * no digits there is NaN (None here).
 */
module JsNumber {
  import opened Common

  /** The length of the run of decimal digits at the start of s. */
  function DigitRun(s: string): (n: nat)
    ensures n <= |s|
    ensures forall i :: 0 <= i < n ==> IsDigit(s[i])
    ensures n < |s| ==> !IsDigit(s[n])
  {
    if |s| == 0 || !IsDigit(s[0]) then 0 else 1 + DigitRun(s[1..])
  }

  /** The value of a string of decimal digits, read left to right. */
  function DigitsValue(s: string): nat
  {
    if |s| == 0 then 0
    else DigitsValue(s[..|s| - 1]) * 10 + (if IsDigit(s[|s| - 1]) then s[|s| - 1] as int - '0' as int else 0)
  }

  /** The leading digits of s as a number; None when s does not start with a digit. */
  function LeadingDigits(s: string): (r: Option<nat>)
    ensures r.None? <==> |s| == 0 || !IsDigit(s[0])
  {
    var n := DigitRun(s);
    if n == 0 then None else Some(DigitsValue(s[..n]))
  }

  function ParseInt(s: string): (r: Option<int>)
  {
    var t := TrimStart(s);
    if |t| > 0 && t[0] == '-' then
      match LeadingDigits(t[1..])
      case None => None
      case Some(v) => Some(-(v as int))
    else if |t| > 0 && t[0] == '+' then
      match LeadingDigits(t[1..])
      case None => None
      case Some(v) => Some(v)
    else
      match LeadingDigits(t)
      case None => None
      case Some(v) => Some(v)
  }

  /** The digits of a number read back as the number. */
  lemma {:induction false} DigitsOfNat(n: nat)
    ensures DigitsValue(NatString(n)) == n
    decreases n
  {
    if n >= 10 {
      DigitsOfNat(n / 10);
      var s := NatString(n);
      assert s[..|s| - 1] == NatString(n / 10);
    }
  }

  /** The digit run stops exactly where the digits stop. */
  lemma {:induction false} DigitRunAppend(digits: string, tail: string)
    requires forall i :: 0 <= i < |digits| ==> IsDigit(digits[i])
    requires |tail| == 0 || !IsDigit(tail[0])
    ensures DigitRun(digits + tail) == |digits|
    decreases |digits|
  {
    if |digits| > 0 {
      assert (digits + tail)[1..] == digits[1..] + tail;
      DigitRunAppend(digits[1..], tail);
    } else {
      assert digits + tail == tail;
    }
  }

  lemma LeadingDigitsAppend(digits: string, tail: string)
    requires |digits| > 0 && forall i :: 0 <= i < |digits| ==> IsDigit(digits[i])
    requires |tail| == 0 || !IsDigit(tail[0])
    ensures LeadingDigits(digits + tail) == Some(DigitsValue(digits))
  {
    DigitRunAppend(digits, tail);
    assert (digits + tail)[..|digits|] == digits;
  }

  lemma TrimStartOfNonSpace(s: string)
    requires |s| > 0 && !IsJsSpace(s[0])
    ensures TrimStart(s) == s
  {
  }

  /** parseInt reads back String(i) for every integer i. */
  lemma ParseIntString(i: int)
    ensures ParseInt(IntString(i)) == Some(i)
  {
    var s := IntString(i);
    var m: nat := if i < 0 then -i else i;
    var digits := NatString(m);
    TrimStartOfNonSpace(s);
    LeadingDigitsAppend(digits, "");
    assert digits + "" == digits;
    DigitsOfNat(m);
    if i < 0 {
      assert s[1..] == digits;
    }
  }

  /** Whatever follows the digits is ignored. */
  lemma ParseIntIgnoresTail(digits: string, tail: string)
    requires |digits| > 0 && forall i :: 0 <= i < |digits| ==> IsDigit(digits[i])
    requires |tail| == 0 || !IsDigit(tail[0])
    ensures ParseInt(digits + tail) == Some(DigitsValue(digits))
  {
    var s := digits + tail;
    assert s[0] == digits[0];
    TrimStartOfNonSpace(s);
    LeadingDigitsAppend(digits, tail);
  }

  /** A string whose first non-space character is neither a sign nor a digit is NaN. */
  lemma ParseIntNaN(s: string)
    requires var t := TrimStart(s); |t| == 0 || (t[0] != '-' && t[0] != '+' && !IsDigit(t[0]))
    ensures ParseInt(s) == None
  {
  }

  /** parseInt('1'): the default page. */
  lemma ParseIntOne()
    ensures ParseInt("1") == Some(1)
  {
    ParseIntIgnoresTail("1", "");
    assert "1" + "" == "1";
    assert DigitsValue("1") == 1 by {
      assert "1"[..0] == "";
    }
  }

  /** parseInt('10'): the default page size. */
  lemma ParseIntTen()
    ensures ParseInt("10") == Some(10)
  {
    ParseIntIgnoresTail("10", "");
    assert "10" + "" == "10";
    assert DigitsValue("10") == 10 by {
      assert "10"[..1] == "1";
      assert "1"[..0] == "";
    }
  }

  /** parseInt('12px') stops at the first non-digit. */
  lemma ParseIntUnits()
    ensures ParseInt("12px") == Some(12)
  {
    ParseIntIgnoresTail("12", "px");
    assert "12" + "px" == "12px";
    assert DigitsValue("12") == 12 by {
      assert "12"[..1] == "1";
      assert "1"[..0] == "";
    }
  }
}
