/**
 * Shared vocabulary of the model: optional values and the handful of
 * JavaScript string built-ins (trim, ASCII case mapping, join, split) that
 * the backend's routes and utilities lean on.
 */
module Common {

  datatype Option<T> = None | Some(value: T)

  /** A user's role. */
  datatype Role = Student | Tutor | Admin

  /** The roles that may author packages and read the tutor views. */
  predicate IsStaff(r: Role)
  {
    r == Tutor || r == Admin
  }

  /** An existing user with a staff role. */
  predicate StaffUser(user: Option<Role>)
  {
    user.Some? && IsStaff(user.value)
  }

  /** Sum of a sequence of integers, left to right. */
  function Sum(xs: seq<int>): int
  {
    if |xs| == 0 then 0 else Sum(xs[..|xs| - 1]) + xs[|xs| - 1]
  }

  lemma SumAppend(xs: seq<int>, x: int)
    ensures Sum(xs + [x]) == Sum(xs) + x
  {
    assert (xs + [x])[..|xs|] == xs;
  }

  /**
   * White space as JavaScript's String.prototype.trim and the regular
   * expression class \s see it: the ECMAScript WhiteSpace and
   * LineTerminator code points.
   */
  predicate IsJsSpace(c: char)
  {
    c == '\t' || c == '\n' || c == '\U{000B}' || c == '\U{000C}' || c == '\r' || c == ' '
    || c == '\U{00A0}' || c == '\U{1680}' || ('\U{2000}' <= c <= '\U{200A}')
    || c == '\U{2028}' || c == '\U{2029}' || c == '\U{202F}' || c == '\U{205F}'
    || c == '\U{3000}' || c == '\U{FEFF}'
  }

  /** Leading white space removed. */
  function TrimStart(s: string): (r: string)
    ensures |r| <= |s| && r == s[|s| - |r|..]
    ensures |r| == 0 || !IsJsSpace(r[0])
    ensures forall i :: 0 <= i < |s| - |r| ==> IsJsSpace(s[i])
  {
    if |s| == 0 || !IsJsSpace(s[0]) then s else TrimStart(s[1..])
  }

  /** Trailing white space removed. */
  function TrimEnd(s: string): (r: string)
    ensures |r| <= |s| && r == s[..|r|]
    ensures |r| == 0 || !IsJsSpace(r[|r| - 1])
    ensures forall i :: |r| <= i < |s| ==> IsJsSpace(s[i])
  {
    if |s| == 0 || !IsJsSpace(s[|s| - 1]) then s else TrimEnd(s[..|s| - 1])
  }

  /** String.prototype.trim: white space removed at both ends. */
  function Trim(s: string): (r: string)
    ensures |r| == 0 || (!IsJsSpace(r[0]) && !IsJsSpace(r[|r| - 1]))
    ensures |r| <= |s|
    ensures StripsTo(s, r)
  {
    var a := TrimStart(s);
    var r := TrimEnd(a);
    assert |r| > 0 ==> r[0] == a[0];
    StripEnd(a, r);
    StripStart(s, a, r);
    r
  }

  /**
   * r is what is left of s after white space is removed, one character at a
   * time, from either end. Together with "no white space at either end" this
   * pins the result of trim() down.
   */
  predicate StripsTo(s: string, r: string)
    decreases |s|
  {
    s == r
    || (|s| > 0 && IsJsSpace(s[0]) && StripsTo(s[1..], r))
    || (|s| > 0 && IsJsSpace(s[|s| - 1]) && StripsTo(s[..|s| - 1], r))
  }

  lemma {:induction false} StripEnd(a: string, r: string)
    requires |r| <= |a| && r == a[..|r|] && forall k :: |r| <= k < |a| ==> IsJsSpace(a[k])
    ensures StripsTo(a, r)
    decreases |a|
  {
    if |a| > |r| {
      var a' := a[..|a| - 1];
      assert r == a'[..|r|];
      StripEnd(a', r);
    } else {
      assert a == r;
    }
  }

  lemma {:induction false} StripStart(s: string, a: string, r: string)
    requires |a| <= |s| && a == s[|s| - |a|..] && forall k :: 0 <= k < |s| - |a| ==> IsJsSpace(s[k])
    requires StripsTo(a, r)
    ensures StripsTo(s, r)
    decreases |s|
  {
    if |s| > |a| {
      assert a == s[1..][|s[1..]| - |a|..];
      StripStart(s[1..], a, r);
    } else {
      assert s == a;
    }
  }

  /** What trim() keeps is the slice between the leading and the trailing white space. */
  lemma TrimIsInfix(s: string)
    ensures exists i, j :: 0 <= i <= j <= |s| && Trim(s) == s[i..j] && Blank(s[..i]) && Blank(s[j..])
  {
    TrimInfix(s, TrimStart(s), TrimEnd(TrimStart(s)));
  }

  /** What trim() keeps is the slice between the leading and the trailing white space. */
  lemma TrimInfix(s: string, a: string, r: string)
    requires |a| <= |s| && a == s[|s| - |a|..] && forall k :: 0 <= k < |s| - |a| ==> IsJsSpace(s[k])
    requires |r| <= |a| && r == a[..|r|] && forall k :: |r| <= k < |a| ==> IsJsSpace(a[k])
    ensures exists i, j :: 0 <= i <= j <= |s| && r == s[i..j] && Blank(s[..i]) && Blank(s[j..])
  {
    var i := |s| - |a|;
    var j := i + |r|;
    assert r == s[i..j] by {
      forall k | 0 <= k < |r|
        ensures r[k] == s[i..j][k]
      {
        assert r[k] == a[k] == s[i + k];
      }
    }
    SpacesAreBlank(s[..i]);
    forall k | 0 <= k < |s[j..]|
      ensures IsJsSpace(s[j..][k])
    {
      assert s[j..][k] == a[|r| + k];
    }
    SpacesAreBlank(s[j..]);
  }

  lemma {:induction false} SpacesAreBlank(t: string)
    requires forall k :: 0 <= k < |t| ==> IsJsSpace(t[k])
    ensures Blank(t)
    decreases |t|
  {
    if |t| > 0 {
      assert forall k :: 0 <= k < |t[1..]| ==> t[1..][k] == t[k + 1];
      SpacesAreBlank(t[1..]);
    }
  }

  /** Nothing but white space: what trim() reduces to "". */
  predicate Blank(s: string)
  {
    |s| == 0 || (IsJsSpace(s[0]) && Blank(s[1..]))
  }

  lemma {:induction false} BlankIffTrimsToEmpty(s: string)
    ensures Blank(s) <==> Trim(s) == ""
    decreases |s|
  {
    if |s| > 0 {
      BlankIffTrimsToEmpty(s[1..]);
      if IsJsSpace(s[0]) {
        assert TrimStart(s) == TrimStart(s[1..]);
        assert Trim(s) == Trim(s[1..]);
      } else {
        assert TrimStart(s) == s;
        assert TrimEnd(s)[0] == s[0];
      }
    }
  }

  /** A string with no white space at either end is its own trim. */
  lemma TrimOfTrimmed(s: string)
    requires |s| == 0 || (!IsJsSpace(s[0]) && !IsJsSpace(s[|s| - 1]))
    ensures Trim(s) == s
  {
  }

  /** Trimming is idempotent. */
  lemma TrimIdempotent(s: string)
    ensures Trim(Trim(s)) == Trim(s)
  {
    TrimOfTrimmed(Trim(s));
  }

  predicate IsUpperAscii(c: char) { 'A' <= c <= 'Z' }
  predicate IsLowerAscii(c: char) { 'a' <= c <= 'z' }
  predicate IsDigit(c: char) { '0' <= c <= '9' }

  /** toLowerCase on one character; only the ASCII letters are mapped. */
  function LowerChar(c: char): (r: char)
    ensures IsUpperAscii(c) ==> IsLowerAscii(r) && r as int == c as int + 32
    ensures !IsUpperAscii(c) ==> r == c
  {
    if IsUpperAscii(c) then (c as int + 32) as char else c
  }

  /** toUpperCase on one character; only the ASCII letters are mapped. */
  function UpperChar(c: char): (r: char)
    ensures IsLowerAscii(c) ==> IsUpperAscii(r) && r as int == c as int - 32
    ensures !IsLowerAscii(c) ==> r == c
  {
    if IsLowerAscii(c) then (c as int - 32) as char else c
  }

  function Lower(s: string): (r: string)
    ensures |r| == |s|
    ensures forall i :: 0 <= i < |s| ==> r[i] == LowerChar(s[i])
  {
    if |s| == 0 then [] else [LowerChar(s[0])] + Lower(s[1..])
  }

  function Upper(s: string): (r: string)
    ensures |r| == |s|
    ensures forall i :: 0 <= i < |s| ==> r[i] == UpperChar(s[i])
  {
    if |s| == 0 then [] else [UpperChar(s[0])] + Upper(s[1..])
  }

  /** Array.prototype.join. */
  function Join(parts: seq<string>, sep: string): string
  {
    if |parts| == 0 then []
    else if |parts| == 1 then parts[0]
    else parts[0] + sep + Join(parts[1..], sep)
  }

  /** True when c occurs in s. */
  predicate Contains(s: string, c: char)
  {
    exists i :: 0 <= i < |s| && s[i] == c
  }

  /** needle occurs in s as a contiguous run (String.prototype.includes, SQL LIKE '%needle%'). */
  predicate HasSubstring(s: string, needle: string)
  {
    exists i :: 0 <= i <= |s| && OccursAt(s, needle, i)
  }

  predicate OccursAt(s: string, needle: string, i: nat)
  {
    i + |needle| <= |s| && s[i..i + |needle|] == needle
  }

  /** Position of the first occurrence of c in s, if any. */
  function IndexOf(s: string, c: char): (r: Option<nat>)
    ensures r.None? <==> !Contains(s, c)
    ensures r.Some? ==>
      r.value < |s| && s[r.value] == c && forall i :: 0 <= i < r.value ==> s[i] != c
  {
    if |s| == 0 then None
    else if s[0] == c then Some(0)
    else match IndexOf(s[1..], c)
      case None => None
      case Some(k) => Some(k + 1)
  }

  /** String.prototype.split on a one-character separator. */
  function Split(s: string, sep: char): (r: seq<string>)
    ensures |r| >= 1
    ensures forall i :: 0 <= i < |r| ==> !Contains(r[i], sep)
    decreases |s|
  {
    match IndexOf(s, sep)
      case None => [s]
      case Some(k) => [s[..k]] + Split(s[k + 1..], sep)
  }

  /** Joining the pieces of a split with the separator gives the string back. */
  lemma {:induction false} JoinSplit(s: string, sep: char)
    ensures Join(Split(s, sep), [sep]) == s
    decreases |s|
  {
    match IndexOf(s, sep)
      case None =>
      case Some(k) =>
        var rest := Split(s[k + 1..], sep);
        assert Split(s, sep) == [s[..k]] + rest;
        assert ([s[..k]] + rest)[1..] == rest;
        JoinSplit(s[k + 1..], sep);
        assert Join(Split(s, sep), [sep]) == s[..k] + [sep] + Join(rest, [sep]);
        assert s == s[..k] + [sep] + s[k + 1..];
  }

  /** The decimal digits of a natural number (Number.prototype.toString). */
  function NatString(n: nat): (s: string)
    ensures |s| >= 1
    ensures forall i :: 0 <= i < |s| ==> IsDigit(s[i])
  {
    if n < 10 then ['0' + n as char] else NatString(n / 10) + ['0' + (n % 10) as char]
  }

  /** String(i) of an integer: a minus sign for negative values, then the digits. */
  function IntString(i: int): (s: string)
    ensures |s| >= 1
    ensures forall k :: 0 <= k < |s| ==> IsDigit(s[k]) || s[k] == '-'
  {
    if i < 0 then "-" + NatString(-i) else NatString(i)
  }

  /** Array.from(new Set(xs)): the distinct elements in order of first occurrence. */
  function Distinct<T(==,!new)>(xs: seq<T>): (r: seq<T>)
    ensures forall x :: x in r <==> x in xs
    ensures forall i, j :: 0 <= i < j < |r| ==> r[i] != r[j]
    ensures |r| <= |xs|
  {
    if |xs| == 0 then []
    else
      var d := Distinct(xs[..|xs| - 1]);
      assert forall x :: x in xs ==> x in xs[..|xs| - 1] || x == xs[|xs| - 1];
      if xs[|xs| - 1] in d then d else d + [xs[|xs| - 1]]
  }

  /** One more element joins the distinct elements unless it is already there. */
  lemma DistinctSnoc<T(!new)>(xs: seq<T>, b: T)
    ensures Distinct(xs + [b]) == if b in xs then Distinct(xs) else Distinct(xs) + [b]
  {
    assert (xs + [b])[..|xs|] == xs;
  }
}
