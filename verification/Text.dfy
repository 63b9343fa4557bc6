/**
 * The part of JavaScript's `String.prototype.trim` that the submit handler
 * relies on: strip the leading and trailing white space and line terminators
 * (the ECMAScript WhiteSpace and LineTerminator productions).
 */
module Text {

  /** ECMAScript WhiteSpace or LineTerminator code point. */
  predicate IsTrimmable(c: char)
  {
    var n := c as int;
    || n == 0x09 || n == 0x0A || n == 0x0B || n == 0x0C || n == 0x0D  // TAB LF VT FF CR
    || n == 0x20 || n == 0xA0 || n == 0x1680                       // Space_Separator
    || (0x2000 <= n <= 0x200A) || n == 0x202F || n == 0x205F || n == 0x3000
    || n == 0x2028 || n == 0x2029                                  // LS PS
    || n == 0xFEFF                                                 // ZWNBSP
  }

  /** Every character of `s` is white space (the empty string included). */
  predicate IsBlank(s: string)
  {
    forall i :: 0 <= i < |s| ==> IsTrimmable(s[i])
  }

  /** `s` with its leading white space removed. */
  function TrimStart(s: string): (r: string)
    ensures |r| <= |s| && r == s[|s| - |r|..]
    ensures forall i :: 0 <= i < |s| - |r| ==> IsTrimmable(s[i])
    ensures r == [] || !IsTrimmable(r[0])
  {
    if |s| > 0 && IsTrimmable(s[0]) then TrimStart(s[1..]) else s
  }

  /** `s` with its trailing white space removed. */
  function TrimEnd(s: string): (r: string)
    ensures |r| <= |s| && r == s[..|r|]
    ensures forall i :: |r| <= i < |s| ==> IsTrimmable(s[i])
    ensures r == [] || !IsTrimmable(r[|r| - 1])
  {
    if |s| > 0 && IsTrimmable(s[|s| - 1]) then TrimEnd(s[..|s| - 1]) else s
  }

  /** Trimming an all-white string removes all of it. */
  lemma {:induction false} BlankTrimsToEmpty(s: string)
    requires IsBlank(s)
    ensures TrimStart(s) == []
    decreases |s|
  {
    if |s| > 0 {
      assert IsTrimmable(s[0]);
      assert IsBlank(s[1..]) by {
        forall i | 0 <= i < |s| - 1
          ensures IsTrimmable(s[1..][i])
        {
          assert s[1..][i] == s[i + 1];
        }
      }
      BlankTrimsToEmpty(s[1..]);
    }
  }

  /** A string with a non-white character does not trim to nothing. */
  lemma NonBlankTrimsToNonEmpty(s: string, i: int)
    requires 0 <= i < |s| && !IsTrimmable(s[i])
    ensures TrimEnd(TrimStart(s)) != []
  {
    var t := TrimStart(s);
    var k := |s| - |t|;
    assert k <= i;
    assert t[i - k] == s[i];
    var e := TrimEnd(t);
    assert !IsTrimmable(t[i - k]);
    assert |e| > i - k;
  }

  /** Stripping both ends leaves nothing exactly when `s` is all white space. */
  lemma TrimmedEmptyIffBlank(s: string)
    ensures TrimEnd(TrimStart(s)) == [] <==> IsBlank(s)
  {
    if IsBlank(s) {
      BlankTrimsToEmpty(s);
    } else {
      var i :| 0 <= i < |s| && !IsTrimmable(s[i]);
      NonBlankTrimsToNonEmpty(s, i);
    }
  }

  /** JavaScript's `s.trim()`: empty (falsy) exactly when `s` is all white space. */
  function Trim(s: string): (r: string)
    ensures r == [] <==> IsBlank(s)
  {
    TrimmedEmptyIffBlank(s);
    TrimEnd(TrimStart(s))
  }

  /** Trimming leaves a string with no white space at either end. */
  lemma TrimIsTrimmed(s: string)
    ensures var r := Trim(s); r == [] || (!IsTrimmable(r[0]) && !IsTrimmable(r[|r| - 1]))
  {
    var t := TrimStart(s);
    var r := TrimEnd(t);
    if r != [] {
      assert r[0] == t[0];
    }
  }
}
