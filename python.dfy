/** The pieces of Python's built-in behaviour that the safety classifiers rely on:
    `None`, raised exceptions, floats that may be NaN or infinite, `str.strip()` and `round(x, 2)`. */
module Python {

  /** `Optional[T]`: `None` or a value. */
  datatype Option<+T> = None | Some(value: T)

  /** The exceptions the modelled code raises or catches. */
  datatype Exception = TypeError | ValueError | KeyError

  /** What a call does: it returns a value or raises an exception. */
  datatype Outcome<+T> = Returned(value: T) | Raised(error: Exception)

  /** A Python `float` as far as the model tells them apart: a finite value, or NaN / +inf / -inf.
      Every comparison the modelled code makes is false for NaN, and `0.0 <= x <= 1.0` is false for
      both infinities, so the three non-finite values behave alike here. */
  datatype Float = Finite(value: real) | NonFinite

  /** `0.0 <= x <= 1.0` on a float. */
  predicate InUnitInterval(x: Float) {
    x.Finite? && 0.0 <= x.value <= 1.0
  }

  /** `str.isspace()` on one character: the characters Python treats as whitespace. */
  predicate IsSpace(c: char) {
    var n := c as int;
    || 0x09 <= n <= 0x0D || 0x1C <= n <= 0x20 || n == 0x85 || n == 0xA0 || n == 0x1680
    || 0x2000 <= n <= 0x200A || n == 0x2028 || n == 0x2029 || n == 0x202F || n == 0x205F || n == 0x3000
  }

  /** The string holds whitespace only (possibly nothing at all). */
  predicate IsBlank(s: string) {
    forall k :: 0 <= k < |s| ==> IsSpace(s[k])
  }

  /** `str.lstrip()`: whitespace removed from the start. */
  function TrimStart(s: string): string {
    if s != [] && IsSpace(s[0]) then TrimStart(s[1..]) else s
  }

  /** `str.rstrip()`: whitespace removed from the end. */
  function TrimEnd(s: string): string {
    if s != [] && IsSpace(s[|s| - 1]) then TrimEnd(s[..|s| - 1]) else s
  }

  /** `lstrip` keeps the longest suffix that does not start with whitespace. */
  lemma {:induction false} TrimStartKeepsSuffix(s: string)
    ensures var r := TrimStart(s);
      && |r| <= |s| && r == s[|s| - |r|..]
      && (forall k :: 0 <= k < |s| - |r| ==> IsSpace(s[k]))
      && (r != [] ==> !IsSpace(r[0]))
  {
    if s != [] && IsSpace(s[0]) {
      TrimStartKeepsSuffix(s[1..]);
    }
  }

  /** `rstrip` keeps the longest prefix that does not end with whitespace. */
  lemma {:induction false} TrimEndKeepsPrefix(s: string)
    ensures var r := TrimEnd(s);
      && |r| <= |s| && r == s[..|r|]
      && (forall k :: |r| <= k < |s| ==> IsSpace(s[k]))
      && (r != [] ==> !IsSpace(r[|r| - 1]))
  {
    if s != [] && IsSpace(s[|s| - 1]) {
      TrimEndKeepsPrefix(s[..|s| - 1]);
    }
  }

  /** `str.strip()` with no argument: whitespace removed from both ends. The result is the slice
      `s[a..b]` left after dropping only whitespace before `a` and after `b`. */
  function Strip(s: string): (r: string)
    ensures |r| <= |s|
    ensures r != [] ==> !IsSpace(r[0]) && !IsSpace(r[|r| - 1])
    ensures exists a, b ::
      && 0 <= a <= b <= |s| && r == s[a..b]
      && (forall k :: 0 <= k < a ==> IsSpace(s[k]))
      && (forall k :: b <= k < |s| ==> IsSpace(s[k]))
  {
    var t := TrimStart(s);
    TrimStartKeepsSuffix(s);
    TrimEndKeepsPrefix(t);
    var r := TrimEnd(t);
    var a, b := |s| - |t|, |s| - |t| + |r|;
    assert r == s[a..b];
    assert forall k :: b <= k < |s| ==> IsSpace(s[k]) by {
      forall k | b <= k < |s| ensures IsSpace(s[k]) {
        assert s[k] == t[k - a];
      }
    }
    r
  }

  /** `s.strip()` is empty exactly when `s` is blank. */
  lemma {:induction false} StripEmptyIffBlank(s: string)
    ensures Strip(s) == [] <==> IsBlank(s)
  {
    var t := TrimStart(s);
    TrimStartKeepsSuffix(s);
    TrimEndKeepsPrefix(t);
    if Strip(s) == [] {
      // every character of `t` is whitespace, so `t` cannot start with a non-space: it is empty
      assert t == [];
    } else {
      var r := Strip(s);
      assert t != [];
      assert r[0] == t[0] == s[|s| - |t|];
    }
  }

  /** Stripping a stripped string changes nothing. */
  lemma StripIdempotent(s: string)
    ensures Strip(Strip(s)) == Strip(s)
  {
    var r := Strip(s);
    if r != [] {
      TrimStartKeepsSuffix(r);
      TrimEndKeepsPrefix(r);
      assert TrimStart(r) == r;
      assert TrimEnd(r) == r;
    }
  }

  /** `round(x, 2)`. Only the properties below are relied on: the result is a whole number of
      hundredths within half a hundredth of `x`, and it stays in [0, 1] when `x` does. */
  function Round2(x: real): (r: real)
    ensures -0.005 <= r - x <= 0.005
    ensures (r * 100.0).Floor as real == r * 100.0
    ensures 0.0 <= x <= 1.0 ==> 0.0 <= r <= 1.0
  {
    ((x * 100.0 + 0.5).Floor as real) / 100.0
  }
}
