/** The JavaScript string built-ins the site relies on, over `seq<char>`:
    the `\s` character class and `String.prototype.trim` (both use the
    ECMAScript WhiteSpace and LineTerminator code points), `length`,
    `indexOf`, `lastIndexOf`, `endsWith`, and the `x || default` fallback.
    A `char` is a Unicode scalar value; `length` counts UTF-16 code units. */
module JsText {
  import opened Wrappers

  /** WhiteSpace or LineTerminator in ECMAScript: what `\s` matches and what
      `trim` strips. */
  predicate IsWhiteSpace(c: char)
  {
    || c == '\t' || c == '\n' || c == '\U{B}' || c == '\U{C}' || c == '\r'
    || c == ' ' || c == '\U{A0}' || c == '\U{1680}'
    || ('\U{2000}' <= c <= '\U{200A}')
    || c == '\U{2028}' || c == '\U{2029}' || c == '\U{202F}' || c == '\U{205F}'
    || c == '\U{3000}' || c == '\U{FEFF}'
  }

  predicate IsAsciiLetter(c: char)
  {
    ('a' <= c <= 'z') || ('A' <= c <= 'Z')
  }

  predicate IsAsciiDigit(c: char)
  {
    '0' <= c <= '9'
  }

  /** JavaScript truthiness of an optional string: `undefined`, `null` and
      `''` are falsy. */
  predicate Truthy(o: Option<string>)
  {
    o.Some? && o.value != ""
  }

  /** `s || fallback` for an optional string. */
  function OrString(o: Option<string>, fallback: string): (r: string)
    ensures Truthy(o) ==> r == o.value
    ensures !Truthy(o) ==> r == fallback
  {
    if Truthy(o) then o.value else fallback
  }

  /** `n || fallback` for a number that may be missing or NaN (`None`):
      zero is falsy too. */
  function OrInt(o: Option<int>, fallback: int): (r: int)
    ensures r == fallback || (o.Some? && r == o.value && o.value != 0)
    ensures o.Some? && o.value != 0 ==> r == o.value
  {
    if o.Some? && o.value != 0 then o.value else fallback
  }

  /** `x || fallback` over real numbers (a parsed float; `None` is NaN or a
      missing attribute). */
  function OrReal(o: Option<real>, fallback: real): (r: real)
    ensures r == fallback || (o.Some? && r == o.value && o.value != 0.0)
    ensures o.Some? && o.value != 0.0 ==> r == o.value
  {
    if o.Some? && o.value != 0.0 then o.value else fallback
  }

  /** A character outside the Basic Multilingual Plane, which UTF-16
      stores as a surrogate pair. */
  predicate IsAstral(c: char)
  {
    c as int >= 0x1_0000
  }

  /** `s.length`: the number of UTF-16 code units, two for an astral
      character and one for any other. */
  function Utf16Length(s: string): (n: nat)
    ensures |s| <= n <= 2 * |s|
  {
    if s == [] then 0 else (if IsAstral(s[0]) then 2 else 1) + Utf16Length(s[1..])
  }

  /** `length` is the number of characters exactly when none is astral. */
  lemma {:induction false} Utf16LengthIsSize(s: string)
    ensures Utf16Length(s) == |s| <==> forall i :: 0 <= i < |s| ==> !IsAstral(s[i])
  {
    if s != [] {
      Utf16LengthIsSize(s[1..]);
      assert forall i :: 1 <= i < |s| ==> s[i] == s[1..][i - 1];
    }
  }

  /** `length` adds up over concatenation. */
  lemma {:induction false} Utf16LengthAppend(a: string, b: string)
    ensures Utf16Length(a + b) == Utf16Length(a) + Utf16Length(b)
  {
    if a == [] {
      assert a + b == b;
    } else {
      assert (a + b)[1..] == a[1..] + b;
      Utf16LengthAppend(a[1..], b);
    }
  }

  /** Dropping a prefix never makes `length` grow. */
  lemma {:induction false} Utf16LengthDrop(s: string, i: nat)
    requires i <= |s|
    ensures Utf16Length(s[i..]) <= Utf16Length(s)
  {
    if i > 0 {
      assert s[i..] == s[1..][i - 1..];
      Utf16LengthDrop(s[1..], i - 1);
    }
  }

  /** Keeping a prefix never makes `length` grow. */
  lemma {:induction false} Utf16LengthTake(s: string, j: nat)
    requires j <= |s|
    ensures Utf16Length(s[..j]) <= Utf16Length(s)
  {
    if j > 0 {
      assert s[..j][1..] == s[1..][..j - 1];
      Utf16LengthTake(s[1..], j - 1);
    }
  }

  /** A slice is never longer than the string it is cut from; in particular
      a trimmed value is never longer than the value. */
  lemma Utf16LengthSlice(s: string, i: nat, j: nat)
    requires i <= j <= |s|
    ensures Utf16Length(s[i..j]) <= Utf16Length(s)
  {
    assert s[i..j] == s[..j][i..];
    Utf16LengthDrop(s[..j], i);
    Utf16LengthTake(s, j);
  }

  /** Number of white-space characters at the front of `s`. */
  function LeadingWhiteSpace(s: string): (n: nat)
    ensures n <= |s|
    ensures forall i :: 0 <= i < n ==> IsWhiteSpace(s[i])
    ensures n < |s| ==> !IsWhiteSpace(s[n])
  {
    if |s| > 0 && IsWhiteSpace(s[0]) then 1 + LeadingWhiteSpace(s[1..]) else 0
  }

  /** Number of white-space characters at the end of `s`. */
  function TrailingWhiteSpace(s: string): (n: nat)
    ensures n <= |s|
    ensures forall i :: |s| - n <= i < |s| ==> IsWhiteSpace(s[i])
    ensures n < |s| ==> !IsWhiteSpace(s[|s| - n - 1])
  {
    if |s| > 0 && IsWhiteSpace(s[|s| - 1]) then 1 + TrailingWhiteSpace(s[..|s| - 1]) else 0
  }

  /** `String.prototype.trim`. */
  function Trim(s: string): (r: string)
    ensures |r| <= |s|
    ensures LeadingWhiteSpace(s) + |r| <= |s|
    ensures r == s[LeadingWhiteSpace(s)..LeadingWhiteSpace(s) + |r|]
    ensures forall i :: LeadingWhiteSpace(s) + |r| <= i < |s| ==> IsWhiteSpace(s[i])
    ensures r == [] || (!IsWhiteSpace(r[0]) && !IsWhiteSpace(r[|r| - 1]))
  {
    var t := s[LeadingWhiteSpace(s)..];
    t[..|t| - TrailingWhiteSpace(t)]
  }

  /** Trimming never makes `length` grow. */
  lemma Utf16LengthTrim(s: string)
    ensures Utf16Length(Trim(s)) <= Utf16Length(s)
  {
    Utf16LengthSlice(s, LeadingWhiteSpace(s), LeadingWhiteSpace(s) + |Trim(s)|);
  }

  /** Trimming a second time changes nothing. */
  lemma TrimIdempotent(s: string)
    ensures Trim(Trim(s)) == Trim(s)
  {
    var r := Trim(s);
    assert LeadingWhiteSpace(r) == 0;
    assert TrailingWhiteSpace(r) == 0;
  }

  /** A string that is all white space trims to the empty string, and only
      such a string does. */
  lemma TrimEmptyIff(s: string)
    ensures Trim(s) == [] <==> forall i :: 0 <= i < |s| ==> IsWhiteSpace(s[i])
  {
    if Trim(s) != [] {
      var k := LeadingWhiteSpace(s);
      assert s[k] == Trim(s)[0];
    }
  }

  /** `s.indexOf(c)`: the first position of `c`, or -1. */
  function IndexOf(s: string, c: char): (r: int)
    ensures -1 <= r < |s|
    ensures r >= 0 ==> s[r] == c && forall i :: 0 <= i < r ==> s[i] != c
    ensures r == -1 ==> forall i :: 0 <= i < |s| ==> s[i] != c
  {
    if |s| == 0 then -1
    else if s[0] == c then 0
    else
      var k := IndexOf(s[1..], c);
      if k < 0 then -1 else k + 1
  }

  /** `s.lastIndexOf(c)`: the last position of `c`, or -1. */
  function LastIndexOf(s: string, c: char): (r: int)
    ensures -1 <= r < |s|
    ensures r >= 0 ==> s[r] == c && forall i :: r < i < |s| ==> s[i] != c
    ensures r == -1 ==> forall i :: 0 <= i < |s| ==> s[i] != c
  {
    if |s| == 0 then -1
    else if s[|s| - 1] == c then |s| - 1
    else LastIndexOf(s[..|s| - 1], c)
  }

  /** The first `c` is at `k` when `s[k]` is `c` and no earlier one is. */
  lemma IndexOfAt(s: string, c: char, k: nat)
    requires k < |s| && s[k] == c && forall i :: 0 <= i < k ==> s[i] != c
    ensures IndexOf(s, c) == k
  {
    var r := IndexOf(s, c);
    assert r != -1 by { assert s[k] == c; }
    assert !(r < k) && !(r > k);
  }

  /** The last `c` is at `k` when `s[k]` is `c` and no later one is. */
  lemma LastIndexOfAt(s: string, c: char, k: nat)
    requires k < |s| && s[k] == c && forall i :: k < i < |s| ==> s[i] != c
    ensures LastIndexOf(s, c) == k
  {
    var r := LastIndexOf(s, c);
    assert r != -1 by { assert s[k] == c; }
    assert !(r < k) && !(r > k);
  }

  /** `s.endsWith(suffix)`. */
  predicate EndsWith(s: string, suffix: string)
  {
    |suffix| <= |s| && s[|s| - |suffix|..] == suffix
  }
}
