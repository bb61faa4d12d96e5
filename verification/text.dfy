/** The JavaScript string operations the application relies on, over
    `string` (a sequence of characters): `toLowerCase`, `includes`,
    `indexOf`, `startsWith`, `endsWith`, `replace` with a string pattern,
    `trim`, `length` in UTF-16 code units, and decimal rendering of
    non-negative integers. */
module Text {
  import opened Wrappers

  // ---------------------------------------------------------------------
  // Lower-casing
  // ---------------------------------------------------------------------

  /** Upper-case letters of the Latin-1 range: A-Z and U+00C0..U+00DE
      except the multiplication sign U+00D7. */
  predicate IsUpperLatin1(c: char) {
    ('A' <= c <= 'Z') || ('\U{00C0}' <= c <= '\U{00DE}' && c != '\U{00D7}')
  }

  /** `toLowerCase` on one character of the Latin-1 range; every other
      character is left as it is. */
  function LowerChar(c: char): (d: char)
    ensures IsUpperLatin1(c) ==> d as int == c as int + 32
    ensures !IsUpperLatin1(c) ==> d == c
    ensures !IsUpperLatin1(d)
  {
    if IsUpperLatin1(c) then (c as int + 32) as char else c
  }

  function ToLower(s: string): (r: string)
    ensures |r| == |s|
    ensures forall i :: 0 <= i < |s| ==> r[i] == LowerChar(s[i])
  {
    if |s| == 0 then "" else [LowerChar(s[0])] + ToLower(s[1..])
  }

  /** Lower-casing twice is lower-casing once. */
  lemma ToLowerIdempotent(s: string)
    ensures ToLower(ToLower(s)) == ToLower(s)
  {
    var t := ToLower(s);
    assert forall i :: 0 <= i < |t| ==> LowerChar(t[i]) == t[i];
  }

  /** Lower-casing works character by character, so it distributes over
      concatenation. */
  lemma ToLowerAppend(a: string, b: string)
    ensures ToLower(a + b) == ToLower(a) + ToLower(b)
  {
    var l := ToLower(a + b);
    var r := ToLower(a) + ToLower(b);
    forall i | 0 <= i < |l|
      ensures l[i] == r[i]
    {
      if i < |a| {
        assert (a + b)[i] == a[i];
      } else {
        assert (a + b)[i] == b[i - |a|];
      }
    }
  }

  /** A string with no upper-case letter is its own lower-case form. */
  lemma ToLowerOfLower(s: string)
    requires forall i :: 0 <= i < |s| ==> !IsUpperLatin1(s[i])
    ensures ToLower(s) == s
  {
  }

  /** Lower-casing gives `t` when it does so character by character. */
  lemma ToLowerPointwise(s: string, t: string)
    requires |s| == |t|
    requires forall i :: 0 <= i < |s| ==> LowerChar(s[i]) == t[i]
    ensures ToLower(s) == t
  {
  }

  // ---------------------------------------------------------------------
  // Searching
  // ---------------------------------------------------------------------

  /** `pat` occurs in `s` starting at index `i`. */
  predicate OccursAt(s: string, pat: string, i: int) {
    0 <= i && i + |pat| <= |s| && s[i..i + |pat|] == pat
  }

  /** First occurrence of `pat` in `s` at an index not below `from`. */
  function IndexOfFrom(s: string, pat: string, from: nat): (r: Option<nat>)
    ensures r.Some? ==> from <= r.value && OccursAt(s, pat, r.value)
    ensures r.Some? ==> forall j :: from <= j < r.value ==> !OccursAt(s, pat, j)
    ensures r.None? ==> forall j :: from <= j ==> !OccursAt(s, pat, j)
    decreases |s| - from
  {
    if from + |pat| > |s| then None
    else if s[from..from + |pat|] == pat then Some(from)
    else IndexOfFrom(s, pat, from + 1)
  }

  /** `s.indexOf(pat)`, with `None` for -1. */
  function IndexOf(s: string, pat: string): Option<nat> {
    IndexOfFrom(s, pat, 0)
  }

  /** `s.includes(pat)`. */
  predicate Includes(s: string, pat: string) {
    IndexOf(s, pat).Some?
  }

  /** `includes` holds exactly when some index holds an occurrence. */
  lemma IncludesIff(s: string, pat: string)
    ensures Includes(s, pat) <==> exists i :: OccursAt(s, pat, i)
  {
    var r := IndexOf(s, pat);
    if r.Some? {
      assert OccursAt(s, pat, r.value);
    }
  }

  /** An occurrence inside `s` is an occurrence inside any extension of it. */
  lemma IncludesExtend(s: string, pat: string, pre: string, post: string)
    requires Includes(s, pat)
    ensures Includes(pre + s + post, pat)
  {
    var i := IndexOf(s, pat).value;
    var t := pre + s + post;
    assert t[|pre| + i..|pre| + i + |pat|] == s[i..i + |pat|];
    assert OccursAt(t, pat, |pre| + i);
    IncludesIff(t, pat);
  }

  /** A word written anywhere inside a text is found in its lower-cased
      form by a search for the word's lower-cased form. */
  lemma IncludesLowered(pre: string, w: string, post: string)
    ensures Includes(ToLower(pre + w + post), ToLower(w))
  {
    ToLowerAppend(pre + w, post);
    ToLowerAppend(pre, w);
    var lw := ToLower(w);
    assert OccursAt(lw, lw, 0);
    IncludesIff(lw, lw);
    IncludesExtend(lw, lw, ToLower(pre), ToLower(post));
  }

  lemma EveryStringIncludesEmpty(s: string)
    ensures Includes(s, "")
  {
    assert OccursAt(s, "", 0);
    IncludesIff(s, "");
  }

  predicate StartsWith(s: string, p: string) {
    |p| <= |s| && s[..|p|] == p
  }

  predicate EndsWith(s: string, p: string) {
    |p| <= |s| && s[|s| - |p|..] == p
  }

  // ---------------------------------------------------------------------
  // Replacing
  // ---------------------------------------------------------------------

  /** `s.replace(pat, rep)` with a string pattern: only the FIRST
      occurrence is replaced; without one, `s` is returned unchanged. */
  function ReplaceFirst(s: string, pat: string, rep: string): (r: string)
    ensures !Includes(s, pat) ==> r == s
    ensures Includes(s, pat) ==>
      var i := IndexOf(s, pat).value;
      r == s[..i] + rep + s[i + |pat|..]
  {
    match IndexOf(s, pat)
    case None => s
    case Some(i) => s[..i] + rep + s[i + |pat|..]
  }

  /** Removing a prefix with `replace`: the first occurrence of a pattern
      that starts the string is the prefix itself. */
  lemma ReplacePrefix(pat: string, rest: string)
    ensures ReplaceFirst(pat + rest, pat, "") == rest
  {
    var s := pat + rest;
    assert s[0..|pat|] == pat;
    assert OccursAt(s, pat, 0);
    assert IndexOf(s, pat) == Some(0);
  }

  /** A pattern whose first character occurs only once in it cannot start
      inside `x` and run into a copy of itself appended to `x`. */
  lemma NoStraddle(x: string, pat: string, j: int)
    requires |pat| > 0
    requires forall k :: 0 < k < |pat| ==> pat[k] != pat[0]
    requires 0 <= j < |x| < j + |pat|
    ensures !OccursAt(x + pat, pat, j)
  {
    var s := x + pat;
    var k := |x| - j;
    assert s[|x|] == pat[0];
    if j + |pat| <= |s| {
      assert s[j..j + |pat|][k] == pat[0] != pat[k];
    }
  }

  /** Removing a suffix with `replace`: when `x` does not contain `pat` and
      the first character of `pat` appears nowhere else in `pat`, the first
      occurrence of `pat` in `x + pat` is the trailing one. */
  lemma ReplaceTrailing(x: string, pat: string)
    requires |pat| > 0
    requires forall k :: 0 < k < |pat| ==> pat[k] != pat[0]
    requires !Includes(x, pat)
    ensures ReplaceFirst(x + pat, pat, "") == x
  {
    var s := x + pat;
    IncludesIff(x, pat);
    forall j | 0 <= j < |x|
      ensures !OccursAt(s, pat, j)
    {
      if j + |pat| <= |x| {
        assert !OccursAt(x, pat, j);
        assert x[j..j + |pat|] == s[j..j + |pat|];
      } else {
        NoStraddle(x, pat, j);
      }
    }
    assert s[|x|..|x| + |pat|] == pat;
    assert OccursAt(s, pat, |x|);
    assert IndexOf(s, pat) == Some(|x|);
    assert s[..|x|] == x;
  }

  // ---------------------------------------------------------------------
  // Trimming
  // ---------------------------------------------------------------------

  /** The characters `String.prototype.trim` removes: white space
      (tab, vertical tab, form feed, space, no-break space, byte order mark
      and the Unicode space separators) and line terminators. */
  predicate IsJsSpace(c: char) {
    || c == '\t' || c == '\n' || c == '\U{000B}' || c == '\U{000C}' || c == '\r'
    || c == ' ' || c == '\U{00A0}' || c == '\U{1680}'
    || ('\U{2000}' <= c <= '\U{200A}')
    || c == '\U{2028}' || c == '\U{2029}' || c == '\U{202F}' || c == '\U{205F}'
    || c == '\U{3000}' || c == '\U{FEFF}'
  }

  predicate IsBlank(s: string) {
    forall i :: 0 <= i < |s| ==> IsJsSpace(s[i])
  }

  function TrimStart(s: string): (r: string)
    ensures |r| <= |s| && r == s[|s| - |r|..]
    ensures r == "" || !IsJsSpace(r[0])
    ensures IsBlank(s[..|s| - |r|])
  {
    if |s| > 0 && IsJsSpace(s[0]) then
      var r := TrimStart(s[1..]);
      assert s[..|s| - |r|] == [s[0]] + s[1..][..|s[1..]| - |r|];
      r
    else s
  }

  function TrimEnd(s: string): (r: string)
    ensures |r| <= |s| && r == s[..|r|]
    ensures r == "" || !IsJsSpace(r[|r| - 1])
    ensures IsBlank(s[|r|..])
  {
    if |s| > 0 && IsJsSpace(s[|s| - 1]) then
      var r := TrimEnd(s[..|s| - 1]);
      assert s[|r|..] == s[..|s| - 1][|r|..] + [s[|s| - 1]];
      r
    else s
  }

  /** `s.trim()`. */
  function Trim(s: string): string {
    TrimEnd(TrimStart(s))
  }

  /** `s.trim()` is the empty string exactly when `s` is all white space,
      which is when the JavaScript test `!s.trim()` holds. */
  lemma TrimEmptyIff(s: string)
    ensures Trim(s) == "" <==> IsBlank(s)
  {
    var a := TrimStart(s);
    if Trim(s) == "" {
      assert IsBlank(a[0..]);
      assert a == "";
      assert s[..|s| - |a|] == s;
    }
  }

  /** `parts.join(sep)`. */
  function Join(parts: seq<string>, sep: string): string {
    if |parts| == 0 then ""
    else if |parts| == 1 then parts[0]
    else Join(parts[..|parts| - 1], sep) + sep + parts[|parts| - 1]
  }

  // ---------------------------------------------------------------------
  // Length
  // ---------------------------------------------------------------------

  /** A character outside the Basic Multilingual Plane is a surrogate
      pair in UTF-16. */
  predicate IsAstral(c: char) {
    c as int >= 0x10000
  }

  /** JavaScript's `s.length`: UTF-16 code units, one per character of the
      Basic Multilingual Plane and two per astral character. */
  function Utf16Length(s: string): (n: nat)
    ensures |s| <= n <= 2 * |s|
    decreases |s|
  {
    if |s| == 0 then 0
    else (if IsAstral(s[0]) then 2 else 1) + Utf16Length(s[1..])
  }

  /** The code-unit length of a concatenation is the sum of the parts'. */
  lemma {:induction false} Utf16LengthAppend(a: string, b: string)
    ensures Utf16Length(a + b) == Utf16Length(a) + Utf16Length(b)
    decreases |a|
  {
    if |a| > 0 {
      assert (a + b)[0] == a[0];
      assert (a + b)[1..] == a[1..] + b;
      Utf16LengthAppend(a[1..], b);
    } else {
      assert a + b == b;
    }
  }

  /** `length` counts characters exactly when no character is astral. */
  lemma {:induction false} Utf16LengthIsCountIff(s: string)
    ensures Utf16Length(s) == |s| <==> forall i :: 0 <= i < |s| ==> !IsAstral(s[i])
    decreases |s|
  {
    if |s| > 0 {
      Utf16LengthIsCountIff(s[1..]);
      assert forall i :: 1 <= i < |s| ==> s[i] == s[1..][i - 1];
      if !IsAstral(s[0]) && (forall i :: 0 <= i < |s[1..]| ==> !IsAstral(s[1..][i])) {
        assert forall i :: 0 <= i < |s| ==> !IsAstral(s[i]) by {
          forall i | 0 <= i < |s| ensures !IsAstral(s[i]) {
            if i > 0 { assert s[i] == s[1..][i - 1]; }
          }
        }
      }
    }
  }

  /** A string of astral characters has two code units per character. */
  lemma {:induction false} Utf16LengthAllAstral(s: string)
    requires forall i :: 0 <= i < |s| ==> IsAstral(s[i])
    ensures Utf16Length(s) == 2 * |s|
    decreases |s|
  {
    if |s| > 0 {
      assert forall i :: 0 <= i < |s[1..]| ==> s[1..][i] == s[i + 1];
      Utf16LengthAllAstral(s[1..]);
    }
  }

  /** One emoji is two code units but one character. */
  lemma EmojiIsTwoUnits()
    ensures |"\U{1F600}"| == 1 && Utf16Length("\U{1F600}") == 2
  {
    assert "\U{1F600}"[1..] == "";
  }

  // ---------------------------------------------------------------------
  // Decimal numbers
  // ---------------------------------------------------------------------

  predicate IsDigit(c: char) {
    '0' <= c <= '9'
  }

  function DigitChar(d: nat): (c: char)
    requires d < 10
    ensures IsDigit(c)
    ensures c as int - '0' as int == d
  {
    ('0' as int + d) as char
  }

  predicate AllDigits(s: string) {
    forall i :: 0 <= i < |s| ==> IsDigit(s[i])
  }

  /** `n.toString()` for a non-negative integer. */
  function NatToString(n: nat): (r: string)
    ensures |r| > 0 && AllDigits(r)
    ensures n < 10 <==> |r| == 1
    ensures n < 100 ==> |r| <= 2
  {
    if n < 10 then [DigitChar(n)] else NatToString(n / 10) + [DigitChar(n % 10)]
  }

  /** The value of a string of decimal digits. */
  function DigitsValue(s: string): nat
    requires AllDigits(s)
  {
    if |s| == 0 then 0
    else DigitsValue(s[..|s| - 1]) * 10 + (s[|s| - 1] as int - '0' as int)
  }

  /** Rendering a number and reading it back gives the number. */
  lemma {:induction false} NatToStringRoundTrip(n: nat)
    ensures DigitsValue(NatToString(n)) == n
  {
    var r := NatToString(n);
    if n >= 10 {
      NatToStringRoundTrip(n / 10);
      assert r[..|r| - 1] == NatToString(n / 10);
    }
  }

  /** `s.padStart(2, '0')` for a string of at most two characters. */
  function PadStart2(s: string): (r: string)
    requires |s| <= 2
    ensures |r| == 2
    ensures r[2 - |s|..] == s
    ensures forall i :: 0 <= i < 2 - |s| ==> r[i] == '0'
  {
    if |s| == 0 then "00" else if |s| == 1 then "0" + s else s
  }

  /** Padding a number's digits with a zero does not change their value. */
  lemma PadStart2Value(s: string)
    requires |s| <= 2 && AllDigits(s)
    ensures AllDigits(PadStart2(s))
    ensures DigitsValue(PadStart2(s)) == DigitsValue(s)
  {
    if |s| == 1 {
      assert PadStart2(s) == ['0', s[0]];
      DigitPairValue('0', s[0]);
      DigitValue(s[0]);
      assert s == [s[0]];
    } else if |s| == 0 {
      DigitPairValue('0', '0');
    }
  }

  lemma DigitValue(a: char)
    requires IsDigit(a)
    ensures DigitsValue([a]) == a as int - '0' as int
  {
    assert [a][..0] == [];
  }

  lemma DigitPairValue(a: char, b: char)
    requires IsDigit(a) && IsDigit(b)
    ensures DigitsValue([a, b]) == (a as int - '0' as int) * 10 + (b as int - '0' as int)
  {
    assert [a, b][..1] == [a];
    DigitValue(a);
  }

  /** `m:ss` read back: the digits before the colon give `m`, the two
      after it give `s`. */
  lemma ClockReadBack(m: nat, s: nat) returns (mins: string, secs: string)
    requires s < 60
    ensures NatToString(m) + ":" + PadStart2(NatToString(s)) == mins + ":" + secs
    ensures |secs| == 2 && AllDigits(mins) && AllDigits(secs)
    ensures DigitsValue(mins) == m && DigitsValue(secs) == s
  {
    mins := NatToString(m);
    secs := PadStart2(NatToString(s));
    NatToStringRoundTrip(m);
    NatToStringRoundTrip(s);
    PadStart2Value(NatToString(s));
  }
}
