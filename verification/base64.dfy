/** The transport encoding of audio (pages/AgentChat.tsx): bytes become a
    binary string and then base64 text (`btoa`, the alphabet and padding of
    section 4 of RFC 4648); inbound base64 text is decoded (`atob`, the
    "forgiving-base64 decode" of the WHATWG Infra standard) and read back
    byte by byte. */
module Base64 {
  import opened Wrappers
  import opened Bytes

  type Sextet = x: int | 0 <= x < 64

  /** The base64 alphabet of section 4 of RFC 4648. */
  function Char(v: Sextet): (c: char)
    ensures IsBase64Char(c)
  {
    if v < 26 then ('A' as int + v) as char
    else if v < 52 then ('a' as int + v - 26) as char
    else if v < 62 then ('0' as int + v - 52) as char
    else if v == 62 then '+'
    else '/'
  }

  predicate IsBase64Char(c: char) {
    ('A' <= c <= 'Z') || ('a' <= c <= 'z') || ('0' <= c <= '9') || c == '+' || c == '/'
  }

  /** The alphabet index of a base64 character. */
  function Index(c: char): (v: Sextet)
    requires IsBase64Char(c)
    ensures Char(v) == c
  {
    if 'A' <= c <= 'Z' then c as int - 'A' as int
    else if 'a' <= c <= 'z' then c as int - 'a' as int + 26
    else if '0' <= c <= '9' then c as int - '0' as int + 52
    else if c == '+' then 62
    else 63
  }

  lemma IndexOfChar(v: Sextet)
    ensures IsBase64Char(Char(v)) && Index(Char(v)) == v
  {
  }

  // ---------------------------------------------------------------------
  // Quantum arithmetic
  // ---------------------------------------------------------------------

  /** Division with remainder is unique. */
  lemma DivModUnique(n: int, k: int, q: int, r: int)
    requires k > 0 && 0 <= r < k && n == q * k + r
    ensures n / k == q && n % k == r
  {
    var q', r' := n / k, n % k;
    assert (q - q') * k == r' - r;
    if q > q' {
      MulAtLeast(q - q', k);
    } else if q < q' {
      MulAtLeast(q' - q, k);
    }
  }

  /** Remainders modulo four of a multiple of four and of a shifted number. */
  lemma ModFour(k: int, x: int)
    ensures (4 * k) % 4 == 0
    ensures (x + 4) % 4 == x % 4
  {
    DivModUnique(4 * k, 4, k, 0);
    DivModUnique(x + 4, 4, x / 4 + 1, x % 4);
  }

  lemma MulAtLeast(a: int, k: int)
    requires a >= 1 && k > 0
    ensures a * k >= k
  {
  }

  type Word24 = n: int | 0 <= n < 16777216

  /** Three bytes as one 24-bit number, most significant first. */
  function Word(b0: Byte, b1: Byte, b2: Byte): Word24 {
    b0 as int * 65536 + b1 as int * 256 + b2 as int
  }

  /** The 24-bit number held by four alphabet characters. */
  function QuantumValue(c0: char, c1: char, c2: char, c3: char): Word24
    requires IsBase64Char(c0) && IsBase64Char(c1) && IsBase64Char(c2) && IsBase64Char(c3)
  {
    Index(c0) as int * 262144 + Index(c1) as int * 4096 + Index(c2) as int * 64 + Index(c3) as int
  }

  /** The four characters of one 24-bit number. */
  function Quantum(n: Word24): (q: string)
    ensures |q| == 4
    ensures forall i :: 0 <= i < 4 ==> IsBase64Char(q[i])
  {
    [Char(n / 262144), Char((n / 4096) % 64), Char((n / 64) % 64), Char(n % 64)]
  }

  /** Splitting a 24-bit number into sextets and reading them back is the
      identity. */
  lemma QuantumRoundTrip(n: Word24)
    ensures var q := Quantum(n); QuantumValue(q[0], q[1], q[2], q[3]) == n
  {
    var q := Quantum(n);
    var c3 := n % 64;
    var q1 := n / 64;
    var c2 := q1 % 64;
    var q2 := q1 / 64;
    var c1 := q2 % 64;
    var c0 := q2 / 64;
    assert n / 4096 == q2 by {
      DivModUnique(n, 4096, q2, c2 * 64 + c3);
    }
    assert n / 262144 == c0 by {
      DivModUnique(n, 262144, c0, c1 * 4096 + c2 * 64 + c3);
    }
    IndexOfChar(c0);
    IndexOfChar(c1);
    IndexOfChar(c2);
    IndexOfChar(c3);
  }

  /** The bytes of a 24-bit number are read back by division and remainder. */
  lemma WordBytes(b0: Byte, b1: Byte, b2: Byte)
    ensures var n := Word(b0, b1, b2);
      n / 65536 == b0 && (n / 256) % 256 == b1 && n % 256 == b2
  {
    var n := Word(b0, b1, b2);
    DivModUnique(n, 65536, b0, b1 as int * 256 + b2);
    DivModUnique(n, 256, b0 as int * 256 + b1, b2);
    DivModUnique(b0 as int * 256 + b1, 256, b0, b1);
  }

  /** The low sextets of a number whose low bits are zero are zero. */
  lemma LowSextetsZero(b0: Byte, b1: Byte)
    ensures Word(b0, b1, 0) % 64 == 0
    ensures b1 == 0 ==> (Word(b0, b1, 0) / 64) % 64 == 0
  {
    var n := Word(b0, b1, 0);
    DivModUnique(n, 64, b0 as int * 1024 + b1 as int * 4, 0);
    if b1 == 0 {
      DivModUnique(b0 as int * 1024, 64, b0 as int * 16, 0);
    }
  }

  // ---------------------------------------------------------------------
  // Encoding
  // ---------------------------------------------------------------------

  /** Number of four-character quanta needed for `n` bytes: n/3 rounded up. */
  function Quanta(n: nat): (k: nat)
    ensures 3 * k - 2 <= n <= 3 * k
  {
    if n == 0 then 0 else if n <= 3 then 1 else 1 + Quanta(n - 3)
  }

  /** Base64 text of a byte sequence with '=' padding. */
  function Encode(b: seq<Byte>): (s: string)
    ensures |s| == 4 * Quanta(|b|)
    decreases |b|
  {
    if |b| == 0 then ""
    else if |b| == 1 then Quantum(Word(b[0], 0, 0))[..2] + "=="
    else if |b| == 2 then Quantum(Word(b[0], b[1], 0))[..3] + "="
    else Quantum(Word(b[0], b[1], b[2])) + Encode(b[3..])
  }

  datatype Base64Error =
    /** A character that is not '=' padding falls outside the alphabet. */
    | InvalidCharacter
    /** After padding is removed, the length leaves a remainder of one modulo four. */
    | InvalidLength
    /** A binary string held a character above U+00FF. */
    | NotLatin1

  /** `btoa`: refuses any character outside Latin-1. */
  function Btoa(s: string): (r: Result<string, Base64Error>)
    ensures r.Success? <==> IsBinaryString(s)
  {
    if IsBinaryString(s) then Success(Encode(CharCodes(s))) else Failure(NotLatin1)
  }

  // ---------------------------------------------------------------------
  // Decoding
  // ---------------------------------------------------------------------

  predicate AllBase64(s: string) {
    forall i :: 0 <= i < |s| ==> IsBase64Char(s[i])
  }

  /** Decodes the unpadded body of base64 text: four characters make three
      bytes; a final two or three characters make one or two bytes, their
      leftover low bits being discarded. */
  function DecodeBody(s: string): (r: Result<seq<Byte>, Base64Error>)
    requires |s| % 4 != 1
    ensures r.Success? <==> AllBase64(s)
    ensures r.Success? ==> |r.value| == |s| * 3 / 4
    decreases |s|
  {
    if |s| == 0 then Success([])
    else
      var m := if |s| < 4 then |s| else 4;
      if !AllBase64(s[..m]) then
        BadPrefix(s, m);
        Failure(InvalidCharacter)
      else if |s| == 2 then
        assert AllBase64(s) by { assert s == s[..2]; }
        var n := QuantumValue(s[0], s[1], 'A', 'A');
        Success([n / 65536])
      else if |s| == 3 then
        assert AllBase64(s) by { assert s == s[..3]; }
        var n := QuantumValue(s[0], s[1], s[2], 'A');
        Success([n / 65536, (n / 256) % 256])
      else
        GoodQuantum(s);
        var n := QuantumValue(s[0], s[1], s[2], s[3]);
        var rest := DecodeBody(s[4..]);
        if rest.Failure? then Failure(rest.error)
        else
          QuantumLength(|s| - 4);
          Success([n / 65536, (n / 256) % 256, n % 256] + rest.value)
  }

  /** A bad character among the first ones makes the whole text bad. */
  lemma BadPrefix(s: string, m: nat)
    requires m <= |s| && !AllBase64(s[..m])
    ensures !AllBase64(s)
  {
    var k :| 0 <= k < m && !IsBase64Char(s[..m][k]);
    assert s[k] == s[..m][k];
  }

  /** With a good first quantum, the text is good exactly when the rest
      is. */
  lemma GoodQuantum(s: string)
    requires |s| >= 4 && AllBase64(s[..4])
    ensures IsBase64Char(s[0]) && IsBase64Char(s[1]) && IsBase64Char(s[2]) && IsBase64Char(s[3])
    ensures AllBase64(s) <==> AllBase64(s[4..])
  {
    assert forall i :: 0 <= i < 4 ==> s[i] == s[..4][i];
    assert forall i :: 4 <= i < |s| ==> s[i] == s[4..][i - 4];
  }

  lemma QuantumLength(n: nat)
    ensures (n + 4) * 3 / 4 == 3 + n * 3 / 4
  {
  }

  /** The input once the forgiving decoder has removed its padding: when the
      length is a multiple of four, one or two trailing '=' are dropped. */
  function StripPadding(s: string): (t: string)
    ensures |s| - 2 <= |t| <= |s| && t == s[..|t|]
  {
    if |s| % 4 == 0 && |s| >= 2 && s[|s| - 2..] == "==" then s[..|s| - 2]
    else if |s| % 4 == 0 && |s| >= 1 && s[|s| - 1] == '=' then s[..|s| - 1]
    else s
  }

  /** `atob` without ASCII white-space removal: the bytes of the decoded
      binary string, or the error it throws. */
  function Atob(s: string): (r: Result<string, Base64Error>)
    ensures r.Success? ==> IsBinaryString(r.value)
  {
    var t := StripPadding(s);
    if |t| % 4 == 1 then Failure(InvalidLength)
    else
      var bytes :- DecodeBody(t);
      Success(BinaryString(bytes))
  }

  // ---------------------------------------------------------------------
  // The two helpers of the voice call
  // ---------------------------------------------------------------------

  /** `arrayBufferToBase64`: binary string of the bytes, then `btoa`. A
      binary string never makes `btoa` throw. */
  function ArrayBufferToBase64(bytes: seq<Byte>): (s: string)
    ensures Btoa(BinaryString(bytes)) == Success(s)
    ensures |s| == 4 * Quanta(|bytes|)
  {
    CharCodesOfBinaryString(bytes);
    Encode(bytes)
  }

  /** `base64ToBytes`: `atob`, then the character codes of the result. */
  function Base64ToBytes(s: string): (r: Result<seq<Byte>, Base64Error>)
    ensures r.Success? <==> Atob(s).Success?
    ensures r.Success? ==> BinaryString(r.value) == Atob(s).value
  {
    var bin :- Atob(s);
    BinaryStringOfCharCodes(bin);
    Success(CharCodes(bin))
  }

  // ---------------------------------------------------------------------
  // Round trip
  // ---------------------------------------------------------------------

  /** Decoding the unpadded encoding of a byte sequence gives it back. */
  lemma {:induction false} DecodeEncodeBody(b: seq<Byte>)
    ensures var t := StripPadding(Encode(b));
      |t| % 4 != 1 && DecodeBody(t) == Success(b)
    decreases |b|
  {
    if |b| == 1 {
      DecodeEncodeOne(b[0]);
      assert b == [b[0]];
    } else if |b| == 2 {
      DecodeEncodeTwo(b[0], b[1]);
      assert b == [b[0], b[1]];
    } else if |b| >= 3 {
      DecodeEncodeBody(b[3..]);
      DecodeEncodeStep(b);
    }
  }

  /** One byte encodes as two characters and "==". */
  lemma DecodeEncodeOne(b0: Byte)
    ensures var t := StripPadding(Encode([b0]));
      |t| == 2 && DecodeBody(t) == Success([b0])
  {
    var n := Word(b0, 0, 0);
    var q := Quantum(n);
    var e := Encode([b0]);
    assert e == q[..2] + "==";
    var t := StripPadding(e);
    assert t == q[..2];
    QuantumRoundTrip(n);
    LowSextetsZero(b0, 0);
    IndexOfChar(0);
    assert QuantumValue(t[0], t[1], 'A', 'A') == n;
    WordBytes(b0, 0, 0);
    assert AllBase64(t[..2]);
  }

  /** Two bytes encode as three characters and "=". */
  lemma DecodeEncodeTwo(b0: Byte, b1: Byte)
    ensures var t := StripPadding(Encode([b0, b1]));
      |t| == 3 && DecodeBody(t) == Success([b0, b1])
  {
    var n := Word(b0, b1, 0);
    var q := Quantum(n);
    var e := Encode([b0, b1]);
    assert e == q[..3] + "=";
    var t := StripPadding(e);
    assert e[|e| - 2..] != "==" by {
      assert e[|e| - 2..][0] == q[2];
    }
    assert t == q[..3];
    QuantumRoundTrip(n);
    LowSextetsZero(b0, b1);
    IndexOfChar(0);
    assert QuantumValue(t[0], t[1], t[2], 'A') == n;
    WordBytes(b0, b1, 0);
    assert AllBase64(t[..3]);
  }

  /** A full quantum in front of an encoding that round-trips. */
  lemma DecodeEncodeStep(b: seq<Byte>)
    requires |b| >= 3
    requires var tt := StripPadding(Encode(b[3..]));
      |tt| % 4 != 1 && DecodeBody(tt) == Success(b[3..])
    ensures var t := StripPadding(Encode(b));
      |t| % 4 != 1 && DecodeBody(t) == Success(b)
  {
    StepLayout(b);
    DecodeBodyPrepend(b, StripPadding(Encode(b[3..])));
  }

  /** The encoding of three bytes or more, padding removed, is the first
      quantum followed by the rest's. */
  lemma StepLayout(b: seq<Byte>)
    requires |b| >= 3
    ensures StripPadding(Encode(b)) == Quantum(Word(b[0], b[1], b[2])) + StripPadding(Encode(b[3..]))
  {
    var head := Quantum(Word(b[0], b[1], b[2]));
    var tail := Encode(b[3..]);
    assert Encode(b) == head + tail;
    ModFour(Quanta(|b| - 3), 0);
    StripPaddingAppend(head, tail);
  }

  /** Decoding the quantum of three bytes in front of text that decodes
      to the bytes after them. */
  lemma DecodeBodyPrepend(b: seq<Byte>, tt: string)
    requires |b| >= 3
    requires |tt| % 4 != 1 && DecodeBody(tt) == Success(b[3..])
    ensures var t := Quantum(Word(b[0], b[1], b[2])) + tt;
      |t| % 4 != 1 && DecodeBody(t) == Success(b)
  {
    var n := Word(b[0], b[1], b[2]);
    var head := Quantum(n);
    var t := head + tt;
    ModFour(1, |tt|);
    assert t[..4] == head;
    assert t[4..] == tt;
    assert AllBase64(t[..4]);
    QuantumRoundTrip(n);
    assert QuantumValue(t[0], t[1], t[2], t[3]) == n;
    WordBytes(b[0], b[1], b[2]);
    assert [n / 65536, (n / 256) % 256, n % 256] + b[3..] == b;
  }

  /** Padding lives only in the last quantum, so removing it commutes with
      prepending a full quantum of alphabet characters. */
  lemma StripPaddingAppend(head: string, tail: string)
    requires |head| == 4 && forall i :: 0 <= i < 4 ==> IsBase64Char(head[i])
    requires |tail| % 4 == 0
    ensures StripPadding(head + tail) == head + StripPadding(tail)
  {
    var s := head + tail;
    if |tail| == 0 {
      assert s[|s| - 1] == head[3];
      assert s[|s| - 2..] != "==" by {
        assert s[|s| - 2..][1] == head[3];
      }
    } else {
      assert s[|s| - 1] == tail[|tail| - 1];
      if |tail| >= 2 {
        assert s[|s| - 2..] == tail[|tail| - 2..];
      }
      assert s[..|s| - 2] == head + tail[..|tail| - 2];
      assert s[..|s| - 1] == head + tail[..|tail| - 1];
    }
  }

  /** The transport round trip of the voice call: whatever bytes are sent
      through `arrayBufferToBase64` come back unchanged from
      `base64ToBytes`. */
  lemma TransportRoundTrip(b: seq<Byte>)
    ensures Base64ToBytes(ArrayBufferToBase64(b)) == Success(b)
  {
    DecodeEncodeBody(b);
    CharCodesOfBinaryString(b);
  }
}
