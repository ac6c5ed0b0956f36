/** `encodeURIComponent` and its inverse `decodeURIComponent`, as the QR image
    URL (App/frontend/src/utils/qrCodeGenerator.js) uses them. A Dafny `char` is
    a Unicode scalar value, so the lone-surrogate error of `encodeURIComponent`
    cannot arise. */
module UriEncoding {
  import opened Wrappers

  /** The characters `encodeURIComponent` leaves as they are. */
  predicate Unreserved(c: char) {
    || ('A' <= c <= 'Z') || ('a' <= c <= 'z') || ('0' <= c <= '9')
    || c == '-' || c == '_' || c == '.' || c == '!' || c == '~'
    || c == '*' || c == '\'' || c == '(' || c == ')'
  }

  /** Text that can stand as one query-string value: unreserved characters and '%'. */
  predicate QuerySafe(s: string) {
    forall i :: 0 <= i < |s| ==> Unreserved(s[i]) || s[i] == '%'
  }

  /** Upper-case hexadecimal digit for `n < 16`. */
  function HexDigit(n: nat): (c: char)
    requires n < 16
    ensures Unreserved(c)
  {
    if n < 10 then ('0' as int + n) as char else ('A' as int + n - 10) as char
  }

  /** Value of a hexadecimal digit of either case. */
  function HexValue(c: char): (r: Option<nat>)
    ensures r.Some? ==> r.value < 16
  {
    if '0' <= c <= '9' then Some(c as int - '0' as int)
    else if 'A' <= c <= 'F' then Some(c as int - 'A' as int + 10)
    else if 'a' <= c <= 'f' then Some(c as int - 'a' as int + 10)
    else None
  }

  /** Bytes of the UTF-8 encoding of `c`. */
  function Utf8(c: char): (bytes: seq<nat>)
    ensures 1 <= |bytes| <= 4
    ensures forall k :: 0 <= k < |bytes| ==> bytes[k] < 256
  {
    var cp := c as int;
    if cp < 0x80 then [cp]
    else if cp < 0x800 then [0xC0 + cp / 64, 0x80 + cp % 64]
    else if cp < 0x10000 then [0xE0 + cp / 4096, 0x80 + (cp / 64) % 64, 0x80 + cp % 64]
    else [0xF0 + cp / 262144, 0x80 + (cp / 4096) % 64, 0x80 + (cp / 64) % 64, 0x80 + cp % 64]
  }

  /** Each byte as '%' and two upper-case hexadecimal digits. */
  function PercentEncode(bytes: seq<nat>): (r: string)
    requires forall k :: 0 <= k < |bytes| ==> bytes[k] < 256
    ensures |r| == 3 * |bytes|
  {
    if |bytes| == 0 then "" else Triple(bytes[0]) + PercentEncode(bytes[1..])
  }

  /** One byte as '%' and its two upper-case hexadecimal digits. */
  function Triple(b: nat): (t: string)
    requires b < 256
    ensures |t| == 3
  {
    ['%', HexDigit(b / 16), HexDigit(b % 16)]
  }

  /** A percent-encoding is made of '%' and hexadecimal digits only. */
  lemma {:induction false} PercentEncodeSafe(bytes: seq<nat>)
    requires forall k :: 0 <= k < |bytes| ==> bytes[k] < 256
    ensures QuerySafe(PercentEncode(bytes))
    decreases |bytes|
  {
    if |bytes| > 0 {
      var head := Triple(bytes[0]);
      assert QuerySafe(head) by {
        assert head[0] == '%' && Unreserved(head[1]) && Unreserved(head[2]);
      }
      PercentEncodeSafe(bytes[1..]);
      QuerySafeConcat(head, PercentEncode(bytes[1..]));
    }
  }

  function EncodeChar(c: char): (r: string)
    ensures QuerySafe(r) && |r| > 0
  {
    if Unreserved(c) then [c]
    else
      PercentEncodeSafe(Utf8(c));
      PercentEncode(Utf8(c))
  }

  /** `encodeURIComponent(s)`. */
  function Encode(s: string): string
  {
    if |s| == 0 then "" else EncodeChar(s[0]) + Encode(s[1..])
  }

  /** The encoding holds only unreserved characters and '%', so it can stand as
      one query-string value. */
  lemma {:induction false} EncodeSafe(s: string)
    ensures QuerySafe(Encode(s))
    decreases |s|
  {
    if |s| > 0 {
      EncodeSafe(s[1..]);
      QuerySafeConcat(EncodeChar(s[0]), Encode(s[1..]));
    }
  }

  /** Text of unreserved characters is left as it is. */
  lemma {:induction false} EncodeKeepsUnreserved(s: string)
    requires forall i :: 0 <= i < |s| ==> Unreserved(s[i])
    ensures Encode(s) == s
    decreases |s|
  {
    if |s| > 0 {
      assert forall i :: 0 <= i < |s[1..]| ==> Unreserved(s[1..][i]);
      EncodeKeepsUnreserved(s[1..]);
      assert [s[0]] + s[1..] == s;
    }
  }

  lemma QuerySafeConcat(a: string, b: string)
    requires QuerySafe(a) && QuerySafe(b)
    ensures QuerySafe(a + b)
  {
    forall i | 0 <= i < |a + b| ensures Unreserved((a + b)[i]) || (a + b)[i] == '%' {
      if i >= |a| {
        assert (a + b)[i] == b[i - |a|];
      }
    }
  }

  // ---------------------------------------------------------------------------
  // Decoding

  /** The byte written as "%XX" at index `i`, if that is what stands there. */
  function ByteAt(s: string, i: nat): (r: Option<nat>)
    ensures r.Some? ==> r.value < 256 && i + 3 <= |s|
  {
    if i + 3 <= |s| && s[i] == '%' && HexValue(s[i + 1]).Some? && HexValue(s[i + 2]).Some? then
      Some(HexValue(s[i + 1]).value * 16 + HexValue(s[i + 2]).value)
    else None
  }

  /** A UTF-8 continuation byte "%XX" at `i`, as its 6 payload bits. */
  function ContAt(s: string, i: nat): (r: Option<nat>)
    ensures r.Some? ==> r.value < 64 && i + 3 <= |s|
  {
    match ByteAt(s, i)
    case Some(b) => if 0x80 <= b < 0xC0 then Some(b - 0x80) else None
    case None => None
  }

  /** A code point that names a character (not a surrogate, not beyond U+10FFFF). */
  function ScalarChar(cp: int): Option<char> {
    if 0 <= cp < 0xD800 || 0xE000 <= cp < 0x110000 then Some(cp as char) else None
  }

  /** Decode the first character of `s`, reporting how many characters it used;
      `None` where `decodeURIComponent` throws `URIError`. */
  function DecodeOne(s: string): (r: Option<(char, nat)>)
    requires |s| > 0
    ensures r.Some? ==> 1 <= r.value.1 <= |s|
  {
    if s[0] != '%' then Some((s[0], 1))
    else match ByteAt(s, 0)
      case None => None
      case Some(b0) =>
        if b0 < 0x80 then Some((b0 as char, 3))
        else if 0xC0 <= b0 < 0xE0 then
          match ContAt(s, 3)
          case None => None
          case Some(c1) =>
            var cp := (b0 - 0xC0) * 64 + c1;
            if cp < 0x80 then None
            else match ScalarChar(cp) case None => None case Some(ch) => Some((ch, 6))
        else if 0xE0 <= b0 < 0xF0 then
          if ContAt(s, 3).None? || ContAt(s, 6).None? then None
          else
            var cp := ((b0 - 0xE0) * 64 + ContAt(s, 3).value) * 64 + ContAt(s, 6).value;
            if cp < 0x800 then None
            else match ScalarChar(cp) case None => None case Some(ch) => Some((ch, 9))
        else if 0xF0 <= b0 < 0xF8 then
          if ContAt(s, 3).None? || ContAt(s, 6).None? || ContAt(s, 9).None? then None
          else
            var cp := (((b0 - 0xF0) * 64 + ContAt(s, 3).value) * 64 + ContAt(s, 6).value) * 64 + ContAt(s, 9).value;
            if cp < 0x10000 then None
            else match ScalarChar(cp) case None => None case Some(ch) => Some((ch, 12))
        else None
  }

  /** `decodeURIComponent(s)`, `None` where it throws `URIError`. */
  function Decode(s: string): Option<string>
    decreases |s|
  {
    if |s| == 0 then Some("")
    else match DecodeOne(s)
      case None => None
      case Some((c, n)) =>
        match Decode(s[n..])
        case None => None
        case Some(t) => Some([c] + t)
  }

  lemma HexRoundTrip(b: nat)
    requires b < 256
    ensures HexValue(HexDigit(b / 16)) == Some(b / 16)
    ensures HexValue(HexDigit(b % 16)) == Some(b % 16)
  {
  }

  /** The `k`-th triple of a percent-encoding is '%' and the two digits of the
      `k`-th byte. */
  lemma {:induction false} PercentEncodeAt(bytes: seq<nat>, k: nat)
    requires forall j :: 0 <= j < |bytes| ==> bytes[j] < 256
    requires k < |bytes|
    ensures PercentEncode(bytes)[3 * k] == Triple(bytes[k])[0]
    ensures PercentEncode(bytes)[3 * k + 1] == Triple(bytes[k])[1]
    ensures PercentEncode(bytes)[3 * k + 2] == Triple(bytes[k])[2]
    decreases k
  {
    var e := PercentEncode(bytes);
    var tail := PercentEncode(bytes[1..]);
    var head := Triple(bytes[0]);
    assert e == head + tail;
    if k > 0 {
      PercentEncodeAt(bytes[1..], k - 1);
      assert bytes[1..][k - 1] == bytes[k];
      var j := 3 * (k - 1);
      AfterTriple(head, tail, j);
      assert 3 * k == j + 3;
    }
  }

  /** Past a three-character head, the characters are the tail's. */
  lemma AfterTriple(head: string, tail: string, j: nat)
    requires |head| == 3 && j + 3 <= |tail|
    ensures (head + tail)[j + 3] == tail[j] && (head + tail)[j + 4] == tail[j + 1] && (head + tail)[j + 5] == tail[j + 2]
  {
  }

  /** The `k`-th triple of a percent-encoding reads back as the `k`-th byte. */
  lemma ByteAtPercent(bytes: seq<nat>, rest: string, k: nat)
    requires forall j :: 0 <= j < |bytes| ==> bytes[j] < 256
    requires k < |bytes|
    ensures ByteAt(PercentEncode(bytes) + rest, 3 * k) == Some(bytes[k])
  {
    var e := PercentEncode(bytes);
    var i := 3 * k;
    PercentEncodeAt(bytes, k);
    TripleOfPrefix(e, rest, i);
    ByteOfEncodedDigits(e + rest, i, bytes[k]);
  }

  /** The three characters at `i` of `e` are still there once `rest` is appended. */
  lemma TripleOfPrefix(e: string, rest: string, i: nat)
    requires i + 3 <= |e|
    ensures i + 3 <= |e + rest|
    ensures (e + rest)[i] == e[i] && (e + rest)[i + 1] == e[i + 1] && (e + rest)[i + 2] == e[i + 2]
  {
  }

  /** '%' followed by the two hexadecimal digits of `b` reads as `b`. */
  lemma ByteOfEncodedDigits(s: string, i: nat, b: nat)
    requires b < 256 && i + 3 <= |s|
    requires s[i] == Triple(b)[0] && s[i + 1] == Triple(b)[1] && s[i + 2] == Triple(b)[2]
    ensures ByteAt(s, i) == Some(b)
  {
    HexRoundTrip(b);
    ByteOfDigits(s, i, b);
  }

  /** '%' and the two digits of `b` at `i` read as `b`. */
  lemma ByteOfDigits(s: string, i: nat, b: nat)
    requires b < 256 && i + 3 <= |s| && s[i] == '%'
    requires HexValue(s[i + 1]) == Some(b / 16) && HexValue(s[i + 2]) == Some(b % 16)
    ensures ByteAt(s, i) == Some(b)
  {
    DigitsOfByte(b);
  }

  /** A byte is its high hexadecimal digit times 16 plus its low one. */
  lemma DigitsOfByte(b: nat)
    ensures (b / 16) * 16 + b % 16 == b
  {
  }

  /** A continuation byte `0x80 + b` reads as its payload `b`. */
  lemma ContOf(s: string, i: nat, b: nat)
    requires b < 64 && ByteAt(s, i) == Some(0x80 + b)
    ensures ContAt(s, i) == Some(b)
  {
  }

  /** `DecodeOne` on a three-byte escape, unfolded. */
  lemma DecodeOneThree(s: string, b0: nat, c1: nat, c2: nat, ch: char)
    requires |s| > 0 && s[0] == '%' && ByteAt(s, 0) == Some(b0) && 0xE0 <= b0 < 0xF0
    requires ContAt(s, 3) == Some(c1) && ContAt(s, 6) == Some(c2)
    requires ((b0 - 0xE0) * 64 + c1) * 64 + c2 == ch as int >= 0x800
    ensures DecodeOne(s) == Some((ch, 9))
  {
  }

  /** `DecodeOne` on a four-byte escape, unfolded. */
  lemma DecodeOneFour(s: string, b0: nat, c1: nat, c2: nat, c3: nat, ch: char)
    requires |s| > 0 && s[0] == '%' && ByteAt(s, 0) == Some(b0) && 0xF0 <= b0 < 0xF8
    requires ContAt(s, 3) == Some(c1) && ContAt(s, 6) == Some(c2) && ContAt(s, 9) == Some(c3)
    requires (((b0 - 0xF0) * 64 + c1) * 64 + c2) * 64 + c3 == ch as int >= 0x10000
    ensures DecodeOne(s) == Some((ch, 12))
  {
  }

  /** A character outside ASCII, encoded in two bytes, decodes back from "%XX%XX". */
  lemma DecodeTwoBytes(c: char, rest: string)
    requires 0x80 <= c as int < 0x800
    ensures DecodeOne(PercentEncode(Utf8(c)) + rest) == Some((c, 6))
  {
    var bytes := Utf8(c);
    var s := PercentEncode(bytes) + rest;
    var cp := c as int;
    var b0, c1 := 0xC0 + cp / 64, cp % 64;
    assert bytes == [b0, 0x80 + c1];
    ByteAtPercent(bytes, rest, 0);
    ByteAtPercent(bytes, rest, 1);
    ContOf(s, 3, c1);
    TwoByteArith(cp);
    assert s[0] == '%';
    DecodeOneTwo(s, b0, c1, c);
  }

  /** Reassembling the two groups of a code point gives it back. */
  lemma TwoByteArith(cp: nat)
    requires 0x80 <= cp < 0x800
    ensures 0xC0 <= 0xC0 + cp / 64 < 0xE0
    ensures ((0xC0 + cp / 64) - 0xC0) * 64 + cp % 64 == cp
  {
  }

  /** `DecodeOne` on a two-byte escape, unfolded. */
  lemma DecodeOneTwo(s: string, b0: nat, c1: nat, ch: char)
    requires |s| > 0 && s[0] == '%' && ByteAt(s, 0) == Some(b0) && 0xC0 <= b0 < 0xE0
    requires ContAt(s, 3) == Some(c1)
    requires (b0 - 0xC0) * 64 + c1 == ch as int >= 0x80
    ensures DecodeOne(s) == Some((ch, 6))
  {
  }

  /** Reassembling the three six-bit groups of a code point gives it back. */
  lemma ThreeByteArith(cp: nat)
    requires 0x800 <= cp < 0x10000
    ensures 0xE0 <= 0xE0 + cp / 4096 < 0xF0
    ensures (((0xE0 + cp / 4096) - 0xE0) * 64 + (cp / 64) % 64) * 64 + cp % 64 == cp
  {
    var q1, q2 := cp / 64, cp / 4096;
    assert cp == q1 * 64 + cp % 64;
    assert q1 == q2 * 64 + q1 % 64;
    assert q1 / 64 == q2;
  }

  /** A character encoded in three bytes decodes back from its nine-character escape. */
  lemma DecodeThreeBytes(c: char, rest: string)
    requires 0x800 <= c as int < 0x10000
    ensures DecodeOne(PercentEncode(Utf8(c)) + rest) == Some((c, 9))
  {
    var bytes := Utf8(c);
    var s := PercentEncode(bytes) + rest;
    var cp := c as int;
    var b0, c1, c2 := 0xE0 + cp / 4096, (cp / 64) % 64, cp % 64;
    assert bytes == [b0, 0x80 + c1, 0x80 + c2];
    ByteAtPercent(bytes, rest, 0);
    ByteAtPercent(bytes, rest, 1);
    ByteAtPercent(bytes, rest, 2);
    ContOf(s, 3, c1);
    ContOf(s, 6, c2);
    ThreeByteArith(cp);
    assert s[0] == '%';
    DecodeOneThree(s, b0, c1, c2, c);
  }

  /** Reassembling the four six-bit groups of a code point gives it back. */
  lemma FourByteArith(cp: nat)
    requires 0x10000 <= cp < 0x110000
    ensures 0xF0 <= 0xF0 + cp / 262144 < 0xF8
    ensures ((((0xF0 + cp / 262144) - 0xF0) * 64 + (cp / 4096) % 64) * 64 + (cp / 64) % 64) * 64 + cp % 64 == cp
  {
    var q1, q2, q3 := cp / 64, cp / 4096, cp / 262144;
    assert cp == q1 * 64 + cp % 64;
    assert q1 == q2 * 64 + q1 % 64;
    assert q2 == q3 * 64 + q2 % 64;
    assert q1 / 64 == q2;
    assert q2 / 64 == q3;
  }

  /** A character encoded in four bytes decodes back from its twelve-character escape. */
  lemma DecodeFourBytes(c: char, rest: string)
    requires 0x10000 <= c as int
    ensures DecodeOne(PercentEncode(Utf8(c)) + rest) == Some((c, 12))
  {
    var bytes := Utf8(c);
    var s := PercentEncode(bytes) + rest;
    var cp := c as int;
    var b0, c1, c2, c3 := 0xF0 + cp / 262144, (cp / 4096) % 64, (cp / 64) % 64, cp % 64;
    assert bytes == [b0, 0x80 + c1, 0x80 + c2, 0x80 + c3];
    ByteAtPercent(bytes, rest, 0);
    ByteAtPercent(bytes, rest, 1);
    ByteAtPercent(bytes, rest, 2);
    ByteAtPercent(bytes, rest, 3);
    ContOf(s, 3, c1);
    ContOf(s, 6, c2);
    ContOf(s, 9, c3);
    FourByteArith(cp);
    assert s[0] == '%';
    DecodeOneFour(s, b0, c1, c2, c3, c);
  }

  /** Decoding the encoding of one character consumes exactly that encoding. */
  lemma DecodeOneEncodeChar(c: char, rest: string)
    ensures DecodeOne(EncodeChar(c) + rest) == Some((c, |EncodeChar(c)|))
  {
    var cp := c as int;
    if !Unreserved(c) {
      if cp < 0x80 {
        ByteAtPercent(Utf8(c), rest, 0);
      } else if cp < 0x800 {
        DecodeTwoBytes(c, rest);
      } else if cp < 0x10000 {
        DecodeThreeBytes(c, rest);
      } else {
        DecodeFourBytes(c, rest);
      }
    }
  }

  /** `decodeURIComponent(encodeURIComponent(s)) == s` for every string. */
  lemma {:induction false} DecodeEncode(s: string)
    ensures Decode(Encode(s)) == Some(s)
    decreases |s|
  {
    if |s| > 0 {
      var head := EncodeChar(s[0]);
      var rest := Encode(s[1..]);
      var t := head + rest;
      assert Encode(s) == t;
      DecodeOneEncodeChar(s[0], rest);
      assert t[|head|..] == rest;
      DecodeEncode(s[1..]);
      DecodeAfterOne(t, s[0], |head|);
      assert [s[0]] + s[1..] == s;
    }
  }

  /** Once the first character of `t` decodes, the rest is decoded after it. */
  lemma DecodeAfterOne(t: string, c: char, n: nat)
    requires |t| > 0 && DecodeOne(t) == Some((c, n))
    ensures n <= |t|
    ensures Decode(t) == match Decode(t[n..]) case None => None case Some(u) => Some([c] + u)
  {
  }
}
