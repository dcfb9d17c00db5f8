/** `encodeURIComponent`: every character outside the unreserved set becomes
    the percent-encoded bytes of its UTF-8 form, with upper-case hex digits.
    A `char` is a Unicode scalar value, so the lone surrogates on which the
    JavaScript function throws cannot occur. */
module Uri {
  import opened Text
  import opened Optional

  /** The characters `encodeURIComponent` leaves alone. */
  predicate Unreserved(c: char) {
    IsAsciiUpper(c) || IsAsciiLower(c) || IsDigit(c) || c in "-_.!~*'()"
  }

  predicate IsHexDigit(c: char) {
    IsDigit(c) || 'A' <= c <= 'F'
  }

  /** What may appear in an encoded component: no `&`, `=`, `#`, `?`, `/` or
      space, so it cannot end or split a query parameter. */
  predicate QuerySafe(c: char) {
    Unreserved(c) || c == '%' || IsHexDigit(c)
  }

  predicate AllQuerySafe(s: string) {
    forall i :: 0 <= i < |s| ==> QuerySafe(s[i])
  }

  lemma AllQuerySafeConcat(a: string, b: string)
    requires AllQuerySafe(a) && AllQuerySafe(b)
    ensures AllQuerySafe(a + b)
  {
    forall i | 0 <= i < |a + b|
      ensures QuerySafe((a + b)[i])
    {
      if i < |a| {
        assert (a + b)[i] == a[i];
      } else {
        assert (a + b)[i] == b[i - |a|];
      }
    }
  }

  function HexDigit(d: int): (c: char)
    requires 0 <= d < 16
    ensures IsHexDigit(c)
  {
    if d < 10 then ('0' as int + d) as char else ('A' as int + d - 10) as char
  }

  /** A continuation byte carrying six bits. */
  function Cont(bits: int): int
    requires 0 <= bits
  {
    0x80 + bits % 64
  }

  /** The UTF-8 bytes of a scalar value: one byte below 0x80, two below 0x800,
      three below 0x10000, four above. */
  function Utf8(c: char): (bytes: seq<int>)
    ensures 1 <= |bytes| <= 4
    ensures forall i :: 0 <= i < |bytes| ==> 0 <= bytes[i] < 256
    ensures |bytes| == 1 <==> c as int < 0x80
    ensures |bytes| == 1 ==> bytes[0] == c as int
  {
    var n := c as int;
    if n < 0x80 then [n]
    else if n < 0x800 then [0xC0 + n / 64, Cont(n)]
    else if n < 0x10000 then [0xE0 + n / 4096, Cont(n / 64), Cont(n)]
    else [0xF0 + n / 262144, Cont(n / 4096), Cont(n / 64), Cont(n)]
  }

  /** `%XY` for one byte. */
  function PercentByte(b: int): (r: string)
    requires 0 <= b < 256
    ensures |r| == 3 && r[0] == '%' && AllQuerySafe(r)
  {
    ['%', HexDigit(b / 16), HexDigit(b % 16)]
  }

  function PercentBytes(bytes: seq<int>): (r: string)
    requires forall i :: 0 <= i < |bytes| ==> 0 <= bytes[i] < 256
    ensures |r| == 3 * |bytes| && AllQuerySafe(r)
    ensures bytes != [] ==> r[0] == '%'
  {
    if |bytes| == 0 then ""
    else
      var head := PercentByte(bytes[0]);
      var tail := PercentBytes(bytes[1..]);
      AllQuerySafeConcat(head, tail);
      head + tail
  }

  function EncodeChar(c: char): (r: string)
    ensures Unreserved(c) ==> r == [c]
    ensures !Unreserved(c) ==> 3 <= |r| <= 12 && r[0] == '%'
    ensures AllQuerySafe(r)
  {
    if Unreserved(c) then [c] else PercentBytes(Utf8(c))
  }

  /** `encodeURIComponent(s)`: never shorter than its input, and made only of
      query-safe characters. */
  function EncodeUriComponent(s: string): (r: string)
    ensures |r| >= |s|
    ensures AllQuerySafe(r)
  {
    if |s| == 0 then ""
    else
      var head := EncodeChar(s[0]);
      var tail := EncodeUriComponent(s[1..]);
      AllQuerySafeConcat(head, tail);
      head + tail
  }

  /** Encoding works character by character. */
  lemma {:induction false} EncodeConcat(a: string, b: string)
    ensures EncodeUriComponent(a + b) == EncodeUriComponent(a) + EncodeUriComponent(b)
  {
    if |a| > 0 {
      assert (a + b)[1..] == a[1..] + b;
      EncodeConcat(a[1..], b);
    } else {
      assert a + b == b;
    }
  }

  /** A string of unreserved characters is its own encoding, and an encoding
      that leaves a string unchanged shows it had only unreserved characters. */
  lemma {:induction false} EncodeFixedIffUnreserved(s: string)
    ensures EncodeUriComponent(s) == s <==> forall i :: 0 <= i < |s| ==> Unreserved(s[i])
  {
    if |s| > 0 {
      EncodeFixedIffUnreserved(s[1..]);
      var head := EncodeChar(s[0]);
      var tail := EncodeUriComponent(s[1..]);
      if Unreserved(s[0]) {
        assert forall i :: 1 <= i < |s| ==> s[i] == s[1..][i - 1];
        if EncodeUriComponent(s) == s {
          assert tail == s[1..];
        }
      } else {
        assert |head + tail| > |s|;
      }
    }
  }

  /** The inverse direction, `decodeURIComponent`, as the reference the encoder
      is checked against: `%XY` triples are read as UTF-8 bytes, any other
      character stands for itself, and a malformed escape fails. */
  function HexValue(c: char): (d: int)
    requires IsHexDigit(c)
    ensures 0 <= d < 16
  {
    if IsDigit(c) then c as int - '0' as int else c as int - 'A' as int + 10
  }

  lemma HexValueOfDigit(d: int)
    requires 0 <= d < 16
    ensures HexValue(HexDigit(d)) == d
  {
  }

  /** The byte escaped at position `i`, if a well-formed `%XY` starts there. */
  function ByteAt(s: string, i: nat): (r: Option<int>)
    ensures r.Some? ==> 0 <= r.value < 256 && i + 3 <= |s|
  {
    if i + 3 <= |s| && s[i] == '%' && IsHexDigit(s[i + 1]) && IsHexDigit(s[i + 2]) then
      Some(16 * HexValue(s[i + 1]) + HexValue(s[i + 2]))
    else None
  }

  /** `k` escaped bytes read from position `i`. */
  function BytesAt(s: string, i: nat, k: nat): (r: Option<seq<int>>)
    ensures r.Some? ==> |r.value| == k && i + 3 * k <= |s|
    ensures r.Some? ==> forall j :: 0 <= j < k ==> 0 <= r.value[j] < 256
    decreases k
  {
    if k == 0 then (if i <= |s| then Some([]) else None)
    else
      match ByteAt(s, i)
      case None => None
      case Some(b) =>
        match BytesAt(s, i + 3, k - 1)
        case None => None
        case Some(rest) => Some([b] + rest)
  }

  /** The number of bytes a lead byte announces, 0 for a byte that cannot lead. */
  function SequenceLength(lead: int): nat {
    if 0 <= lead < 0x80 then 1
    else if 0xC0 <= lead < 0xE0 then 2
    else if 0xE0 <= lead < 0xF0 then 3
    else if 0xF0 <= lead < 0xF8 then 4
    else 0
  }

  predicate IsCont(b: int) {
    0x80 <= b < 0xC0
  }

  /** The scalar value carried by a lead byte and its continuation bytes. */
  function Assemble(bytes: seq<int>): int
    requires 1 <= |bytes| <= 4
  {
    if |bytes| == 1 then bytes[0]
    else if |bytes| == 2 then (bytes[0] - 0xC0) * 64 + (bytes[1] - 0x80)
    else if |bytes| == 3 then (bytes[0] - 0xE0) * 4096 + (bytes[1] - 0x80) * 64 + (bytes[2] - 0x80)
    else (bytes[0] - 0xF0) * 262144 + (bytes[1] - 0x80) * 4096 + (bytes[2] - 0x80) * 64 + (bytes[3] - 0x80)
  }

  predicate IsScalar(n: int) {
    0 <= n < 0xD800 || 0xE000 <= n < 0x110000
  }

  /** The character whose escapes start `s`, with the number of characters
      they take. */
  function DecodeEscaped(s: string): (r: Option<(char, nat)>)
    ensures r.Some? ==> 3 <= r.value.1 <= |s|
  {
    match ByteAt(s, 0)
    case None => None
    case Some(lead) =>
      var k := SequenceLength(lead);
      if k == 0 then None
      else
        match BytesAt(s, 0, k)
        case None => None
        case Some(bytes) =>
          if (forall j :: 1 <= j < k ==> IsCont(bytes[j])) && IsScalar(Assemble(bytes)) then
            Some((Assemble(bytes) as char, 3 * k))
          else None
  }

  function DecodeUriComponent(s: string): (r: Option<string>)
    decreases |s|
  {
    if |s| == 0 then Some("")
    else if s[0] != '%' then
      match DecodeUriComponent(s[1..])
      case None => None
      case Some(t) => Some([s[0]] + t)
    else
      match DecodeEscaped(s)
      case None => None
      case Some(p) =>
        match DecodeUriComponent(s[p.1..])
        case None => None
        case Some(t) => Some([p.0] + t)
  }

  lemma DivSteps(n: int)
    requires 0 <= n
    ensures n / 4096 == (n / 64) / 64
    ensures n / 262144 == (n / 4096) / 64
  {
    var q := n / 64;
    assert n == 64 * q + n % 64;
    assert q == 64 * (q / 64) + q % 64;
    assert n == 4096 * (q / 64) + 64 * (q % 64) + n % 64;
    var p := n / 4096;
    assert n == 4096 * p + n % 4096;
    assert p == 64 * (p / 64) + p % 64;
    assert n == 262144 * (p / 64) + 4096 * (p % 64) + n % 4096;
  }

  /** UTF-8 encoding of one scalar value is undone by `Assemble`, and its lead
      byte announces its length. */
  lemma Utf8RoundTrip(c: char)
    ensures SequenceLength(Utf8(c)[0]) == |Utf8(c)|
    ensures forall j :: 1 <= j < |Utf8(c)| ==> IsCont(Utf8(c)[j])
    ensures Assemble(Utf8(c)) == c as int
  {
    var n := c as int;
    DivSteps(n);
  }

  lemma {:induction false} ReadPercentBytes(bytes: seq<int>, rest: string, k: nat)
    requires forall i :: 0 <= i < |bytes| ==> 0 <= bytes[i] < 256
    requires k == |bytes|
    ensures BytesAt(PercentBytes(bytes) + rest, 0, k) == Some(bytes)
    decreases k
  {
    if k > 0 {
      var s := PercentBytes(bytes) + rest;
      var head := PercentByte(bytes[0]);
      var tail := PercentBytes(bytes[1..]) + rest;
      assert s == head + tail;
      HexValueOfDigit(bytes[0] / 16);
      HexValueOfDigit(bytes[0] % 16);
      assert ByteAt(s, 0) == Some(bytes[0]);
      ReadPercentBytes(bytes[1..], rest, k - 1);
      BytesAtShift(head, tail, k - 1);
      assert bytes == [bytes[0]] + bytes[1..];
    }
  }

  /** Reading past a prefix of length 3 is reading the remainder from its start. */
  lemma {:induction false} BytesAtShift(head: string, tail: string, k: nat)
    requires |head| == 3
    ensures BytesAt(head + tail, 3, k) == BytesAt(tail, 0, k)
  {
    BytesAtOffset(head, tail, 0, k);
  }

  lemma {:induction false} BytesAtOffset(head: string, tail: string, i: nat, k: nat)
    requires |head| == 3
    ensures BytesAt(head + tail, 3 + i, k) == BytesAt(tail, i, k)
    decreases k
  {
    var s := head + tail;
    if k > 0 {
      if i + 3 <= |tail| {
        assert s[3 + i] == tail[i] && s[3 + i + 1] == tail[i + 1] && s[3 + i + 2] == tail[i + 2];
      }
      assert ByteAt(s, 3 + i) == ByteAt(tail, i);
      BytesAtOffset(head, tail, i + 3, k - 1);
    }
  }

  /** Decoding an encoded character followed by anything yields the character
      followed by the decoding of the rest. */
  lemma DecodeEncodedChar(c: char, rest: string)
    ensures DecodeUriComponent(EncodeChar(c) + rest) ==
      match DecodeUriComponent(rest)
      case None => None
      case Some(t) => Some([c] + t)
  {
    var s := EncodeChar(c) + rest;
    if Unreserved(c) {
      assert s[0] == c && s[1..] == rest;
    } else {
      var bytes := Utf8(c);
      Utf8RoundTrip(c);
      ReadPercentBytes(bytes, rest, |bytes|);
      HexValueOfDigit(bytes[0] / 16);
      HexValueOfDigit(bytes[0] % 16);
      assert ByteAt(s, 0) == Some(bytes[0]) by {
        assert s[..3] == PercentByte(bytes[0]);
      }
      assert IsScalar(c as int);
      assert DecodeEscaped(s) == Some((c, 3 * |bytes|));
      assert s[3 * |bytes|..] == rest;
    }
  }

  /** Decoding undoes encoding, for every string. */
  lemma {:induction false} DecodeEncode(s: string)
    ensures DecodeUriComponent(EncodeUriComponent(s)) == Some(s)
  {
    if |s| > 0 {
      DecodeEncode(s[1..]);
      DecodeEncodedChar(s[0], EncodeUriComponent(s[1..]));
      assert s == [s[0]] + s[1..];
    }
  }
}
