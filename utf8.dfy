/** UTF-8 as `bytes.decode("utf-8")` reads it: only well-formed sequences are
    accepted (no overlong forms, no surrogates, nothing above U+10FFFF), and a
    byte string that is not well-formed is an error (`UnicodeDecodeError`). */
module Utf8 {
  import opened Wrappers
  import opened Bytes

  predicate IsContinuation(b: byte)
  {
    0x80 <= b <= 0xBF
  }

  /** The first character of `b` and the number of bytes it takes. */
  function DecodeFirst(b: seq<byte>): (r: Option<(char, nat)>)
    requires b != []
    ensures r.Some? ==> 1 <= r.value.1 <= 4 && r.value.1 <= |b|
  {
    var b0: int := b[0];
    if b0 < 0x80 then Some((b0 as char, 1))
    else if 0xC2 <= b0 <= 0xDF then
      if |b| >= 2 && IsContinuation(b[1])
      then Some((((b0 - 0xC0) * 64 + (b[1] as int - 0x80)) as char, 2))
      else None
    else if 0xE0 <= b0 <= 0xEF then
      var lo := if b0 == 0xE0 then 0xA0 else 0x80;
      var hi := if b0 == 0xED then 0x9F else 0xBF;
      if |b| >= 3 && lo <= b[1] <= hi && IsContinuation(b[2])
      then Some((((b0 - 0xE0) * 4096 + (b[1] as int - 0x80) * 64 + (b[2] as int - 0x80)) as char, 3))
      else None
    else if 0xF0 <= b0 <= 0xF4 then
      var lo := if b0 == 0xF0 then 0x90 else 0x80;
      var hi := if b0 == 0xF4 then 0x8F else 0xBF;
      if |b| >= 4 && lo <= b[1] <= hi && IsContinuation(b[2]) && IsContinuation(b[3])
      then Some((((b0 - 0xF0) * 262144 + (b[1] as int - 0x80) * 4096 + (b[2] as int - 0x80) * 64 + (b[3] as int - 0x80)) as char, 4))
      else None
    else None
  }

  /** `bytes.decode("utf-8")`: `None` is the `UnicodeDecodeError` it raises. */
  function Decode(b: seq<byte>): (r: Option<string>)
    ensures r.Some? ==> |r.value| <= |b|
    decreases |b|
  {
    if b == [] then Some([])
    else
      match DecodeFirst(b)
      case None => None
      case Some((c, n)) =>
        match Decode(b[n..])
        case None => None
        case Some(rest) => Some([c] + rest)
  }

  /** The one to four bytes that encode a character. */
  function EncodeChar(c: char): (r: seq<byte>)
    ensures 1 <= |r| <= 4
  {
    var n := c as int;
    if n < 0x80 then [n]
    else if n < 0x800 then [0xC0 + n / 64, 0x80 + n % 64]
    else if n < 0x10000 then [0xE0 + n / 4096, 0x80 + (n / 64) % 64, 0x80 + n % 64]
    else [0xF0 + n / 262144, 0x80 + (n / 4096) % 64, 0x80 + (n / 64) % 64, 0x80 + n % 64]
  }

  function Encode(s: string): (r: seq<byte>)
    ensures |r| >= |s|
  {
    if s == [] then [] else EncodeChar(s[0]) + Encode(s[1..])
  }

  lemma DecodeFirstEncodeTwo(c: char, rest: seq<byte>)
    requires 0x80 <= c as int < 0x800
    ensures DecodeFirst(EncodeChar(c) + rest) == Some((c, 2))
  {
    var n := c as int;
    assert n == (n / 64) * 64 + n % 64;
  }

  lemma DecodeFirstEncodeThree(c: char, rest: seq<byte>)
    requires 0x800 <= c as int < 0x10000
    ensures DecodeFirst(EncodeChar(c) + rest) == Some((c, 3))
  {
    var n := c as int;
    assert n / 64 == (n / 4096) * 64 + (n / 64) % 64;
    assert n == (n / 64) * 64 + n % 64;
    assert n == (n / 4096) * 4096 + ((n / 64) % 64) * 64 + n % 64;
  }

  lemma DecodeFirstEncodeFour(c: char, rest: seq<byte>)
    requires 0x10000 <= c as int
    ensures DecodeFirst(EncodeChar(c) + rest) == Some((c, 4))
  {
    var n := c as int;
    assert n / 4096 == (n / 262144) * 64 + (n / 4096) % 64;
    assert n / 64 == (n / 4096) * 64 + (n / 64) % 64;
    assert n == (n / 64) * 64 + n % 64;
    assert n == (n / 262144) * 262144 + ((n / 4096) % 64) * 4096 + ((n / 64) % 64) * 64 + n % 64;
  }

  /** The first character of an encoded text is read back whole. */
  lemma DecodeFirstEncode(c: char, rest: seq<byte>)
    ensures DecodeFirst(EncodeChar(c) + rest) == Some((c, |EncodeChar(c)|))
  {
    var n := c as int;
    if n < 0x80 {
    } else if n < 0x800 {
      DecodeFirstEncodeTwo(c, rest);
    } else if n < 0x10000 {
      DecodeFirstEncodeThree(c, rest);
    } else {
      DecodeFirstEncodeFour(c, rest);
    }
  }

  /** Decoding undoes encoding, for every text. */
  lemma {:induction false} DecodeEncode(s: string)
    ensures Decode(Encode(s)) == Some(s)
  {
    if s != [] {
      var head := EncodeChar(s[0]);
      var b := head + Encode(s[1..]);
      DecodeFirstEncode(s[0], Encode(s[1..]));
      assert b[|head|..] == Encode(s[1..]);
      DecodeEncode(s[1..]);
      assert [s[0]] + s[1..] == s;
    }
  }

  /** The two bytes of a two-byte sequence are the encoding of what they decode to. */
  lemma EncodeDecodeFirstTwo(b: seq<byte>)
    requires |b| >= 2 && 0xC2 <= b[0] <= 0xDF && IsContinuation(b[1])
    ensures DecodeFirst(b).Some? && EncodeChar(DecodeFirst(b).value.0) == b[..2]
  {
    var q, r := b[0] as int - 0xC0, b[1] as int - 0x80;
    var n := q * 64 + r;
    assert n / 64 == q && n % 64 == r;
  }

  lemma EncodeDecodeFirstThree(b: seq<byte>)
    requires |b| >= 3 && 0xE0 <= b[0] <= 0xEF && IsContinuation(b[1]) && IsContinuation(b[2])
    requires b[0] == 0xE0 ==> 0xA0 <= b[1]
    requires b[0] == 0xED ==> b[1] <= 0x9F
    ensures DecodeFirst(b).Some? && EncodeChar(DecodeFirst(b).value.0) == b[..3]
  {
    var q, m, r := b[0] as int - 0xE0, b[1] as int - 0x80, b[2] as int - 0x80;
    var n := q * 4096 + m * 64 + r;
    assert n / 64 == q * 64 + m && n % 64 == r;
    assert n / 4096 == q && (n / 64) % 64 == m;
  }

  lemma EncodeDecodeFirstFour(b: seq<byte>)
    requires |b| >= 4 && 0xF0 <= b[0] <= 0xF4
    requires IsContinuation(b[1]) && IsContinuation(b[2]) && IsContinuation(b[3])
    requires b[0] == 0xF0 ==> 0x90 <= b[1]
    requires b[0] == 0xF4 ==> b[1] <= 0x8F
    ensures DecodeFirst(b).Some? && EncodeChar(DecodeFirst(b).value.0) == b[..4]
  {
    var q, a, m, r := b[0] as int - 0xF0, b[1] as int - 0x80, b[2] as int - 0x80, b[3] as int - 0x80;
    var n := q * 262144 + a * 4096 + m * 64 + r;
    assert n / 64 == q * 4096 + a * 64 + m && n % 64 == r;
    assert n / 4096 == q * 64 + a && (n / 64) % 64 == m;
    assert n / 262144 == q && (n / 4096) % 64 == a;
  }

  /** Whatever the first character is read from, it is exactly the encoding
      of that character: no other byte pattern is accepted for it. */
  lemma EncodeDecodeFirst(b: seq<byte>)
    requires b != [] && DecodeFirst(b).Some?
    ensures EncodeChar(DecodeFirst(b).value.0) == b[..DecodeFirst(b).value.1]
  {
    if b[0] < 0x80 {
    } else if b[0] <= 0xDF {
      EncodeDecodeFirstTwo(b);
    } else if b[0] <= 0xEF {
      EncodeDecodeFirstThree(b);
    } else {
      EncodeDecodeFirstFour(b);
    }
  }

  /** The decoder is strict: a byte string it accepts is the encoding of the
      text it yields, so it accepts only well-formed UTF-8. */
  lemma {:induction false} EncodeDecode(b: seq<byte>)
    requires Decode(b).Some?
    ensures Encode(Decode(b).value) == b
    decreases |b|
  {
    if b != [] {
      var (c, n) := DecodeFirst(b).value;
      EncodeDecodeFirst(b);
      EncodeDecode(b[n..]);
      var rest := Decode(b[n..]).value;
      assert Decode(b).value == [c] + rest;
      assert ([c] + rest)[1..] == rest;
      assert b[..n] + b[n..] == b;
    }
  }

  /** Text in the ASCII range encodes to its code points, one byte each. */
  lemma {:induction false} EncodeAscii(s: string)
    requires forall i :: 0 <= i < |s| ==> s[i] as int < 0x80
    ensures Encode(s) == seq(|s|, i requires 0 <= i < |s| => s[i] as int)
  {
    if s != [] {
      EncodeAscii(s[1..]);
    }
  }
}
