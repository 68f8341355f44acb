/** Base64 in the alphabet of section 4 of RFC 4648, as Python's `base64`
    module writes and reads it. `b64encode` emits whole groups of four
    characters, padding the last with one or two `=`. `b64decode` with its
    defaults reads a text the way CPython's `binascii.a2b_base64` does in its
    non-strict mode: characters outside the alphabet are skipped, a pad that
    completes a group ends the input (anything after it is ignored), and a
    group left unfinished is an error. Like Python it does not insist that
    the unused bits before a pad are zero. */
module Base64 {
  import opened Wrappers
  import opened Bytes

  /** The character that encodes the 6-bit value `i`; decoding it gives `i` back. */
  function CharOf(i: int): (c: char)
    requires 0 <= i < 64
    ensures IndexOf(c) == Some(i)
  {
    if i < 26 then ('A' as int + i) as char
    else if i < 52 then ('a' as int + i - 26) as char
    else if i < 62 then ('0' as int + i - 52) as char
    else if i == 62 then '+'
    else '/'
  }

  /** The 6-bit value a character encodes, if it is in the alphabet. */
  function IndexOf(c: char): (r: Option<int>)
    ensures r.Some? ==> 0 <= r.value < 64
    ensures c == '=' ==> r.None?
  {
    if 'A' <= c <= 'Z' then Some(c as int - 'A' as int)
    else if 'a' <= c <= 'z' then Some(c as int - 'a' as int + 26)
    else if '0' <= c <= '9' then Some(c as int - '0' as int + 52)
    else if c == '+' then Some(62)
    else if c == '/' then Some(63)
    else None
  }

  predicate InAlphabet(c: char)
  {
    IndexOf(c).Some?
  }

  /** What an encoder may emit: the alphabet and the pad character. */
  predicate IsEncodingChar(c: char)
  {
    InAlphabet(c) || c == '='
  }

  /** Three bytes as four characters. */
  function EncodeGroup(b0: byte, b1: byte, b2: byte): string
  {
    [CharOf(b0 / 4), CharOf((b0 % 4) * 16 + b1 / 16), CharOf((b1 % 16) * 4 + b2 / 64), CharOf(b2 % 64)]
  }

  /** One final byte as two characters and two pads. */
  function EncodeLastOne(b0: byte): string
  {
    [CharOf(b0 / 4), CharOf((b0 % 4) * 16), '=', '=']
  }

  /** Two final bytes as three characters and one pad. */
  function EncodeLastTwo(b0: byte, b1: byte): string
  {
    [CharOf(b0 / 4), CharOf((b0 % 4) * 16 + b1 / 16), CharOf((b1 % 16) * 4), '=']
  }

  /** `base64.b64encode`. */
  function Encode(b: seq<byte>): (s: string)
  {
    if |b| == 0 then []
    else if |b| == 1 then EncodeLastOne(b[0])
    else if |b| == 2 then EncodeLastTwo(b[0], b[1])
    else EncodeGroup(b[0], b[1], b[2]) + Encode(b[3..])
  }

  /** Where the decoder stands inside a group: `pos` data characters of it
      read, `left` the bits of the last one not yet written out (all six after
      the first character, then four, then two). */
  predicate Pending(pos: int, left: int)
  {
    (pos == 0 && left == 0) || (pos == 1 && 0 <= left < 64) ||
    (pos == 2 && 0 <= left < 16) || (pos == 3 && 0 <= left < 4)
  }

  /** How many more byte-quarters the characters already read in a group can
      still yield beyond three per four characters to come: a group that
      has read `pos` characters needs `4 - pos` more to finish. */
  function Unwritten(pos: int): nat
  {
    if 0 < pos < 4 then 4 - pos else 0
  }

  /** Bytes written before the rest of a decoding; a failure stays a failure. */
  function Prepend(bytes: seq<byte>, r: Option<seq<byte>>): Option<seq<byte>>
  {
    if r.None? then None else Some(bytes + r.value)
  }

  /** The decoding loop of `a2b_base64`, from the state (`pos`, `left`) with
      `pads` pad characters counted since the last data character. A pad only
      counts once two data characters of the group are in; when the count
      completes the group the input ends there. */
  function Scan(s: string, pos: int, left: int, pads: nat): (r: Option<seq<byte>>)
    requires Pending(pos, left)
    ensures r.Some? ==> 4 * |r.value| <= 3 * |s| + Unwritten(pos)
    decreases |s|
  {
    if s == [] then
      if pos == 0 then Some([]) else None
    else if s[0] == '=' then
      if pos >= 2 && pos + pads + 1 >= 4 then Some([])
      else Scan(s[1..], pos, left, if pos >= 2 then pads + 1 else pads)
    else if !InAlphabet(s[0]) then
      Scan(s[1..], pos, left, pads)
    else
      var v := IndexOf(s[0]).value;
      if pos == 0 then Scan(s[1..], 1, v, 0)
      else if pos == 1 then Prepend([left * 4 + v / 16], Scan(s[1..], 2, v % 16, 0))
      else if pos == 2 then Prepend([left * 16 + v / 4], Scan(s[1..], 3, v % 4, 0))
      else Prepend([left * 64 + v], Scan(s[1..], 0, 0, 0))
  }

  predicate IsAscii(s: string)
  {
    forall i :: 0 <= i < |s| ==> s[i] as int < 128
  }

  /** `base64.b64decode(s)`: a text holding a non-ASCII character is refused
      before decoding (the `ValueError` of encoding it as ASCII), any other is
      scanned. `None` is either error. */
  function Decode(s: string): (r: Option<seq<byte>>)
    ensures r.Some? ==> IsAscii(s)
    ensures r.Some? ==> 4 * |r.value| <= 3 * |s|
  {
    if IsAscii(s) then Scan(s, 0, 0, 0) else None
  }

  /** Every character the encoder emits is in the alphabet or is a pad. */
  lemma {:induction false} EncodeChars(b: seq<byte>)
    ensures forall i :: 0 <= i < |Encode(b)| ==> IsEncodingChar(Encode(b)[i])
    decreases |b|
  {
    if |b| > 2 {
      EncodeChars(b[3..]);
      var g, t := EncodeGroup(b[0], b[1], b[2]), Encode(b[3..]);
      assert Encode(b) == g + t;
      forall i | 0 <= i < |g + t| ensures IsEncodingChar((g + t)[i]) {
        if i >= 4 {
          assert (g + t)[i] == t[i - 4];
        }
      }
    }
  }

  /** Four characters for every started group of three bytes. */
  lemma {:induction false} EncodeLength(b: seq<byte>)
    ensures |Encode(b)| == 4 * ((|b| + 2) / 3)
    decreases |b|
  {
    if |b| > 2 {
      EncodeLength(b[3..]);
      assert |Encode(b)| == 4 + |Encode(b[3..])|;
      assert (|b| + 2) / 3 == (|b[3..]| + 2) / 3 + 1;
    }
  }

  /** Splitting `q * 16 + r` and `q * 4 + r` back into quotient and remainder. */
  lemma Split16(q: int, r: int)
    requires 0 <= q && 0 <= r < 16
    ensures (q * 16 + r) / 16 == q && (q * 16 + r) % 16 == r
  {
  }

  lemma Split4(q: int, r: int)
    requires 0 <= q && 0 <= r < 4
    ensures (q * 4 + r) / 4 == q && (q * 4 + r) % 4 == r
  {
  }

  /** The 6-bit groups of three bytes put back together give the bytes. */
  lemma Regroup(b0: byte, b1: byte, b2: byte)
    ensures (b0 / 4) * 4 + ((b0 % 4) * 16 + b1 / 16) / 16 == b0
    ensures (((b0 % 4) * 16 + b1 / 16) % 16) * 16 + ((b1 % 16) * 4 + b2 / 64) / 4 == b1
    ensures (((b1 % 16) * 4 + b2 / 64) % 4) * 64 + b2 % 64 == b2
  {
    Split16(b0 % 4, b1 / 16);
    Split4(b1 % 16, b2 / 64);
  }

  /** One step of `Scan` on a data character, in each position of a group. */
  lemma ScanFirst(c: char, s: string)
    requires InAlphabet(c)
    ensures Scan([c] + s, 0, 0, 0) == Scan(s, 1, IndexOf(c).value, 0)
  {
    assert ([c] + s)[1..] == s;
  }

  lemma ScanSecond(c: char, s: string, left: int)
    requires InAlphabet(c) && 0 <= left < 64
    ensures Scan([c] + s, 1, left, 0) == Prepend([left * 4 + IndexOf(c).value / 16], Scan(s, 2, IndexOf(c).value % 16, 0))
  {
    assert ([c] + s)[1..] == s;
  }

  lemma ScanThird(c: char, s: string, left: int)
    requires InAlphabet(c) && 0 <= left < 16
    ensures Scan([c] + s, 2, left, 0) == Prepend([left * 16 + IndexOf(c).value / 4], Scan(s, 3, IndexOf(c).value % 4, 0))
  {
    assert ([c] + s)[1..] == s;
  }

  lemma ScanFourth(c: char, s: string, left: int)
    requires InAlphabet(c) && 0 <= left < 4
    ensures Scan([c] + s, 3, left, 0) == Prepend([left * 64 + IndexOf(c).value], Scan(s, 0, 0, 0))
  {
    assert ([c] + s)[1..] == s;
  }

  /** Pads after two data characters: the first is counted, the second ends
      the input; after three data characters one pad ends it. */
  lemma ScanPads(s: string, left: int)
    requires 0 <= left < 16
    ensures Scan(['=', '='] + s, 2, left, 0) == Some([])
  {
    assert (['=', '='] + s)[1..] == ['='] + s;
  }

  lemma ScanPad(s: string, left: int)
    requires 0 <= left < 4
    ensures Scan(['='] + s, 3, left, 0) == Some([])
  {
  }

  lemma PrependTwice(a: seq<byte>, b: seq<byte>, r: Option<seq<byte>>)
    ensures Prepend(a, Prepend(b, r)) == Prepend(a + b, r)
  {
    if r.Some? {
      assert a + (b + r.value) == (a + b) + r.value;
    }
  }

  /** Four data characters are read as the three bytes their 24 bits spell. */
  lemma ScanQuad(c0: char, c1: char, c2: char, c3: char, rest: string)
    requires InAlphabet(c0) && InAlphabet(c1) && InAlphabet(c2) && InAlphabet(c3)
    ensures var v0, v1, v2, v3 := IndexOf(c0).value, IndexOf(c1).value, IndexOf(c2).value, IndexOf(c3).value;
      Scan([c0, c1, c2, c3] + rest, 0, 0, 0) ==
      Prepend([v0 * 4 + v1 / 16, (v1 % 16) * 16 + v2 / 4, (v2 % 4) * 64 + v3], Scan(rest, 0, 0, 0))
  {
    var v0, v1, v2, v3 := IndexOf(c0).value, IndexOf(c1).value, IndexOf(c2).value, IndexOf(c3).value;
    var x0, x1, x2 := v0 * 4 + v1 / 16, (v1 % 16) * 16 + v2 / 4, (v2 % 4) * 64 + v3;
    var r := Scan(rest, 0, 0, 0);
    var s3 := [c3] + rest;
    var s2 := [c2] + s3;
    var s1 := [c1] + s2;
    assert [c0, c1, c2, c3] + rest == [c0] + s1;
    ScanFourth(c3, rest, v2 % 4);
    ScanThird(c2, s3, v1 % 16);
    ScanSecond(c1, s2, v0);
    ScanFirst(c0, s1);
    PrependTwice([x1], [x2], r);
    PrependTwice([x0], [x1, x2], r);
    assert [x1] + [x2] == [x1, x2];
    assert [x0] + [x1, x2] == [x0, x1, x2];
  }

  /** A full group is read as its three bytes, and decoding goes on after it. */
  lemma ScanGroup(b0: byte, b1: byte, b2: byte, rest: string)
    ensures Scan(EncodeGroup(b0, b1, b2) + rest, 0, 0, 0) == Prepend([b0, b1, b2], Scan(rest, 0, 0, 0))
  {
    var g := EncodeGroup(b0, b1, b2);
    assert g == [g[0], g[1], g[2], g[3]];
    ScanQuad(g[0], g[1], g[2], g[3], rest);
    Regroup(b0, b1, b2);
  }

  /** A last group of one byte and two pads ends the input. */
  lemma ScanLastOne(b0: byte, rest: string)
    ensures Scan(EncodeLastOne(b0) + rest, 0, 0, 0) == Some([b0])
  {
    var i0, i1 := b0 / 4, (b0 % 4) * 16;
    var s2 := ['=', '='] + rest;
    var s1 := [CharOf(i1)] + s2;
    assert EncodeLastOne(b0) + rest == [CharOf(i0)] + s1;
    Regroup(b0, 0, 0);
    ScanFirst(CharOf(i0), s1);
    ScanSecond(CharOf(i1), s2, i0);
    ScanPads(rest, i1 % 16);
    assert [b0] + [] == [b0];
  }

  /** A last group of two bytes and one pad ends the input. */
  lemma ScanLastTwo(b0: byte, b1: byte, rest: string)
    ensures Scan(EncodeLastTwo(b0, b1) + rest, 0, 0, 0) == Some([b0, b1])
  {
    var i0, i1, i2 := b0 / 4, (b0 % 4) * 16 + b1 / 16, (b1 % 16) * 4;
    var s3 := ['='] + rest;
    var s2 := [CharOf(i2)] + s3;
    var s1 := [CharOf(i1)] + s2;
    assert EncodeLastTwo(b0, b1) + rest == [CharOf(i0)] + s1;
    Regroup(b0, b1, 0);
    ScanFirst(CharOf(i0), s1);
    ScanSecond(CharOf(i1), s2, i0);
    ScanThird(CharOf(i2), s3, i1 % 16);
    ScanPad(rest, i2 % 4);
    PrependTwice([b0], [b1], Some([]));
    assert [b0] + [b1] + [] == [b0, b1];
  }

  /** Decoding an encoding followed by any text: after whole groups the
      decoder reads on into the text; after a padded group it stops. */
  lemma {:induction false} ScanEncode(b: seq<byte>, t: string)
    ensures |b| % 3 == 0 ==> Scan(Encode(b) + t, 0, 0, 0) == Prepend(b, Scan(t, 0, 0, 0))
    ensures |b| % 3 != 0 ==> Scan(Encode(b) + t, 0, 0, 0) == Some(b)
    decreases |b|, 1
  {
    if |b| == 0 {
      ScanEncodeEmpty(b, t);
    } else if |b| <= 2 {
      ScanEncodeShort(b, t);
    } else if |b| % 3 == 0 {
      ScanWholeGroupsStep(b, t);
    } else {
      ScanPaddedStep(b, t);
    }
  }

  /** The base cases of `ScanEncode`. */
  lemma ScanEncodeEmpty(b: seq<byte>, t: string)
    requires b == []
    ensures Scan(Encode(b) + t, 0, 0, 0) == Prepend(b, Scan(t, 0, 0, 0))
  {
    assert Encode(b) + t == t;
    if Scan(t, 0, 0, 0).Some? {
      assert b + Scan(t, 0, 0, 0).value == Scan(t, 0, 0, 0).value;
    }
  }

  lemma ScanEncodeShort(b: seq<byte>, t: string)
    requires 1 <= |b| <= 2
    ensures Scan(Encode(b) + t, 0, 0, 0) == Some(b)
  {
    if |b| == 1 {
      assert Encode(b) == EncodeLastOne(b[0]);
      ScanLastOne(b[0], t);
      assert b == [b[0]];
    } else {
      assert Encode(b) == EncodeLastTwo(b[0], b[1]);
      ScanLastTwo(b[0], b[1], t);
      assert b == [b[0], b[1]];
    }
  }

  lemma Reassociate(x: string, y: string, z: string)
    ensures (x + y) + z == x + (y + z)
  {
  }

  /** The encoding of three or more bytes is the first group followed by the
      encoding of the rest. */
  lemma EncodeFirstGroup(b: seq<byte>, t: string)
    requires |b| > 2
    ensures Encode(b) + t == EncodeGroup(b[0], b[1], b[2]) + (Encode(b[3..]) + t)
  {
    assert Encode(b) == EncodeGroup(b[0], b[1], b[2]) + Encode(b[3..]);
    Reassociate(EncodeGroup(b[0], b[1], b[2]), Encode(b[3..]), t);
  }

  /** The inductive steps of `ScanEncode`: a leading full group in front of
      whole groups, and in front of a padded group. */
  lemma {:induction false} ScanWholeGroupsStep(b: seq<byte>, t: string)
    requires |b| > 2 && |b| % 3 == 0
    ensures Scan(Encode(b) + t, 0, 0, 0) == Prepend(b, Scan(t, 0, 0, 0))
    decreases |b|, 0
  {
    var head, tail := [b[0], b[1], b[2]], b[3..];
    assert |tail| % 3 == 0;
    ScanEncode(tail, t);
    var rest := Encode(tail) + t;
    EncodeFirstGroup(b, t);
    ScanGroup(b[0], b[1], b[2], rest);
    assert head + tail == b;
    PrependTwice(head, tail, Scan(t, 0, 0, 0));
    assert Scan(Encode(b) + t, 0, 0, 0) == Prepend(head, Prepend(tail, Scan(t, 0, 0, 0)));
  }

  lemma {:induction false} ScanPaddedStep(b: seq<byte>, t: string)
    requires |b| > 2 && |b| % 3 != 0
    ensures Scan(Encode(b) + t, 0, 0, 0) == Some(b)
    decreases |b|, 0
  {
    var head, tail := [b[0], b[1], b[2]], b[3..];
    assert |tail| % 3 != 0;
    ScanEncode(tail, t);
    EncodeFirstGroup(b, t);
    ScanGroup(b[0], b[1], b[2], Encode(tail) + t);
    assert head + tail == b;
  }

  /** A character outside the alphabet that is not a pad is discarded
      wherever it occurs, so stray characters inside a token do not change
      what it decodes to. */
  lemma NonAlphabetSkipped(c: char, s: string, pos: int, left: int, pads: nat)
    requires Pending(pos, left) && !IsEncodingChar(c)
    ensures Scan([c] + s, pos, left, pads) == Scan(s, pos, left, pads)
  {
    assert ([c] + s)[1..] == s;
  }

  lemma EncodeAscii(b: seq<byte>)
    ensures IsAscii(Encode(b))
  {
    EncodeChars(b);
  }

  lemma AsciiConcat(x: string, y: string)
    requires IsAscii(x) && IsAscii(y)
    ensures IsAscii(x + y)
  {
    forall i | 0 <= i < |x + y| ensures (x + y)[i] as int < 128 {
      if i >= |x| {
        assert (x + y)[i] == y[i - |x|];
      }
    }
  }

  /** Decoding undoes encoding, for every byte string. */
  lemma DecodeEncode(b: seq<byte>)
    ensures Decode(Encode(b)) == Some(b)
  {
    EncodeAscii(b);
    ScanEncode(b, []);
    assert Encode(b) + [] == Encode(b);
    if |b| % 3 == 0 {
      assert b + [] == b;
    }
  }

  /** What follows a padded group is never looked at: any ASCII text after the
      encoding of a byte string whose length is not a multiple of three is
      ignored. */
  lemma TextAfterPadIgnored(b: seq<byte>, t: string)
    requires |b| % 3 != 0 && IsAscii(t)
    ensures Decode(Encode(b) + t) == Some(b)
  {
    EncodeAscii(b);
    AsciiConcat(Encode(b), t);
    ScanEncode(b, t);
  }
}
