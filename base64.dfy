/** Base64 as defined in section 4 of RFC 4648: 64 symbols for the six-bit
    groups, and '=' padding so that every encoding is a whole number of
    four-character quanta. The server decodes the payload of an incoming data
    URI with it and re-encodes the stored file before sending it on. */
module Base64 {
  import opened Wrappers

  newtype byte = x: int | 0 <= x < 256

  /** The value of one base64 symbol. */
  type Sextet = x: int | 0 <= x < 64

  /** The symbol for a six-bit value (table 1 of RFC 4648). */
  function CharOf(v: Sextet): char
  {
    if v < 26 then ('A' as int + v) as char
    else if v < 52 then ('a' as int + (v - 26)) as char
    else if v < 62 then ('0' as int + (v - 52)) as char
    else if v == 62 then '+'
    else '/'
  }

  predicate IsSymbol(c: char)
  {
    'A' <= c <= 'Z' || 'a' <= c <= 'z' || '0' <= c <= '9' || c == '+' || c == '/'
  }

  /** The value of a symbol; it is the one value whose symbol is c. */
  function ValueOf(c: char): (v: Sextet)
    requires IsSymbol(c)
    ensures CharOf(v) == c
  {
    if 'A' <= c <= 'Z' then c as int - 'A' as int
    else if 'a' <= c <= 'z' then c as int - 'a' as int + 26
    else if '0' <= c <= '9' then c as int - '0' as int + 52
    else if c == '+' then 62
    else 63
  }

  lemma ValueOfCharOf(v: Sextet)
    ensures IsSymbol(CharOf(v)) && ValueOf(CharOf(v)) == v
  {
  }

  /** Three bytes become four symbols, most significant bits first. */
  function Quantum3(b0: byte, b1: byte, b2: byte): string
  {
    [CharOf(b0 as int / 4), CharOf((b0 as int % 4) * 16 + b1 as int / 16),
     CharOf((b1 as int % 16) * 4 + b2 as int / 64), CharOf(b2 as int % 64)]
  }

  /** A final group of two bytes: three symbols and one pad. */
  function Quantum2(b0: byte, b1: byte): string
  {
    [CharOf(b0 as int / 4), CharOf((b0 as int % 4) * 16 + b1 as int / 16),
     CharOf((b1 as int % 16) * 4), '=']
  }

  /** A final group of one byte: two symbols and two pads. */
  function Quantum1(b0: byte): string
  {
    [CharOf(b0 as int / 4), CharOf((b0 as int % 4) * 16), '=', '=']
  }

  /** Every character of an encoding is a symbol or the pad. */
  predicate IsEncodingChar(c: char)
  {
    IsSymbol(c) || c == '='
  }

  function Encode(b: seq<byte>): (s: string)
    ensures |b| == 0 <==> |s| == 0
    ensures |b| > 0 ==> |s| >= 4
    ensures |b| > 3 ==> |s| >= 8
    decreases |b|
  {
    if |b| == 0 then []
    else if |b| == 1 then Quantum1(b[0])
    else if |b| == 2 then Quantum2(b[0], b[1])
    else Quantum3(b[0], b[1], b[2]) + Encode(b[3..])
  }

  /** An encoding uses only the 64 symbols and the pad. */
  lemma {:induction false} EncodeChars(b: seq<byte>)
    ensures forall i :: 0 <= i < |Encode(b)| ==> IsEncodingChar(Encode(b)[i])
    decreases |b|
  {
    if |b| > 2 {
      EncodeChars(b[3..]);
      var q := Quantum3(b[0], b[1], b[2]);
      assert Encode(b) == q + Encode(b[3..]);
      forall i | 0 <= i < |Encode(b)| ensures IsEncodingChar(Encode(b)[i]) {
        if i >= 4 {
          assert Encode(b)[i] == Encode(b[3..])[i - 4];
        }
      }
    }
  }

  /** A quantum without padding. */
  function DecodeFull(q: string): (r: Option<seq<byte>>)
    requires |q| == 4
    ensures r.Some? <==> IsSymbol(q[0]) && IsSymbol(q[1]) && IsSymbol(q[2]) && IsSymbol(q[3])
    ensures r.Some? ==> |r.value| == 3
  {
    if IsSymbol(q[0]) && IsSymbol(q[1]) && IsSymbol(q[2]) && IsSymbol(q[3]) then
      var c0, c1, c2, c3 := ValueOf(q[0]), ValueOf(q[1]), ValueOf(q[2]), ValueOf(q[3]);
      Some([(c0 * 4 + c1 / 16) as byte, ((c1 % 16) * 16 + c2 / 4) as byte, ((c2 % 4) * 64 + c3) as byte])
    else None
  }

  /** The last quantum may carry one or two pads; the bits the pads leave
      over must be zero (the canonical encoding of section 3.5 of RFC 4648). */
  function DecodeLast(q: string): (r: Option<seq<byte>>)
    requires |q| == 4
    ensures r.Some? ==> IsSymbol(q[0]) && IsSymbol(q[1])
    ensures r.Some? ==> |r.value| == (if q[2] == '=' then 1 else if q[3] == '=' then 2 else 3)
  {
    if q[2] == '=' && q[3] == '=' then
      if IsSymbol(q[0]) && IsSymbol(q[1]) && ValueOf(q[1]) % 16 == 0 then
        Some([(ValueOf(q[0]) * 4 + ValueOf(q[1]) / 16) as byte])
      else None
    else if q[3] == '=' then
      if IsSymbol(q[0]) && IsSymbol(q[1]) && IsSymbol(q[2]) && ValueOf(q[2]) % 4 == 0 then
        var c0, c1, c2 := ValueOf(q[0]), ValueOf(q[1]), ValueOf(q[2]);
        Some([(c0 * 4 + c1 / 16) as byte, ((c1 % 16) * 16 + c2 / 4) as byte])
      else None
    else DecodeFull(q)
  }

  /** Decoding of a canonical encoding; None for anything else (a length
      that is not a multiple of four, a stray character, a pad before the
      last quantum, non-zero pad bits). */
  function Decode(s: string): (r: Option<seq<byte>>)
    ensures r.Some? ==> |s| % 4 == 0 && (|r.value| == 0 <==> |s| == 0)
    ensures r.Some? ==> forall i :: 0 <= i < |s| - 4 ==> IsSymbol(s[i])
    decreases |s|
  {
    if |s| == 0 then Some([])
    else if |s| < 4 then None
    else if |s| == 4 then DecodeLast(s)
    else match DecodeFull(s[..4])
      case None => None
      case Some(g) =>
        match Decode(s[4..])
        case None => None
        case Some(rest) => Some(g + rest)
  }

  /** Splitting a byte and joining the pieces again gives the byte back. */
  lemma Rejoin(b0: byte, b1: byte, b2: byte)
    ensures (b0 as int / 4) * 4 + ((b0 as int % 4) * 16 + b1 as int / 16) / 16 == b0 as int
    ensures (((b0 as int % 4) * 16 + b1 as int / 16) % 16) * 16 + ((b1 as int % 16) * 4 + b2 as int / 64) / 4 == b1 as int
    ensures (((b1 as int % 16) * 4 + b2 as int / 64) % 4) * 64 + b2 as int % 64 == b2 as int
  {
    var x0, y0 := b0 as int / 4, b0 as int % 4;
    var x1, y1 := b1 as int / 16, b1 as int % 16;
    var x2, y2 := b2 as int / 64, b2 as int % 64;
    assert b0 as int == 4 * x0 + y0 && b1 as int == 16 * x1 + y1 && b2 as int == 64 * x2 + y2;
    assert 0 <= x1 < 16 && 0 <= x2 < 4;
    assert (y0 * 16 + x1) / 16 == y0 && (y0 * 16 + x1) % 16 == x1;
    assert (y1 * 4 + x2) / 4 == y1 && (y1 * 4 + x2) % 4 == x2;
  }

  lemma Quantum3RoundTrip(b0: byte, b1: byte, b2: byte)
    ensures DecodeFull(Quantum3(b0, b1, b2)) == Some([b0, b1, b2])
    ensures DecodeLast(Quantum3(b0, b1, b2)) == Some([b0, b1, b2])
    ensures Decode(Quantum3(b0, b1, b2)) == Some([b0, b1, b2])
  {
    var v0, v1 := b0 as int / 4, (b0 as int % 4) * 16 + b1 as int / 16;
    var v2, v3 := (b1 as int % 16) * 4 + b2 as int / 64, b2 as int % 64;
    ValueOfCharOf(v0);
    ValueOfCharOf(v1);
    ValueOfCharOf(v2);
    ValueOfCharOf(v3);
    Rejoin(b0, b1, b2);
    var q := Quantum3(b0, b1, b2);
    assert q[3] != '=';
    assert DecodeFull(q) == Some([(v0 * 4 + v1 / 16) as byte, ((v1 % 16) * 16 + v2 / 4) as byte, ((v2 % 4) * 64 + v3) as byte]);
  }

  lemma Quantum2RoundTrip(b0: byte, b1: byte)
    ensures DecodeLast(Quantum2(b0, b1)) == Some([b0, b1])
    ensures Decode(Quantum2(b0, b1)) == Some([b0, b1])
  {
    var v0, v1, v2 := b0 as int / 4, (b0 as int % 4) * 16 + b1 as int / 16, (b1 as int % 16) * 4;
    ValueOfCharOf(v0);
    ValueOfCharOf(v1);
    ValueOfCharOf(v2);
    Rejoin(b0, b1, 0);
    var q := Quantum2(b0, b1);
    assert q[2] != '=' && q[3] == '=';
  }

  lemma Quantum1RoundTrip(b0: byte)
    ensures DecodeLast(Quantum1(b0)) == Some([b0])
    ensures Decode(Quantum1(b0)) == Some([b0])
  {
    ValueOfCharOf(b0 as int / 4);
    ValueOfCharOf((b0 as int % 4) * 16);
    Rejoin(b0, 0, 0);
  }

  /** Decoding a full quantum followed by more text. */
  lemma DecodeCons(q: string, e: string, g: seq<byte>, rest: seq<byte>)
    requires |q| == 4 && |e| > 0
    requires DecodeFull(q) == Some(g) && Decode(e) == Some(rest)
    ensures Decode(q + e) == Some(g + rest)
  {
    assert (q + e)[..4] == q && (q + e)[4..] == e;
  }

  lemma DecodeEncodeOne(b: seq<byte>)
    requires |b| == 1
    ensures Decode(Encode(b)) == Some(b)
  {
    Quantum1RoundTrip(b[0]);
    assert [b[0]] == b;
  }

  lemma DecodeEncodeTwo(b: seq<byte>)
    requires |b| == 2
    ensures Decode(Encode(b)) == Some(b)
  {
    Quantum2RoundTrip(b[0], b[1]);
    assert [b[0], b[1]] == b;
  }

  lemma DecodeEncodeThree(b: seq<byte>)
    requires |b| == 3
    ensures Decode(Encode(b)) == Some(b)
  {
    var q := Quantum3(b[0], b[1], b[2]);
    assert Encode(b) == q by {
      assert Encode(b[3..]) == [];
      AppendEmpty(q);
    }
    Quantum3RoundTrip(b[0], b[1], b[2]);
    ThreeBytes(b);
  }

  lemma AppendEmpty(q: string)
    ensures q + [] == q
  {
  }

  lemma ThreeBytes(b: seq<byte>)
    requires |b| == 3
    ensures [b[0], b[1], b[2]] == b
  {
  }

  lemma SplitFirstThree(b: seq<byte>)
    requires |b| >= 3
    ensures [b[0], b[1], b[2]] + b[3..] == b
  {
    assert ([b[0], b[1], b[2]] + b[3..])[3..] == b[3..];
  }

  lemma DecodeEncodeStep(b: seq<byte>)
    requires |b| > 3 && Decode(Encode(b[3..])) == Some(b[3..])
    ensures Decode(Encode(b)) == Some(b)
  {
    var q, e := Quantum3(b[0], b[1], b[2]), Encode(b[3..]);
    assert Encode(b) == q + e;
    Quantum3RoundTrip(b[0], b[1], b[2]);
    DecodeCons(q, e, [b[0], b[1], b[2]], b[3..]);
    SplitFirstThree(b);
  }

  /** Decoding undoes encoding. */
  lemma {:induction false} DecodeEncode(b: seq<byte>)
    ensures Decode(Encode(b)) == Some(b)
    decreases |b|
  {
    if |b| == 0 {
    } else if |b| == 1 {
      DecodeEncodeOne(b);
    } else if |b| == 2 {
      DecodeEncodeTwo(b);
    } else if |b| == 3 {
      DecodeEncodeThree(b);
    } else {
      DecodeEncode(b[3..]);
      DecodeEncodeStep(b);
    }
  }

  /** Every three bytes become four characters, the last one to three
      bytes included. */
  lemma {:induction false} EncodeLength(b: seq<byte>)
    ensures |Encode(b)| == 4 * ((|b| + 2) / 3)
    decreases |b|
  {
    if |b| > 2 {
      EncodeLength(b[3..]);
      assert (|b| + 2) / 3 == (|b[3..]| + 2) / 3 + 1;
    }
  }

  lemma DecodeFullCanonical(q: string, g: seq<byte>)
    requires |q| == 4 && DecodeFull(q) == Some(g)
    ensures |g| == 3 && Quantum3(g[0], g[1], g[2]) == q
  {
    var c0, c1, c2, c3 := ValueOf(q[0]), ValueOf(q[1]), ValueOf(q[2]), ValueOf(q[3]);
    assert g[0] as int / 4 == c0 && (g[0] as int % 4) * 16 + g[1] as int / 16 == c1;
    assert (g[1] as int % 16) * 4 + g[2] as int / 64 == c2 && g[2] as int % 64 == c3;
  }

  lemma TwoPadsCanonical(q: string, g: seq<byte>)
    requires |q| == 4 && q[2] == '=' && q[3] == '=' && DecodeLast(q) == Some(g)
    ensures |g| == 1 && Quantum1(g[0]) == q
  {
    var c0, c1 := ValueOf(q[0]), ValueOf(q[1]);
    assert g[0] as int / 4 == c0 && (g[0] as int % 4) * 16 == c1;
  }

  lemma OnePadCanonical(q: string, g: seq<byte>)
    requires |q| == 4 && q[2] != '=' && q[3] == '=' && DecodeLast(q) == Some(g)
    ensures |g| == 2 && Quantum2(g[0], g[1]) == q
  {
    var c0, c1, c2 := ValueOf(q[0]), ValueOf(q[1]), ValueOf(q[2]);
    assert g[0] as int / 4 == c0 && (g[0] as int % 4) * 16 + g[1] as int / 16 == c1;
    assert (g[1] as int % 16) * 4 == c2;
  }

  lemma DecodeLastCanonical(q: string, g: seq<byte>)
    requires |q| == 4 && DecodeLast(q) == Some(g)
    ensures 1 <= |g| <= 3 && Encode(g) == q
  {
    if q[2] == '=' && q[3] == '=' {
      TwoPadsCanonical(q, g);
    } else if q[3] == '=' {
      OnePadCanonical(q, g);
    } else {
      DecodeFullCanonical(q, g);
      assert g[3..] == [];
      assert Encode(g) == Quantum3(g[0], g[1], g[2]) + [];
    }
  }

  /** Encoding undoes decoding: a string decodes only if it is the one
      canonical encoding of the bytes it decodes to. */
  lemma {:induction false} EncodeDecode(s: string, b: seq<byte>)
    requires Decode(s) == Some(b)
    ensures Encode(b) == s
    decreases |s|
  {
    if |s| == 0 {
    } else if |s| == 4 {
      DecodeLastCanonical(s, b);
    } else {
      var g := DecodeFull(s[..4]).value;
      var rest := Decode(s[4..]).value;
      assert b == g + rest;
      DecodeFullCanonical(s[..4], g);
      EncodeDecode(s[4..], rest);
      assert b[..3] == g && b[3..] == rest;
      assert s == s[..4] + s[4..];
    }
  }
}
