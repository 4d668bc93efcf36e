/** The two-part frame: header length, body length and checksum, eight bytes each, then both parts. */
module Codec {

  import opened MixedRadix
  import opened Words
  import opened Options

  type Byte = x: int | 0 <= x < 256

  datatype Message = Message(header: seq<Byte>, data: seq<Byte>)

  datatype Error = TooLong | Truncated | LengthMismatch | BadRange | ChecksumMismatch

  datatype Result<+T> = Ok(value: T) | Err(error: Error)

  const PRELUDE: nat := 24

  // ---------- eight bytes, most significant first

  function Value(bs: seq<Byte>): nat {
    if bs == [] then 0 else Value(bs[..|bs| - 1]) * 256 + bs[|bs| - 1]
  }

  function Digits(v: nat, n: nat): (bs: seq<Byte>)
    ensures |bs| == n
  {
    if n == 0 then [] else Digits(v / 256, n - 1) + [v % 256]
  }

  function Power(n: nat): (r: nat)
    ensures r > 0
  {
    if n == 0 then 1 else 256 * Power(n - 1)
  }

  lemma {:induction false} ValueBound(bs: seq<Byte>)
    ensures Value(bs) < Power(|bs|)
  {
    if bs == [] {
    } else {
      ValueBound(bs[..|bs| - 1]);
    }
  }

  lemma {:induction false} ValueOfDigits(v: nat, n: nat)
    requires v < Power(n)
    ensures Value(Digits(v, n)) == v
    decreases n
  {
    if n == 0 {
    } else {
      ValueOfDigits(v / 256, n - 1);
      assert Digits(v, n)[..n - 1] == Digits(v / 256, n - 1);
    }
  }

  lemma {:induction false} DigitsOfValue(bs: seq<Byte>)
    ensures Digits(Value(bs), |bs|) == bs
  {
    if bs == [] {
    } else {
      DigitsOfValue(bs[..|bs| - 1]);
    }
  }

  lemma PowerEight()
    ensures Power(8) == WORD
  {
    assert Power(1) == 256 && Power(2) == 0x10000 && Power(3) == 0x1000000 && Power(4) == 0x1_0000_0000;
    assert Power(5) == 0x100_0000_0000 && Power(6) == 0x1_0000_0000_0000 && Power(7) == 0x100_0000_0000_0000;
  }

  // ---------- FNV-1a

  const OFFSET: nat := 0xcbf29ce484222325
  const PRIME: nat := 0x100000001b3

  /** The inverse of the prime among 64-bit words. */
  const INVERSE: nat := 0xce965057aff6957b

  /** Exclusive or of the low `n` bits. */
  function Xor(a: nat, b: nat, n: nat): nat {
    if n == 0 then 0 else 2 * Xor(a / 2, b / 2, n - 1) + (a + b) % 2
  }

  function Bits(n: nat): (r: nat)
    ensures r > 0
  {
    if n == 0 then 1 else 2 * Bits(n - 1)
  }

  lemma {:induction false} XorBound(a: nat, b: nat, n: nat)
    ensures Xor(a, b, n) < Bits(n)
    decreases n
  {
    if n > 0 { XorBound(a / 2, b / 2, n - 1); }
  }

  lemma LowBit(q: nat, a: nat, b: nat)
    ensures (2 * q + (a + b) % 2) / 2 == q && (2 * q + (a + b) % 2 + b) % 2 == a % 2
  {
  }

  /** Either operand can be read back from the other. */
  lemma {:induction false} XorUndo(a: nat, b: nat, n: nat)
    requires a < Bits(n)
    ensures Xor(Xor(a, b, n), b, n) == a
    decreases n
  {
    if n > 0 {
      XorUndo(a / 2, b / 2, n - 1);
      LowBit(Xor(a / 2, b / 2, n - 1), a, b);
    }
  }

  lemma {:induction false} XorSym(a: nat, b: nat, n: nat)
    ensures Xor(a, b, n) == Xor(b, a, n)
    decreases n
  {
    if n > 0 { XorSym(a / 2, b / 2, n - 1); }
  }

  lemma EightBits()
    ensures Bits(8) == 256
  {
    assert Bits(1) == 2 && Bits(2) == 4 && Bits(3) == 8 && Bits(4) == 16 && Bits(5) == 32 && Bits(6) == 64 && Bits(7) == 128;
  }

  /** A byte reaches only the low eight bits of the hash. */
  function XorByte(h: nat, c: Byte): nat { Quotient(h, 256) * 256 + Xor(Remainder(h, 256), c, 8) }

  function Mix(h: nat, c: Byte): (r: nat)
    ensures r < WORD
  {
    Wrap(XorByte(h, c) * PRIME)
  }

  function Fnv(h: nat, s: seq<Byte>): nat
    decreases s
  {
    if s == [] then h else Fnv(Mix(h, s[0]), s[1..])
  }

  function Checksum(m: Message): nat { Fnv(Fnv(OFFSET, m.header), m.data) }

  lemma XorByteBound(h: nat, c: Byte)
    requires h < WORD
    ensures XorByte(h, c) < WORD
  {
    hide Xor;
    EightBits();
    XorBound(Remainder(h, 256), c, 8);
  }

  lemma XorByteInjective(h: nat, c: Byte, g: nat, d: Byte)
    requires XorByte(h, c) == XorByte(g, d) && (h == g || c == d)
    ensures h == g && c == d
  {
    hide Xor, Quotient, Remainder;
    EightBits();
    DivMod(h, 256);
    DivMod(g, 256);
    var a, b := Remainder(h, 256), Remainder(g, 256);
    XorBound(a, c, 8);
    XorBound(b, d, 8);
    DivDigit(XorByte(h, c), Quotient(h, 256), 256, Xor(a, c, 8));
    DivDigit(XorByte(g, d), Quotient(g, 256), 256, Xor(b, d, 8));
    XorUndo(a, c, 8);
    XorUndo(b, d, 8);
    XorUndo(c, a, 8);
    XorUndo(d, b, 8);
    XorSym(a, c, 8);
    XorSym(b, d, 8);
  }

  /** The prime is odd, so multiplying by it loses nothing. */
  lemma PrimeUndo(x: nat)
    requires x < WORD
    ensures Wrap(Wrap(x * PRIME) * INVERSE) == x
  {
    WrapProduct(x * PRIME, INVERSE, Wrap(x * PRIME) * INVERSE, x * PRIME * INVERSE);
    assert PRIME * INVERSE == 887285111055 * WORD + 1;
    WrapMultiple(887285111055 * x, x, x * PRIME * INVERSE);
    WrapSmall(x);
  }

  /** One step tells apart two hashes, and two bytes. */
  lemma MixInjective(h: nat, c: Byte, g: nat, d: Byte)
    requires h < WORD && g < WORD && Mix(h, c) == Mix(g, d) && (h == g || c == d)
    ensures h == g && c == d
  {
    hide Wrap, XorByte;
    XorByteBound(h, c);
    XorByteBound(g, d);
    PrimeUndo(XorByte(h, c));
    PrimeUndo(XorByte(g, d));
    XorByteInjective(h, c, g, d);
  }

  lemma {:induction false} FnvInjective(h: nat, g: nat, s: seq<Byte>)
    requires h < WORD && g < WORD && Fnv(h, s) == Fnv(g, s)
    ensures h == g
    decreases s
  {
    if s == [] {
    } else {
      FnvInjective(Mix(h, s[0]), Mix(g, s[0]), s[1..]);
      MixInjective(h, s[0], g, s[0]);
    }
  }

  lemma {:induction false} FnvBound(h: nat, s: seq<Byte>)
    requires h < WORD
    ensures Fnv(h, s) < WORD
    decreases s
  {
    if s != [] { FnvBound(Mix(h, s[0]), s[1..]); }
  }

  lemma {:induction false} FnvAppend(h: nat, s: seq<Byte>, t: seq<Byte>)
    ensures Fnv(h, s + t) == Fnv(Fnv(h, s), t)
    decreases s
  {
    if s == [] {
      assert s + t == t;
    } else {
      FnvAppend(Mix(h, s[0]), s[1..], t);
      assert (s + t)[1..] == s[1..] + t;
    }
  }

  /** Changing one byte always changes the hash. */
  lemma {:induction false} FnvDetects(h: nat, s: seq<Byte>, i: nat, x: Byte)
    requires h < WORD && i < |s| && x != s[i]
    ensures Fnv(h, s[i := x]) != Fnv(h, s)
    decreases s
  {
    var t := s[i := x];
    if i == 0 {
      assert t[1..] == s[1..];
      if Fnv(h, t) == Fnv(h, s) {
        FnvInjective(Mix(h, x), Mix(h, s[0]), s[1..]);
        MixInjective(h, x, h, s[0]);
      }
    } else {
      assert t[1..] == s[1..][i - 1 := x];
      FnvDetects(Mix(h, s[0]), s[1..], i - 1, x);
    }
  }

  // ---------- frames

  function Frame(headerLen: nat, dataLen: nat, sum: nat, payload: seq<Byte>): seq<Byte> {
    Digits(headerLen, 8) + Digits(dataLen, 8) + Digits(sum, 8) + payload
  }

  function Total(m: Message): nat { PRELUDE + |m.header| + |m.data| }

  function Encode(m: Message, limit: Option<nat>): Result<seq<Byte>> {
    if limit.Some? && Total(m) > limit.value then Err(TooLong)
    else Ok(Frame(|m.header|, |m.data|, Checksum(m), m.header + m.data))
  }

  /** At most `n` bytes from `at` on, or an error when `at` is past the end. */
  function Substr(b: seq<Byte>, at: nat, n: nat): Result<seq<Byte>> {
    if at > |b| then Err(BadRange)
    else if n > |b| - at then Ok(b[at..])
    else Ok(b[at..at + n])
  }

  function Decode(b: seq<Byte>): Result<Message> {
    if |b| < PRELUDE then Err(Truncated)
    else
      var h, d, sum := Value(b[..8]), Value(b[8..16]), Value(b[16..24]);
      if |b| != Wrap(PRELUDE + h + d) then Err(LengthMismatch)
      else
        var header, data := Substr(b, PRELUDE, h), Substr(b, Wrap(PRELUDE + h), d);
        if header.Err? then Err(header.error)
        else if data.Err? then Err(data.error)
        else
          var m := Message(header.value, data.value);
          if Checksum(m) != sum then Err(ChecksumMismatch) else Ok(m)
  }

  lemma FrameParts(h: seq<Byte>, d: seq<Byte>, c: seq<Byte>, payload: seq<Byte>)
    requires |h| == |d| == |c| == 8
    ensures var b := h + d + c + payload;
            |b| == PRELUDE + |payload| && b[..8] == h && b[8..16] == d && b[16..24] == c && b[24..] == payload
  {
    var b := h + d + c + payload;
    assert b[..8] == h && b[8..16] == d && b[16..24] == c && b[24..] == payload;
  }

  lemma EightDigits(v: nat)
    requires v < WORD
    ensures Value(Digits(v, 8)) == v
  {
    PowerEight();
    ValueOfDigits(v, 8);
  }

  lemma EightBytes(bs: seq<Byte>)
    requires |bs| == 8
    ensures Value(bs) < WORD && Digits(Value(bs), 8) == bs
  {
    PowerEight();
    ValueBound(bs);
    DigitsOfValue(bs);
  }

  /** What decoding does with a frame whose lengths do not wrap. */
  lemma DecodeShort(b: seq<Byte>)
    requires |b| >= PRELUDE && PRELUDE + Value(b[..8]) + Value(b[8..16]) < WORD
    ensures var h, d := Value(b[..8]), Value(b[8..16]);
            Decode(b) ==
            if |b| != PRELUDE + h + d then Err(LengthMismatch)
            else
              var m := Message(b[PRELUDE..PRELUDE + h], b[PRELUDE + h..]);
              if Checksum(m) != Value(b[16..24]) then Err(ChecksumMismatch) else Ok(m)
  {
    hide Wrap, Checksum, Value;
    var h, d := Value(b[..8]), Value(b[8..16]);
    WrapSmall(PRELUDE + h + d);
    WrapSmall(PRELUDE + h);
    if |b| == PRELUDE + h + d { assert b[PRELUDE + h..PRELUDE + h + d] == b[PRELUDE + h..]; }
  }

  lemma DecodeFrame(h: seq<Byte>, d: seq<Byte>, c: seq<Byte>, payload: seq<Byte>)
    requires |h| == |d| == |c| == 8 && PRELUDE + Value(h) + Value(d) < WORD
    ensures Decode(h + d + c + payload) ==
            if |payload| != Value(h) + Value(d) then Err(LengthMismatch)
            else
              var m := Message(payload[..Value(h)], payload[Value(h)..]);
              if Checksum(m) != Value(c) then Err(ChecksumMismatch) else Ok(m)
  {
    hide Wrap, Checksum, Value, Decode;
    var b := h + d + c + payload;
    FrameParts(h, d, c, payload);
    DecodeShort(b);
    if |payload| == Value(h) + Value(d) {
      PayloadParts(b, payload, Value(h));
    }
  }

  lemma PayloadParts(b: seq<Byte>, payload: seq<Byte>, n: nat)
    requires |b| == PRELUDE + |payload| && b[PRELUDE..] == payload && n <= |payload|
    ensures b[PRELUDE..PRELUDE + n] == payload[..n] && b[PRELUDE + n..] == payload[n..]
  {
  }

  /** Decoding inverts encoding. */
  lemma RoundTrip(m: Message, limit: Option<nat>)
    requires Total(m) < WORD
    ensures match Encode(m, limit)
            case Ok(b) => |b| == Total(m) && Decode(b) == Ok(m)
            case Err(e) => e == TooLong && limit.Some? && Total(m) > limit.value
  {
    hide Checksum, Value, Digits, Decode;
    var h, d := |m.header|, |m.data|;
    ChecksumBound(m);
    EightDigits(h);
    EightDigits(d);
    EightDigits(Checksum(m));
    DecodeFrame(Digits(h, 8), Digits(d, 8), Digits(Checksum(m), 8), m.header + m.data);
    assert (m.header + m.data)[..h] == m.header && (m.header + m.data)[h..] == m.data;
  }

  lemma ChecksumBound(m: Message)
    ensures Checksum(m) < WORD
  {
    FnvBound(OFFSET, m.header);
    FnvBound(Fnv(OFFSET, m.header), m.data);
  }

  // ---------- corruption

  lemma ValueDiffers(bs: seq<Byte>, i: nat, x: Byte)
    requires |bs| == 8 && i < 8 && x != bs[i]
    ensures Value(bs[i := x]) != Value(bs) && Value(bs[i := x]) < WORD
  {
    EightBytes(bs);
    EightBytes(bs[i := x]);
  }

  /** A wrong length is noticed however the sum wraps. */
  lemma WrongLength(h: nat, d: nat, h': nat, d': nat)
    requires h < WORD && d < WORD && h' < WORD && d' < WORD && PRELUDE + h + d < WORD
    requires (h == h') != (d == d')
    ensures Wrap(PRELUDE + h' + d') != PRELUDE + h + d
  {
  }

  lemma BadLength(b: seq<Byte>)
    requires |b| >= PRELUDE && Wrap(PRELUDE + Value(b[..8]) + Value(b[8..16])) != |b|
    ensures Decode(b) == Err(LengthMismatch)
  {
  }

  lemma LengthChanged(b: seq<Byte>, h: nat, d: nat)
    requires |b| >= PRELUDE && h < WORD && d < WORD && |b| == PRELUDE + h + d < WORD
    requires (h == Value(b[..8])) != (d == Value(b[8..16]))
    ensures Decode(b) == Err(LengthMismatch)
  {
    hide Checksum, Value, Wrap, Decode, Digits;
    EightBytes(b[..8]);
    EightBytes(b[8..16]);
    WrongLength(h, d, Value(b[..8]), Value(b[8..16]));
    BadLength(b);
  }

  lemma PayloadChanged(payload: seq<Byte>, i: nat, x: Byte, n: nat)
    requires i < |payload| && x != payload[i] && n <= |payload|
    ensures var p' := payload[i := x];
            Checksum(Message(p'[..n], p'[n..])) != Checksum(Message(payload[..n], payload[n..]))
  {
    var p' := payload[i := x];
    FnvAppend(OFFSET, payload[..n], payload[n..]);
    FnvAppend(OFFSET, p'[..n], p'[n..]);
    assert payload[..n] + payload[n..] == payload && p'[..n] + p'[n..] == p';
    FnvDetects(OFFSET, payload, i, x);
  }

  /** Changing any one byte of an encoded frame, wherever it is, makes decoding fail. */
  lemma CorruptionDetected(m: Message, i: nat, x: Byte)
    requires Total(m) < WORD && i < |Encode(m, None).value| && x != Encode(m, None).value[i]
    ensures Decode(Encode(m, None).value[i := x]).Err?
  {
    hide Checksum, Value, Digits, Decode, Fnv;
    var h, d, c, payload := Digits(|m.header|, 8), Digits(|m.data|, 8), Digits(Checksum(m), 8), m.header + m.data;
    var b := h + d + c + payload;
    ChecksumBound(m);
    EightDigits(|m.header|);
    EightDigits(|m.data|);
    EightDigits(Checksum(m));
    if i < 8 {
      assert b[i := x] == h[i := x] + d + c + payload;
      ValueDiffers(h, i, x);
      FrameParts(h[i := x], d, c, payload);
      LengthChanged(b[i := x], |m.header|, |m.data|);
    } else if i < 16 {
      assert b[i := x] == h + d[i - 8 := x] + c + payload;
      ValueDiffers(d, i - 8, x);
      FrameParts(h, d[i - 8 := x], c, payload);
      LengthChanged(b[i := x], |m.header|, |m.data|);
    } else if i < 24 {
      assert b[i := x] == h + d + c[i - 16 := x] + payload;
      ValueDiffers(c, i - 16, x);
      DecodeFrame(h, d, c[i - 16 := x], payload);
      assert payload[..|m.header|] == m.header && payload[|m.header|..] == m.data;
    } else {
      assert b[i := x] == h + d + c + payload[i - 24 := x];
      DecodeFrame(h, d, c, payload[i - 24 := x]);
      PayloadChanged(payload, i - 24, x, |m.header|);
      assert payload[..|m.header|] == m.header && payload[|m.header|..] == m.data;
    }
  }

  // ---------- accepted frames

  /** An accepted frame is the encoding of its message exactly when its lengths, added up, do not wrap. */
  lemma AcceptedIsEncodingIff(b: seq<Byte>)
    requires |b| < WORD && Decode(b).Ok?
    ensures Encode(Decode(b).value, None) == Ok(b) <==> PRELUDE + Value(b[..8]) + Value(b[8..16]) < WORD
  {
    hide Checksum, Value, Digits;
    var h, d, c, payload := b[..8], b[8..16], b[16..24], b[24..];
    assert b == h + d + c + payload;
    EightBytes(h);
    EightBytes(d);
    EightBytes(c);
    var m := Decode(b).value;
    if PRELUDE + Value(h) + Value(d) < WORD {
      DecodeFrame(h, d, c, payload);
      assert payload[..Value(h)] + payload[Value(h)..] == payload;
    } else {
      assert |m.header| <= |b| - PRELUDE;
      FrameParts(Digits(|m.header|, 8), Digits(|m.data|, 8), Digits(Checksum(m), 8), m.header + m.data);
      if Encode(m, None) == Ok(b) {
        assert Digits(|m.header|, 8) == h && |m.header| + |m.data| == |payload|;
        EightDigits(|m.header|);
        EightDigits(|m.data|);
      }
    }
  }

  /** One step, given the number that it computes. */
  lemma MixIs(h: nat, c: Byte, q: nat, low: nat, x: nat, k: nat, out: nat)
    requires h == q * 256 + low && low < 256 && Xor(low, c, 8) == x
    requires (q * 256 + x) * PRIME == k * WORD + out && out < WORD
    ensures Mix(h, c) == out
  {
    hide Quotient, Remainder, Wrap, Xor;
    DivDigit(h, q, 256, low);
    WrapMultiple(k, out, XorByte(h, c) * PRIME);
    WrapSmall(out);
  }

  lemma WrappedMix0()
    ensures Mix(0xcbf29ce484222325, 0x0) == 0xaf63bd4c8601b7df
  {
    hide Mix;
    assert Xor(0x0, 0x0, 1) == 0x0;
    assert Xor(0x0, 0x0, 2) == 0x0;
    assert Xor(0x1, 0x0, 3) == 0x1;
    assert Xor(0x2, 0x0, 4) == 0x2;
    assert Xor(0x4, 0x0, 5) == 0x4;
    assert Xor(0x9, 0x0, 6) == 0x9;
    assert Xor(0x12, 0x0, 7) == 0x12;
    assert Xor(0x25, 0x0, 8) == 0x25;
    MixIs(0xcbf29ce484222325, 0x0, 0xcbf29ce4842223, 0x25, 0x25, 0xcbf29ce5de, 0xaf63bd4c8601b7df);
  }

  lemma WrappedMix1()
    ensures Mix(0xaf63bd4c8601b7df, 0x5f) == 0x8322907b4eace80
  {
    hide Mix;
    assert Xor(0x1, 0x0, 1) == 0x1;
    assert Xor(0x3, 0x1, 2) == 0x2;
    assert Xor(0x6, 0x2, 3) == 0x4;
    assert Xor(0xd, 0x5, 4) == 0x8;
    assert Xor(0x1b, 0xb, 5) == 0x10;
    assert Xor(0x37, 0x17, 6) == 0x20;
    assert Xor(0x6f, 0x2f, 7) == 0x40;
    assert Xor(0xdf, 0x5f, 8) == 0x80;
    MixIs(0xaf63bd4c8601b7df, 0x5f, 0xaf63bd4c8601b7, 0xdf, 0x80, 0xaf63bd4db0, 0x8322907b4eace80);
  }

  lemma WrappedMix2()
    ensures Mix(0x8322907b4eace80, 0xf0) == 0xd80a28186afcc850
  {
    hide Mix;
    assert Xor(0x1, 0x1, 1) == 0x0;
    assert Xor(0x2, 0x3, 2) == 0x1;
    assert Xor(0x4, 0x7, 3) == 0x3;
    assert Xor(0x8, 0xf, 4) == 0x7;
    assert Xor(0x10, 0x1e, 5) == 0xe;
    assert Xor(0x20, 0x3c, 6) == 0x1c;
    assert Xor(0x40, 0x78, 7) == 0x38;
    assert Xor(0x80, 0xf0, 8) == 0x70;
    MixIs(0x8322907b4eace80, 0xf0, 0x8322907b4eace, 0x80, 0x70, 0x8322907c2, 0xd80a28186afcc850);
  }

  lemma WrappedMix3()
    ensures Mix(0xd80a28186afcc850, 0x0) == 0x160a717dcb885ff0
  {
    hide Mix;
    assert Xor(0x0, 0x0, 1) == 0x0;
    assert Xor(0x1, 0x0, 2) == 0x1;
    assert Xor(0x2, 0x0, 3) == 0x2;
    assert Xor(0x5, 0x0, 4) == 0x5;
    assert Xor(0xa, 0x0, 5) == 0xa;
    assert Xor(0x14, 0x0, 6) == 0x14;
    assert Xor(0x28, 0x0, 7) == 0x28;
    assert Xor(0x50, 0x0, 8) == 0x50;
    MixIs(0xd80a28186afcc850, 0x0, 0xd80a28186afcc8, 0x50, 0x50, 0xd80a2819da, 0x160a717dcb885ff0);
  }

  /** A frame whose lengths add up to more than 2^64: header length 2^64-2, body length 3, one byte of payload. */
  const WRAPPED: seq<Byte> := [
    0xff, 0xff, 0xff, 0xff, 0xff, 0xff, 0xff, 0xfe, 0, 0, 0, 0, 0, 0, 0, 3,
    0x16, 0x0a, 0x71, 0x7d, 0xcb, 0x88, 0x5f, 0xf0, 0]

  lemma WrappedChecksum()
    ensures Checksum(Message([0], [0x5f, 0xf0, 0])) == 0x160a717dcb885ff0
  {
    hide Mix;
    WrappedMix0();
    WrappedMix1();
    WrappedMix2();
    WrappedMix3();
    assert [0][1..] == [] && [0x5f, 0xf0, 0][1..] == [0xf0, 0] && [0xf0, 0][1..] == [0];
    assert Fnv(OFFSET, [0]) == Fnv(Mix(OFFSET, 0), []);
  }

  lemma WrappedValues()
    ensures Value(WRAPPED[..8]) == WORD - 2 && Value(WRAPPED[8..16]) == 3 && Value(WRAPPED[16..24]) == 0x160a717dcb885ff0
  {
    EightIs(WRAPPED[..8]);
    EightIs(WRAPPED[8..16]);
    EightIs(WRAPPED[16..24]);
  }

  lemma EightIs(b: seq<Byte>)
    requires |b| == 8
    ensures var hi: nat := (b[0] as int * 256 + b[1]) * 0x10000 + b[2] as int * 256 + b[3];
            var lo: nat := (b[4] as int * 256 + b[5]) * 0x10000 + b[6] as int * 256 + b[7];
            Value(b) == hi * 0x1_0000_0000 + lo
  {
    assert b[..7][..6] == b[..6] && b[..6][..5] == b[..5] && b[..5][..4] == b[..4] && b[..4][..3] == b[..3];
    assert b[..3][..2] == b[..2] && b[..2][..1] == b[..1] && b[..1][..0] == [];
    assert Value(b[..1]) == b[0];
    assert Value(b[..2]) == Value(b[..1]) * 256 + b[1];
    assert Value(b[..3]) == Value(b[..2]) * 256 + b[2];
    assert Value(b[..4]) == Value(b[..3]) * 256 + b[3];
    assert Value(b[..5]) == Value(b[..4]) * 256 + b[4];
    assert Value(b[..6]) == Value(b[..5]) * 256 + b[5];
    assert Value(b[..7]) == Value(b[..6]) * 256 + b[6];
  }

  /** Such a frame can be accepted: the header is the payload, and the body starts inside the checksum. */
  lemma WrappedAccepted()
    ensures Decode(WRAPPED) == Ok(Message([0], [0x5f, 0xf0, 0]))
    ensures Encode(Decode(WRAPPED).value, None) != Ok(WRAPPED)
  {
    hide Checksum, Value, Wrap;
    WrappedValues();
    WrappedChecksum();
    WrapMultiple(1, 25, PRELUDE + (WORD - 2) + 3);
    WrapMultiple(1, 22, PRELUDE + (WORD - 2));
    WrapSmall(25);
    WrapSmall(22);
    assert WRAPPED[24..] == [0] && WRAPPED[22..25] == [0x5f, 0xf0, 0];
    AcceptedIsEncodingIff(WRAPPED);
  }

  // ---------- the loops

  /** The k-th byte from the right. */
  lemma {:induction false} DigitAt(v: nat, n: nat, k: nat)
    requires k < n
    ensures Digits(v, n)[n - 1 - k] == Remainder(Quotient(v, Power(k)), 256)
    decreases n
  {
    if k == 0 {
    } else {
      DigitAt(v / 256, n - 1, k - 1);
      Shifted(v, Power(k - 1));
    }
  }

  lemma Shifted(v: nat, p: nat)
    requires p > 0
    ensures Quotient(v / 256, p) == Quotient(v, 256 * p)
  {
    hide Quotient, Remainder;
    var q, r := v / 256, v % 256;
    DivMod(q, p);
    var x := Remainder(q, p) * 256 + r;
    DigitBound(Remainder(q, p), p, 256, r);
    assert v == Quotient(q, p) * (256 * p) + x by { assert (Quotient(q, p) * p) * 256 == Quotient(q, p) * (256 * p); }
    DivDigit(v, Quotient(q, p), 256 * p, x);
  }

  method PutU64(out: seq<Byte>, v: nat) returns (r: seq<Byte>)
    requires v < WORD
    ensures r == out + Digits(v, 8)
  {
    hide Digits, Power, Quotient, Remainder;
    r := out;
    var i := 8;
    while i > 0
      invariant 0 <= i <= 8 && r == out + Digits(v, 8)[..8 - i]
    {
      i := i - 1;
      DigitAt(v, 8, i);
      DivMod(Quotient(v, Power(i)), 256);
      assert Digits(v, 8)[..8 - i] == Digits(v, 8)[..7 - i] + [Digits(v, 8)[7 - i]];
      r := r + [Remainder(Quotient(v, Power(i)), 256)];
    }
    assert Digits(v, 8)[..8] == Digits(v, 8);
  }

  method GetU64(p: seq<Byte>) returns (v: nat)
    requires |p| == 8
    ensures v == Value(p)
  {
    v := 0;
    PowerEight();
    for i := 0 to 8
      invariant v == Value(p[..i])
    {
      assert p[..i + 1][..i] == p[..i];
      ValueBound(p[..i + 1]);
      Grows(i + 1, 8);
      WrapSmall(v * 256 + p[i]);
      v := Wrap(v * 256 + p[i]);
    }
    assert p[..8] == p;
  }

  lemma {:induction false} Grows(a: nat, b: nat)
    requires a <= b
    ensures Power(a) <= Power(b)
    decreases b
  {
    if a < b { Grows(a, b - 1); }
  }

  method Mixed(h: nat, s: seq<Byte>) returns (r: nat)
    ensures r == Fnv(h, s)
  {
    r := h;
    for i := 0 to |s|
      invariant Fnv(h, s) == Fnv(r, s[i..])
    {
      assert s[i..][1..] == s[i + 1..];
      r := Mix(r, s[i]);
    }
  }

  method Sum(header: seq<Byte>, data: seq<Byte>) returns (r: nat)
    ensures r == Checksum(Message(header, data))
  {
    r := Mixed(OFFSET, header);
    r := Mixed(r, data);
  }

  method EncodeMessage(m: Message, limit: Option<nat>) returns (r: Result<seq<Byte>>)
    requires Total(m) < WORD
    ensures r == Encode(m, limit)
  {
    hide Digits, Fnv;
    if limit.Some? && Total(m) > limit.value {
      return Err(TooLong);
    }
    var out := PutU64([], |m.header|);
    out := PutU64(out, |m.data|);
    var sum := Sum(m.header, m.data);
    ChecksumBound(m);
    out := PutU64(out, sum);
    r := Ok(out + m.header + m.data);
    assert out + m.header + m.data == Frame(|m.header|, |m.data|, sum, m.header + m.data);
  }

  method DecodeBuffer(b: seq<Byte>) returns (r: Result<Message>)
    ensures r == Decode(b)
  {
    hide Digits, Fnv, Value;
    if |b| < PRELUDE {
      return Err(Truncated);
    }
    var headerLen := GetU64(b[..8]);
    var dataLen := GetU64(b[8..16]);
    var expected := GetU64(b[16..24]);
    if |b| != Wrap(PRELUDE + headerLen + dataLen) {
      return Err(LengthMismatch);
    }
    var header, data := Substr(b, PRELUDE, headerLen), Substr(b, Wrap(PRELUDE + headerLen), dataLen);
    if header.Err? {
      return Err(header.error);
    }
    if data.Err? {
      return Err(data.error);
    }
    var sum := Sum(header.value, data.value);
    r := if sum != expected then Err(ChecksumMismatch) else Ok(Message(header.value, data.value));
  }
}
