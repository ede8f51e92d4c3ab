/**
 The Base32 codec of RFC 4648 section 6, without padding: loops over an unmasked 32-bit accumulator,
 proved against regrouping a stream of bits.
 */
module Base32 {
  import opened Common

  type Byte = n: nat | n < 256
  type Symbol = n: nat | n < 32
  type Bits = seq<bool>

  const WORD: nat := 0x1_0000_0000

  // ---- The stream of bits -------------------------------------------------------------------

  /** The number a group of bits denotes, most significant bit first. */
  function NatOf(bits: Bits): nat {
    if bits == [] then 0 else 2 * NatOf(bits[..|bits| - 1]) + (if bits[|bits| - 1] then 1 else 0)
  }

  function BitsOf(n: nat, width: nat): (bits: Bits)
    ensures |bits| == width
  {
    if width == 0 then [] else BitsOf(n / 2, width - 1) + [n % 2 == 1]
  }

  function Zeros(n: nat): Bits {
    seq(n, i => false)
  }

  function BitsOfBytes(bytes: seq<Byte>): Bits {
    if bytes == [] then [] else BitsOf(bytes[0], 8) + BitsOfBytes(bytes[1..])
  }

  function BitsOfSymbols(symbols: seq<Symbol>): Bits {
    if symbols == [] then [] else BitsOf(symbols[0], 5) + BitsOfSymbols(symbols[1..])
  }

  lemma {:induction false} NatOfBound(bits: Bits)
    ensures NatOf(bits) < Pow2(|bits|)
  {
    if bits != [] {
      NatOfBound(bits[..|bits| - 1]);
    }
  }

  function SymbolOf(bits: Bits): Symbol
    requires |bits| == 5
  {
    NatOfBound(bits);
    assert Pow2(3) == 8 && Pow2(5) == 32;
    NatOf(bits)
  }

  function ByteOf(bits: Bits): Byte
    requires |bits| == 8
  {
    NatOfBound(bits);
    assert Pow2(4) == 16 && Pow2(6) == 64 && Pow2(8) == 256;
    NatOf(bits)
  }

  /** Groups of five bits; the last one is filled up with zeros. */
  function Symbols(bits: Bits): seq<Symbol> {
    if bits == [] then []
    else if |bits| < 5 then [SymbolOf(bits + Zeros(5 - |bits|))]
    else [SymbolOf(bits[..5])] + Symbols(bits[5..])
  }

  /** Groups of eight bits; what does not fill a byte is dropped. */
  function Bytes(bits: Bits): seq<Byte> {
    if |bits| < 8 then [] else [ByteOf(bits[..8])] + Bytes(bits[8..])
  }

  // ---- Text ---------------------------------------------------------------------------------

  predicate InAlphabet(c: char) {
    'A' <= c <= 'Z' || '2' <= c <= '7'
  }

  function CharOf(s: Symbol): (c: char)
    ensures InAlphabet(c)
  {
    if s < 26 then 'A' + s as char else '2' + (s - 26) as char
  }

  function IndexOf(c: char): Symbol
    requires InAlphabet(c)
  {
    if c >= 'A' then (c - 'A') as int else 26 + (c - '2') as int
  }

  function TextOf(symbols: seq<Symbol>): string {
    seq(|symbols|, i requires 0 <= i < |symbols| => CharOf(symbols[i]))
  }

  /**
   What of a character's upper case lies in the alphabet. Besides ASCII letters, these are the dotless i,
   the long s, and the characters whose upper case is several letters: sharp s, the n with an apostrophe,
   j, h, t, w and y with marks, the a with a half ring, and the seven Latin ligatures.
   */
  function Upper(c: char): (r: string)
    ensures Cleaned(r)
  {
    if 'a' <= c <= 'z' then ['A' + (c - 'a')]
    else if InAlphabet(c) then [c]
    else
      match c as int
      case 0x0131 => "I"
      case 0x017F => "S"
      case 0x00DF => "SS"
      case 0x0149 => "N"
      case 0x01F0 => "J"
      case 0x1E96 => "H"
      case 0x1E97 => "T"
      case 0x1E98 => "W"
      case 0x1E99 => "Y"
      case 0x1E9A => "A"
      case 0xFB00 => "FF"
      case 0xFB01 => "FI"
      case 0xFB02 => "FL"
      case 0xFB03 => "FFI"
      case 0xFB04 => "FFL"
      case 0xFB05 => "ST"
      case 0xFB06 => "ST"
      case _ => ""
  }

  /** The text in upper case; everything outside the alphabet dropped. */
  function Clean(secret: string): string {
    if secret == "" then "" else Upper(secret[0]) + Clean(secret[1..])
  }

  predicate Cleaned(s: string) {
    forall i :: 0 <= i < |s| ==> InAlphabet(s[i])
  }

  function SymbolsOf(clean: string): seq<Symbol>
    requires Cleaned(clean)
  {
    seq(|clean|, i requires 0 <= i < |clean| => IndexOf(clean[i]))
  }

  lemma {:induction false} CleanIsCleaned(s: string)
    ensures Cleaned(Clean(s))
  {
    if s != "" {
      CleanIsCleaned(s[1..]);
    }
  }

  function EncodedText(bytes: seq<Byte>): string {
    TextOf(Symbols(BitsOfBytes(bytes)))
  }

  function BytesOfText(clean: string): seq<Byte>
    requires Cleaned(clean)
  {
    Bytes(BitsOfSymbols(SymbolsOf(clean)))
  }

  function DecodedBytes(secret: string): seq<Byte> {
    CleanIsCleaned(secret);
    BytesOfText(Clean(secret))
  }

  // ---- Arithmetic of the accumulator --------------------------------------------------------

  lemma {:induction false} NatOfConcat(a: Bits, b: Bits)
    ensures NatOf(a + b) == NatOf(a) * Pow2(|b|) + NatOf(b)
  {
    if b == [] {
      assert a + b == a;
    } else {
      var n := |b| - 1;
      NatOfConcat(a, b[..n]);
      assert (a + b)[..|a + b| - 1] == a + b[..n];
      assert NatOf(a) * Pow2(|b|) == 2 * (NatOf(a) * Pow2(n));
    }
  }

  lemma {:induction false} NatOfBits(n: nat, width: nat)
    requires n < Pow2(width)
    ensures NatOf(BitsOf(n, width)) == n
  {
    if width > 0 {
      NatOfBits(n / 2, width - 1);
      assert BitsOf(n, width)[..width - 1] == BitsOf(n / 2, width - 1);
    }
  }

  lemma {:induction false} BitsOfNat(bits: Bits)
    ensures BitsOf(NatOf(bits), |bits|) == bits
  {
    if bits != [] {
      BitsOfNat(bits[..|bits| - 1]);
      assert bits == bits[..|bits| - 1] + [bits[|bits| - 1]];
    }
  }

  lemma {:induction false} Pow2Sum(a: nat, b: nat)
    ensures Pow2(a + b) == Pow2(a) * Pow2(b)
  {
    if a > 0 {
      Pow2Sum(a - 1, b);
      assert Pow2(a + b) == 2 * Pow2(a - 1 + b);
      assert 2 * (Pow2(a - 1) * Pow2(b)) == Pow2(a) * Pow2(b);
    }
  }

  lemma MultipleBound(k: int, d: int)
    requires d > 0
    ensures k >= 1 ==> k * d >= d
    ensures k <= -1 ==> k * d <= -d
  {
  }

  lemma DivUnique(x: int, d: int, q: int, r: int)
    requires 0 <= r < d && x == q * d + r
    ensures x / d == q && x % d == r
  {
    var k := q - x / d;
    assert k * d == q * d - (x / d) * d;
    MultipleBound(k, d);
  }

  /** Reducing by a multiple first does not change a remainder. */
  lemma ModOfMod(x: nat, m: nat, k: nat)
    requires m > 0 && k > 0
    ensures m * k > 0 && x % (m * k) % m == x % m
  {
    assert m * k > 0;
    var q, r := x / (m * k), x % (m * k);
    assert x == q * (m * k) + r;
    var q', r' := r / m, r % m;
    assert x == (q * k + q') * m + r' by {
      assert q * (m * k) == (q * k) * m;
    }
    DivUnique(x, m, q * k + q', r');
  }

  lemma ScaleUp(value: nat, m: nat, c: nat, low: nat)
    requires m > 0 && low < c
    ensures m * c > 0 && (value * c + low) % (m * c) == (value % m) * c + low
  {
    assert m * c > 0;
    var q, r := value / m, value % m;
    assert value * c + low == q * (m * c) + (r * c + low) by {
      assert value == q * m + r;
      assert (q * m + r) * c == q * (m * c) + r * c;
    }
    assert r * c + low < m * c by {
      assert (r + 1) * c <= m * c;
    }
    DivUnique(value * c + low, m * c, q, r * c + low);
  }

  lemma SplitDown(value: nat, m: nat, c: nat, hi: nat, lo: nat)
    requires lo < m && hi < c
    requires m * c > 0 && value % (m * c) == hi * m + lo
    ensures value / m % c == hi && value % m == lo
  {
    var q := value / (m * c);
    assert value == (q * c + hi) * m + lo by {
      assert value == q * (m * c) + (hi * m + lo);
      assert q * (m * c) == (q * c) * m;
    }
    DivUnique(value, m, q * c + hi, lo);
    DivUnique(q * c + hi, c, q, hi);
  }

  lemma WordIsPow2()
    ensures Pow2(32) == WORD
  {
    assert Pow2(4) == 16 && Pow2(6) == 64 && Pow2(8) == 256;
    Pow2Sum(8, 8);
    Pow2Sum(16, 16);
  }

  /** Reducing to a 32-bit word only loses bits above the pending ones. */
  lemma WrapAroundIsHarmless(x: nat, bits: nat)
    requires bits <= 32
    ensures x % WORD % Pow2(bits) == x % Pow2(bits)
  {
    WordIsPow2();
    Pow2Sum(bits, 32 - bits);
    ModOfMod(x, Pow2(bits), Pow2(32 - bits));
  }

  /** Shifting `low` in appends its bits to the pending ones, whatever the word wraps around. */
  lemma ShiftIn(value: nat, pending: Bits, low: nat, width: nat)
    requires low < Pow2(width) && |pending| + width <= 32
    requires value % Pow2(|pending|) == NatOf(pending)
    ensures (value * Pow2(width) + low) % WORD % Pow2(|pending| + width) == NatOf(pending + BitsOf(low, width))
  {
    var m, c := Pow2(|pending|), Pow2(width);
    assert Pow2(|pending| + width) == m * c by {
      Pow2Sum(|pending|, width);
    }
    var x := value * c + low;
    assert x % WORD % (m * c) == x % (m * c) by {
      WrapAroundIsHarmless(x, |pending| + width);
    }
    assert x % (m * c) == NatOf(pending) * c + low by {
      ScaleUp(value, m, c, low);
    }
    assert NatOf(pending + BitsOf(low, width)) == NatOf(pending) * c + low by {
      NatOfConcat(pending, BitsOf(low, width));
      NatOfBits(low, width);
    }
  }

  /** Shifting out the oldest `width` pending bits, and what the accumulator still holds after it. */
  lemma ShiftOut(value: nat, pending: Bits, width: nat)
    requires width <= |pending| && value % Pow2(|pending|) == NatOf(pending)
    ensures value / Pow2(|pending| - width) % Pow2(width) == NatOf(pending[..width])
    ensures value % Pow2(|pending| - width) == NatOf(pending[width..])
  {
    Pow2Sum(|pending| - width, width);
    assert pending == pending[..width] + pending[width..];
    NatOfConcat(pending[..width], pending[width..]);
    NatOfBound(pending[..width]);
    NatOfBound(pending[width..]);
    SplitDown(value, Pow2(|pending| - width), Pow2(width), NatOf(pending[..width]), NatOf(pending[width..]));
  }

  // ---- The loops ----------------------------------------------------------------------------

  /** Emits the oldest five pending bits. */
  lemma EmitSymbol(pending: Bits, rest: Bits)
    requires |pending| >= 5
    ensures Symbols(pending + rest) == [SymbolOf(pending[..5])] + Symbols(pending[5..] + rest)
  {
    assert (pending + rest)[..5] == pending[..5];
    assert (pending + rest)[5..] == pending[5..] + rest;
  }

  lemma TextSnoc(symbols: seq<Symbol>, s: Symbol)
    ensures TextOf(symbols + [s]) == TextOf(symbols) + [CharOf(s)]
  {
  }

  /** Where the encoder stands: what is out, the pending bits of the accumulator, and what is to come. */
  ghost predicate Encoding(all: Bits, out: seq<Symbol>, pending: Bits, bits: nat, value: nat, rest: Bits) {
    && |pending| == bits && value % Pow2(bits) == NatOf(pending)
    && Symbols(all) == out + Symbols(pending + rest)
  }

  lemma EncodingStep(all: Bits, out: seq<Symbol>, pending: Bits, bits: nat, value: nat, rest: Bits)
    requires Encoding(all, out, pending, bits, value, rest) && bits >= 5
    ensures value / Pow2(bits - 5) % 32 == SymbolOf(pending[..5])
    ensures Encoding(all, out + [SymbolOf(pending[..5])], pending[5..], bits - 5, value, rest)
  {
    ShiftOut(value, pending, 5);
    assert Pow2(3) == 8 && Pow2(5) == 32;
    EmitSymbol(pending, rest);
  }

  lemma EncodingByte(all: Bits, out: seq<Symbol>, pending: Bits, bits: nat, value: nat, byte: Byte, rest: Bits)
    requires bits < 5 && Encoding(all, out, pending, bits, value, BitsOf(byte, 8) + rest)
    ensures Encoding(all, out, pending + BitsOf(byte, 8), bits + 8, (value * 256 + byte) % WORD, rest)
  {
    assert Pow2(4) == 16 && Pow2(6) == 64 && Pow2(8) == 256;
    ShiftIn(value, pending, byte, 8);
    assert pending + (BitsOf(byte, 8) + rest) == (pending + BitsOf(byte, 8)) + rest;
  }

  lemma EncodingTail(all: Bits, out: seq<Symbol>, pending: Bits, bits: nat, value: nat)
    requires bits < 5 && Encoding(all, out, pending, bits, value, [])
    ensures bits == 0 ==> Symbols(all) == out
    ensures bits > 0 ==> Symbols(all) == out + [value * Pow2(5 - bits) % WORD % 32]
  {
    assert pending + [] == pending;
    if bits > 0 {
      ShiftIn(value, pending, 0, 5 - bits);
      ZeroBits(5 - bits);
      assert Pow2(3) == 8 && Pow2(5) == 32;
      assert Symbols(pending) == [SymbolOf(pending + Zeros(5 - bits))];
    }
  }

  lemma {:induction false} ZeroBits(n: nat)
    ensures BitsOf(0, n) == Zeros(n)
  {
    if n > 0 {
      ZeroBits(n - 1);
    }
  }

  method Encode(buffer: seq<Byte>) returns (output: string)
    ensures output == EncodedText(buffer)
  {
    var bits: nat, value: nat := 0, 0;
    output := "";
    ghost var out: seq<Symbol>, pending: Bits := [], [];
    ghost var all := BitsOfBytes(buffer);
    assert [] + all == all && buffer[0..] == buffer;
    for i := 0 to |buffer|
      invariant bits < 5 && value < WORD
      invariant Encoding(all, out, pending, bits, value, BitsOfBytes(buffer[i..]))
      invariant output == TextOf(out)
    {
      var byte := buffer[i];
      assert buffer[i..][1..] == buffer[i + 1..];
      EncodingByte(all, out, pending, bits, value, byte, BitsOfBytes(buffer[i + 1..]));
      pending := pending + BitsOf(byte, 8);
      value := (value * 256 + byte) % WORD;
      bits := bits + 8;
      while bits >= 5
        invariant Encoding(all, out, pending, bits, value, BitsOfBytes(buffer[i + 1..]))
        invariant output == TextOf(out)
      {
        EncodingStep(all, out, pending, bits, value, BitsOfBytes(buffer[i + 1..]));
        TextSnoc(out, SymbolOf(pending[..5]));
        output := output + [CharOf(value / Pow2(bits - 5) % 32)];
        out, pending := out + [SymbolOf(pending[..5])], pending[5..];
        bits := bits - 5;
      }
    }
    EncodingTail(all, out, pending, bits, value);
    if bits > 0 {
      TextSnoc(out, value * Pow2(5 - bits) % WORD % 32);
      output := output + [CharOf(value * Pow2(5 - bits) % WORD % 32)];
    }
  }

  ghost predicate Decoding(all: Bits, out: seq<Byte>, pending: Bits, bits: nat, value: nat, rest: Bits) {
    && |pending| == bits && value % Pow2(bits) == NatOf(pending)
    && Bytes(all) == out + Bytes(pending + rest)
  }

  lemma DecodingSymbol(all: Bits, out: seq<Byte>, pending: Bits, bits: nat, value: nat, symbol: Symbol, rest: Bits)
    requires bits < 8 && Decoding(all, out, pending, bits, value, BitsOf(symbol, 5) + rest)
    ensures Decoding(all, out, pending + BitsOf(symbol, 5), bits + 5, (value * 32 + symbol) % WORD, rest)
  {
    assert Pow2(3) == 8 && Pow2(5) == 32;
    ShiftIn(value, pending, symbol, 5);
    assert pending + (BitsOf(symbol, 5) + rest) == (pending + BitsOf(symbol, 5)) + rest;
  }

  lemma DecodingByte(all: Bits, out: seq<Byte>, pending: Bits, bits: nat, value: nat, rest: Bits)
    requires bits >= 8 && Decoding(all, out, pending, bits, value, rest)
    ensures value / Pow2(bits - 8) % 256 == ByteOf(pending[..8])
    ensures Decoding(all, out + [ByteOf(pending[..8])], pending[8..], bits - 8, value, rest)
  {
    ShiftOut(value, pending, 8);
    assert Pow2(4) == 16 && Pow2(6) == 64 && Pow2(8) == 256;
    assert (pending + rest)[..8] == pending[..8];
    assert (pending + rest)[8..] == pending[8..] + rest;
  }

  method Decode(secret: string) returns (bytes: seq<Byte>)
    ensures bytes == DecodedBytes(secret)
  {
    CleanIsCleaned(secret);
    bytes := DecodeClean(Clean(secret));
  }

  method DecodeClean(clean: string) returns (bytes: seq<Byte>)
    requires Cleaned(clean)
    ensures bytes == BytesOfText(clean)
  {
    var bits: nat, value: nat := 0, 0;
    bytes := [];
    ghost var pending: Bits := [];
    ghost var symbols := SymbolsOf(clean);
    ghost var all := BitsOfSymbols(symbols);
    assert [] + all == all && symbols[0..] == symbols;
    for i := 0 to |clean|
      invariant bits < 8 && value < WORD
      invariant Decoding(all, bytes, pending, bits, value, BitsOfSymbols(symbols[i..]))
    {
      assert symbols[i..][1..] == symbols[i + 1..];
      DecodingSymbol(all, bytes, pending, bits, value, symbols[i], BitsOfSymbols(symbols[i + 1..]));
      pending := pending + BitsOf(symbols[i], 5);
      value := (value * 32 + IndexOf(clean[i])) % WORD;
      bits := bits + 5;
      if bits >= 8 {
        DecodingByte(all, bytes, pending, bits, value, BitsOfSymbols(symbols[i + 1..]));
        bytes := bytes + [value / Pow2(bits - 8) % 256];
        pending := pending[8..];
        bits := bits - 8;
      }
    }
    assert pending + [] == pending;
  }

  // ---- Round trip ---------------------------------------------------------------------------

  lemma {:induction false} SymbolsKeepTheBits(bits: Bits)
    ensures exists k :: 0 <= k < 5 && BitsOfSymbols(Symbols(bits)) == bits + Zeros(k)
    ensures |Symbols(bits)| == (|bits| + 4) / 5
  {
    if bits == [] {
      assert BitsOfSymbols(Symbols(bits)) == bits + Zeros(0);
    } else if |bits| < 5 {
      var k := 5 - |bits|;
      BitsOfNat(bits + Zeros(k));
      assert Symbols(bits)[1..] == [];
      assert BitsOfSymbols(Symbols(bits)) == bits + Zeros(k);
    } else {
      SymbolsKeepTheBits(bits[5..]);
      BitsOfNat(bits[..5]);
      var k :| 0 <= k < 5 && BitsOfSymbols(Symbols(bits[5..])) == bits[5..] + Zeros(k);
      assert Symbols(bits)[1..] == Symbols(bits[5..]);
      assert bits == bits[..5] + bits[5..];
      assert BitsOfSymbols(Symbols(bits)) == bits + Zeros(k);
    }
  }

  lemma {:induction false} BytesDropTheTail(bytes: seq<Byte>, tail: Bits)
    requires |tail| < 8
    ensures Bytes(BitsOfBytes(bytes) + tail) == bytes
    ensures |BitsOfBytes(bytes)| == 8 * |bytes|
  {
    if bytes == [] {
      assert BitsOfBytes(bytes) + tail == tail;
    } else {
      BytesDropTheTail(bytes[1..], tail);
      var bits := BitsOfBytes(bytes) + tail;
      assert bits[..8] == BitsOf(bytes[0], 8);
      assert bits[8..] == BitsOfBytes(bytes[1..]) + tail;
      assert Pow2(4) == 16 && Pow2(6) == 64 && Pow2(8) == 256;
      NatOfBits(bytes[0], 8);
    }
  }

  lemma {:induction false} CleanKeepsText(s: string)
    requires Cleaned(s)
    ensures Clean(s) == s
  {
    if s != "" {
      CleanKeepsText(s[1..]);
    }
  }

  /** Reading the encoding as it is gives the bytes back; it is no longer than the bits need. */
  lemma EncodingIsRead(bytes: seq<Byte>)
    ensures Cleaned(EncodedText(bytes)) && BytesOfText(EncodedText(bytes)) == bytes
    ensures |EncodedText(bytes)| == (8 * |bytes| + 4) / 5
  {
    var bits := BitsOfBytes(bytes);
    SymbolsKeepTheBits(bits);
    var k :| 0 <= k < 5 && BitsOfSymbols(Symbols(bits)) == bits + Zeros(k);
    BytesDropTheTail(bytes, Zeros(k));
    assert SymbolsOf(EncodedText(bytes)) == Symbols(bits);
  }

  /**
   Decoding returns the encoded bytes, for every byte string and for every text that differs from the
   encoding only in letter case and in characters whose upper case has no letter or digit of the
   alphabet. The encoding is no longer than the bits need.
   */
  lemma DecodeInvertsEncode(bytes: seq<Byte>, text: string)
    requires Clean(text) == EncodedText(bytes)
    ensures DecodedBytes(text) == bytes
    ensures |EncodedText(bytes)| == (8 * |bytes| + 4) / 5
  {
    EncodingIsRead(bytes);
  }

  lemma RoundTrip(bytes: seq<Byte>)
    ensures DecodedBytes(EncodedText(bytes)) == bytes
  {
    CleanKeepsText(EncodedText(bytes));
    DecodeInvertsEncode(bytes, EncodedText(bytes));
  }
}
