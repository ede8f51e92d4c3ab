/**
 What the codec computes, bit by bit and by character code: section 6 of RFC 4648 read as arithmetic on
 the bytes and on the codes of the characters.
 */
module Base32Bits {
  import opened Common
  import opened Base32

  /** Bit `j` of a number written with `width` digits, the most significant one being bit 0. */
  function BitAt(n: nat, width: nat, j: nat): nat
    requires j < width
  {
    n / Pow2(width - 1 - j) % 2
  }

  lemma HalvesAgain(n: nat, d: nat)
    requires d > 0
    ensures n / 2 / d == n / (2 * d)
  {
    var q, r := n / 2, n % 2;
    var p, s := q / d, q % d;
    assert n == p * (2 * d) + (2 * s + r) by {
      assert p * (2 * d) == 2 * (p * d);
    }
    DivUnique(n, 2 * d, p, 2 * s + r);
  }

  lemma {:induction false} BitsAreBits(n: nat, width: nat, j: nat)
    requires j < width
    ensures BitsOf(n, width)[j] <==> BitAt(n, width, j) == 1
  {
    if j < width - 1 {
      BitsAreBits(n / 2, width - 1, j);
      HalvesAgain(n, Pow2(width - 2 - j));
    }
  }

  lemma {:induction false} BitOfBytes(bytes: seq<Byte>, k: nat)
    requires k < 8 * |bytes|
    ensures |BitsOfBytes(bytes)| == 8 * |bytes|
    ensures BitsOfBytes(bytes)[k] <==> BitAt(bytes[k / 8], 8, k % 8) == 1
  {
    ByteBitCount(bytes);
    var first, rest := BitsOf(bytes[0], 8), BitsOfBytes(bytes[1..]);
    if k < 8 {
      assert BitsOfBytes(bytes)[k] == first[k];
      BitsAreBits(bytes[0], 8, k);
    } else {
      assert BitsOfBytes(bytes)[k] == rest[k - 8];
      assert k / 8 == (k - 8) / 8 + 1 && k % 8 == (k - 8) % 8;
      assert bytes[1..][(k - 8) / 8] == bytes[k / 8];
      BitOfBytes(bytes[1..], k - 8);
    }
  }

  lemma {:induction false} ByteBitCount(bytes: seq<Byte>)
    ensures |BitsOfBytes(bytes)| == 8 * |bytes|
  {
    if bytes != [] {
      ByteBitCount(bytes[1..]);
    }
  }

  lemma {:induction false} BitOfSymbols(symbols: seq<Symbol>, k: nat)
    requires k < 5 * |symbols|
    ensures |BitsOfSymbols(symbols)| == 5 * |symbols|
    ensures BitsOfSymbols(symbols)[k] <==> BitAt(symbols[k / 5], 5, k % 5) == 1
  {
    SymbolBitCount(symbols);
    var first, rest := BitsOf(symbols[0], 5), BitsOfSymbols(symbols[1..]);
    if k < 5 {
      assert BitsOfSymbols(symbols)[k] == first[k];
      BitsAreBits(symbols[0], 5, k);
    } else {
      assert BitsOfSymbols(symbols)[k] == rest[k - 5];
      assert k / 5 == (k - 5) / 5 + 1 && k % 5 == (k - 5) % 5;
      assert symbols[1..][(k - 5) / 5] == symbols[k / 5];
      BitOfSymbols(symbols[1..], k - 5);
    }
  }

  lemma {:induction false} SymbolBitCount(symbols: seq<Symbol>)
    ensures |BitsOfSymbols(symbols)| == 5 * |symbols|
  {
    if symbols != [] {
      SymbolBitCount(symbols[1..]);
    }
  }

  /** The value of a character: A to Z are 0 to 25, the digits 2 to 7 are 26 to 31. */
  function ValueOf(c: char): nat {
    var code := c as int;
    if 65 <= code <= 90 then code - 65 else if 50 <= code <= 55 then code - 24 else 0
  }

  /** The encoding has just enough characters for the bits, its bits are those of the bytes, and the rest are zero. */
  lemma EncodingIsTheBits(bytes: seq<Byte>, k: nat)
    ensures var text := EncodedText(bytes);
            && |text| == (8 * |bytes| + 4) / 5
            && (forall i :: 0 <= i < |text| ==> 65 <= text[i] as int <= 90 || 50 <= text[i] as int <= 55)
            && (k < 5 * |text| ==>
                  BitAt(ValueOf(text[k / 5]), 5, k % 5) == if k < 8 * |bytes| then BitAt(bytes[k / 8], 8, k % 8) else 0)
  {
    var bits := BitsOfBytes(bytes);
    var symbols := Symbols(bits);
    SymbolsKeepTheBits(bits);
    ByteBitCount(bytes);
    var n :| 0 <= n < 5 && BitsOfSymbols(symbols) == bits + Zeros(n);
    if k < 5 * |symbols| {
      assert ValueOf(EncodedText(bytes)[k / 5]) == symbols[k / 5];
      BitOfSymbols(symbols, k);
      if k < 8 * |bytes| {
        BitOfBytes(bytes, k);
      }
    }
  }

  lemma {:induction false} BytesAreWhole(bits: Bits)
    ensures |Bytes(bits)| == |bits| / 8
    ensures BitsOfBytes(Bytes(bits)) == bits[..8 * (|bits| / 8)]
  {
    if |bits| >= 8 {
      BytesAreWhole(bits[8..]);
      BitsOfNat(bits[..8]);
      var m := 8 * (|bits| / 8);
      assert Bytes(bits)[1..] == Bytes(bits[8..]);
      assert bits[8..][..m - 8] == bits[8..m];
      assert bits[..m] == bits[..8] + bits[8..m];
    }
  }

  /** Decoding a clean text gives as many whole bytes as its bits hold, and their bits are those of its characters. */
  lemma DecodingIsTheBits(clean: string, k: nat)
    requires Cleaned(clean)
    ensures var bytes := BytesOfText(clean);
            && |bytes| == 5 * |clean| / 8
            && (k < 8 * |bytes| ==> BitAt(bytes[k / 8], 8, k % 8) == BitAt(ValueOf(clean[k / 5]), 5, k % 5))
  {
    var symbols := SymbolsOf(clean);
    var bits := BitsOfSymbols(symbols);
    SymbolBitCount(symbols);
    BytesAreWhole(bits);
    if k < 8 * |Bytes(bits)| {
      BitOfBytes(Bytes(bits), k);
      BitOfSymbols(symbols, k);
      assert ValueOf(clean[k / 5]) == symbols[k / 5];
    }
  }

  /** One more character in front: letters count in either case, 2 to 7 as they are, no other ASCII character at all. */
  lemma CleaningOf(c: char, rest: string)
    requires c as int < 128
    ensures Clean([c] + rest) ==
            var code := c as int;
            (if 97 <= code <= 122 then [(code - 32) as char]
             else if 65 <= code <= 90 || 50 <= code <= 55 then [c]
             else "") + Clean(rest)
  {
    assert ([c] + rest)[1..] == rest;
  }

  function LowerChar(c: char): char
    requires InAlphabet(c)
  {
    if c <= 'Z' && 'A' <= c then c + 32 as char else c
  }

  function Lower(text: string): string
    requires Cleaned(text)
  {
    if text == "" then "" else [LowerChar(text[0])] + Lower(text[1..])
  }

  lemma LowerCharIsRead(c: char, rest: string)
    requires InAlphabet(c)
    ensures Clean([LowerChar(c)] + rest) == [c] + Clean(rest)
  {
    CleaningOf(LowerChar(c), rest);
  }

  lemma {:induction false} LowerIsCleaned(text: string)
    requires Cleaned(text)
    ensures Clean(Lower(text)) == text
  {
    if text != "" {
      LowerIsCleaned(text[1..]);
      LowerCharIsRead(text[0], Lower(text[1..]));
      assert text == [text[0]] + text[1..];
    }
  }

  /** An encoding written in lower case is read all the same. */
  lemma LowerCaseIsRead(bytes: seq<Byte>)
    ensures Cleaned(EncodedText(bytes)) && DecodedBytes(Lower(EncodedText(bytes))) == bytes
  {
    EncodingIsRead(bytes);
    LowerIsCleaned(EncodedText(bytes));
    DecodeInvertsEncode(bytes, Lower(EncodedText(bytes)));
  }
}
