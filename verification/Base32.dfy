/**
 The base-32 encoder of the registry's key ids. Its accumulator is a 32-bit word that is
 shifted left by eight for every byte and never masked, so it wraps.
 */
module Base32 {
  import opened Wrappers
  import opened Numerals
  import opened Strings

  const ALPHABET: string := "ABCDEFGHIJKLMNOPQRSTUVWXYZ234567"

  const WORD: nat := 0x1_0000_0000

  /** RFC 4648, section 6: `n` bytes need this many characters. */
  function EncodedLength(n: nat): nat {
    (8 * n + 4) / 5
  }

  function CharIndex(c: char): Option<nat> {
    if 'A' <= c <= 'Z' then Some(c as int - 'A' as int)
    else if '2' <= c <= '7' then Some(c as int - '2' as int + 26)
    else None
  }

  predicate InAlphabet(text: string) {
    forall i | 0 <= i < |text| :: CharIndex(text[i]).Some?
  }

  function DigitsOf(text: string): seq<nat>
    requires InAlphabet(text)
  {
    seq(|text|, i requires 0 <= i < |text| => CharIndex(text[i]).value)
  }

  /** The text is the big-endian base-32 expansion of the bytes, padded with zero bits on the right. */
  predicate IsExpansion(text: string, buf: seq<byte>) {
    && |text| == EncodedLength(|buf|)
    && InAlphabet(text)
    && Value(DigitsOf(text), 32) == Value(buf, 256) * Pow(2, 5 * |text| - 8 * |buf|)
  }

  lemma TwoChars(text: string, b: byte, high: nat, low: nat)
    requires |text| == 2 && CharIndex(text[0]) == Some(high) && CharIndex(text[1]) == Some(low)
    requires high * 32 + low == b * 4
    ensures IsExpansion(text, [b])
  {
    var ds := DigitsOf(text);
    ValueAppend([], high, 32);
    ValueAppend([high], low, 32);
    ValueAppend([], b, 256);
    assert ds == [high] + [low] && [] + [high] == [high] && [] + [b as nat] == [b];
    assert Pow(2, 0) == 1 && Pow(2, 1) == 2 && Pow(2, 2) == 4;
  }

  /** One byte of section 10 of RFC 4648, and the last letters of the alphabet. */
  lemma KnownTexts()
    ensures IsExpansion("MY", [0x66]) && IsExpansion("74", [0xff])
  {
    TwoChars("MY", 0x66, 12, 24);
    TwoChars("74", 0xff, 31, 28);
  }

  lemma AlphabetIndex(d: nat)
    requires d < 32
    ensures |ALPHABET| == 32 && CharIndex(ALPHABET[d]) == Some(d)
  {
    if d < 26 {
      LettersInOrder(d);
    }
  }

  lemma LettersInOrder(d: nat)
    requires d < 26
    ensures ALPHABET[d] as int == 'A' as int + d
  {
  }

  lemma SmallPows()
    ensures Pow(2, 0) == 1 && Pow(2, 1) == 2 && Pow(2, 2) == 4 && Pow(2, 3) == 8 && Pow(2, 4) == 16
    ensures Pow(2, 5) == 32 && Pow(2, 6) == 64 && Pow(2, 7) == 128 && Pow(2, 8) == 256
  {
    assert Pow(2, 4) == 16;
    assert Pow(2, 6) == 64;
    assert Pow(2, 8) == 256;
  }

  lemma MulAssociates(a: int, b: int, c: int)
    ensures a * (b * c) == a * b * c
  {
  }

  lemma {:induction false} PowAdd(base: nat, m: nat, n: nat)
    requires base > 0
    ensures Pow(base, m + n) == Pow(base, m) * Pow(base, n)
    decreases m
  {
    if m > 0 {
      PowAdd(base, m - 1, n);
      MulAssociates(base, Pow(base, m - 1), Pow(base, n));
    }
  }

  // -------------------------------------------------------------- one character

  /** `bits` bits of `n` are still to be written; the next character takes the top five of them. */
  lemma NextDigit(n: nat, bits: nat)
    requires 5 <= bits <= 12
    ensures var d := (n % WORD) / Pow(2, bits - 5) % 32;
            n / Pow(2, bits) >= 0 && (n / Pow(2, bits)) * 32 + d == n / Pow(2, bits - 5)
  {
    var p := Pow(2, bits - 5);
    PowAdd(2, bits - 5, 5);
    SmallPows();
    assert Pow(2, bits) == p * 32;
    PowAdd(2, bits - 5, 27 - (bits - 5));
    var k := Pow(2, 27 - (bits - 5));
    assert Pow(2, 27) == 0x800_0000 by {
      PowAdd(2, 8, 8);
      PowAdd(2, 16, 8);
      PowAdd(2, 24, 3);
    }
    assert WORD == p * (32 * k) by {
      assert p * (32 * k) == 32 * (p * k);
    }
    DigitOfRemainder(n, p, 32, k);
    DivDiv(n, p, 32);
    DivNonNegative(n, p);
  }

  lemma WrapsAlike(n: nat, b: byte)
    ensures ((n % WORD) * 256 + b) % WORD == (n * 256 + b) % WORD
  {
    var q := Quotient(n, WORD);
    assert n * 256 + b == WORD * (256 * q) + ((n % WORD) * 256 + b);
    ModOfMultiple((n % WORD) * 256 + b, WORD, 256 * q);
  }

  /** Shifting a byte in leaves the written part unchanged, in the wrapped accumulator too. */
  lemma ShiftIn(n: nat, b: byte, bits: nat)
    ensures ((n % WORD) * 256 + b) % WORD == (n * 256 + b) % WORD
    ensures (n * 256 + b) / Pow(2, bits + 8) == n / Pow(2, bits)
  {
    PowAdd(2, 8, bits);
    SmallPows();
    DivDiv(n * 256 + b, 256, Pow(2, bits));
    WrapsAlike(n, b);
  }

  lemma ScaledRemainder(w: nat, p: nat, m: nat)
    requires p > 0 && m > 0 && p * m == 32
    ensures w * m == 32 * Quotient(w, p) + (w % p) * m && (w * m) % 32 == (w % p) * m
  {
    var f, r := Quotient(w, p), w % p;
    assert (p * f) * m == 32 * f by {
      assert (p * f) * m == (p * m) * f;
    }
    assert (p * f + r) * m == (p * f) * m + r * m;
    MulMonotone(m, r + 1, p);
    assert m * (r + 1) == r * m + m && m * p == p * m;
    QuotientIs(w * m, 32, f, r * m);
  }

  /** The last, partial character. */
  lemma LastDigit(n: nat, bits: nat)
    requires 0 < bits < 5
    ensures n / Pow(2, bits) >= 0
    ensures (n / Pow(2, bits)) * 32 + ((n % WORD) * Pow(2, 5 - bits)) % 32 == n * Pow(2, 5 - bits)
  {
    var p, m := Pow(2, bits), Pow(2, 5 - bits);
    PowAdd(2, bits, 5 - bits);
    SmallPows();
    var k := WORD / p;
    assert WORD == p * k;
    var q := Quotient(n, WORD);
    assert n == p * (k * q) + n % WORD by {
      assert p * (k * q) == p * k * q;
    }
    ModOfMultiple(n % WORD, p, k * q);
    ScaledRemainder(n % WORD, p, m);
    ScaledRemainder(n, p, m);
    DivNonNegative(n, p);
  }

  /** The text holds `n` but for its last `bits` bits. */
  predicate Wrote(text: string, n: nat, bits: nat) {
    InAlphabet(text) && Value(DigitsOf(text), 32) == n / Pow(2, bits)
  }

  lemma DigitsAppend(text: string, d: nat)
    requires InAlphabet(text) && d < 32
    ensures InAlphabet(text + [ALPHABET[d]]) && DigitsOf(text + [ALPHABET[d]]) == DigitsOf(text) + [d]
  {
    AlphabetIndex(d);
  }

  lemma TakeByte(text: string, buf: seq<byte>, i: nat, bits: nat)
    requires i < |buf| && Wrote(text, Value(buf[..i], 256), bits)
    ensures Wrote(text, Value(buf[..i + 1], 256), bits + 8)
    ensures ((Value(buf[..i], 256) % WORD) * 256 + buf[i]) % WORD == Value(buf[..i + 1], 256) % WORD
  {
    assert buf[..i + 1][..i] == buf[..i];
    ShiftIn(Value(buf[..i], 256), buf[i], bits);
  }

  lemma WriteNext(text: string, n: nat, bits: nat)
    requires Wrote(text, n, bits) && 5 <= bits <= 12
    ensures Wrote(text + [ALPHABET[(n % WORD) / Pow(2, bits - 5) % 32]], n, bits - 5)
  {
    var d := (n % WORD) / Pow(2, bits - 5) % 32;
    NextDigit(n, bits);
    DigitsAppend(text, d);
    ValueAppend(DigitsOf(text), d, 32);
  }

  lemma WriteLast(text: string, buf: seq<byte>, bits: nat)
    requires Wrote(text, Value(buf, 256), bits) && 0 < bits < 5 && 5 * |text| + bits == 8 * |buf|
    ensures IsExpansion(text + [ALPHABET[(Value(buf, 256) % WORD) * Pow(2, 5 - bits) % 32]], buf)
  {
    var n := Value(buf, 256);
    var d := (n % WORD) * Pow(2, 5 - bits) % 32;
    LastDigit(n, bits);
    DigitsAppend(text, d);
    ValueAppend(DigitsOf(text), d, 32);
    assert 5 * |text + [ALPHABET[d]]| - 8 * |buf| == 5 - bits;
  }

  lemma WroteAll(text: string, buf: seq<byte>)
    requires Wrote(text, Value(buf, 256), 0) && 5 * |text| == 8 * |buf|
    ensures IsExpansion(text, buf)
  {
    ByOne(Value(buf, 256));
    assert 5 * |text| - 8 * |buf| == 0;
  }

  lemma ByOne(n: nat)
    ensures n / Pow(2, 0) == n && n * Pow(2, 0) == n
  {
  }

  // ------------------------------------------------------------------ the encoder

  method Encode(buf: seq<byte>) returns (out: string)
    ensures IsExpansion(out, buf)
  {
    var bits: nat, value: nat := 0, 0;
    out := "";
    for i := 0 to |buf|
      invariant bits < 5 && 5 * |out| + bits == 8 * i
      invariant value == Value(buf[..i], 256) % WORD
      invariant Wrote(out, Value(buf[..i], 256), bits)
    {
      ghost var n := Value(buf[..i + 1], 256);
      TakeByte(out, buf, i, bits);
      value := (value * 256 + buf[i]) % WORD;
      bits := bits + 8;
      while bits >= 5
        invariant bits <= 12 && 5 * |out| + bits == 8 * (i + 1)
        invariant value == n % WORD
        invariant Wrote(out, n, bits)
      {
        WriteNext(out, n, bits);
        out := out + [ALPHABET[value / Pow(2, bits - 5) % 32]];
        bits := bits - 5;
      }
    }
    assert Wrote(out, Value(buf, 256), bits) by {
      assert buf[..|buf|] == buf;
    }
    assert value == Value(buf, 256) % WORD by {
      assert buf[..|buf|] == buf;
    }
    if bits > 0 {
      WriteLast(out, buf, bits);
      out := out + [ALPHABET[value * Pow(2, 5 - bits) % 32]];
    } else {
      WroteAll(out, buf);
    }
  }

  // ------------------------------------------------------------------ the decoder

  /** RFC 4648, section 6, without padding characters; trailing bits are dropped. */
  function Decode(text: string): Option<seq<nat>> {
    if !InAlphabet(text) then None
    else
      var n := 5 * |text| / 8;
      DivNonNegative(Value(DigitsOf(text), 32), Pow(2, 5 * |text| - 8 * n));
      Some(Digits(Value(DigitsOf(text), 32) / Pow(2, 5 * |text| - 8 * n), 256, n))
  }

  /** Whatever is encoded decodes back, for buffers of every length. */
  lemma DecodesBack(text: string, buf: seq<byte>)
    requires IsExpansion(text, buf)
    ensures Decode(text) == Some(buf)
  {
    assert 5 * |text| / 8 == |buf|;
    var p := Pow(2, 5 * |text| - 8 * |buf|);
    DivModOf(Value(buf, 256), 0, p);
    DigitsOfValue(buf, 256);
  }

  /** There is one encoding of a buffer, and no two buffers share one. */
  lemma ExpansionUnique(s: string, t: string, buf: seq<byte>)
    requires IsExpansion(s, buf) && IsExpansion(t, buf)
    ensures s == t
  {
    DigitsOfValue(DigitsOf(s), 32);
    DigitsOfValue(DigitsOf(t), 32);
    forall i | 0 <= i < |s|
      ensures s[i] == t[i]
    {
      assert DigitsOf(s)[i] == DigitsOf(t)[i];
      SameIndexSameChar(s[i], t[i]);
    }
  }

  lemma SameIndexSameChar(c: char, d: char)
    requires CharIndex(c).Some? && CharIndex(c) == CharIndex(d)
    ensures c == d
  {
  }

  // --------------------------------------------------------------------- key ids

  /** Groups of four from the left, the last one possibly shorter. */
  function Groups(s: string): seq<string> {
    if |s| == 0 then [] else if |s| <= 4 then [s] else [s[..4]] + Groups(s[4..])
  }

  function WithoutColons(s: string): string {
    if s == "" then "" else (if s[0] == ':' then "" else s[..1]) + WithoutColons(s[1..])
  }

  /** The id of a key from the first thirty bytes of its hash. */
  method Kid(truncated: seq<byte>) returns (kid: string)
    requires |truncated| == 30
    ensures exists b32 :: IsExpansion(b32, truncated) && kid == Join(Groups(b32), ':') && |Groups(b32)| == 12
    ensures |kid| == 59
    ensures forall i | 0 <= i < 59 :: kid[i] == ':' <==> i % 5 == 4
    ensures Decode(WithoutColons(kid)) == Some(truncated)
  {
    var b32 := Encode(truncated);
    GroupsJoined(b32);
    ColonsRemoved(b32);
    DecodesBack(b32, truncated);
    kid := Join(Groups(b32), ':');
    forall i | 0 <= i < 59
      ensures kid[i] == ':' <==> i % 5 == 4
    {
      ColonAt(b32, i);
    }
  }

  lemma {:induction false} ColonFree(s: string, rest: string)
    requires InAlphabet(s)
    ensures WithoutColons(s + rest) == s + WithoutColons(rest)
  {
    if s == "" {
      assert s + rest == rest;
    } else {
      assert CharIndex(s[0]).Some?;
      assert (s + rest)[1..] == s[1..] + rest;
      ColonFree(s[1..], rest);
    }
  }

  lemma JoinMore(s: string)
    requires |s| > 4
    ensures Join(Groups(s), ':') == s[..4] + ([':'] + Join(Groups(s[4..]), ':'))
    ensures |Groups(s)| == 1 + |Groups(s[4..])|
  {
    assert Groups(s)[1..] == Groups(s[4..]);
  }

  lemma {:induction false} GroupsJoined(s: string)
    requires InAlphabet(s) && |s| % 4 == 0
    ensures |Groups(s)| == |s| / 4
    ensures |s| > 0 ==> |Join(Groups(s), ':')| == 5 * (|s| / 4) - 1
  {
    if |s| > 4 {
      GroupsJoined(s[4..]);
      JoinMore(s);
    }
  }

  lemma {:induction false} ColonsRemoved(s: string)
    requires InAlphabet(s) && |s| % 4 == 0
    ensures WithoutColons(Join(Groups(s), ':')) == s
  {
    if |s| <= 4 {
      ColonFree(s, "");
      assert s + "" == s;
    } else {
      var rest := s[4..];
      ColonsRemoved(rest);
      JoinMore(s);
      var joined := Join(Groups(rest), ':');
      ColonFree(s[..4], [':'] + joined);
      ColonFirst(joined);
      assert s[..4] + rest == s;
    }
  }

  lemma ColonFirst(s: string)
    ensures WithoutColons([':'] + s) == WithoutColons(s)
  {
    assert ([':'] + s)[1..] == s;
  }

  lemma {:induction false} ColonAt(s: string, i: nat)
    requires InAlphabet(s) && |s| % 4 == 0 && i < |Join(Groups(s), ':')|
    ensures Join(Groups(s), ':')[i] == ':' <==> i % 5 == 4
  {
    GroupsJoined(s);
    if |s| <= 4 {
      assert CharIndex(s[i]).Some?;
    } else {
      JoinMore(s);
      if i < 4 {
        assert CharIndex(s[i]).Some?;
      } else if i > 4 {
        ColonAt(s[4..], i - 5);
      }
    }
  }
}
