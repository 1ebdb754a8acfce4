/** The recovery key codec: Base32 of a 32-byte key, without padding, through a 32-bit accumulator. */
module RecoveryKey {
  import opened Basics
  import opened BigEndian

  const KEY_LEN := 32
  const TEXT_LEN := 52
  const WORD := 0x1_0000_0000

  datatype Error = InvalidRecoveryKey

  type Digit = d: int | 0 <= d < 32

  function Letter(d: Digit): char {
    if d < 26 then 'A' + d as char else '2' + (d - 26) as char
  }

  /** Section 6 of RFC 4648: `A`-`Z` stand for 0 to 25 and `2`-`7` for 26 to 31. */
  function DigitOf(c: char): Option<Digit> {
    if 'A' <= c <= 'Z' then Some(c as int - 'A' as int)
    else if '2' <= c <= '7' then Some(c as int - '2' as int + 26)
    else None
  }

  lemma AlphabetBijective(d: Digit, c: char)
    ensures DigitOf(Letter(d)) == Some(d)
    ensures DigitOf(c) == Some(d) ==> c == Letter(d)
  {
  }

  /** The alphabet as a table. */
  lemma AlphabetTable(d: Digit)
    ensures Letter(d) == "ABCDEFGHIJKLMNOPQRSTUVWXYZ234567"[d]
  {
  }

  predicate InAlphabet(text: string) {
    forall i :: 0 <= i < |text| ==> DigitOf(text[i]).Some?
  }

  function DigitsIn(text: string): (digits: seq<Digit>)
    requires InAlphabet(text)
    ensures |digits| == |text| && forall i :: 0 <= i < |text| ==> DigitOf(text[i]) == Some(digits[i])
  {
    seq(|text|, i requires 0 <= i < |text| => DigitOf(text[i]).value)
  }

  /** `text` spells the 256 bits of `key`, most significant first, followed by four zero bits. */
  ghost predicate Spells(text: string, key: seq<Byte>) {
    && |text| == TEXT_LEN && |key| == KEY_LEN && InAlphabet(text)
    && Value(32, DigitsIn(text)) == Value(256, key) * 16
  }

  /** Text and key determine each other, so whatever decodes to a key is the text its encoding gives. */
  lemma SpellingIsUnique(text: string, other: string, key: seq<Byte>, otherKey: seq<Byte>)
    requires Spells(text, key) && Spells(other, otherKey)
    ensures text == other <==> key == otherKey
  {
    if key == otherKey {
      ValueInjective(32, DigitsIn(text), DigitsIn(other));
      forall i | 0 <= i < |text| ensures text[i] == other[i] {
        AlphabetBijective(DigitsIn(text)[i], text[i]);
        AlphabetBijective(DigitsIn(text)[i], other[i]);
      }
    } else if text == other {
      ValueInjective(256, key, otherKey);
    }
  }

  // ----- the normalised text -----

  predicate Separator(c: char) {
    c == ' ' || c == '\t' || c == '\n' || c == '\r' || c == 0xC as char || c == '-'
  }

  function Upper(c: char): char {
    if 'a' <= c <= 'z' then c - 'a' + 'A' else c
  }

  /** Separators removed, then upper-cased. */
  function Compact(text: string): string {
    if text == [] then []
    else (if Separator(text[0]) then [] else [Upper(text[0])]) + Compact(text[1..])
  }

  /** So a text may be broken up at will... */
  lemma {:induction false} SeparatorsIgnored(before: string, c: char, after: string)
    requires c in {' ', '\t', '\n', '\r', 0xC as char, '-'}
    ensures Compact(before + [c] + after) == Compact(before + after)
  {
    if before == [] {
      assert before + [c] + after == [c] + after && before + after == after;
    } else {
      assert (before + [c] + after)[1..] == before[1..] + [c] + after && (before + after)[1..] == before[1..] + after;
      SeparatorsIgnored(before[1..], c, after);
    }
  }

  function Lower(c: char): char {
    if 'A' <= c <= 'Z' then c - 'A' + 'a' else c
  }

  /** ... and typed in small letters. */
  lemma {:induction false} LowerCaseReads(text: string, typed: string)
    requires InAlphabet(text) && |typed| == |text| && forall i :: 0 <= i < |text| ==> typed[i] == text[i] || typed[i] == Lower(text[i])
    ensures Compact(typed) == text
  {
    if text != [] {
      assert DigitOf(text[0]).Some?;
      LowerCaseReads(text[1..], typed[1..]);
      assert text == [text[0]] + text[1..];
    }
  }

  lemma {:induction false} AlphabetIsCompact(text: string)
    requires InAlphabet(text)
    ensures Compact(text) == text
  {
    if text != [] {
      assert DigitOf(text[0]).Some?;
      AlphabetIsCompact(text[1..]);
      assert text == [text[0]] + text[1..];
    }
  }

  // ----- shifts of an unmasked accumulator -----

  /** The bits still in the accumulator are the low bits of the number read so far. */
  predicate Holds(accumulator: int, n: nat) {
    0 <= accumulator < WORD && accumulator == n % WORD
  }

  function Two(bits: nat): (p: nat)
    requires bits <= 12
    ensures p > 0
  {
    if bits == 0 then 1 else if bits == 1 then 2 else if bits == 2 then 4 else if bits == 3 then 8 else if bits == 4 then 16
    else if bits == 5 then 32 else if bits == 6 then 64 else if bits == 7 then 128 else if bits == 8 then 256
    else if bits == 9 then 512 else if bits == 10 then 1024 else if bits == 11 then 2048 else 4096
  }

  lemma Wraps(n: nat)
    ensures n == n / WORD * WORD + n % WORD && n % WORD < WORD
  {
  }

  lemma ShiftInFive(accumulator: nat, n: nat, next: nat)
    requires Holds(accumulator, n) && next < 32
    ensures Holds((accumulator * 32) % WORD + next, n * 32 + next)
  {
    var shifted := accumulator * 32;
    Wraps(n);
    Wraps(shifted);
    var q, r, low := n / WORD, shifted / WORD, shifted % WORD;
    assert low == 32 * (accumulator - 0x800_0000 * r);
    assert n * 32 + next == (32 * q + r) * WORD + (low + next);
    QuotientOf(WORD, 32 * q + r, low + next);
  }

  lemma ShiftInEight(accumulator: nat, n: nat, next: nat)
    requires Holds(accumulator, n) && next < 256
    ensures Holds((accumulator * 256) % WORD + next, n * 256 + next)
  {
    var shifted := accumulator * 256;
    Wraps(n);
    Wraps(shifted);
    var q, r, low := n / WORD, shifted / WORD, shifted % WORD;
    assert low == 256 * (accumulator - 0x100_0000 * r);
    assert n * 256 + next == (256 * q + r) * WORD + (low + next);
    QuotientOf(WORD, 256 * q + r, low + next);
  }

  /** (accumulator << width) | next, dropping what leaves the word. */
  lemma ShiftIn(accumulator: int, n: nat, width: nat, next: nat)
    requires Holds(accumulator, n) && (width == 5 || width == 8) && next < Two(width)
    ensures Holds((accumulator * Two(width)) % WORD + next, n * Two(width) + next)
  {
    if width == 5 { ShiftInFive(accumulator, n, next); } else { ShiftInEight(accumulator, n, next); }
    hide Holds;
  }

  lemma WordQuotient(accumulator: nat, q: nat, bits: nat)
    requires bits <= 7
    ensures (WORD * q + accumulator) / Two(bits) == WORD / Two(bits) * q + accumulator / Two(bits)
  {
    WordSplits(bits);
    var m, c := Two(bits), WORD / Two(bits);
    hide Two;
    MulAssociative(m, c, q);
    DivideMultiple(m, c * q, accumulator);
  }

  lemma WordSplits(bits: nat)
    requires bits <= 7
    ensures Two(bits) * (WORD / Two(bits)) == WORD
  {
  }

  lemma DivideMultiple(m: nat, k: nat, y: nat)
    requires m > 0
    ensures (m * k + y) / m == k + y / m
  {
    assert m * k + y == (k + y / m) * m + y % m;
    QuotientOf(m, k + y / m, y % m);
  }

  /** What lies above the word is a multiple of 256 even after the shift. */
  lemma AboveWord(q: nat, bits: nat)
    requires bits <= 7
    ensures WORD / Two(bits) * q == 256 * (WORD / Two(bits) / 256 * q)
  {
    hide Two;
    WordDivides(bits);
    MulAssociative(256, WORD / Two(bits) / 256, q);
  }

  lemma WordDivides(bits: nat)
    requires bits <= 7
    ensures WORD / Two(bits) == 256 * (WORD / Two(bits) / 256)
  {
  }

  lemma MulAssociative(a: int, b: int, c: int)
    ensures a * b * c == a * (b * c)
  {
  }

  lemma LowBits(x: nat, y: nat, width: nat)
    requires width == 5 || width == 8
    ensures (256 * x + y) % Two(width) == y % Two(width)
  {
    if width == 5 { Multiples(32, 8 * x, y); } else { Multiples(256, x, y); }
  }

  lemma Multiples(m: nat, k: nat, y: nat)
    requires m > 0
    ensures (m * k + y) % m == y % m
  {
    assert m * k + y == (k + y / m) * m + y % m;
    QuotientOf(m, k + y / m, y % m);
  }

  /** (accumulator >> bits) & (2^width - 1): the bits that left the word are not among them. */
  lemma ShiftOut(accumulator: int, n: nat, bits: nat, width: nat)
    requires Holds(accumulator, n) && bits <= 7 && (width == 5 || width == 8)
    ensures (accumulator / Two(bits)) % Two(width) == (n / Two(bits)) % Two(width)
  {
    WordQuotient(accumulator, n / WORD, bits);
    AboveWord(n / WORD, bits);
    LowBits(WORD / Two(bits) / 256 * (n / WORD), accumulator / Two(bits), width);
  }

  lemma TakeDigit(n: nat, bits: nat, width: nat)
    requires (width == 5 || width == 8) && width <= bits <= 12
    ensures n / Two(bits) * Two(width) + (n / Two(bits - width)) % Two(width) == n / Two(bits - width)
  {
    var m := n / Two(bits - width);
    assert Two(bits) == Two(bits - width) * Two(width);
    assert n / Two(bits) == m / Two(width);
  }

  lemma AddBits(n: nat, next: nat, bits: nat, width: nat)
    requires (width == 5 || width == 8) && bits + width <= 12 && next < Two(width)
    ensures (n * Two(width) + next) / Two(bits + width) == n / Two(bits)
  {
    QuotientOf(Two(width), n, next);
    var m := n * Two(width) + next;
    assert Two(bits + width) == Two(bits) * Two(width);
    assert m / Two(bits + width) == m / Two(width) / Two(bits);
  }

  lemma PushLetter(text: string, d: Digit)
    requires InAlphabet(text)
    ensures InAlphabet(text + [Letter(d)]) && DigitsIn(text + [Letter(d)]) == DigitsIn(text) + [d]
    ensures Value(32, DigitsIn(text + [Letter(d)])) == Value(32, DigitsIn(text)) * 32 + d
  {
    AlphabetBijective(d, Letter(d));
    var longer := text + [Letter(d)];
    assert forall i :: 0 <= i < |longer| ==> DigitOf(longer[i]).Some?;
    assert DigitsIn(longer) == DigitsIn(text) + [d];
    ValueSnoc(32, DigitsIn(text), d);
  }

  lemma PushByte(bytes: seq<Byte>, b: Byte)
    ensures Value(256, bytes + [b]) == Value(256, bytes) * 256 + b
  {
    ValueSnoc(256, bytes, b);
  }

  // ----- the codec -----

  /** The text so far holds all but the low `bits` bits of the `n` read so far. */
  ghost predicate Encoding(text: string, n: nat, bits: int) {
    0 <= bits <= 12 && InAlphabet(text) && Value(32, DigitsIn(text)) == n / Two(bits)
  }

  lemma EncodingStarts()
    ensures Encoding("", Value(256, []), 0)
  {
  }

  lemma EncodingReads(text: string, n: nat, bits: int, next: Byte)
    requires Encoding(text, n, bits) && bits <= 4
    ensures Encoding(text, n * 256 + next, bits + 8)
  {
    AddBits(n, next, bits, 8);
  }

  lemma EncodingWrites(text: string, n: nat, bits: int, d: Digit)
    requires Encoding(text, n, bits) && bits >= 5 && d == (n / Two(bits - 5)) % 32
    ensures Encoding(text + [Letter(d)], n, bits - 5)
  {
    PushLetter(text, d);
    TakeDigit(n, bits, 5);
  }

  /** One bit is left over; the last digit carries it above four zero bits. */
  lemma EncodingEnds(text: string, n: nat, d: Digit)
    requires Encoding(text, n, 1) && d == n % 2 * 16
    ensures InAlphabet(text + [Letter(d)]) && Value(32, DigitsIn(text + [Letter(d)])) == n * 16
  {
    PushLetter(text, d);
  }

  lemma LastShift(accumulator: int, n: nat)
    requires Holds(accumulator, n)
    ensures (accumulator * 16 % WORD) % 32 == n % 2 * 16
  {
    Wraps(n);
    LowestBit(accumulator, n / WORD);
    LastFive(accumulator);
  }

  lemma LowestBit(accumulator: nat, q: nat)
    ensures (q * WORD + accumulator) % 2 == accumulator % 2
  {
    Multiples(2, 0x8000_0000 * q, accumulator);
  }

  lemma LastFive(accumulator: nat)
    ensures (accumulator * 16 % WORD) % 32 == accumulator % 2 * 16
  {
    Wraps(accumulator * 16);
    var half, bit, r := accumulator / 2, accumulator % 2, accumulator * 16 / WORD;
    assert accumulator == 2 * half + bit;
    assert accumulator * 16 % WORD == (half - 0x800_0000 * r) * 32 + bit * 16;
    QuotientOf(32, half - 0x800_0000 * r, bit * 16);
  }

  /** `base32_encode`. */
  method Encode(key: seq<Byte>) returns (text: string)
    requires |key| == KEY_LEN
    ensures Spells(text, key) && Compact(text) == text
  {
    hide Encoding, Value, DigitsIn, InAlphabet, Compact, Holds;
    text := "";
    var accumulator, bits := 0, 0;
    ghost var n: nat := 0;
    KeyStarts(key);
    EncodingStarts();
    for k := 0 to |key|
      invariant n == Value(256, key[..k]) && Holds(accumulator, n) && Encoding(text, n, bits)
      invariant 0 <= bits < 5 && 8 * k == 5 * |text| + bits
    {
      EncodingReads(text, n, bits, key[k]);
      PushByte(key[..k], key[k]);
      assert key[..k + 1] == key[..k] + [key[k]];
      accumulator, n := ReadByte(accumulator, n, key[k]);
      text, bits := WriteDigits(text, accumulator, bits + 8, n);
    }
    assert key[..|key|] == key;
    if bits > 0 {
      HoldsNat(accumulator, n);
      LastShift(accumulator, n);
      var d := accumulator * 16 % WORD % 32;
      EncodingEnds(text, n, d);
      text := text + [Letter(d)];
    }
    AlphabetIsCompact(text);
  }

  /** `(accumulator << 8) | byte`. */
  method ReadByte(accumulator: int, ghost n: nat, byte: Byte) returns (more: int, ghost m: nat)
    requires Holds(accumulator, n)
    ensures m == n * 256 + byte && Holds(more, m)
  {
    ShiftIn(accumulator, n, 8, byte);
    hide Holds;
    more, m := accumulator * 256 % WORD + byte, n * 256 + byte;
  }

  /** `while bits >= 5`: the full digits that the accumulator holds. */
  method WriteDigits(before: string, accumulator: int, held: int, ghost n: nat) returns (text: string, bits: int)
    requires Holds(accumulator, n) && Encoding(before, n, held) && 0 <= held <= 12
    ensures Encoding(text, n, bits) && 0 <= bits < 5 && 5 * |text| + bits == 5 * |before| + held
  {
    hide Encoding, Holds, InAlphabet;
    text, bits := before, held;
    HoldsNat(accumulator, n);
    while bits >= 5
      invariant Encoding(text, n, bits) && 0 <= bits <= 12 && 5 * |text| + bits == 5 * |before| + held
    {
      bits := bits - 5;
      ShiftOut(accumulator, n, bits, 5);
      var d := accumulator / Two(bits) % 32;
      EncodingWrites(text, n, bits + 5, d);
      text := text + [Letter(d)];
    }
  }

  lemma KeyStarts(key: seq<Byte>)
    ensures Value(256, key[..0]) == 0 && key[..0] == [] && Holds(0, 0)
  {
  }

  lemma HoldsNat(accumulator: int, n: nat)
    requires Holds(accumulator, n)
    ensures 0 <= accumulator < WORD
  {
  }

  // ----- decoding -----

  /** The bytes so far are all but the low `bits` bits of the digits read so far. */
  ghost predicate Decoding(bytes: seq<Byte>, n: nat, bits: int) {
    0 <= bits <= 12 && Value(256, bytes) == n / Two(bits)
  }

  lemma DecodingReads(bytes: seq<Byte>, n: nat, bits: int, d: Digit)
    requires Decoding(bytes, n, bits) && bits <= 7
    ensures Decoding(bytes, n * 32 + d, bits + 5)
  {
    AddBits(n, d, bits, 5);
  }

  lemma DecodingWrites(bytes: seq<Byte>, n: nat, bits: int, b: Byte)
    requires Decoding(bytes, n, bits) && bits >= 8 && b == (n / Two(bits - 8)) % 256
    ensures Decoding(bytes + [b], n, bits - 8)
  {
    PushByte(bytes, b);
    TakeDigit(n, bits, 8);
  }

  lemma PrefixDigits(text: string, k: nat, d: Digit)
    requires k < |text| && InAlphabet(text[..k]) && DigitOf(text[k]) == Some(d)
    ensures InAlphabet(text[..k + 1])
    ensures Value(32, DigitsIn(text[..k + 1])) == Value(32, DigitsIn(text[..k])) * 32 + d
  {
    AlphabetBijective(d, text[k]);
    PushLetter(text[..k], d);
    assert text[..k + 1] == text[..k] + [Letter(d)];
  }

  lemma NothingDecoded(text: string)
    ensures InAlphabet(text[..0]) && Value(32, DigitsIn(text[..0])) == 0 && Holds(0, 0) && Decoding([], 0, 0)
  {
  }

  /** The trailing-bit rule: the last four bits are zero exactly when some key is spelled. */
  lemma TrailingBits(text: string, n: nat, accumulator: int, key: seq<Byte>)
    requires |text| == TEXT_LEN && InAlphabet(text) && n == Value(32, DigitsIn(text)) && Holds(accumulator, n)
    requires |key| == KEY_LEN && Decoding(key, n, 4)
    ensures accumulator % 16 == 0 <==> Spells(text, key)
    ensures accumulator % 16 != 0 ==> forall other :: !Spells(text, other)
  {
    LowNibble(accumulator, n);
    hide Value, DigitsIn, Holds;
    assert n == n / 16 * 16 + n % 16;
  }

  lemma LowNibble(accumulator: int, n: nat)
    requires Holds(accumulator, n)
    ensures accumulator % 16 == n % 16
  {
    Wraps(n);
    Multiples(16, 0x1000_0000 * (n / WORD), accumulator);
  }

  /** `base32_decode`: the key that the text without separators spells, if it spells one. */
  method Decode(value: string) returns (r: Result<seq<Byte>, Error>)
    ensures r.Ok? ==> Spells(Compact(value), r.value)
    ensures forall key :: Spells(Compact(value), key) ==> r == Ok(key)
  {
    hide Decoding, Value, DigitsIn, Holds, Compact;
    var compact := Compact(value);
    if |compact| != TEXT_LEN {
      return Err(InvalidRecoveryKey);
    }
    var output: seq<Byte> := [];
    var accumulator, bits := 0, 0;
    ghost var n: nat := 0;
    NothingDecoded(compact);
    for k := 0 to |compact|
      invariant InAlphabet(compact[..k]) && n == Value(32, DigitsIn(compact[..k]))
      invariant Holds(accumulator, n) && Decoding(output, n, bits)
      invariant 0 <= bits < 8 && 5 * k == 8 * |output| + bits
    {
      var digit := DigitOf(compact[k]);
      if digit.None? {
        return Err(InvalidRecoveryKey);
      }
      ShiftIn(accumulator, n, 5, digit.value);
      DecodingReads(output, n, bits, digit.value);
      PrefixDigits(compact, k, digit.value);
      accumulator := accumulator * 32 % WORD + digit.value;
      n := n * 32 + digit.value;
      bits := bits + 5;
      if bits >= 8 {
        bits := bits - 8;
        HoldsNat(accumulator, n);
        ShiftOut(accumulator, n, bits, 8);
        var byte: Byte := accumulator / Two(bits) % 256;
        DecodingWrites(output, n, bits + 8, byte);
        output := output + [byte];
      }
    }
    assert compact[..|compact|] == compact;
    TrailingBits(compact, n, accumulator, output);
    if |output| != KEY_LEN || accumulator % Two(bits) != 0 {
      return Err(InvalidRecoveryKey);
    }
    forall key | Spells(compact, key) ensures key == output {
      SpellingIsUnique(compact, compact, key, output);
    }
    r := Ok(output);
  }

  /** Every key survives its spelling. */
  method EncodeThenDecode(key: seq<Byte>) returns (r: Result<seq<Byte>, Error>)
    requires |key| == KEY_LEN
    ensures r == Ok(key)
  {
    hide Spells, Compact;
    var text := Encode(key);
    r := Decode(text);
  }

  /** Every accepted text survives too, without its separators and in upper case. */
  method DecodeThenEncode(value: string) returns (r: Result<string, Error>)
    ensures r.Ok? <==> exists key :: Spells(Compact(value), key)
    ensures r.Ok? ==> r.value == Compact(value)
  {
    hide Compact;
    var decoded := Decode(value);
    if decoded.Err? {
      return Err(decoded.error);
    }
    var text := Encode(decoded.value);
    SpellingIsUnique(text, Compact(value), decoded.value, decoded.value);
    r := Ok(text);
  }
}
