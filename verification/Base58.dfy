/** The base58 codec of public keys: encoding and decoding are mutual inverses, leading zeros included. */
module Base58 {
  import opened Basics

  function Alphabet(): string { "123456789" + "ABCDEFGH" + "JKLMN" + "PQRSTUVWXYZ" + "abcdefghijk" + "mnopqrstuvwxyz" }

  /* ---- Digits in any base ---- */

  predicate ValidDigits(ds: seq<nat>, base: nat) { forall i :: 0 <= i < |ds| ==> ds[i] < base }

  /** The number that big-endian digits denote. */
  function Value(ds: seq<nat>, base: nat): nat {
    if ds == [] then 0 else Value(ds[..|ds| - 1], base) * base + ds[|ds| - 1]
  }

  /** The shortest big-endian digits of a number; none at all for zero. */
  function Digits(n: nat, base: nat): (ds: seq<nat>)
    requires base >= 2
    ensures ValidDigits(ds, base)
    decreases n
  {
    if n == 0 then [] else Smaller(n, base); Digits(n / base, base) + [n % base]
  }

  lemma Smaller(n: nat, base: nat)
    requires n > 0 && base >= 2
    ensures n / base < n
  {
  }

  function Zeros(ds: seq<nat>): (k: nat)
    ensures k <= |ds|
  {
    if ds != [] && ds[0] == 0 then 1 + Zeros(ds[1..]) else 0
  }

  function Repeat(k: nat): (ds: seq<nat>)
    ensures |ds| == k
  {
    seq(k, _ => 0)
  }

  /** The same number in another base, each leading zero kept as one leading zero. */
  function Recode(ds: seq<nat>, base: nat, to: nat): seq<nat>
    requires to >= 2
  {
    Repeat(Zeros(ds)) + Digits(Value(ds, base), to)
  }

  lemma {:induction false} DigitsDenote(n: nat, base: nat)
    requires base >= 2
    ensures Value(Digits(n, base), base) == n
    ensures n > 0 ==> Digits(n, base) != [] && Digits(n, base)[0] != 0
    decreases n
  {
    if n > 0 {
      Smaller(n, base);
      DigitsDenote(n / base, base);
      var before := Digits(n / base, base);
      assert Digits(n, base)[..|before|] == before;
      DivMod(n, base);
      if n / base == 0 {
        assert n % base == n;
      }
    }
  }

  lemma DivMod(n: nat, base: nat)
    requires base >= 2
    ensures n / base * base + n % base == n
    ensures n / base == 0 ==> n % base == n
  {
  }

  /** Only zero times a base lies strictly between the base and its negation. */
  lemma OnlyZero(d: int, base: int)
    requires 0 <= base && -base < d * base < base
    ensures d == 0
  {
    if d >= 1 {
      assert d * base == (d - 1) * base + base;
      Product(d - 1, base);
    } else if d <= -1 {
      assert -d * base == (-d - 1) * base + base;
      Product(-d - 1, base);
    }
  }

  lemma Product(a: nat, b: nat)
    ensures 0 <= a * b
  {
  }

  lemma QuotientOf(q: nat, r: nat, base: nat)
    requires base >= 2 && r < base && 0 <= q * base
    ensures (q * base + r) / base == q && (q * base + r) % base == r
  {
    var n := q * base + r;
    DivMod(n, base);
    var d := n / base - q;
    assert d * base == n / base * base - q * base;
    OnlyZero(d, base);
  }

  lemma PositiveProduct(v: nat, base: nat)
    requires v > 0 && base > 0
    ensures v * base > 0
  {
  }

  lemma DigitsOfSum(ds: seq<nat>, before: seq<nat>, last: nat, v: nat, base: nat)
    requires base >= 2 && ds == before + [last] && v == Value(before, base) && 0 <= v * base
    requires (v * base + last) / base == v && (v * base + last) % base == last && Digits(v, base) == before
    requires v * base + last > 0
    ensures Value(ds, base) == v * base + last && Digits(Value(ds, base), base) == ds
  {
    assert ds[..|ds| - 1] == before;
  }

  /** Digits without a leading zero are the shortest digits of their number. */
  lemma {:induction false} ShortestDigits(ds: seq<nat>, base: nat)
    requires base >= 2 && ValidDigits(ds, base) && (ds != [] ==> ds[0] != 0)
    ensures Digits(Value(ds, base), base) == ds
    ensures ds != [] ==> Value(ds, base) > 0
  {
    if ds != [] {
      var before, last := ds[..|ds| - 1], ds[|ds| - 1];
      ShortestDigits(before, base);
      var v := Value(before, base);
      Product(v, base);
      QuotientOf(v, last, base);
      assert ds == before + [last];
      if before != [] {
        PositiveProduct(v, base);
      }
      hide Digits, Value;
      DigitsOfSum(ds, before, last, v, base);
    }
  }

  lemma {:induction false} LeadingZeros(k: nat, ds: seq<nat>, base: nat)
    ensures Value(Repeat(k) + ds, base) == Value(ds, base)
    decreases |ds|, k
  {
    if ds == [] {
      if k > 0 {
        assert (Repeat(k) + ds)[..k - 1] == Repeat(k - 1) + ds;
        LeadingZeros(k - 1, ds, base);
      }
    } else {
      assert (Repeat(k) + ds)[..k + |ds| - 1] == Repeat(k) + ds[..|ds| - 1];
      LeadingZeros(k, ds[..|ds| - 1], base);
    }
  }

  lemma {:induction false} SplitZeros(ds: seq<nat>)
    ensures var rest := ds[Zeros(ds)..];
      ds == Repeat(Zeros(ds)) + rest && (rest != [] ==> rest[0] != 0)
  {
    if ds != [] && ds[0] == 0 {
      SplitZeros(ds[1..]);
      var k := Zeros(ds[1..]);
      assert ds[1..][k..] == ds[1 + k..];
      assert Repeat(1 + k) == [0] + Repeat(k);
      assert ds == [0] + ds[1..];
    }
  }

  lemma {:induction false} ZerosOf(k: nat, ds: seq<nat>)
    requires ds != [] ==> ds[0] != 0
    ensures Zeros(Repeat(k) + ds) == k
  {
    if k > 0 {
      assert (Repeat(k) + ds)[1..] == Repeat(k - 1) + ds;
      ZerosOf(k - 1, ds);
    }
  }

  /** Recoding into another base and back is the identity on every digit sequence, leading zeros included. */
  lemma RecodeInverse(ds: seq<nat>, base: nat, to: nat)
    requires base >= 2 && to >= 2 && ValidDigits(ds, base)
    ensures Recode(Recode(ds, base, to), to, base) == ds
    ensures ds != [] ==> Recode(ds, base, to) != []
  {
    var k, rest, n := Zeros(ds), ds[Zeros(ds)..], Value(ds, base);
    SplitZeros(ds);
    LeadingZeros(k, rest, base);
    ShortestDigits(rest, base);
    DigitsDenote(n, to);
    ZerosOf(k, Digits(n, to));
    LeadingZeros(k, Digits(n, to), to);
  }

  /* ---- Bytes ---- */

  function BitLength(n: nat): nat { if n == 0 then 0 else 1 + BitLength(n / 2) }

  /** Big-endian bytes of a fixed length. */
  function ToBytes(n: nat, length: nat): seq<nat> {
    if length == 0 then [] else ToBytes(n / 256, length - 1) + [n % 256]
  }

  lemma BitsOfByte(n: nat)
    ensures 0 < n < 256 ==> 1 <= BitLength(n) <= 8
    ensures n >= 256 ==> BitLength(n) == 8 + BitLength(n / 256)
  {
    var n1, n2, n3 := n / 2, n / 2 / 2, n / 2 / 2 / 2;
    var n4, n5, n6 := n3 / 2, n3 / 2 / 2, n3 / 2 / 2 / 2;
    var n7 := n6 / 2;
    var n8 := n7 / 2;
    assert BitLength(n) == (if n == 0 then 0 else 1 + BitLength(n1));
    assert BitLength(n1) == (if n1 == 0 then 0 else 1 + BitLength(n2));
    assert BitLength(n2) == (if n2 == 0 then 0 else 1 + BitLength(n3));
    assert BitLength(n3) == (if n3 == 0 then 0 else 1 + BitLength(n4));
    assert BitLength(n4) == (if n4 == 0 then 0 else 1 + BitLength(n5));
    assert BitLength(n5) == (if n5 == 0 then 0 else 1 + BitLength(n6));
    assert BitLength(n6) == (if n6 == 0 then 0 else 1 + BitLength(n7));
    assert BitLength(n7) == (if n7 == 0 then 0 else 1 + BitLength(n8));
    assert n8 == n / 256;
  }

  /** The byte count computed from the bit length is exactly that of the shortest bytes. */
  lemma {:induction false} ShortestBytes(n: nat)
    ensures |Digits(n, 256)| == (BitLength(n) + 7) / 8
    ensures ToBytes(n, (BitLength(n) + 7) / 8) == Digits(n, 256)
  {
    if n > 0 {
      BitsOfByte(n);
      ShortestBytes(n / 256);
    }
  }

  /* ---- Characters ---- */

  function CharOf(d: nat): char
    requires d < 58
  {
    assert |Alphabet()| == 58;
    Alphabet()[d]
  }

  /** The position of a character in the alphabet, if it has one. */
  function DigitOf(c: char): Option<nat> {
    if '1' <= c <= '9' then Some(c as nat - '1' as nat)
    else if 'A' <= c <= 'H' then Some(c as nat - 'A' as nat + 9)
    else if 'J' <= c <= 'N' then Some(c as nat - 'J' as nat + 17)
    else if 'P' <= c <= 'Z' then Some(c as nat - 'P' as nat + 22)
    else if 'a' <= c <= 'k' then Some(c as nat - 'a' as nat + 33)
    else if 'm' <= c <= 'z' then Some(c as nat - 'm' as nat + 44)
    else None
  }

  lemma DigitsAndCapitals(d: nat)
    requires d < 22
    ensures DigitOf(CharOf(d)) == Some(d)
  {
    if d < 9 {
      assert CharOf(d) == "123456789"[d];
    } else if d < 17 {
      assert CharOf(d) == "ABCDEFGH"[d - 9];
    } else {
      assert CharOf(d) == "JKLMN"[d - 17];
    }
  }

  lemma LateCapitals(d: nat)
    requires 22 <= d < 33
    ensures DigitOf(CharOf(d)) == Some(d)
  {
    assert CharOf(d) == "PQRSTUVWXYZ"[d - 22];
  }

  lemma SmallLetters(d: nat)
    requires 33 <= d < 58
    ensures DigitOf(CharOf(d)) == Some(d)
  {
    if d < 44 {
      assert CharOf(d) == "abcdefghijk"[d - 33];
    } else {
      assert CharOf(d) == "mnopqrstuvwxyz"[d - 44];
    }
  }

  lemma DigitOfChar(d: nat)
    requires d < 58
    ensures DigitOf(CharOf(d)) == Some(d)
  {
    hide DigitOf, CharOf;
    if d < 22 {
      DigitsAndCapitals(d);
    } else if d < 33 {
      LateCapitals(d);
    } else {
      SmallLetters(d);
    }
  }

  /** `DigitOf` is the index in the alphabet, in which no character occurs twice. */
  lemma AlphabetIndex(c: char, d: nat)
    requires d < 58
    ensures DigitOf(c) == Some(d) <==> CharOf(d) == c
  {
    DigitOfChar(d);
    hide CharOf;
    if DigitOf(c) == Some(d) {
      SameDigit(c, CharOf(d));
    }
  }

  lemma SameDigit(a: char, b: char)
    requires DigitOf(a).Some? && DigitOf(a) == DigitOf(b)
    ensures a == b
  {
  }

  lemma DigitBelow(c: char)
    ensures DigitOf(c).Some? ==> DigitOf(c).value < 58 && CharOf(DigitOf(c).value) == c
  {
    if DigitOf(c).Some? {
      AlphabetIndex(c, DigitOf(c).value);
    }
  }

  /* ---- The codec ---- */

  predicate Base58Text(text: string) { forall i :: 0 <= i < |text| ==> DigitOf(text[i]).Some? }

  function DigitsOfText(text: string): (ds: seq<nat>)
    requires Base58Text(text)
    ensures |ds| == |text|
  {
    seq(|text|, i requires 0 <= i < |text| => DigitOf(text[i]).value)
  }

  function TextOfDigits(ds: seq<nat>): string
    requires ValidDigits(ds, 58)
  {
    seq(|ds|, i requires 0 <= i < |ds| => CharOf(ds[i]))
  }

  function Encoded(bytes: seq<nat>): string
    requires ValidDigits(bytes, 256)
  {
    TextOfDigits(Recode(bytes, 256, 58))
  }

  function Decoded(text: string): Option<seq<nat>> {
    if text == "" || !Base58Text(text) then None else Some(Recode(DigitsOfText(text), 58, 256))
  }

  lemma TextInverse(ds: seq<nat>)
    requires ValidDigits(ds, 58)
    ensures Base58Text(TextOfDigits(ds)) && DigitsOfText(TextOfDigits(ds)) == ds
  {
    forall i | 0 <= i < |ds| ensures DigitOf(TextOfDigits(ds)[i]) == Some(ds[i]) {
      DigitOfChar(ds[i]);
    }
  }

  lemma DigitsInverse(text: string)
    requires Base58Text(text)
    ensures ValidDigits(DigitsOfText(text), 58) && TextOfDigits(DigitsOfText(text)) == text
  {
    forall i | 0 <= i < |text| ensures DigitOf(text[i]).value < 58 && CharOf(DigitOf(text[i]).value) == text[i] {
      DigitBelow(text[i]);
    }
  }

  /** Decoding an encoding gives the same non-empty bytes, leading zeros included. */
  lemma DecodeEncode(bytes: seq<nat>)
    requires bytes != [] && ValidDigits(bytes, 256)
    ensures Decoded(Encoded(bytes)) == Some(bytes)
  {
    RecodeInverse(bytes, 256, 58);
    TextInverse(Recode(bytes, 256, 58));
  }

  /** Encoding a decoding gives the same text: every text that decodes is the canonical one of its bytes. */
  lemma EncodeDecode(text: string)
    requires Decoded(text).Some?
    ensures Decoded(text).value != [] && ValidDigits(Decoded(text).value, 256)
    ensures Encoded(Decoded(text).value) == text
  {
    DigitsInverse(text);
    RecodeInverse(DigitsOfText(text), 58, 256);
  }

  /* ---- The codec as it runs ---- */

  lemma ValueAppends(ds: seq<nat>, d: nat, base: nat)
    ensures Value(ds + [d], base) == Value(ds, base) * base + d
  {
    assert (ds + [d])[..|ds|] == ds;
  }

  /** How many of the first items are the given one. */
  method LeadingCount(ds: seq<nat>) returns (k: nat)
    ensures k == Zeros(ds)
  {
    k := 0;
    while k < |ds| && ds[k] == 0
      invariant k <= |ds| && Zeros(ds) == k + Zeros(ds[k..])
    {
      assert ds[k..][1..] == ds[k + 1..];
      k := k + 1;
    }
  }

  method Decode(text: string) returns (result: Option<seq<nat>>)
    ensures result == Decoded(text)
  {
    if text == "" { return None; }
    var number, digits := 0, [];
    for i := 0 to |text|
      invariant Base58Text(text[..i]) && digits == DigitsOfText(text[..i]) && number == Value(digits, 58)
    {
      var digit := DigitOf(text[i]);
      if digit.None? { return None; }
      ValueAppends(digits, digit.value, 58);
      number := number * 58 + digit.value;
      assert text[..i + 1] == text[..i] + [text[i]];
      digits := digits + [digit.value];
    }
    assert text[..|text|] == text;
    ShortestBytes(number);
    var payload := ToBytes(number, (BitLength(number) + 7) / 8);
    var zeros := LeadingCount(digits);
    return Some(Repeat(zeros) + payload);
  }

  lemma TextPrepends(d: nat, ds: seq<nat>)
    requires d < 58 && ValidDigits(ds, 58)
    ensures ValidDigits([d] + ds, 58) && TextOfDigits([d] + ds) == [CharOf(d)] + TextOfDigits(ds)
  {
    hide CharOf;
  }

  function Ones(k: nat): string { seq(k, _ => '1') }

  lemma OnesAreZeros(k: nat, ds: seq<nat>)
    requires ValidDigits(ds, 58)
    ensures ValidDigits(Repeat(k) + ds, 58) && TextOfDigits(Repeat(k) + ds) == Ones(k) + TextOfDigits(ds)
  {
    assert CharOf(0) == '1';
    hide CharOf;
  }

  /** Leading zeros are written as ones. */
  lemma EncodedParts(bytes: seq<nat>)
    requires ValidDigits(bytes, 256)
    ensures Encoded(bytes) == Ones(Zeros(bytes)) + TextOfDigits(Digits(Value(bytes, 256), 58))
  {
    hide CharOf, Value, Digits, Zeros, TextOfDigits, Ones;
    OnesAreZeros(Zeros(bytes), Digits(Value(bytes, 256), 58));
  }

  method FromBytes(bytes: seq<nat>) returns (number: nat)
    ensures number == Value(bytes, 256)
  {
    number := 0;
    for i := 0 to |bytes|
      invariant number == Value(bytes[..i], 256)
    {
      assert bytes[..i + 1] == bytes[..i] + [bytes[i]];
      ValueAppends(bytes[..i], bytes[i], 256);
      number := number * 256 + bytes[i];
    }
    assert bytes[..|bytes|] == bytes;
  }

  method Encode(bytes: seq<nat>) returns (text: string)
    requires ValidDigits(bytes, 256)
    ensures text == Encoded(bytes)
  {
    EncodedParts(bytes);
    NoText();
    hide CharOf, TextOfDigits, Encoded, Value, Digits, Ones, Zeros;
    var number := FromBytes(bytes);
    ghost var all := Digits(Value(bytes, 256), 58);
    ghost var done: seq<nat> := [];
    text := "";
    while number > 0
      invariant ValidDigits(done, 58) && Digits(number, 58) + done == all && text == TextOfDigits(done)
    {
      var remainder := number % 58;
      LastDigit(number, 58);
      TextPrepends(remainder, done);
      text := [CharOf(remainder)] + text;
      done := [remainder] + done;
      number := number / 58;
    }
    assert number == 0 && [] + done == all;
    var zeros := LeadingCount(bytes);
    text := Ones(zeros) + text;
  }

  /** Where the loop starts and where it ends. */
  lemma NoText()
    ensures TextOfDigits([]) == "" && Digits(0, 58) == []
  {
  }

  lemma LastDigit(n: nat, base: nat)
    requires n > 0 && base >= 2
    ensures n / base < n && n % base < base && Digits(n, base) == Digits(n / base, base) + [n % base]
  {
    Smaller(n, base);
  }
}
