/** The escape scan that runs over raw JSON bytes before any decoding (sections 7 and 8.2 of RFC 8259). */
module Surrogates {

  type Byte = b: int | 0 <= b < 256

  const QUOTE: Byte := 0x22
  const BACKSLASH: Byte := 0x5C
  const LOWER_U: Byte := 0x75

  /* Hexadecimal digits */

  function Digit(b: Byte): (r: int)
    ensures -1 <= r < 16
  {
    if 0x30 <= b <= 0x39 then b - 0x30
    else if 0x61 <= b <= 0x66 then b - 0x61 + 10
    else if 0x41 <= b <= 0x46 then b - 0x41 + 10
    else -1
  }

  predicate IsHex(b: Byte) { Digit(b) >= 0 }

  predicate AllHex(digits: seq<Byte>) { forall i :: 0 <= i < |digits| ==> IsHex(digits[i]) }

  /** The digits of base 16 in the order of their values, in either case. */
  lemma HexDigits(b: Byte)
    ensures forall v :: 0 <= v < 16 && (b == "0123456789abcdef"[v] as int || b == "0123456789ABCDEF"[v] as int) ==>
              Digit(b) == v
    ensures IsHex(b) ==> b == "0123456789abcdef"[Digit(b)] as int || b == "0123456789ABCDEF"[Digit(b)] as int
  {
  }

  /** The number written in base 16. */
  function HexValue(digits: seq<Byte>): nat
    requires AllHex(digits)
  {
    if digits == [] then 0
    else
      assert IsHex(digits[|digits| - 1]);
      16 * HexValue(digits[..|digits| - 1]) + Digit(digits[|digits| - 1])
  }

  /** Bitwise or, bit by bit. */
  function Or(a: nat, b: nat): nat
    decreases a + b
  {
    if a == 0 && b == 0 then 0
    else 2 * Or(a / 2, b / 2) + (if a % 2 == 1 || b % 2 == 1 then 1 else 0)
  }

  /** A 16-bit left shift by four drops what no longer fits. */
  function ShiftFour(value: nat): nat { (value * 16) % 0x1_0000 }

  lemma {:induction false} OrZero(a: nat)
    ensures Or(a, 0) == a
  {
    if a == 0 {
    } else {
      OrZero(a / 2);
    }
  }

  /** One more low bit that the left operand leaves clear. */
  lemma OrBit(a: nat, b: nat, bit: nat)
    requires bit < 2
    ensures Or(2 * a, 2 * b + bit) == 2 * Or(a, b) + bit
  {
    assert 2 * a / 2 == a && (2 * b + bit) / 2 == b && (2 * b + bit) % 2 == bit && 2 * a % 2 == 0;
    if a == 0 && b == 0 && bit == 0 { assert Or(0, 0) == 0; }
  }

  /** Where the low four bits are clear, or-ing a digit in is adding it. */
  lemma OrAdds(high: nat, digit: nat)
    requires digit < 16
    ensures Or(16 * high, digit) == 16 * high + digit
  {
    hide Or;
    OrZero(high);
    var eighth, quarter, half := digit / 8, digit / 4, digit / 2;
    OrBit(high, 0, eighth);
    OrBit(2 * high, eighth, quarter % 2);
    assert 2 * eighth + quarter % 2 == quarter;
    OrBit(4 * high, quarter, half % 2);
    assert 2 * quarter + half % 2 == half;
    OrBit(8 * high, half, digit % 2);
    assert 2 * half + digit % 2 == digit;
  }

  lemma ShiftOr(value: nat, digit: nat)
    requires value < 0x1000 && digit < 16
    ensures Or(ShiftFour(value), digit) == 16 * value + digit
  {
    hide Or;
    OrAdds(value, digit);
  }

  lemma {:induction false} HexBelow(digits: seq<Byte>)
    requires AllHex(digits)
    ensures |digits| <= 3 ==> HexValue(digits) < 0x1000
    ensures |digits| <= 4 ==> HexValue(digits) < 0x1_0000
    ensures |digits| <= 2 ==> HexValue(digits) < 0x100
    ensures |digits| <= 1 ==> HexValue(digits) < 0x10
    ensures |digits| == 0 ==> HexValue(digits) == 0
  {
    if digits == [] {
    } else {
      HexBelow(digits[..|digits| - 1]);
    }
  }

  /** Exactly four digits, read by shifting and or-ing, are their base-16 value: nothing is shifted out. */
  method DecodeHexEscape(data: seq<Byte>) returns (value: nat, ok: bool)
    ensures ok <==> |data| == 4 && AllHex(data)
    ensures ok ==> value == HexValue(data) && value < 0x1_0000
  {
    if |data| != 4 {
      return 0, false;
    }
    value := 0;
    for i := 0 to |data|
      invariant AllHex(data[..i])
      invariant value == HexValue(data[..i])
    {
      HexBelow(data[..i]);
      assert data[..i + 1] == data[..i] + [data[i]];
      var digit := data[i];
      assert IsHex(digit) ==> AllHex(data[..i + 1]);
      assert !IsHex(digit) ==> !AllHex(data);
      if IsHex(digit) { ShiftOr(value, Digit(digit)); }
      value := ShiftFour(value);
      if 0x30 <= digit <= 0x39 {
        value := Or(value, digit - 0x30);
      } else if 0x61 <= digit <= 0x66 {
        value := Or(value, digit - 0x61 + 10);
      } else if 0x41 <= digit <= 0x46 {
        value := Or(value, digit - 0x41 + 10);
      } else {
        return 0, false;
      }
    }
    assert data[..|data|] == data;
    HexBelow(data);
    return value, true;
  }

  predicate IsHighSurrogate(value: nat) { 0xD800 <= value <= 0xDBFF }

  predicate IsLowSurrogate(value: nat) { 0xDC00 <= value <= 0xDFFF }

  /** The pair encodes the character: each half holds ten bits of what exceeds the first 65536 (section 2.1 of
      RFC 2781). */
  predicate Encodes(c: nat, high: nat, low: nat) {
    && 0x1_0000 <= c <= 0x10_FFFF
    && high == 0xD800 + (c - 0x1_0000) / 0x400 && low == 0xDC00 + (c - 0x1_0000) % 0x400
  }

  /** A high and a low surrogate together are one character, and every character beyond the first 65536 is such a
      pair. */
  lemma PairIsCharacter(high: nat, low: nat)
    ensures IsHighSurrogate(high) && IsLowSurrogate(low) <==> exists c :: Encodes(c, high, low)
  {
    if IsHighSurrogate(high) && IsLowSurrogate(low) {
      assert Encodes(0x1_0000 + (high - 0xD800) * 0x400 + (low - 0xDC00), high, low);
    }
  }

  /* The text as string units */

  /** What a reader of JSON strings sees, one escape at a time, with no rule about surrogates. */
  datatype Unit = Outside | Quote | Plain | Escape | Code(value: nat) | Broken | Dangling

  predicate IsCode(data: seq<Byte>) {
    |data| >= 6 && AllHex(data[2..6])
  }

  function Units(data: seq<Byte>, inside: bool): seq<Unit> {
    if data == [] then []
    else if !inside then
      if data[0] == QUOTE then [Quote] + Units(data[1..], true) else [Outside] + Units(data[1..], false)
    else if data[0] == QUOTE then [Quote] + Units(data[1..], false)
    else if data[0] != BACKSLASH then [Plain] + Units(data[1..], true)
    else if |data| == 1 then [Dangling]
    else if data[1] != LOWER_U then [Escape] + Units(data[2..], true)
    else if !IsCode(data) then [Broken]
    else [Code(HexValue(data[2..6]))] + Units(data[6..], true)
  }

  predicate High(u: Unit) { u.Code? && IsHighSurrogate(u.value) }

  predicate Low(u: Unit) { u.Code? && IsLowSurrogate(u.value) }

  /** Every Unicode escape is complete, every high surrogate is directly followed by a low one, every low one directly
      preceded by a high one. */
  ghost predicate WellPaired(units: seq<Unit>) {
    && (forall i :: 0 <= i < |units| ==> !units[i].Broken?)
    && (forall i :: 0 <= i < |units| && High(units[i]) ==> i + 1 < |units| && Low(units[i + 1]))
    && (forall i :: 0 <= i < |units| && Low(units[i]) ==> i > 0 && High(units[i - 1]))
  }

  /** The same, consumed from the front as the scan does. */
  predicate Consumable(units: seq<Unit>) {
    if units == [] then true
    else if units[0].Broken? || Low(units[0]) then false
    else if High(units[0]) then |units| > 1 && Low(units[1]) && Consumable(units[2..])
    else Consumable(units[1..])
  }

  lemma {:induction false} ConsumableIsPaired(units: seq<Unit>)
    ensures Consumable(units) <==> WellPaired(units)
    decreases |units|
  {
    if units == [] || units[0].Broken? || Low(units[0]) {
    } else if High(units[0]) {
      if |units| > 1 && Low(units[1]) {
        ConsumableIsPaired(units[2..]);
        PairedTail(units, 2);
      }
    } else {
      ConsumableIsPaired(units[1..]);
      PairedTail(units, 1);
    }
  }

  lemma PairedTail(units: seq<Unit>, n: nat)
    requires n <= |units| && (n == 1 || n == 2)
    requires n == 1 ==> !units[0].Broken? && !High(units[0]) && !Low(units[0])
    requires n == 2 ==> High(units[0]) && Low(units[1])
    ensures WellPaired(units[n..]) <==> WellPaired(units)
  {
    var tail := units[n..];
    assert forall i :: 0 <= i < |tail| ==> tail[i] == units[n + i];
    if WellPaired(tail) {
      forall i | 0 <= i < |units| ensures !units[i].Broken? { if i >= n { assert !tail[i - n].Broken?; } }
      forall i | 0 <= i < |units| && High(units[i]) ensures i + 1 < |units| && Low(units[i + 1]) {
        if i >= n { assert High(tail[i - n]); assert Low(tail[i - n + 1]); }
      }
      forall i | 0 <= i < |units| && Low(units[i]) ensures i > 0 && High(units[i - 1]) {
        if i >= n { assert Low(tail[i - n]); }
      }
    }
    if WellPaired(units) {
      forall i | 0 <= i < |tail| && High(tail[i]) ensures i + 1 < |tail| && Low(tail[i + 1]) {
        assert High(units[n + i]);
      }
      forall i | 0 <= i < |tail| && Low(tail[i]) ensures i > 0 && High(tail[i - 1]) { assert Low(units[n + i]); }
      forall i | 0 <= i < |tail| ensures !tail[i].Broken? { assert !units[n + i].Broken?; }
    }
  }

  /* One step of the scan */

  predicate IsUnicodeEscape(rest: seq<Byte>) {
    |rest| >= 6 && rest[0] == BACKSLASH && rest[1] == LOWER_U && IsCode(rest)
  }

  predicate IsLowEscape(rest: seq<Byte>) { IsUnicodeEscape(rest) && IsLowSurrogate(HexValue(rest[2..6])) }

  lemma PlainStep(rest: seq<Byte>, inside: bool)
    requires rest != [] && !(inside && rest[0] == BACKSLASH)
    ensures Consumable(Units(rest, inside)) <==>
              Consumable(Units(rest[1..], if rest[0] == QUOTE then !inside else inside))
  {
    var units := Units(rest, inside);
    assert units[1..] == Units(rest[1..], if rest[0] == QUOTE then !inside else inside);
  }

  lemma EscapeStep(rest: seq<Byte>)
    requires rest != [] && rest[0] == BACKSLASH && (|rest| > 1 ==> rest[1] != LOWER_U)
    ensures |rest| == 1 ==> Consumable(Units(rest, true))
    ensures |rest| > 1 ==> (Consumable(Units(rest, true)) <==> Consumable(Units(rest[2..], true)))
  {
    var units := Units(rest, true);
    assert |rest| > 1 ==> units[1..] == Units(rest[2..], true);
    assert |rest| == 1 ==> units[1..] == [];
  }

  lemma CodeStep(rest: seq<Byte>)
    requires IsUnicodeEscape(rest)
    ensures var value := HexValue(rest[2..6]);
            Consumable(Units(rest, true)) <==>
              if IsHighSurrogate(value) then IsLowEscape(rest[6..]) && Consumable(Units(rest[12..], true))
              else !IsLowSurrogate(value) && Consumable(Units(rest[6..], true))
  {
    var units := Units(rest, true);
    assert units[1..] == Units(rest[6..], true);
    var after := Units(rest[6..], true);
    if IsLowEscape(rest[6..]) {
      assert rest[6..][6..] == rest[12..];
      assert after[1..] == Units(rest[12..], true);
      assert units[2..] == after[1..];
    }
  }

  /** The index-jumping scan stays within the input and accepts exactly the well-paired texts. */
  method ValidateEscapedSurrogates(data: seq<Byte>) returns (ok: bool)
    ensures ok <==> WellPaired(Units(data, false))
  {
    ConsumableIsPaired(Units(data, false));
    hide WellPaired, Consumable, Units, HexValue;
    assert Consumable(Units([], false)) && Consumable(Units([], true)) by { NothingLeft(); }
    hide Or, AllHex;
    var insideString := false;
    var index := 0;
    assert data[0..] == data;
    while index < |data|
      invariant 0 <= index <= |data|
      invariant Consumable(Units(data, false)) <==> Consumable(Units(data[index..], insideString))
    {
      var skipped := 0;
      if !insideString {
        PlainStep(data[index..], false);
        if data[index] == QUOTE {
          insideString := true;
        }
      } else if data[index] == QUOTE {
        PlainStep(data[index..], true);
        insideString := false;
      } else if data[index] != BACKSLASH {
        PlainStep(data[index..], true);
      } else if index + 1 >= |data| {
        EscapeStep(data[index..]);
      } else if data[index + 1] != LOWER_U {
        EscapeStep(data[index..]);
        skipped := 1;
      } else {
        if index + 5 >= |data| {
          BrokenStep(data[index..]);
          return false;
        }
        var value, decoded := DecodeHexEscape(data[index + 2..index + 6]);
        CodeAt(data, index);
        if !decoded {
          BrokenStep(data[index..]);
          return false;
        }
        CodeStep(data[index..]);
        assert data[index..][6..] == data[index + 6..];
        if IsHighSurrogate(value) {
          if index + 11 >= |data| || data[index + 6] != BACKSLASH || data[index + 7] != LOWER_U {
            return false;
          }
          var low, lowDecoded := DecodeHexEscape(data[index + 8..index + 12]);
          CodeAt(data, index + 6);
          if !lowDecoded || !IsLowSurrogate(low) {
            return false;
          }
          assert data[index..][12..] == data[index + 12..];
          skipped := 11;
        } else if IsLowSurrogate(value) {
          return false;
        } else {
          skipped := 5;
        }
      }
      assert data[index..][skipped + 1..] == data[index + skipped + 1..];
      index := index + skipped + 1;
    }
    assert data[index..] == [];
    return true;
  }

  lemma NothingLeft()
    ensures Consumable(Units([], false)) && Consumable(Units([], true))
  {
  }

  lemma BrokenStep(rest: seq<Byte>)
    requires |rest| > 1 && rest[0] == BACKSLASH && rest[1] == LOWER_U && !IsCode(rest)
    ensures !Consumable(Units(rest, true))
  {
  }

  lemma CodeAt(data: seq<Byte>, index: nat)
    requires index + 5 < |data|
    ensures IsCode(data[index..]) <==> AllHex(data[index + 2..index + 6])
    ensures data[index..][2..6] == data[index + 2..index + 6]
  {
    var part := data[index + 2..index + 6];
    forall k | 0 <= k < 4 ensures data[index..][2..6][k] == part[k] {
    }
    assert data[index..][2..6] == part;
  }
}
