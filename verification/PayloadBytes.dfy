/** What the bytes of a payload value are, without reading them back. */
module PayloadBytes {
  import opened Bytes
  import opened Serialization
  import opened PayloadRoundTrip

  // ----- Integers -----

  lemma DivideTwice(x: int, p: nat)
    requires p > 0
    ensures x / 256 / p == x / (256 * p)
  {
    var q, r := x / 256, x % 256;
    var a, b := q / p, q % p;
    assert x == 256 * p * a + (256 * b + r);
    assert 0 <= 256 * b + r < 256 * p;
    QuotientOf(x, 256 * p, a, 256 * b + r);
  }

  lemma QuotientOf(x: int, d: int, q: int, r: int)
    requires d > 0 && x == d * q + r && 0 <= r < d
    ensures x / d == q
  {
    MulMonotonic(d, q + 1, x / d);
    MulMonotonic(d, x / d + 1, q);
  }

  lemma MulMonotonic(d: int, a: int, b: int)
    requires d > 0
    ensures a <= b ==> d * a <= d * b
  {
  }

  /** A number in base 256, highest digit first. */
  lemma {:induction false} BeDigits(n: nat, x: nat, i: nat)
    requires x < Pow256(n) && i < n
    ensures Be(n, x)[i] == x / Pow256(n - 1 - i) % 256
  {
    if i < n - 1 {
      BeDigits(n - 1, x / 256, i);
      DivideTwice(x, Pow256(n - 2 - i));
      assert Be(n, x)[i] == Be(n - 1, x / 256)[i];
    }
  }

  lemma {:induction false} Pow256Split(n: nat, k: nat)
    requires k <= n
    ensures Pow256(n) == Pow256(n - k) * Pow256(k)
  {
    if k > 0 {
      Pow256Split(n - 1, k - 1);
      assert Pow256(n) == 256 * Pow256(n - 1) && Pow256(k) == 256 * Pow256(k - 1);
      hide Pow256;
      Swapped(Pow256(n - k), Pow256(k - 1));
    }
  }

  lemma Swapped(a: int, b: int)
    ensures 256 * (a * b) == a * (256 * b)
  {
  }

  lemma ShiftedQuotient(x: int, p: nat, a: nat)
    requires p > 0
    ensures (x + 256 * a * p) / p % 256 == x / p % 256
  {
    var q, r := x / p, x % p;
    assert p * (q + 256 * a) == p * q + 256 * a * p;
    QuotientOf(x + 256 * a * p, p, q + 256 * a, r);
  }

  /** The digits of a negative number are those of its two's complement. */
  lemma DigitOfShifted(x: int, n: nat, k: nat)
    requires k < n
    ensures (x + Pow256(n)) / Pow256(k) % 256 == x / Pow256(k) % 256
  {
    Pow256Split(n, k);
    var p, a := Pow256(k), Pow256(n - k - 1);
    assert Pow256(n - k) == 256 * a;
    hide Pow256;
    ShiftedQuotient(x, p, a);
  }

  /** How many bytes a type has on the wire. */
  function ByteWidth(t: IntType): nat {
    match t
    case Uint8 => 1
    case Sint8 => 1
    case Uint16 => 2
    case Sint16 => 2
    case Uint32 => 4
    case Sint32 => 4
    case Uint64 => 8
    case Sint64 => 8
  }

  /** The numbers a type has. */
  predicate Fits(t: IntType, x: int) {
    match t
    case Uint8 => 0 <= x <= 0xFF
    case Sint8 => -0x80 <= x <= 0x7F
    case Uint16 => 0 <= x <= 0xFFFF
    case Sint16 => -0x8000 <= x <= 0x7FFF
    case Uint32 => 0 <= x <= 0xFFFF_FFFF
    case Sint32 => -0x8000_0000 <= x <= 0x7FFF_FFFF
    case Uint64 => 0 <= x <= 0xFFFF_FFFF_FFFF_FFFF
    case Sint64 => -0x8000_0000_0000_0000 <= x <= 0x7FFF_FFFF_FFFF_FFFF
  }

  lemma Powers()
    ensures Pow256(1) == 0x100 && Pow256(2) == 0x1_0000 && Pow256(4) == 0x1_0000_0000
    ensures Pow256(8) == 0x1_0000_0000_0000_0000
  {
    assert Pow256(3) == 0x100_0000 && Pow256(5) == 0x100_0000_0000 && Pow256(6) == 0x1_0000_0000_0000;
  }

  lemma TypesAsOnWire(t: IntType, x: int)
    ensures t.Size() == ByteWidth(t) && (t.InRange(x) <==> Fits(t, x))
  {
    Powers();
  }

  /** An integer is serialized if and only if its type has it; its bytes are then its digits in base
      256, rounded down, highest first. */
  lemma IntBytes(t: IntType, x: int)
    ensures var bytes := Ser(Int(t, x));
            && (bytes.Ok? <==> Fits(t, x))
            && (bytes.Ok? ==>
                  && |bytes.value| == ByteWidth(t)
                  && forall i :: 0 <= i < |bytes.value| ==> bytes.value[i] == x / Pow256(ByteWidth(t) - 1 - i) % 256)
  {
    TypesAsOnWire(t, x);
    if t.InRange(x) {
      var n := t.Size();
      hide IntType.Size, IntType.InRange, Fits, ByteWidth;
      forall i | 0 <= i < n ensures Be(n, Bits(t, x))[i] == x / Pow256(n - 1 - i) % 256 {
        BeDigits(n, Bits(t, x), i);
        DigitOfShifted(x, n, n - 1 - i);
      }
    }
  }

  // ----- Text -----

  /** The byte order mark of UTF-8, and U+FEFF as UTF-16 in either byte order. */
  predicate MarkAt(e: Encoding, bytes: seq<byte>, at: nat) {
    match e
    case Utf8 => at + 3 <= |bytes| && bytes[at] == 0xEF && bytes[at + 1] == 0xBB && bytes[at + 2] == 0xBF
    case Utf16Le => at + 2 <= |bytes| && bytes[at] == 0xFF && bytes[at + 1] == 0xFE
    case Utf16Be => at + 2 <= |bytes| && bytes[at] == 0xFE && bytes[at + 1] == 0xFF
  }

  /** Code unit c stands at a position: low byte first in UTF-16LE, high byte first in UTF-16BE. */
  predicate UnitAt(e: Encoding, bytes: seq<byte>, at: nat, c: int) {
    match e
    case Utf8 => at < |bytes| && bytes[at] == c
    case Utf16Le => at + 1 < |bytes| && bytes[at] == c % 0x100 && bytes[at + 1] == c / 0x100
    case Utf16Be => at + 1 < |bytes| && bytes[at] == c / 0x100 && bytes[at + 1] == c % 0x100
  }

  lemma BomIsMark(e: Encoding, before: seq<byte>, after: seq<byte>)
    ensures MarkAt(e, before + e.Bom() + after, |before|)
  {
    var bytes := before + e.Bom() + after;
    assert forall i :: 0 <= i < |e.Bom()| ==> bytes[|before| + i] == e.Bom()[i];
    match e
    case Utf8 => assert bytes[|before| + 1] == 0xBB && bytes[|before| + 2] == 0xBF;
    case Utf16Le => assert bytes[|before| + 1] == 0xFE;
    case Utf16Be => assert bytes[|before| + 1] == 0xFF;
  }

  /** In UTF-16 the mark is the code unit of U+FEFF. */
  lemma MarkIsFeff(e: Encoding, bytes: seq<byte>, at: nat)
    requires !e.Utf8?
    ensures MarkAt(e, bytes, at) <==> UnitAt(e, bytes, at, 0xFEFF)
    ensures e.SingleUnit(0xFEFF) && e.Bom() == EncodeChar(e, 0xFEFF)
  {
  }

  /** How many bytes so many code units take. */
  function Width(e: Encoding, n: nat): nat {
    if e.Utf8? then n else 2 * n
  }

  /** The code units of a text stand one after the other from a position on. */
  predicate UnitsAt(e: Encoding, bytes: seq<byte>, at: nat, text: seq<int>) {
    forall i :: 0 <= i < |text| ==> UnitAt(e, bytes, at + Width(e, i), text[i])
  }

  lemma UnitMoves(e: Encoding, before: seq<byte>, bytes: seq<byte>, after: seq<byte>, at: nat, c: int)
    requires UnitAt(e, bytes, at, c)
    ensures UnitAt(e, before + bytes + after, |before| + at, c)
  {
    assert (before + bytes + after)[|before| + at] == bytes[at];
    if !e.Utf8? {
      assert (before + bytes + after)[|before| + at + 1] == bytes[at + 1];
    }
  }

  lemma CharIsUnit(e: Encoding, c: int)
    requires e.SingleUnit(c)
    ensures UnitAt(e, EncodeChar(e, c), 0, c) && |EncodeChar(e, c)| == Width(e, 1)
  {
  }

  lemma EncodeLength(e: Encoding, text: seq<int>)
    requires SingleUnits(e, text)
    ensures |Encode(e, text)| == Width(e, |text|)
  {
  }

  lemma {:induction false} EncodeUnits(e: Encoding, text: seq<int>)
    requires SingleUnits(e, text)
    ensures UnitsAt(e, Encode(e, text), 0, text)
  {
    hide UnitAt, EncodeChar, Encoding.SingleUnit;
    forall i | 0 <= i < |text| ensures UnitAt(e, Encode(e, text), 0 + Width(e, i), text[i]) {
      var first, rest := EncodeChar(e, text[0]), Encode(e, text[1..]);
      assert [] + first + rest == first + rest == first + rest + [] == Encode(e, text);
      CharIsUnit(e, text[0]);
      if i == 0 {
        UnitMoves(e, [], first, rest, 0, text[0]);
      } else {
        EncodeUnits(e, text[1..]);
        assert text[1..][i - 1] == text[i];
        UnitMoves(e, first, rest, [], 0 + Width(e, i - 1), text[i]);
      }
    }
  }

  lemma UnitsMove(e: Encoding, before: seq<byte>, bytes: seq<byte>, after: seq<byte>, text: seq<int>)
    requires UnitsAt(e, bytes, 0, text)
    ensures UnitsAt(e, before + bytes + after, |before|, text)
  {
    hide UnitAt, Width;
    forall i | 0 <= i < |text| ensures UnitAt(e, before + bytes + after, |before| + Width(e, i), text[i]) {
      UnitMoves(e, before, bytes, after, 0 + Width(e, i), text[i]);
    }
  }

  /** A number in as many bytes as there are, highest digit first. */
  predicate IsNumber(part: seq<byte>, x: nat) {
    forall i :: 0 <= i < |part| ==> part[i] == x / Pow256(|part| - 1 - i) % 256
  }

  lemma BeIsNumber(n: nat, x: nat)
    requires x < Pow256(n)
    ensures IsNumber(Be(n, x), x)
  {
    forall i | 0 <= i < n ensures Be(n, x)[i] == x / Pow256(n - 1 - i) % 256 {
      BeDigits(n, x, i);
    }
  }

  /** A dynamic string is its byte count, the mark, its code units in order, and a NUL. */
  lemma DynamicStringBytes(lengthField: LengthField, e: Encoding, text: seq<int>, length: nat)
    requires Sound(DynamicString(lengthField, e, text, length))
    ensures var bytes, start := Ser(DynamicString(lengthField, e, text, length)), lengthField + if e.Utf8? then 3 else 2;
            && bytes.Ok? && |bytes.value| == length == start + Width(e, |text| + 1)
            && IsNumber(bytes.value[..lengthField], length - lengthField)
            && MarkAt(e, bytes.value, lengthField)
            && UnitsAt(e, bytes.value, start, text + [0])
  {
    DynamicStringParts(lengthField, e, text, length);
    hide *;
    var count, mark, body, end := Be(lengthField, TextBytes(e, text)), e.Bom(), Encode(e, text), EncodeChar(e, 0);
    var bytes := count + mark + body + end;
    assert bytes[..lengthField] == count;
    BeIsNumber(lengthField, TextBytes(e, text));
    assert bytes == count + mark + (body + end);
    BomIsMark(e, count, body + end);
    EncodeWithNul(e, text);
    assert bytes == (count + mark) + (body + end) + [];
    UnitsMove(e, count + mark, body + end, [], text + [0]);
  }

  lemma DynamicStringParts(lengthField: LengthField, e: Encoding, text: seq<int>, length: nat)
    requires Sound(DynamicString(lengthField, e, text, length))
    ensures SingleUnits(e, text) && e.SingleUnit(0) && TextBytes(e, text) < Pow256(lengthField)
    ensures Ser(DynamicString(lengthField, e, text, length))
         == Ok(Be(lengthField, TextBytes(e, text)) + e.Bom() + Encode(e, text) + EncodeChar(e, 0))
    ensures |e.Bom()| == if e.Utf8? then 3 else 2
    ensures |Encode(e, text)| == Width(e, |text|) && |EncodeChar(e, 0)| == Width(e, 1)
    ensures TextBytes(e, text) == length - lengthField && Width(e, |text| + 1) == Width(e, |text|) + Width(e, 1)
    ensures length == lengthField + |e.Bom()| + Width(e, |text| + 1)
  {
    EncodeLength(e, text);
    CharIsUnit(e, 0);
    hide Encode, EncodeChar, Be;
  }

  /** The characters of one code unit: ASCII in UTF-8, the basic plane without surrogates in UTF-16. */
  predicate OneUnitEach(e: Encoding, text: seq<int>) {
    forall i :: 0 <= i < |text| ==>
      if e.Utf8? then 0 <= text[i] < 0x80 else 0 <= text[i] <= 0xD7FF || 0xE000 <= text[i] <= 0xFFFF
  }

  lemma OneUnitEachExact(e: Encoding, text: seq<int>)
    ensures SingleUnits(e, text) <==> OneUnitEach(e, text)
  {
    if OneUnitEach(e, text) {
      forall c | c in text ensures e.SingleUnit(c) {
        var i :| 0 <= i < |text| && text[i] == c;
      }
    } else {
      var i :| 0 <= i < |text| && !(if e.Utf8? then 0 <= text[i] < 0x80 else 0 <= text[i] <= 0xD7FF || 0xE000 <= text[i] <= 0xFFFF);
      assert text[i] in text && !e.SingleUnit(text[i]);
    }
  }

  /** When a string is serialized: its characters take one code unit each, and it fits its size, or the
      length it holds is right and fits the length field. */
  lemma StringsPrint(e: Encoding, text: seq<int>, size: nat, lengthField: LengthField, length: nat)
    ensures Ser(FixedString(size, e, text)).Ok? <==> OneUnitEach(e, text) && |text| <= size
    ensures var count := (if e.Utf8? then 3 else 2) + Width(e, |text| + 1);
            Ser(DynamicString(lengthField, e, text, length)).Ok? <==>
              && OneUnitEach(e, text) && length == lengthField + count
              && count <= (if lengthField == 1 then 0xFF else if lengthField == 2 then 0xFFFF else 0xFFFF_FFFF)
  {
    OneUnitEachExact(e, text);
    Powers();
    hide SingleUnits, OneUnitEach, Encode, EncodeChar, Be, Zeros;
  }

  lemma {:induction false} EncodeWithNul(e: Encoding, text: seq<int>)
    requires SingleUnits(e, text)
    ensures UnitsAt(e, Encode(e, text) + EncodeChar(e, 0), 0, text + [0])
  {
    var body, end := Encode(e, text), EncodeChar(e, 0);
    EncodeUnits(e, text);
    EncodeLength(e, text);
    CharIsUnit(e, 0);
    hide UnitAt, Encode, EncodeChar, Encoding.SingleUnit;
    assert [] + body + end == body + end == body + end + [];
    UnitsMove(e, [], body, end, text);
    UnitMoves(e, body, end, [], 0, 0);
  }

  /** A fixed string is the mark, its code units in order, and NULs up to its size. */
  lemma FixedStringBytes(size: nat, e: Encoding, text: seq<int>)
    requires Sound(FixedString(size, e, text))
    ensures var bytes, start := Ser(FixedString(size, e, text)), if e.Utf8? then 3 else 2;
            && bytes.Ok? && |bytes.value| == start + Width(e, size) && MarkAt(e, bytes.value, 0)
            && UnitsAt(e, bytes.value, start, text)
            && UnitsAt(e, bytes.value, start + Width(e, |text|), Zeros(size - |text|))
  {
    FixedStringParts(size, e, text);
    hide *;
    var mark, body, zeros := e.Bom(), Encode(e, text), Zeros(size - |text|);
    var fill := Encode(e, zeros);
    var bytes := mark + body + fill;
    assert [] + mark + (body + fill) == bytes;
    BomIsMark(e, [], body + fill);
    EncodeUnits(e, text);
    UnitsMove(e, mark, body, fill, text);
    EncodeUnits(e, zeros);
    assert mark + body + fill + [] == bytes;
    UnitsMove(e, mark + body, fill, [], zeros);
  }

  lemma FixedStringParts(size: nat, e: Encoding, text: seq<int>)
    requires Sound(FixedString(size, e, text))
    ensures |text| <= size && SingleUnits(e, text) && SingleUnits(e, Zeros(size - |text|))
    ensures Ser(FixedString(size, e, text)) == Ok(e.Bom() + Encode(e, text) + Encode(e, Zeros(size - |text|)))
    ensures |e.Bom()| == if e.Utf8? then 3 else 2
    ensures |Encode(e, text)| == Width(e, |text|)
    ensures |Encode(e, Zeros(size - |text|))| + Width(e, |text|) == Width(e, size)
  {
    EncodeLength(e, text);
    EncodeLength(e, Zeros(size - |text|));
    hide Encode, Zeros;
  }

  // ----- Structs and arrays -----

  ghost predicate AllSound(vs: seq<Value>) {
    forall i :: 0 <= i < |vs| ==> Sound(vs[i])
  }

  /** The bytes have the part at a position. */
  predicate PartAt(bytes: seq<byte>, at: nat, part: seq<byte>) {
    at + |part| <= |bytes| && bytes[at..at + |part|] == part
  }

  /** Members and elements stand one after the other, each behind those before it. */
  lemma {:induction false} MemberBytes(vs: seq<Value>, i: nat)
    requires AllSound(vs) && i < |vs|
    ensures SerAll(vs).Ok? && |SerAll(vs).value| == LenAll(vs) && Ser(vs[i]).Ok?
    ensures PartAt(SerAll(vs).value, LenAll(vs[..i]), Ser(vs[i]).value)
  {
    LenAllIsByteCount(vs);
    LenIsByteCount(vs[i]);
    SerFirst(vs);
    LenAllFirst(vs, i);
    if i > 0 {
      var rest := vs[1..];
      forall j | 0 <= j < |rest| ensures Sound(rest[j]) {
        assert rest[j] == vs[j + 1];
      }
      MemberBytes(rest, i - 1);
      hide *;
      PartMoves(Ser(vs[0]).value, SerAll(rest).value, LenAll(rest[..i - 1]), Ser(vs[i]).value);
    }
  }

  lemma LenAllFirst(vs: seq<Value>, i: nat)
    requires i < |vs|
    ensures LenAll(vs[..i]) == if i == 0 then 0 else Len(vs[0]) + LenAll(vs[1..][..i - 1])
  {
    hide Len;
    if i > 0 {
      assert vs[..i][1..] == vs[1..][..i - 1];
    }
  }

  lemma SerFirst(vs: seq<Value>)
    requires vs != [] && SerAll(vs).Ok? && Sound(vs[0])
    ensures Ser(vs[0]).Ok? && |Ser(vs[0]).value| == Len(vs[0])
    ensures SerAll(vs[1..]).Ok? && SerAll(vs).value == Ser(vs[0]).value + SerAll(vs[1..]).value
  {
    LenIsByteCount(vs[0]);
    hide Ser;
  }

  lemma PartMoves(before: seq<byte>, bytes: seq<byte>, at: nat, part: seq<byte>)
    requires PartAt(bytes, at, part)
    ensures PartAt(before + bytes, |before| + at, part)
  {
    assert (before + bytes)[|before| + at..|before| + at + |part|] == bytes[at..at + |part|];
  }

  /** An array with a length field is the byte count of its elements, then the elements; without one
      just the elements. */
  lemma ArrayBytes(countField: CountField, template: Value, elements: seq<Value>, i: nat)
    requires Sound(DynamicArray(countField, template, elements)) && i < |elements|
    ensures var bytes := Ser(DynamicArray(countField, template, elements));
            && bytes.Ok? && |bytes.value| == countField + |elements| * Len(template)
            && IsNumber(bytes.value[..countField], |elements| * Len(template))
            && Ser(elements[i]).Ok? && PartAt(bytes.value, countField + i * Len(template), Ser(elements[i]).value)
  {
    hide *;
    ArrayParts(countField, template, elements);
    ElementAt(template, elements, i);
    var size := |elements| * Len(template);
    var count, data := if countField == 0 then [] else Be(countField, size), SerAll(elements).value;
    assert (count + data)[..countField] == count;
    CountIsNumber(countField, size, count);
    PartMoves(count, data, i * Len(template), Ser(elements[i]).value);
  }

  lemma ArrayParts(countField: CountField, template: Value, elements: seq<Value>)
    requires Sound(DynamicArray(countField, template, elements))
    ensures var size, data := |elements| * Len(template), SerAll(elements);
            && data.Ok? && |data.value| == size && (countField != 0 ==> size < Pow256(countField))
            && Ser(DynamicArray(countField, template, elements))
               == Ok((if countField == 0 then [] else Be(countField, size)) + data.value)
    ensures AllSound(elements) && forall j :: 0 <= j < |elements| ==> Len(elements[j]) == Len(template)
  {
    hide Be, Len, SerAll;
    LenAllIsByteCount(elements);
    LenAllUniform(elements, Len(template));
  }

  lemma ElementAt(template: Value, elements: seq<Value>, i: nat)
    requires AllSound(elements) && i < |elements| && forall j :: 0 <= j < |elements| ==> Len(elements[j]) == Len(template)
    ensures SerAll(elements).Ok? && Ser(elements[i]).Ok?
    ensures PartAt(SerAll(elements).value, i * Len(template), Ser(elements[i]).value)
  {
    hide Ser, SerAll, Sound, Len, PartAt;
    MemberBytes(elements, i);
    LenAllUniform(elements[..i], Len(template));
  }

  lemma CountIsNumber(countField: CountField, size: nat, count: seq<byte>)
    requires countField != 0 ==> size < Pow256(countField)
    requires count == if countField == 0 then [] else Be(countField, size)
    ensures IsNumber(count, size)
  {
    if countField != 0 {
      BeIsNumber(countField, size);
    }
  }

  // ----- Strings that are cut short -----

  lemma {:induction false} AsciiDecodes(data: seq<byte>)
    requires forall i :: 0 <= i < |data| ==> data[i] < 0x80
    ensures Decode(Utf8, data).Ok?
  {
    if data != [] {
      AsciiDecodes(data[1..]);
    }
  }

  /** The receiver compares the announced byte count with the size of the payload including the length
      field, so up to that many missing bytes go unnoticed: the first m bytes of a UTF-8 string are taken
      for a string if and only if there are at least the announced number, and the mark is complete. */
  lemma CutStringAccepted(lengthField: LengthField, text: seq<int>, length: nat, m: nat)
    requires Sound(DynamicString(lengthField, Utf8, text, length)) && m <= length
    ensures Ser(DynamicString(lengthField, Utf8, text, length)).Ok?
    ensures |Ser(DynamicString(lengthField, Utf8, text, length)).value| == length
    ensures DynamicStringFrom(lengthField, Ser(DynamicString(lengthField, Utf8, text, length)).value[..m]).Ok? <==>
            length - lengthField <= m && lengthField + 3 <= m
  {
    var bytes := Ser(DynamicString(lengthField, Utf8, text, length)).value;
    DynamicStringBytes(lengthField, Utf8, text, length);
    DynamicStringParts(lengthField, Utf8, text, length);
    if lengthField <= m {
      CutCount(lengthField, text, length, m);
      CutMark(lengthField, bytes, m);
      CutAscii(lengthField, text, length, bytes, m);
      hide *;
      CutCases(lengthField, length, bytes[..m]);
    } else {
      assert |bytes[..m]| < lengthField;
      hide Ser, Decode, FromBe;
    }
  }

  lemma CutCases(lengthField: LengthField, length: nat, cut: seq<byte>)
    requires lengthField <= |cut| <= length && lengthField <= length
    requires FromBe(cut[..lengthField]) == length - lengthField
    requires BomAt(cut, lengthField) == if lengthField + 3 <= |cut| then Some(Utf8) else None
    requires lengthField + 3 <= |cut| ==> Decode(Utf8, Slice(cut, lengthField + 3, length)).Ok?
    ensures DynamicStringFrom(lengthField, cut).Ok? <==> length - lengthField <= |cut| && lengthField + 3 <= |cut|
  {
    hide FromBe, BomAt, Decode, Slice, RStrip;
    assert |Utf8.Bom()| == 3;
  }

  lemma CutCount(lengthField: LengthField, text: seq<int>, length: nat, m: nat)
    requires Sound(DynamicString(lengthField, Utf8, text, length)) && lengthField <= m <= length
    requires Ser(DynamicString(lengthField, Utf8, text, length)).Ok?
    requires |Ser(DynamicString(lengthField, Utf8, text, length)).value| == length
    ensures FromBe(Ser(DynamicString(lengthField, Utf8, text, length)).value[..m][..lengthField]) == length - lengthField
  {
    DynamicStringParts(lengthField, Utf8, text, length);
    hide *;
    var bytes := Ser(DynamicString(lengthField, Utf8, text, length)).value;
    var count := Be(lengthField, TextBytes(Utf8, text));
    assert bytes[..m][..lengthField] == count;
    BeInverse(lengthField, TextBytes(Utf8, text));
  }

  lemma CutMark(lengthField: LengthField, bytes: seq<byte>, m: nat)
    requires MarkAt(Utf8, bytes, lengthField) && lengthField <= m <= |bytes|
    ensures BomAt(bytes[..m], lengthField) == if lengthField + 3 <= m then Some(Utf8) else None
  {
    var cut := bytes[..m];
    if lengthField + 3 <= m {
      assert Slice(cut, lengthField, lengthField + 3) == [0xEF, 0xBB, 0xBF];
    } else if lengthField + 2 <= m {
      assert Slice(cut, lengthField, lengthField + 2) == [0xEF, 0xBB];
    }
  }

  lemma CutAscii(lengthField: LengthField, text: seq<int>, length: nat, bytes: seq<byte>, m: nat)
    requires SingleUnits(Utf8, text) && UnitsAt(Utf8, bytes, lengthField + 3, text + [0])
    requires |bytes| == length == lengthField + 3 + |text| + 1 && m <= length
    ensures lengthField + 3 <= m ==> Decode(Utf8, Slice(bytes[..m], lengthField + 3, length)).Ok?
  {
    if lengthField + 3 <= m {
      var part := Slice(bytes[..m], lengthField + 3, length);
      assert part == bytes[lengthField + 3..m];
      forall i | 0 <= i < |part| ensures part[i] < 0x80 {
        assert UnitAt(Utf8, bytes, lengthField + 3 + Width(Utf8, i), (text + [0])[i]);
        assert i < |text| ==> text[i] in text;
      }
      AsciiDecodes(part);
    }
  }
}
