/** The payload datatypes: their lengths on the wire, serialization, and deserialization
    driven by the receiver's current shape. */
module Serialization {
  import opened Bytes

  datatype IntType = Uint8 | Sint8 | Uint16 | Sint16 | Uint32 | Sint32 | Uint64 | Sint64 {
    function Size(): nat {
      match this
      case Uint8 | Sint8 => 1
      case Uint16 | Sint16 => 2
      case Uint32 | Sint32 => 4
      case Uint64 | Sint64 => 8
    }

    predicate Signed() {
      Sint8? || Sint16? || Sint32? || Sint64?
    }

    predicate InRange(x: int) {
      if Signed() then 0 <= 2 * x + Pow256(Size()) < 2 * Pow256(Size()) else 0 <= x < Pow256(Size())
    }
  }

  datatype Encoding = Utf8 | Utf16Le | Utf16Be {
    function Bom(): seq<byte> {
      match this
      case Utf8 => [0xEF, 0xBB, 0xBF]
      case Utf16Le => [0xFF, 0xFE]
      case Utf16Be => [0xFE, 0xFF]
    }

    /** The bytes of one code unit. */
    function Unit(): nat {
      if Utf8? then 1 else 2
    }

    /** The character, given by its code point, takes exactly one code unit. */
    predicate SingleUnit(c: int) {
      if Utf8? then 0 <= c < 0x80 else 0 <= c < 0x1_0000 && !(0xD800 <= c < 0xE000)
    }
  }

  type Raw4 = s: seq<byte> | |s| == 4 witness [0, 0, 0, 0]
  type Raw8 = s: seq<byte> | |s| == 8 witness [0, 0, 0, 0, 0, 0, 0, 0]
  type LengthField = x: int | x == 1 || x == 2 || x == 4 witness 4
  type CountField = x: int | x == 0 || x == 1 || x == 2 || x == 4

  /** A payload object. A float is its bytes, which is what the source compares; a string is its
      code points; a dynamic array holds a fresh instance of its element class. */
  datatype Value =
    | Int(intType: IntType, value: int)
    | Bool(flag: bool)
    | Float32(single: Raw4)
    | Float64(double: Raw8)
    | FixedString(size: nat, encoding: Encoding, text: seq<int>)
    | DynamicString(lengthField: LengthField, encoding: Encoding, text: seq<int>, length: nat)
    | Struct(fields: seq<Value>)
    | FixedArray(elements: seq<Value>)
    | DynamicArray(countField: CountField, template: Value, elements: seq<Value>)

  /** The attribute _has_dynamic_size. */
  predicate Dynamic(v: Value) {
    v.DynamicString? || v.DynamicArray?
  }

  // ----- Big-endian integers -----

  function Pow256(n: nat): (r: nat)
    ensures r >= 1
  {
    if n == 0 then 1 else 256 * Pow256(n - 1)
  }

  function Be(n: nat, x: nat): (r: seq<byte>)
    requires x < Pow256(n)
    ensures |r| == n
  {
    if n == 0 then [] else Be(n - 1, x / 256) + [x % 256]
  }

  function FromBe(s: seq<byte>): (r: nat)
    ensures r < Pow256(|s|)
  {
    if s == [] then 0 else FromBe(s[..|s| - 1]) * 256 + s[|s| - 1]
  }

  lemma {:induction false} BeInverse(n: nat, x: nat)
    requires x < Pow256(n)
    ensures FromBe(Be(n, x)) == x
  {
    if n > 0 {
      BeInverse(n - 1, x / 256);
      assert Be(n, x)[..n - 1] == Be(n - 1, x / 256);
    }
  }

  /** The bits of a number in two's complement. */
  function Bits(t: IntType, x: int): (r: nat)
    requires t.InRange(x)
    ensures r < Pow256(t.Size())
  {
    if x < 0 then x + Pow256(t.Size()) else x
  }

  function FromBits(t: IntType, bits: nat): (x: int)
    requires bits < Pow256(t.Size())
    ensures t.InRange(x) && Bits(t, x) == bits
  {
    if t.Signed() && 2 * bits >= Pow256(t.Size()) then bits - Pow256(t.Size()) else bits
  }

  // ----- Text -----

  predicate SingleUnits(e: Encoding, text: seq<int>) {
    forall c :: c in text ==> e.SingleUnit(c)
  }

  function EncodeChar(e: Encoding, c: int): (r: seq<byte>)
    requires e.SingleUnit(c)
    ensures |r| == e.Unit()
  {
    match e
    case Utf8 => [c]
    case Utf16Le => [c % 0x100, c / 0x100]
    case Utf16Be => [c / 0x100, c % 0x100]
  }

  function Encode(e: Encoding, text: seq<int>): (r: seq<byte>)
    requires SingleUnits(e, text)
    ensures |r| == e.Unit() * |text|
  {
    if text == [] then [] else EncodeChar(e, text[0]) + Encode(e, text[1..])
  }

  /** Bytes that do not decode to single code units are not modelled further. */
  function Decode(e: Encoding, data: seq<byte>): Result<seq<int>> {
    if data == [] then Ok([])
    else if |data| < e.Unit() then Err(ValueError)
    else
      var c := match e
        case Utf8 => data[0] as int
        case Utf16Le => data[1] as int * 0x100 + data[0]
        case Utf16Be => data[0] as int * 0x100 + data[1];
      if !e.SingleUnit(c) then Err(ValueError)
      else
        var rest :- Decode(e, data[e.Unit()..]);
        Ok([c] + rest)
  }

  /** str.rstrip("\0"). */
  function RStrip(text: seq<int>): seq<int> {
    if text != [] && text[|text| - 1] == 0 then RStrip(text[..|text| - 1]) else text
  }

  predicate EndsInNul(text: seq<int>) {
    text != [] && text[|text| - 1] == 0
  }

  function Zeros(n: nat): (r: seq<int>)
    ensures |r| == n && forall c :: c in r ==> c == 0
  {
    if n == 0 then [] else Zeros(n - 1) + [0]
  }

  // ----- Lengths and serialization -----

  function Len(v: Value): nat {
    match v
    case Int(t, _) => t.Size()
    case Bool(_) => 1
    case Float32(_) => 4
    case Float64(_) => 8
    case FixedString(size, e, _) => |e.Bom()| + e.Unit() * size
    case DynamicString(_, _, _, length) => length
    case Struct(fields) => LenAll(fields)
    case FixedArray(elements) => if elements == [] then 0 else |elements| * Len(elements[0])
    case DynamicArray(countField, template, elements) => countField + |elements| * Len(template)
  }

  function LenAll(vs: seq<Value>): nat {
    if vs == [] then 0 else Len(vs[0]) + LenAll(vs[1..])
  }

  /** The bytes the length field of a dynamic string announces. */
  function TextBytes(e: Encoding, text: seq<int>): nat {
    |e.Bom()| + e.Unit() * |text| + e.Unit()
  }

  /** A character that needs several code units makes the byte count miss the expected length,
      which the source asserts. */
  function Ser(v: Value): Result<seq<byte>> {
    match v
    case Int(t, x) => if t.InRange(x) then Ok(Be(t.Size(), Bits(t, x))) else Err(StructError)
    case Bool(flag) => Ok([if flag then 1 else 0])
    case Float32(raw) => Ok(raw)
    case Float64(raw) => Ok(raw)
    case FixedString(size, e, text) =>
      if !SingleUnits(e, text) || |text| > size then Err(AssertionError)
      else Ok(e.Bom() + Encode(e, text) + Encode(e, Zeros(size - |text|)))
    case DynamicString(lengthField, e, text, length) =>
      if !SingleUnits(e, text) then Err(AssertionError)
      else if TextBytes(e, text) >= Pow256(lengthField) then Err(ValueError)
      else if lengthField + TextBytes(e, text) != length then Err(AssertionError)
      else Ok(Be(lengthField, TextBytes(e, text)) + e.Bom() + Encode(e, text) + EncodeChar(e, 0))
    case Struct(fields) => SerAll(fields)
    case FixedArray(elements) => SerAll(elements)
    case DynamicArray(countField, template, elements) =>
      var size := |elements| * Len(template);
      if countField != 0 && size >= Pow256(countField) then Err(StructError)
      else
        var data :- SerAll(elements);
        Ok((if countField == 0 then [] else Be(countField, size)) + data)
  }

  function SerAll(vs: seq<Value>): Result<seq<byte>> {
    if vs == [] then Ok([])
    else
      var first :- Ser(vs[0]);
      var rest :- SerAll(vs[1..]);
      Ok(first + rest)
  }

  // ----- Deserialization -----

  /** A Python slice with non-negative bounds. */
  function Slice(s: seq<byte>, i: nat, j: nat): seq<byte> {
    var j' := if j < |s| then j else |s|;
    if i <= j' then s[i..j'] else []
  }

  function BomAt(payload: seq<byte>, at: nat): Option<Encoding> {
    if Slice(payload, at, at + 3) == Utf8.Bom() then Some(Utf8)
    else if Slice(payload, at, at + 2) == Utf16Le.Bom() then Some(Utf16Le)
    else if Slice(payload, at, at + 2) == Utf16Be.Bom() then Some(Utf16Be)
    else None
  }

  /** The text after a byte order mark, up to a given position, without trailing NULs. */
  function TextAt(e: Encoding, payload: seq<byte>, at: nat, end: nat): Result<seq<int>> {
    var text :- Decode(e, Slice(payload, at + |e.Bom()|, end));
    Ok(RStrip(text))
  }

  /** What the receiver r becomes. */
  function Deser(r: Value, payload: seq<byte>): Result<Value>
    decreases r, 0
  {
    match r
    case Int(t, _) =>
      if |payload| != t.Size() then Err(StructError)
      else Ok(Int(t, FromBits(t, FromBe(payload))))
    case Bool(flag) =>
      if |payload| != 1 then Err(StructError)
      else Ok(Bool(if payload[0] == 0 then false else if payload[0] == 1 then true else flag))
    case Float32(_) => if |payload| != 4 then Err(StructError) else Ok(Float32(payload))
    case Float64(_) => if |payload| != 8 then Err(StructError) else Ok(Float64(payload))
    case FixedString(size, _, _) => FixedStringFrom(size, payload)
    case DynamicString(lengthField, _, _, _) => DynamicStringFrom(lengthField, payload)
    case Struct(fields) =>
      var values :- FieldsFrom(fields, payload, 0);
      Ok(Struct(values))
    case FixedArray(elements) =>
      if elements == [] then Ok(r)
      else
        var values :- ElementsInto(elements, payload, Len(elements[0]), 0);
        Ok(FixedArray(values))
    case DynamicArray(countField, template, _) =>
      if countField == 0 then Ok(DynamicArray(countField, template, []))
      else if |payload| < countField then Err(StructError)
      else if Len(template) == 0 then Err(ZeroDivisionError)
      else
        var count := FromBe(payload[..countField]) / Len(template);
        var values :- ElementsFrom(template, payload, count, countField);
        Ok(DynamicArray(countField, template, values))
  }

  function FixedStringFrom(size: nat, payload: seq<byte>): Result<Value> {
    match BomAt(payload, 0)
    case None => Err(ValueError)
    case Some(e) =>
      var text :- TextAt(e, payload, 0, |e.Bom()| + size * e.Unit());
      if |text| > size - 1 then Err(ValueError) else Ok(FixedString(size, e, text))
  }

  function DynamicStringFrom(lengthField: LengthField, payload: seq<byte>): Result<Value> {
    if |payload| < lengthField then Err(ValueError)
    else
      var length := FromBe(payload[..lengthField]);
      if |payload| < length then Err(ValueError)
      else
        match BomAt(payload, lengthField)
        case None => Err(ValueError)
        case Some(e) =>
          var text :- TextAt(e, payload, lengthField, lengthField + length);
          Ok(DynamicString(lengthField, e, text, lengthField + length))
  }

  /** The members of a struct, one after the other. A member of fixed size gets a slice of the
      length the receiver has before; one of variable size gets all that remains, and its length
      afterwards moves the position. */
  function FieldsFrom(fields: seq<Value>, payload: seq<byte>, pos: nat): Result<seq<Value>>
    decreases fields, 0
  {
    if fields == [] then Ok([])
    else if Dynamic(fields[0]) then
      var first :- Deser(fields[0], Slice(payload, pos, |payload|));
      var rest :- FieldsFrom(fields[1..], payload, pos + Len(first));
      Ok([first] + rest)
    else
      var first :- Deser(fields[0], Slice(payload, pos, pos + Len(fields[0])));
      var rest :- FieldsFrom(fields[1..], payload, pos + Len(fields[0]));
      Ok([first] + rest)
  }

  /** Array elements in slices of one length, into the elements there are. */
  function ElementsInto(elements: seq<Value>, payload: seq<byte>, length: nat, pos: nat): Result<seq<Value>>
    decreases elements, 0
  {
    if elements == [] then Ok([])
    else
      var first :- Deser(elements[0], Slice(payload, pos, pos + length));
      var rest :- ElementsInto(elements[1..], payload, length, pos + length);
      Ok([first] + rest)
  }

  /** The same into count fresh elements. */
  function ElementsFrom(template: Value, payload: seq<byte>, count: nat, pos: nat): Result<seq<Value>>
    decreases template, count + 1
  {
    if count == 0 then Ok([])
    else
      var first :- Deser(template, Slice(payload, pos, pos + Len(template)));
      var rest :- ElementsFrom(template, payload, count - 1, pos + Len(template));
      Ok([first] + rest)
  }

  // ----- The loops of the source -----

  /** SomeIpPayload.__len__. */
  method StructLength(fields: seq<Value>) returns (length: nat)
    ensures length == LenAll(fields)
  {
    length := 0;
    assert fields[0..] == fields;
    for i := 0 to |fields|
      invariant LenAll(fields) == length + LenAll(fields[i..])
    {
      assert fields[i..][1..] == fields[i + 1..];
      length := length + Len(fields[i]);
    }
  }

  method Serialize(v: Value) returns (r: Result<seq<byte>>)
    ensures r == Ser(v)
    decreases v, 0
  {
    match v
    case Struct(fields) =>
      PrependNone(SerAll(fields));
      r := SerializeMembers(fields, []);
    case FixedArray(elements) =>
      PrependNone(SerAll(elements));
      r := SerializeMembers(elements, []);
    case DynamicArray(countField, template, elements) =>
      var size := |elements| * Len(template);
      var output: seq<byte> := [];
      PrependNone(SerAll(elements));
      if countField != 0 {
        if size >= Pow256(countField) {
          return Err(StructError);
        }
        output := Be(countField, size);
      }
      r := SerializeMembers(elements, output);
    case _ =>
      r := Ser(v);
  }

  /** The loop that appends the bytes of one member after the other. */
  method SerializeMembers(vs: seq<Value>, start: seq<byte>) returns (r: Result<seq<byte>>)
    ensures r == PrependAll(start, SerAll(vs))
    decreases vs, 1
  {
    hide Ser;
    var output := start;
    assert vs[0..] == vs;
    for i := 0 to |vs|
      invariant PrependAll(start, SerAll(vs)) == PrependAll(output, SerAll(vs[i..]))
    {
      assert vs[i..][0] == vs[i] && vs[i..][1..] == vs[i + 1..];
      var bytes :- Serialize(vs[i]);
      ghost var rest := SerAll(vs[i + 1..]);
      assert rest.Ok? ==> output + (bytes + rest.value) == output + bytes + rest.value;
      output := output + bytes;
    }
    assert output + [] == output;
    return Ok(output);
  }

  method Deserialize(r: Value, payload: seq<byte>) returns (result: Result<Value>)
    ensures result == Deser(r, payload)
    decreases r, 0
  {
    match r
    case Struct(fields) =>
      var values :- DeserializeFields(fields, payload);
      return Ok(Struct(values));
    case FixedArray(elements) =>
      if elements == [] {
        return Ok(r);
      }
      var values :- DeserializeInto(elements, payload);
      return Ok(FixedArray(values));
    case DynamicArray(countField, template, _) =>
      if countField == 0 {
        return Ok(DynamicArray(countField, template, []));
      }
      if |payload| < countField {
        return Err(StructError);
      }
      var length := FromBe(payload[..countField]);
      if Len(template) == 0 {
        return Err(ZeroDivisionError);
      }
      var values :- DeserializeFrom(template, payload, length / Len(template), countField);
      return Ok(DynamicArray(countField, template, values));
    case _ =>
      return Deser(r, payload);
  }

  /** The member loop of SomeIpPayload.deserialize. */
  method DeserializeFields(fields: seq<Value>, payload: seq<byte>) returns (result: Result<seq<Value>>)
    ensures result == FieldsFrom(fields, payload, 0)
    decreases fields, 1
  {
    hide Deser, Slice, Len;
    var pos: nat, values: seq<Value> := 0, [];
    assert fields[0..] == fields;
    PrependNone(FieldsFrom(fields, payload, 0));
    for i := 0 to |fields|
      invariant FieldsFrom(fields, payload, 0) == PrependAll(values, FieldsFrom(fields[i..], payload, pos))
    {
      assert fields[i..][0] == fields[i] && fields[i..][1..] == fields[i + 1..];
      var field: Value;
      var length: nat;
      if Dynamic(fields[i]) {
        field :- Deserialize(fields[i], Slice(payload, pos, |payload|));
        length := Len(field);
      } else {
        length := Len(fields[i]);
        field :- Deserialize(fields[i], Slice(payload, pos, pos + length));
      }
      pos := pos + length;
      ghost var rest := FieldsFrom(fields[i + 1..], payload, pos);
      assert rest.Ok? ==> values + ([field] + rest.value) == values + [field] + rest.value;
      values := values + [field];
    }
    assert values + [] == values;
    return Ok(values);
  }

  /** The loop of SomeIpFixedSizeArray.deserialize. */
  method DeserializeInto(elements: seq<Value>, payload: seq<byte>) returns (result: Result<seq<Value>>)
    requires elements != []
    ensures result == ElementsInto(elements, payload, Len(elements[0]), 0)
    decreases elements, 1
  {
    hide Deser, Slice, Len;
    var length, values: seq<Value> := Len(elements[0]), [];
    assert elements[0..] == elements;
    PrependNone(ElementsInto(elements, payload, length, 0));
    ghost var pos := 0;
    for i := 0 to |elements|
      invariant pos == i * length
      invariant ElementsInto(elements, payload, length, 0)
             == PrependAll(values, ElementsInto(elements[i..], payload, length, pos))
    {
      assert elements[i..][0] == elements[i] && elements[i..][1..] == elements[i + 1..];
      NextSlot(i, length);
      var element :- Deserialize(elements[i], Slice(payload, i * length, (i + 1) * length));
      pos := pos + length;
      ghost var rest := ElementsInto(elements[i + 1..], payload, length, pos);
      assert rest.Ok? ==> values + ([element] + rest.value) == values + [element] + rest.value;
      values := values + [element];
    }
    assert values + [] == values;
    return Ok(values);
  }

  /** The loop of SomeIpDynamicSizeArray.deserialize. */
  method DeserializeFrom(template: Value, payload: seq<byte>, count: nat, start: nat)
    returns (result: Result<seq<Value>>)
    ensures result == ElementsFrom(template, payload, count, start)
    decreases template, 1
  {
    hide Deser, Slice, Len;
    var length, values: seq<Value> := Len(template), [];
    PrependNone(ElementsFrom(template, payload, count, start));
    ghost var pos := start;
    for i := 0 to count
      invariant pos == i * length + start
      invariant ElementsFrom(template, payload, count, start)
             == PrependAll(values, ElementsFrom(template, payload, count - i, pos))
    {
      NextSlot(i, length);
      var startIdx := i * length + start;
      var element :- Deserialize(template, Slice(payload, startIdx, startIdx + length));
      pos := pos + length;
      ghost var rest := ElementsFrom(template, payload, count - i - 1, pos);
      assert rest.Ok? ==> values + ([element] + rest.value) == values + [element] + rest.value;
      values := values + [element];
    }
    assert values + [] == values;
    return Ok(values);
  }

  lemma NextSlot(i: nat, length: nat)
    ensures i * length >= 0 && (i + 1) * length == i * length + length
  {
  }

  // ----- A dynamic string as an object -----

  /** The setters keep the length field's value and the length up to date; deserialization takes
      the length from the wire. */
  class DynamicSizeString {
    var text: seq<int>
    var lengthField: LengthField
    var lengthFieldValue: nat
    var encoding: Encoding
    var length: nat

    function View(): Value
      reads this
    {
      DynamicString(lengthField, encoding, text, length)
    }

    predicate Valid()
      reads this
    {
      lengthFieldValue == TextBytes(encoding, text)
    }

    /** What serialization asserts. */
    predicate UpToDate()
      reads this
    {
      length == lengthField + TextBytes(encoding, text)
    }

    constructor (value: seq<int>)
      ensures Valid() && UpToDate()
      ensures text == value && lengthField == 4 && encoding == Utf8
    {
      text := value;
      lengthField := 4;
      lengthFieldValue := 3 + |value| + 1;
      encoding := Utf8;
      length := 4 + (3 + |value| + 1);
    }

    method SetData(value: seq<int>)
      modifies this
      ensures Valid() && UpToDate()
      ensures text == value && lengthField == old(lengthField) && encoding == old(encoding)
    {
      text := value;
      lengthFieldValue := if encoding == Utf8 then 3 + |value| + 1 else 2 + |value| * 2 + 2;
      length := lengthField + lengthFieldValue;
    }

    method SetLengthFieldLength(value: int) returns (error: Option<Error>)
      requires Valid()
      modifies this
      ensures Valid()
      ensures text == old(text) && encoding == old(encoding)
      ensures error == None <==> value in {1, 2, 4}
      ensures if error == None then lengthField == value && UpToDate() else View() == old(View())
    {
      if value == 1 || value == 2 || value == 4 {
        lengthField := value;
        length := lengthField + lengthFieldValue;
        return None;
      }
      return Some(ValueError);
    }

    method SetEncoding(value: Encoding)
      modifies this
      ensures Valid() && UpToDate()
      ensures encoding == value && text == old(text) && lengthField == old(lengthField)
    {
      encoding := value;
      lengthFieldValue := if encoding == Utf8 then 3 + |text| + 1 else 2 + |text| * 2 + 2;
      length := lengthField + lengthFieldValue;
    }

    /** An error after the byte order mark was found leaves the new encoding behind. */
    method Deserialize(payload: seq<byte>) returns (error: Option<Error>)
      requires Valid()
      modifies this
      ensures Valid()
      ensures match Deser(old(View()), payload)
              case Ok(value) => error == None && View() == value
              case Err(e) => error == Some(e) && text == old(text) && lengthField == old(lengthField)
    {
      hide Decode, RStrip, Slice;
      if |payload| < lengthField {
        return Some(ValueError);
      }
      var wireLength := FromBe(payload[..lengthField]);
      if |payload| < wireLength {
        return Some(ValueError);
      }
      var bom := BomAt(payload, lengthField);
      if bom == None {
        return Some(ValueError);
      }
      SetEncoding(bom.value);
      var startIdx := lengthField + |bom.value.Bom()|;
      var decoded := Decode(bom.value, Slice(payload, startIdx, lengthField + wireLength));
      if decoded.Err? {
        return Some(decoded.error);
      }
      SetData(RStrip(decoded.value));
      length := lengthField + wireLength;
      return None;
    }
  }
}
