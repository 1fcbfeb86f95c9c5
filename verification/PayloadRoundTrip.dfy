/** The payload law: the length of a value is the size of its bytes, and those bytes give the value
    back to any receiver of the same shape. */
module PayloadRoundTrip {
  import opened Bytes
  import opened Serialization

  // ----- Which values, into which receivers -----

  /** The value can be serialized, and its stored lengths are up to date. Members of an array
      have one length, the one the array computes its own length from. */
  predicate Sound(v: Value) {
    match v
    case Int(t, x) => t.InRange(x)
    case Bool(_) => true
    case Float32(_) => true
    case Float64(_) => true
    case FixedString(size, e, text) => SingleUnits(e, text) && |text| <= size
    case DynamicString(lengthField, e, text, length) =>
      && SingleUnits(e, text)
      && TextBytes(e, text) < Pow256(lengthField)
      && length == lengthField + TextBytes(e, text)
    case Struct(fields) => forall i :: 0 <= i < |fields| ==> Sound(fields[i])
    case FixedArray(elements) =>
      forall i :: 0 <= i < |elements| ==> Sound(elements[i]) && Len(elements[i]) == Len(elements[0])
    case DynamicArray(countField, template, elements) =>
      && (countField != 0 ==> |elements| * Len(template) < Pow256(countField))
      && forall i :: 0 <= i < |elements| ==> Sound(elements[i]) && Len(elements[i]) == Len(template)
  }

  /** The receiver has the value's shape: the same classes, sizes and length fields, and the same
      length wherever the source takes the length of a slice from the receiver. Contents, and the
      elements of dynamic arrays, do not matter. */
  predicate Fits(r: Value, v: Value)
    decreases v
  {
    match (r, v)
    case (Int(t, _), Int(u, _)) => t == u
    case (Bool(_), Bool(_)) => true
    case (Float32(_), Float32(_)) => true
    case (Float64(_), Float64(_)) => true
    case (FixedString(size, _, _), FixedString(size', _, _)) => size == size'
    case (DynamicString(lengthField, _, _, _), DynamicString(lengthField', _, _, _)) => lengthField == lengthField'
    case (Struct(fields), Struct(fields')) =>
      && |fields| == |fields'|
      && forall i :: 0 <= i < |fields| ==>
           Fits(fields[i], fields'[i]) && (Dynamic(fields[i]) || Len(fields[i]) == Len(fields'[i]))
    case (FixedArray(elements), FixedArray(elements')) =>
      && |elements| == |elements'|
      && forall i :: 0 <= i < |elements| ==> Fits(elements[i], elements'[i]) && Len(elements[0]) == Len(elements'[i])
    case (DynamicArray(countField, template, _), DynamicArray(countField', template', elements)) =>
      && countField == countField' && template == template'
      && forall i :: 0 <= i < |elements| ==> Fits(template, elements[i])
    case _ => false
  }

  /** What the wire can carry: strings neither end in NUL nor fill a fixed size completely, dynamic
      arrays have elements of positive length, and have a length field unless they are empty. */
  predicate Clean(v: Value) {
    match v
    case FixedString(size, _, text) => !EndsInNul(text) && |text| < size
    case DynamicString(_, _, text, _) => !EndsInNul(text)
    case Struct(fields) => forall i :: 0 <= i < |fields| ==> Clean(fields[i])
    case FixedArray(elements) => forall i :: 0 <= i < |elements| ==> Clean(elements[i])
    case DynamicArray(countField, template, elements) =>
      && (if countField == 0 then elements == [] else Len(template) > 0)
      && forall i :: 0 <= i < |elements| ==> Clean(elements[i])
    case _ => true
  }

  /** Scalars are unpacked from a slice of exactly their length. */
  predicate Scalar(v: Value) {
    v.Int? || v.Bool? || v.Float32? || v.Float64?
  }

  // ----- The length law -----

  lemma {:induction false} LenIsByteCount(v: Value)
    requires Sound(v)
    ensures Ser(v).Ok? && |Ser(v).value| == Len(v)
    decreases v, 0
  {
    match v
    case Struct(fields) => LenAllIsByteCount(fields);
    case FixedArray(elements) =>
      LenAllIsByteCount(elements);
      LenAllUniform(elements, if elements == [] then 0 else Len(elements[0]));
    case DynamicArray(_, template, elements) =>
      LenAllIsByteCount(elements);
      LenAllUniform(elements, Len(template));
    case _ =>
  }

  lemma {:induction false} LenAllIsByteCount(vs: seq<Value>)
    requires forall i :: 0 <= i < |vs| ==> Sound(vs[i])
    ensures SerAll(vs).Ok? && |SerAll(vs).value| == LenAll(vs)
    decreases vs, 0
  {
    if vs != [] {
      LenIsByteCount(vs[0]);
      LenAllIsByteCount(vs[1..]);
    }
  }

  lemma {:induction false} LenAllUniform(vs: seq<Value>, length: nat)
    requires forall i :: 0 <= i < |vs| ==> Len(vs[i]) == length
    ensures LenAll(vs) == |vs| * length
  {
    if vs != [] {
      LenAllUniform(vs[1..], length);
    }
  }

  // ----- Text -----

  lemma {:induction false} DecodeEncode(e: Encoding, text: seq<int>)
    requires SingleUnits(e, text)
    ensures Decode(e, Encode(e, text)) == Ok(text)
  {
    if text != [] {
      var data := Encode(e, text);
      var c := text[0];
      DecodeEncode(e, text[1..]);
      assert e.SingleUnit(c);
      assert data[e.Unit()..] == Encode(e, text[1..]);
      assert data[..e.Unit()] == EncodeChar(e, c);
      assert text == [c] + text[1..];
    }
  }

  lemma {:induction false} EncodeAppend(e: Encoding, a: seq<int>, b: seq<int>)
    requires SingleUnits(e, a) && SingleUnits(e, b)
    ensures SingleUnits(e, a + b)
    ensures Encode(e, a + b) == Encode(e, a) + Encode(e, b)
  {
    hide EncodeChar, Encoding.Unit, Encoding.SingleUnit;
    if a == [] {
      assert a + b == b;
    } else {
      EncodeAppend(e, a[1..], b);
      assert (a + b)[1..] == a[1..] + b;
      Associative(EncodeChar(e, a[0]), Encode(e, a[1..]), Encode(e, b));
    }
  }

  lemma {:induction false} RStripZeros(text: seq<int>, n: nat)
    ensures RStrip(text + Zeros(n)) == RStrip(text)
  {
    if n == 0 {
      assert text + Zeros(0) == text;
    } else {
      var all := text + Zeros(n);
      assert all[..|all| - 1] == text + Zeros(n - 1);
      RStripZeros(text, n - 1);
    }
  }

  /** Stripping changes exactly the texts that end in NUL, and makes them shorter. */
  lemma {:induction false} RStripExact(text: seq<int>)
    ensures |RStrip(text)| <= |text|
    ensures RStrip(text) == text <==> !EndsInNul(text)
  {
    if EndsInNul(text) {
      RStripExact(text[..|text| - 1]);
    }
  }

  /** A byte order mark is recognized wherever it stands, and determines the encoding. */
  lemma BomFound(payload: seq<byte>, at: nat, e: Encoding)
    requires Slice(payload, at, at + |e.Bom()|) == e.Bom()
    ensures BomAt(payload, at) == Some(e)
  {
    if !e.Utf8? {
      assert payload[at..at + 2][0] == payload[at];
    }
  }

  /** What stands at a position is what a slice from there gives. */
  lemma SliceAt(payload: seq<byte>, pos: nat, part: seq<byte>, end: nat)
    requires HasAt(payload, pos, part) && pos + |part| <= end
    ensures pos + |part| <= |payload|
    ensures HasAt(Slice(payload, pos, end), 0, part)
    ensures end == pos + |part| ==> Slice(payload, pos, end) == part
  {
    var slice := Slice(payload, pos, end);
    assert slice[0..|part|] == payload[pos..pos + |part|];
  }

  /** Padded text is read back without the padding, and without the NULs the text itself ended in. */
  lemma TextRead(e: Encoding, text: seq<int>, n: nat, payload: seq<byte>, at: nat)
    requires SingleUnits(e, text) && SingleUnits(e, Zeros(n))
    requires HasAt(payload, at, e.Bom() + (Encode(e, text) + Encode(e, Zeros(n))))
    ensures BomAt(payload, at) == Some(e)
    ensures TextAt(e, payload, at, at + |e.Bom()| + e.Unit() * (|text| + n)) == Ok(RStrip(text))
  {
    hide Decode, Encode, SingleUnits, RStrip, Zeros, BomAt, Slice, HasAt, Encoding.Bom;
    var bom, data := e.Bom(), Encode(e, text) + Encode(e, Zeros(n));
    HasParts(payload, at, bom, data);
    SliceAt(payload, at, bom, at + |bom|);
    BomFound(payload, at, e);
    EncodeAppend(e, text, Zeros(n));
    SliceAt(payload, at + |bom|, data, at + |bom| + |data|);
    DecodeEncode(e, text + Zeros(n));
    RStripZeros(text, n);
  }

  lemma ZerosSingle(e: Encoding, n: nat)
    ensures SingleUnits(e, Zeros(n))
  {
  }

  lemma FixedStringExact(v: Value, payload: seq<byte>)
    requires v.FixedString? && Sound(v) && StandsAt(v, payload, 0)
    ensures FixedStringFrom(v.size, payload) == Ok(v) <==> Clean(v)
  {
    hide *;
    FixedStringBytes(v);
    var e, text, n := v.encoding, v.text, v.size - |v.text|;
    StandsHas(v, payload, e.Bom() + (Encode(e, text) + Encode(e, Zeros(n))));
    TextRead(e, text, n, payload, 0);
    RStripExact(text);
    FixedStringParts(v, payload);
  }

  lemma StandsHas(v: Value, payload: seq<byte>, part: seq<byte>)
    requires StandsAt(v, payload, 0) && Ser(v) == Ok(part)
    ensures HasAt(payload, 0, part)
  {
  }

  lemma FixedStringBytes(v: Value)
    requires v.FixedString? && Sound(v)
    ensures |v.text| <= v.size && SingleUnits(v.encoding, v.text) && SingleUnits(v.encoding, Zeros(v.size - |v.text|))
    ensures var e := v.encoding;
            Ser(v) == Ok(e.Bom() + (Encode(e, v.text) + Encode(e, Zeros(v.size - |v.text|))))
  {
    hide Encode, Zeros, SingleUnits, Encoding.Bom;
    ZerosSingle(v.encoding, v.size - |v.text|);
    Associative(v.encoding.Bom(), Encode(v.encoding, v.text), Encode(v.encoding, Zeros(v.size - |v.text|)));
  }

  lemma FixedStringParts(v: Value, payload: seq<byte>)
    requires v.FixedString? && |v.text| <= v.size
    requires BomAt(payload, 0) == Some(v.encoding)
    requires TextAt(v.encoding, payload, 0, 0 + |v.encoding.Bom()| + v.encoding.Unit() * (|v.text| + (v.size - |v.text|)))
          == Ok(RStrip(v.text))
    requires RStrip(v.text) == v.text <==> !EndsInNul(v.text)
    ensures FixedStringFrom(v.size, payload) == Ok(v) <==> Clean(v)
  {
    hide RStrip, BomAt, TextAt, EndsInNul, Encoding.Bom;
    assert v.encoding.Unit() * (|v.text| + (v.size - |v.text|)) == v.size * v.encoding.Unit();
  }

  lemma DynamicStringExact(v: Value, payload: seq<byte>)
    requires v.DynamicString? && Sound(v) && StandsAt(v, payload, 0)
    ensures DynamicStringFrom(v.lengthField, payload) == Ok(v) <==> Clean(v)
  {
    hide *;
    DynamicStringBytes(v);
    var e, text, length := v.encoding, v.text, TextBytes(v.encoding, v.text);
    var prefix, part := Be(v.lengthField, length), e.Bom() + (Encode(e, text) + Encode(e, Zeros(1)));
    PrefixAndText(payload, v, prefix, part);
    TextRead(e, text, 1, payload, v.lengthField);
    BeInverse(v.lengthField, length);
    RStripExact(text);
    DynamicStringParts(v, payload);
  }

  lemma PrefixAndText(payload: seq<byte>, v: Value, prefix: seq<byte>, part: seq<byte>)
    requires StandsAt(v, payload, 0) && Ser(v) == Ok(prefix + part)
    ensures |prefix| + |part| <= |payload| && payload[..|prefix|] == prefix
    ensures HasAt(payload, |prefix|, part)
  {
    hide Ser;
    HasParts(payload, 0, prefix, part);
    assert payload[0..|prefix|] == payload[..|prefix|];
  }

  /** With the length field read right, all depends on the text. */
  lemma DynamicStringParts(v: Value, payload: seq<byte>)
    requires v.DynamicString? && Sound(v)
    requires v.lengthField + TextBytes(v.encoding, v.text) <= |payload|
    requires FromBe(payload[..v.lengthField]) == TextBytes(v.encoding, v.text)
    requires BomAt(payload, v.lengthField) == Some(v.encoding)
    requires TextAt(v.encoding, payload, v.lengthField,
                    v.lengthField + |v.encoding.Bom()| + v.encoding.Unit() * (|v.text| + 1)) == Ok(RStrip(v.text))
    requires RStrip(v.text) == v.text <==> !EndsInNul(v.text)
    ensures DynamicStringFrom(v.lengthField, payload) == Ok(v) <==> Clean(v)
  {
    hide SingleUnits, RStrip, BomAt, TextAt, EndsInNul, FromBe, Encoding.Bom;
    assert v.encoding.Unit() * (|v.text| + 1) == v.encoding.Unit() * |v.text| + v.encoding.Unit();
  }

  lemma DynamicStringBytes(v: Value)
    requires v.DynamicString? && Sound(v)
    ensures SingleUnits(v.encoding, v.text) && SingleUnits(v.encoding, Zeros(1))
    ensures TextBytes(v.encoding, v.text) < Pow256(v.lengthField)
    ensures var e, text := v.encoding, v.text;
            var part := e.Bom() + (Encode(e, text) + Encode(e, Zeros(1)));
            && Ser(v) == Ok(Be(v.lengthField, TextBytes(e, text)) + part)
            && |part| == TextBytes(e, text)
  {
    hide Encode, SingleUnits, Zeros, Be, Encoding.Bom;
    ZerosSingle(v.encoding, 1);
    NulBytes(v.encoding);
    var prefix, bom, data := Be(v.lengthField, TextBytes(v.encoding, v.text)), v.encoding.Bom(), Encode(v.encoding, v.text);
    Associative(prefix, bom, data);
    Associative(prefix, bom + data, EncodeChar(v.encoding, 0));
    Associative(bom, data, EncodeChar(v.encoding, 0));
  }

  lemma NulBytes(e: Encoding)
    ensures SingleUnits(e, Zeros(1)) && Encode(e, Zeros(1)) == EncodeChar(e, 0)
  {
    assert Zeros(1) == [0];
    assert Encode(e, [0]) == EncodeChar(e, 0) + Encode(e, []);
  }

  // ----- The round trip -----

  /** The bytes of a value are at a position of a payload. */
  predicate StandsAt(v: Value, payload: seq<byte>, pos: nat) {
    Ser(v).Ok? && HasAt(payload, pos, Ser(v).value)
  }

  predicate AllStandAt(vs: seq<Value>, payload: seq<byte>, pos: nat) {
    SerAll(vs).Ok? && HasAt(payload, pos, SerAll(vs).value)
  }

  predicate AllSound(vs: seq<Value>) {
    forall i :: 0 <= i < |vs| ==> Sound(vs[i])
  }

  predicate AllClean(vs: seq<Value>) {
    forall i :: 0 <= i < |vs| ==> Clean(vs[i])
  }

  predicate AllLong(vs: seq<Value>, length: nat) {
    forall i :: 0 <= i < |vs| ==> Len(vs[i]) == length
  }

  /** A receiver of the value's shape is given the value exactly when the value is clean; bytes after
      the value's own are ignored, except by scalars. */
  lemma {:induction false} RoundTrip(r: Value, v: Value, payload: seq<byte>)
    requires Sound(v) && Fits(r, v)
    requires StandsAt(v, payload, 0)
    requires Scalar(v) ==> |payload| == Len(v)
    ensures Deser(r, payload) == Ok(v) <==> Clean(v)
    decreases v, 0
  {
    match v
    case Struct(fields) =>
      FieldsRoundTrip(r.fields, fields, payload, 0);
    case FixedArray(elements) =>
      if elements != [] {
        LenAllUniform(elements, Len(elements[0]));
        IntoRoundTrip(r.elements, elements, payload, Len(elements[0]), 0);
      }
    case DynamicArray(countField, template, elements) =>
      if countField != 0 {
        CountRead(v, payload);
        if Len(template) > 0 {
          FromRoundTrip(template, elements, payload, countField);
        }
      }
    case FixedString(size, _, _) => FixedStringExact(v, payload);
    case DynamicString(_, _, _, _) => DynamicStringExact(v, payload);
    case _ =>
      LenIsByteCount(v);
      assert payload[0..|payload|] == payload;
      ScalarRoundTrip(r, v);
  }

  lemma ScalarRoundTrip(r: Value, v: Value)
    requires Scalar(v) && Sound(v) && Fits(r, v)
    ensures Ser(v).Ok? && Deser(r, Ser(v).value) == Ok(v)
  {
    if v.Int? {
      BeInverse(v.intType.Size(), Bits(v.intType, v.value));
      BitsInverse(v.intType, v.value);
    }
  }

  /** Two's complement loses nothing. */
  lemma BitsInverse(t: IntType, x: int)
    requires t.InRange(x)
    ensures FromBits(t, Bits(t, x)) == x
  {
  }

  /** The length field of a dynamic array gives the number of its elements, which follow it. */
  lemma CountRead(v: Value, payload: seq<byte>)
    requires v.DynamicArray? && Sound(v) && v.countField != 0 && StandsAt(v, payload, 0)
    ensures v.countField <= |payload|
    ensures FromBe(payload[..v.countField]) == |v.elements| * Len(v.template)
    ensures Len(v.template) > 0 ==> FromBe(payload[..v.countField]) / Len(v.template) == |v.elements|
    ensures AllStandAt(v.elements, payload, v.countField)
  {
    hide Be, FromBe, Pow256;
    var size := |v.elements| * Len(v.template);
    LenIsByteCount(v);
    LenAllIsByteCount(v.elements);
    LenAllUniform(v.elements, Len(v.template));
    PrefixAndText(payload, v, Be(v.countField, size), SerAll(v.elements).value);
    BeInverse(v.countField, size);
    if Len(v.template) > 0 {
      ProductQuotient(|v.elements|, Len(v.template));
    }
  }

  lemma {:induction false} ProductQuotient(n: nat, d: nat)
    requires d > 0
    ensures n * d / d == n
  {
    var x, q := n * d, n * d / d;
    QuotientBounds(x, d, q);
    if q < n {
      Monotone(q + 1, n, d);
    } else if q > n {
      Monotone(n + 1, q, d);
    }
  }

  lemma QuotientBounds(x: nat, d: nat, q: nat)
    requires d > 0 && q == x / d
    ensures q * d <= x < q * d + d
  {
    assert x == d * q + x % d;
  }

  lemma Monotone(a: nat, b: nat, d: nat)
    requires a <= b
    ensures a * d <= b * d
  {
  }

  /** The first member stands first, and the others behind it. */
  lemma SplitFirst(vs: seq<Value>, payload: seq<byte>, pos: nat)
    requires vs != [] && AllSound(vs) && AllStandAt(vs, payload, pos)
    ensures AllSound(vs[1..]) && Sound(vs[0])
    ensures StandsAt(vs[0], payload, pos)
    ensures AllStandAt(vs[1..], payload, pos + Len(vs[0]))
  {
    SplitBytes(vs);
    hide Sound, AllSound, Ser, SerAll, Len, LenAll, HasAt;
    HasParts(payload, pos, Ser(vs[0]).value, SerAll(vs[1..]).value);
  }

  lemma SplitBytes(vs: seq<Value>)
    requires vs != [] && AllSound(vs)
    ensures AllSound(vs[1..]) && Sound(vs[0])
    ensures Ser(vs[0]).Ok? && |Ser(vs[0]).value| == Len(vs[0])
    ensures SerAll(vs[1..]).Ok? && |SerAll(vs[1..]).value| == LenAll(vs[1..])
    ensures SerAll(vs) == Ok(Ser(vs[0]).value + SerAll(vs[1..]).value)
    ensures LenAll(vs) == Len(vs[0]) + LenAll(vs[1..])
  {
    hide Sound, Ser, Len;
    LenIsByteCount(vs[0]);
    LenAllIsByteCount(vs[1..]);
  }

  /** A value within a payload stands at the start of a slice that begins there. */
  lemma InSlice(v: Value, payload: seq<byte>, pos: nat, end: nat)
    requires Sound(v) && StandsAt(v, payload, pos) && pos + Len(v) <= end
    ensures StandsAt(v, Slice(payload, pos, end), 0)
    ensures end == pos + Len(v) ==> |Slice(payload, pos, end)| == Len(v)
  {
    hide Sound, Ser, Len, Slice, HasAt;
    LenIsByteCount(v);
    SliceAt(payload, pos, Ser(v).value, end);
  }

  lemma CleanSplit(vs: seq<Value>)
    requires vs != []
    ensures AllClean(vs) <==> Clean(vs[0]) && AllClean(vs[1..])
  {
    hide Clean;
    assert forall i :: 0 < i < |vs| ==> vs[i] == vs[1..][i - 1];
  }

  predicate Slots(rs: seq<Value>, vs: seq<Value>) {
    && |rs| == |vs|
    && forall i :: 0 <= i < |rs| ==> Fits(rs[i], vs[i]) && (Dynamic(rs[i]) || Len(rs[i]) == Len(vs[i]))
  }

  lemma SlotsSplit(rs: seq<Value>, vs: seq<Value>)
    requires Slots(rs, vs) && vs != []
    ensures Fits(rs[0], vs[0]) && Slots(rs[1..], vs[1..])
    ensures Dynamic(rs[0]) == Dynamic(vs[0])
    ensures Scalar(vs[0]) ==> !Dynamic(rs[0])
    ensures !Dynamic(rs[0]) ==> Len(rs[0]) == Len(vs[0])
  {
  }

  lemma {:induction false} FieldsRoundTrip(rs: seq<Value>, vs: seq<Value>, payload: seq<byte>, pos: nat)
    requires Slots(rs, vs) && AllSound(vs) && AllStandAt(vs, payload, pos)
    ensures FieldsFrom(rs, payload, pos) == Ok(vs) <==> AllClean(vs)
    decreases vs, 0
  {
    hide *;
    SlotsLength(rs, vs);
    if vs != [] {
      var r, v := rs[0], vs[0];
      SlotsSplit(rs, vs);
      SplitFirst(vs, payload, pos);
      CleanSplit(vs);
      StandsWithin(v, payload, pos);
      var end := if Dynamic(r) then |payload| else pos + Len(v);
      InSlice(v, payload, pos, end);
      RoundTrip(r, v, Slice(payload, pos, end));
      FieldsRoundTrip(rs[1..], vs[1..], payload, pos + Len(v));
      FieldsStep(rs, vs, payload, pos);
    } else {
      NothingRead(payload, 0, pos);
    }
  }

  lemma NothingRead(payload: seq<byte>, length: nat, pos: nat)
    ensures FieldsFrom([], payload, pos) == Ok([]) == ElementsInto([], payload, length, pos)
    ensures AllClean([])
  {
  }

  lemma NothingFrom(template: Value, payload: seq<byte>, pos: nat)
    ensures ElementsFrom(template, payload, 0, pos) == Ok([]) && AllClean([])
  {
  }

  lemma FitsLength(rs: seq<Value>, vs: seq<Value>)
    requires AllFit(rs, vs)
    ensures |rs| == |vs|
  {
  }

  lemma SlotsLength(rs: seq<Value>, vs: seq<Value>)
    requires Slots(rs, vs)
    ensures |rs| == |vs|
  {
  }

  lemma StandsWithin(v: Value, payload: seq<byte>, pos: nat)
    requires Sound(v) && StandsAt(v, payload, pos)
    ensures pos + Len(v) <= |payload|
  {
    LenIsByteCount(v);
  }

  /** One turn of the member loop gives the wanted members exactly when the first one is read right
      and the loop goes on behind it with the others. */
  lemma FieldsStep(rs: seq<Value>, vs: seq<Value>, payload: seq<byte>, pos: nat)
    requires |rs| == |vs| > 0
    requires !Dynamic(rs[0]) ==> Len(rs[0]) == Len(vs[0])
    ensures var end := if Dynamic(rs[0]) then |payload| else pos + Len(vs[0]);
            FieldsFrom(rs, payload, pos) == Ok(vs)
            <==> Deser(rs[0], Slice(payload, pos, end)) == Ok(vs[0])
                 && FieldsFrom(rs[1..], payload, pos + Len(vs[0])) == Ok(vs[1..])
  {
    hide Deser, Slice, Len, Dynamic;
    assert vs == [vs[0]] + vs[1..];
  }

  lemma FitsSplit(rs: seq<Value>, vs: seq<Value>)
    requires AllFit(rs, vs) && vs != []
    ensures |rs| == |vs| && Fits(rs[0], vs[0]) && AllFit(rs[1..], vs[1..])
  {
  }

  predicate AllFit(rs: seq<Value>, vs: seq<Value>) {
    |rs| == |vs| && forall i :: 0 <= i < |rs| ==> Fits(rs[i], vs[i])
  }

  lemma LongSplit(vs: seq<Value>, length: nat)
    requires AllLong(vs, length) && vs != []
    ensures Len(vs[0]) == length && AllLong(vs[1..], length)
  {
  }

  lemma {:induction false} IntoRoundTrip(rs: seq<Value>, vs: seq<Value>, payload: seq<byte>, length: nat, pos: nat)
    requires AllFit(rs, vs) && AllSound(vs) && AllLong(vs, length) && AllStandAt(vs, payload, pos)
    ensures ElementsInto(rs, payload, length, pos) == Ok(vs) <==> AllClean(vs)
    decreases vs, 0
  {
    hide *;
    if vs != [] {
      FitsSplit(rs, vs);
      LongSplit(vs, length);
      SplitFirst(vs, payload, pos);
      CleanSplit(vs);
      InSlice(vs[0], payload, pos, pos + length);
      RoundTrip(rs[0], vs[0], Slice(payload, pos, pos + length));
      IntoRoundTrip(rs[1..], vs[1..], payload, length, pos + length);
      IntoStep(rs, vs, payload, length, pos);
    } else {
      FitsLength(rs, vs);
      NothingRead(payload, length, pos);
    }
  }

  lemma IntoStep(rs: seq<Value>, vs: seq<Value>, payload: seq<byte>, length: nat, pos: nat)
    requires |rs| == |vs| > 0
    ensures ElementsInto(rs, payload, length, pos) == Ok(vs)
       <==> Deser(rs[0], Slice(payload, pos, pos + length)) == Ok(vs[0])
            && ElementsInto(rs[1..], payload, length, pos + length) == Ok(vs[1..])
  {
    hide Deser, Slice;
    assert vs == [vs[0]] + vs[1..];
  }

  lemma {:induction false} FromRoundTrip(template: Value, vs: seq<Value>, payload: seq<byte>, pos: nat)
    requires AllOf(template, vs) && AllSound(vs) && AllLong(vs, Len(template)) && AllStandAt(vs, payload, pos)
    ensures ElementsFrom(template, payload, |vs|, pos) == Ok(vs) <==> AllClean(vs)
    decreases vs, 0
  {
    hide *;
    if vs != [] {
      var length := Len(template);
      AllOfSplit(template, vs);
      LongSplit(vs, length);
      SplitFirst(vs, payload, pos);
      CleanSplit(vs);
      InSlice(vs[0], payload, pos, pos + length);
      RoundTrip(template, vs[0], Slice(payload, pos, pos + length));
      FromRoundTrip(template, vs[1..], payload, pos + length);
      FromStep(template, vs, payload, pos);
    } else {
      NothingFrom(template, payload, pos);
    }
  }

  predicate AllOf(template: Value, vs: seq<Value>) {
    forall i :: 0 <= i < |vs| ==> Fits(template, vs[i])
  }

  lemma AllOfSplit(template: Value, vs: seq<Value>)
    requires AllOf(template, vs) && vs != []
    ensures Fits(template, vs[0]) && AllOf(template, vs[1..])
  {
  }

  lemma FromStep(template: Value, vs: seq<Value>, payload: seq<byte>, pos: nat)
    requires |vs| > 0
    ensures ElementsFrom(template, payload, |vs|, pos) == Ok(vs)
       <==> Deser(template, Slice(payload, pos, pos + Len(template))) == Ok(vs[0])
            && ElementsFrom(template, payload, |vs| - 1, pos + Len(template)) == Ok(vs[1..])
  {
    hide Deser, Slice;
    assert vs == [vs[0]] + vs[1..];
  }

  // ----- Variable size in the outermost struct only -----

  /** No member of variable size anywhere. */
  predicate Static(v: Value) {
    match v
    case DynamicString(_, _, _, _) => false
    case DynamicArray(_, _, _) => false
    case Struct(fields) => forall i :: 0 <= i < |fields| ==> Static(fields[i])
    case FixedArray(elements) => forall i :: 0 <= i < |elements| ==> Static(elements[i])
    case _ => true
  }

  /** A struct whose members of variable size are its own, with elements of fixed size. */
  predicate Direct(v: Value) {
    && v.Struct?
    && forall i :: 0 <= i < |v.fields| ==>
         match v.fields[i]
         case DynamicString(_, _, _, _) => true
         case DynamicArray(_, _, elements) => forall j :: 0 <= j < |elements| ==> Static(elements[j])
         case field => Static(field)
  }

  /** Two objects of one class, with equal sizes and length fields; a fixed string keeps the width
      of its code units. What the objects hold does not matter. */
  predicate SameShape(r: Value, v: Value)
    decreases v
  {
    match (r, v)
    case (Int(t, _), Int(u, _)) => t == u
    case (Bool(_), Bool(_)) => true
    case (Float32(_), Float32(_)) => true
    case (Float64(_), Float64(_)) => true
    case (FixedString(size, e, _), FixedString(size', e', _)) => size == size' && e.Utf8? == e'.Utf8?
    case (DynamicString(lengthField, _, _, _), DynamicString(lengthField', _, _, _)) => lengthField == lengthField'
    case (Struct(fields), Struct(fields')) =>
      |fields| == |fields'| && forall i :: 0 <= i < |fields| ==> SameShape(fields[i], fields'[i])
    case (FixedArray(elements), FixedArray(elements')) =>
      |elements| == |elements'| && forall i :: 0 <= i < |elements| ==> SameShape(elements[i], elements'[i])
    case (DynamicArray(countField, template, _), DynamicArray(countField', template', elements)) =>
      && countField == countField' && template == template'
      && forall i :: 0 <= i < |elements| ==> SameShape(template, elements[i])
    case _ => false
  }

  lemma {:induction false} StaticFits(r: Value, v: Value)
    requires SameShape(r, v) && Static(v) && Sound(v)
    ensures Fits(r, v) && Len(r) == Len(v)
    decreases v, 0
  {
    match v
    case Struct(fields) =>
      forall i | 0 <= i < |fields| ensures Fits(r.fields[i], fields[i]) && Len(r.fields[i]) == Len(fields[i]) {
        StaticFits(r.fields[i], fields[i]);
      }
      SameLenAll(r.fields, fields);
    case FixedArray(elements) =>
      forall i | 0 <= i < |elements|
        ensures Fits(r.elements[i], elements[i]) && Len(r.elements[i]) == Len(elements[i])
      {
        StaticFits(r.elements[i], elements[i]);
      }
    case _ =>
  }

  lemma {:induction false} SameLenAll(rs: seq<Value>, vs: seq<Value>)
    requires |rs| == |vs| && forall i :: 0 <= i < |vs| ==> Len(rs[i]) == Len(vs[i])
    ensures LenAll(rs) == LenAll(vs)
  {
    if vs != [] {
      SameLenAll(rs[1..], vs[1..]);
    }
  }

  lemma {:induction false} DirectFits(r: Value, v: Value)
    requires SameShape(r, v) && Direct(v) && Sound(v)
    ensures Fits(r, v)
  {
    forall i | 0 <= i < |v.fields|
      ensures Fits(r.fields[i], v.fields[i])
      ensures Dynamic(r.fields[i]) || Len(r.fields[i]) == Len(v.fields[i])
    {
      DirectField(r.fields[i], v.fields[i]);
    }
  }

  lemma {:induction false} DirectField(r: Value, field: Value)
    requires SameShape(r, field) && Sound(field)
    requires match field
             case DynamicString(_, _, _, _) => true
             case DynamicArray(_, _, elements) => forall j :: 0 <= j < |elements| ==> Static(elements[j])
             case _ => Static(field)
    ensures Fits(r, field) && (Dynamic(r) || Len(r) == Len(field))
  {
    match field
    case DynamicString(_, _, _, _) =>
    case DynamicArray(_, template, elements) =>
      forall j | 0 <= j < |elements| ensures Fits(template, elements[j]) {
        StaticFits(template, elements[j]);
      }
    case _ => StaticFits(r, field);
  }

  /** The payload law: the bytes of a struct, whatever follows them, give it back to any receiver of
      its shape, whatever that held before, exactly when the struct is clean. */
  lemma {:induction false} PayloadRoundTrip(r: Value, v: Value, trailing: seq<byte>)
    requires Sound(v) && Direct(v) && SameShape(r, v)
    ensures Ser(v).Ok? && |Ser(v).value| == Len(v)
    ensures Deser(r, Ser(v).value + trailing) == Ok(v) <==> Clean(v)
  {
    hide *;
    LenIsByteCount(v);
    DirectFits(r, v);
    DirectIsStruct(v);
    FrontStands(v, trailing);
    RoundTrip(r, v, Ser(v).value + trailing);
  }

  lemma DirectIsStruct(v: Value)
    requires Direct(v)
    ensures v.Struct? && !Scalar(v)
  {
  }

  lemma FrontStands(v: Value, trailing: seq<byte>)
    requires Ser(v).Ok?
    ensures StandsAt(v, Ser(v).value + trailing, 0)
  {
  }

  /** A string one struct deeper: the receiver's current length cuts it short. */
  lemma NestedDynamicFails()
    ensures var v := Struct([Struct([DynamicString(4, Utf8, [97, 98], 10)])]);
            var r := Struct([Struct([DynamicString(4, Utf8, [], 8)])]);
            && Sound(v) && Clean(v) && SameShape(r, v)
            && Ser(v).Ok? && Deser(r, Ser(v).value) == Ok(Struct([Struct([DynamicString(4, Utf8, [97], 10)])]))
  {
    hide *;
    NestedShapes();
    LeafBytes();
    NestedBytes(DynamicString(4, Utf8, [97, 98], 10));
    NestedRead([0, 0, 0, 6, 0xEF, 0xBB, 0xBF, 97, 98, 0]);
  }

  lemma NestedShapes()
    ensures var v := Struct([Struct([DynamicString(4, Utf8, [97, 98], 10)])]);
            Sound(v) && Clean(v) && SameShape(Struct([Struct([DynamicString(4, Utf8, [], 8)])]), v)
  {
    var leaf, empty := DynamicString(4, Utf8, [97, 98], 10), DynamicString(4, Utf8, [], 8);
    LeafIsSound();
    OneMember(empty, leaf);
    OneMember(Struct([empty]), Struct([leaf]));
    hide *;
  }

  lemma LeafIsSound()
    ensures var leaf := DynamicString(4, Utf8, [97, 98], 10);
            Sound(leaf) && Clean(leaf) && SameShape(DynamicString(4, Utf8, [], 8), leaf)
  {
    assert Pow256(4) == 0x1_0000_0000;
  }

  lemma OneMember(r: Value, v: Value)
    requires Sound(v) && Clean(v) && SameShape(r, v)
    ensures Sound(Struct([v])) && Clean(Struct([v])) && SameShape(Struct([r]), Struct([v]))
  {
    assert [v][0] == v && [r][0] == r;
  }

  lemma NestedRead(data: seq<byte>)
    requires data == [0, 0, 0, 6, 0xEF, 0xBB, 0xBF, 97, 98, 0]
    ensures Deser(Struct([Struct([DynamicString(4, Utf8, [], 8)])]), data)
         == Ok(Struct([Struct([DynamicString(4, Utf8, [97], 10)])]))
  {
    var empty, read := DynamicString(4, Utf8, [], 8), DynamicString(4, Utf8, [97], 10);
    hide *;
    assert data[..8][..8] == data[..8];
    LeafCut();
    OneLength(empty, 8);
    OneField(empty, read, data[..8], 8);
    OneField(Struct([empty]), Struct([read]), data, 8);
  }

  lemma OneLength(field: Value, length: nat)
    requires field.DynamicString? && field.length == length
    ensures Len(field) == length && Len(Struct([field])) == length && !Dynamic(Struct([field]))
  {
    assert LenAll([field][1..]) == 0;
    assert LenAll([field]) == length;
  }

  lemma LeafBytes()
    ensures Ser(DynamicString(4, Utf8, [97, 98], 10)) == Ok([0, 0, 0, 6, 0xEF, 0xBB, 0xBF, 97, 98, 0])
  {
    assert Pow256(4) == 0x1_0000_0000;
    assert Encode(Utf8, [98]) == [98] + Encode(Utf8, []);
    assert Encode(Utf8, [97, 98]) == [97] + Encode(Utf8, [98]) == [97, 98];
    var data: seq<byte> := [0, 0, 0, 6, 0xEF, 0xBB, 0xBF, 97, 98, 0];
    assert Be(4, 6) == [0, 0, 0, 6];
    assert Be(4, 6) + Utf8.Bom() + Encode(Utf8, [97, 98]) + EncodeChar(Utf8, 0) == data;
  }

  /** Eight of the ten bytes: the length announces more than there is, but the source does not
      count the length field when it checks. */
  lemma LeafCut()
    ensures var data: seq<byte> := [0, 0, 0, 6, 0xEF, 0xBB, 0xBF, 97, 98, 0];
            Deser(DynamicString(4, Utf8, [], 8), data[..8]) == Ok(DynamicString(4, Utf8, [97], 10))
  {
    var cut: seq<byte> := [0, 0, 0, 6, 0xEF, 0xBB, 0xBF, 97];
    var data: seq<byte> := [0, 0, 0, 6, 0xEF, 0xBB, 0xBF, 97, 98, 0];
    assert data[..8] == cut;
    CutLength(cut);
    CutBom(cut);
    CutText(cut);
    hide FromBe, BomAt, TextAt;
  }

  lemma CutLength(cut: seq<byte>)
    requires cut == [0, 0, 0, 6, 0xEF, 0xBB, 0xBF, 97]
    ensures FromBe(cut[..4]) == 6
  {
    assert Pow256(4) == 0x1_0000_0000;
    assert Be(4, 6) == [0, 0, 0, 6] == cut[..4];
    BeInverse(4, 6);
    hide *;
  }

  lemma CutBom(cut: seq<byte>)
    requires cut == [0, 0, 0, 6, 0xEF, 0xBB, 0xBF, 97]
    ensures BomAt(cut, 4) == Some(Utf8)
  {
    assert Slice(cut, 4, 7) == Utf8.Bom();
  }

  lemma CutText(cut: seq<byte>)
    requires cut == [0, 0, 0, 6, 0xEF, 0xBB, 0xBF, 97]
    ensures TextAt(Utf8, cut, 4, 10) == Ok([97])
  {
    var one: seq<byte>, letter: seq<int> := [97], [97];
    assert Slice(cut, 4 + |Utf8.Bom()|, 10) == one;
    assert one[1..] == [] && letter + [] == letter;
    assert Decode(Utf8, one) == Ok(letter);
    assert RStrip(letter) == letter;
  }

  lemma NestedBytes(leaf: Value)
    ensures Ser(Struct([Struct([leaf])])) == Ser(leaf)
  {
    assert Ser(leaf).Ok? ==> Ser(leaf).value + [] == Ser(leaf).value;
    assert SerAll([leaf][1..]) == Ok([]);
    assert SerAll([leaf]) == Ser(leaf);
    assert SerAll([Struct([leaf])][1..]) == Ok([]);
    assert SerAll([Struct([leaf])]) == Ser(Struct([leaf]));
  }

  lemma OneField(field: Value, read: Value, payload: seq<byte>, length: nat)
    requires Len(field) == length && |payload| >= length
    requires Deser(field, payload[..length]) == Ok(read)
    requires Dynamic(field) ==> |payload| == length
    ensures Deser(Struct([field]), payload) == Ok(Struct([read]))
  {
    OnlyField(field, read, payload, length);
    hide FieldsFrom;
  }

  lemma OnlyField(field: Value, read: Value, payload: seq<byte>, length: nat)
    requires Len(field) == length && |payload| >= length
    requires Deser(field, payload[..length]) == Ok(read)
    requires Dynamic(field) ==> |payload| == length
    ensures FieldsFrom([field], payload, 0) == Ok([read])
  {
    hide Deser, Len, Dynamic;
    assert payload[0..length] == payload[..length];
    assert [field][1..] == [] && [read] + [] == [read];
    NothingRead(payload, 0, length);
    NothingRead(payload, 0, Len(read));
  }
}
