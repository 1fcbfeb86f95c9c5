/** Byte strings, the results of Python operations that may raise, and the
    big-endian integer fields of the wire formats. */
module Bytes {

  type byte = x: int | 0 <= x < 0x100

  /** The Python exceptions that the modelled code can end in. */
  datatype Error =
    | StructError       // struct.pack or struct.unpack on a value or slice that does not fit
    | ValueError
    | IndexError
    | TypeError
    | AttributeError
    | UnboundLocalError
    | ZeroDivisionError
    | AssertionError

  datatype Result<+T> = Ok(value: T) | Err(error: Error) {
    predicate IsFailure() {
      Err?
    }

    function PropagateFailure<U>(): Result<U>
      requires Err?
    {
      Err(error)
    }

    function Extract(): T
      requires Ok?
    {
      value
    }
  }

  datatype Option<+T> = None | Some(value: T)

  predicate InU8(x: int) {
    0 <= x < 0x100
  }

  predicate InU16(x: int) {
    0 <= x < 0x1_0000
  }

  predicate InU32(x: int) {
    0 <= x < 0x1_0000_0000
  }

  /** struct.pack(">H", x). */
  function Be16(x: int): (r: seq<byte>)
    requires InU16(x)
    ensures |r| == 2
  {
    [x / 0x100, x % 0x100]
  }

  /** struct.pack(">I", x). */
  function Be32(x: int): (r: seq<byte>)
    requires InU32(x)
    ensures |r| == 4
  {
    Be16(x / 0x1_0000) + Be16(x % 0x1_0000)
  }

  /** struct.unpack(">H", s[pos : pos + 2]). */
  function At16(s: seq<byte>, pos: nat): (r: int)
    requires pos + 2 <= |s|
    ensures InU16(r)
  {
    s[pos] as int * 0x100 + s[pos + 1]
  }

  /** struct.unpack(">I", s[pos : pos + 4]). */
  function At32(s: seq<byte>, pos: nat): (r: int)
    requires pos + 4 <= |s|
    ensures InU32(r)
  {
    At16(s, pos) * 0x1_0000 + At16(s, pos + 2)
  }

  /** Reading a 16-bit field gives x exactly when the two bytes are those of x. */
  lemma At16Inverse(s: seq<byte>, pos: nat, x: int)
    requires pos + 2 <= |s| && InU16(x)
    ensures At16(s, pos) == x <==> s[pos..pos + 2] == Be16(x)
  {
    assert s[pos..pos + 2] == [s[pos], s[pos + 1]];
  }

  /** Reading a 32-bit field gives x exactly when the four bytes are those of x. */
  lemma At32Inverse(s: seq<byte>, pos: nat, x: int)
    requires pos + 4 <= |s| && InU32(x)
    ensures At32(s, pos) == x <==> s[pos..pos + 4] == Be32(x)
  {
    At16Inverse(s, pos, x / 0x1_0000);
    At16Inverse(s, pos + 2, x % 0x1_0000);
    assert s[pos..pos + 4] == s[pos..pos + 2] + s[pos + 2..pos + 4];
    assert Be32(x)[..2] == Be16(x / 0x1_0000) && Be32(x)[2..] == Be16(x % 0x1_0000);
    assert (s[pos..pos + 4])[..2] == s[pos..pos + 2] && (s[pos..pos + 4])[2..] == s[pos + 2..pos + 4];
  }

  /** A slice of a slice, addressed in the whole. */
  lemma SubSlice<T>(data: seq<T>, at: nat, part: seq<T>, i: nat, j: nat)
    requires at + |part| <= |data| && data[at..at + |part|] == part
    requires i <= j <= |part|
    ensures data[at + i..at + j] == part[i..j]
    ensures i < |part| ==> data[at + i] == part[i]
  {
    forall m | 0 <= m < j - i ensures data[at + i..at + j][m] == part[i..j][m] {
      assert data[at..at + |part|][i + m] == data[at + (i + m)];
    }
    if i < |part| {
      assert data[at..at + |part|][i] == data[at + i];
    }
  }

  lemma Middle<T>(before: seq<T>, part: seq<T>, after: seq<T>)
    ensures (before + part + after)[|before|..|before| + |part|] == part
  {
  }

  /** Putting what a loop has collected before what it will still collect. */
  function PrependAll<T>(prefix: seq<T>, rest: Result<seq<T>>): Result<seq<T>> {
    if rest.Ok? then Ok(prefix + rest.value) else rest
  }

  lemma PrependNone<T>(rest: Result<seq<T>>)
    ensures PrependAll([], rest) == rest
  {
    assert rest.Ok? ==> [] + rest.value == rest.value;
  }

  lemma Associative<T>(a: seq<T>, b: seq<T>, c: seq<T>)
    ensures a + b + c == a + (b + c)
  {
  }

  /** The part stands at a position of the data. */
  predicate HasAt<T(==)>(data: seq<T>, pos: nat, part: seq<T>) {
    pos + |part| <= |data| && data[pos..pos + |part|] == part
  }

  lemma HasParts<T>(data: seq<T>, pos: nat, a: seq<T>, b: seq<T>)
    requires HasAt(data, pos, a + b)
    ensures HasAt(data, pos, a) && HasAt(data, pos + |a|, b)
  {
    var part := data[pos..pos + |a + b|];
    assert part[..|a|] == data[pos..pos + |a|];
    assert part[|a|..] == data[pos + |a|..pos + |a| + |b|];
  }
}
