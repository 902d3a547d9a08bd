/** The type catalog of the allocator (src/Storage.js:1-46): the primitive
    element types a schema may name, their byte widths, their typed-array
    names, the unsigned bounds used to pick an index width, and the
    arithmetic that sizes a shared array buffer. */
module Catalog {

  datatype Option<T> = None | Some(value: T)

  /** The failures the allocator raises. */
  datatype Error =
    | MissingLength               // `!length` at the start of createArrayStore
    | InvalidArrayType(name: string)  // `!TYPES[type]` in createArrayStore
    | NotAConstructor(name: string)   // `new TYPES['bool'](...)`: TYPES.bool is a string
    | UndefinedType(name: string)     // createTypeStore on a name that is not a key of TYPES
    | CallStackExceeded           // collectArrayCount recursing around a cycle of keys

  datatype Result<T> = Ok(value: T) | Err(error: Error)

  /** A registry handle (the `Symbol('store')` of createStore). */
  type Handle = nat

  /** The keys of TYPES. */
  datatype ElemType = Bool | I8 | UI8 | UI8C | I16 | UI16 | I32 | UI32 | F32 | F64

  /** The key under which each type is listed in TYPES_ENUM and TYPES. */
  function Key(t: ElemType): string {
    match t
    case Bool => "bool"
    case I8 => "i8"
    case UI8 => "ui8"
    case UI8C => "ui8c"
    case I16 => "i16"
    case UI16 => "ui16"
    case I32 => "i32"
    case UI32 => "ui32"
    case F32 => "f32"
    case F64 => "f64"
  }

  /** `TYPES[name]` seen as a key test: which type, if any, a schema name denotes. */
  function Lookup(name: string): (r: Option<ElemType>)
    ensures r.Some? ==> Key(r.value) == name
  {
    if name == "bool" then Some(Bool)
    else if name == "i8" then Some(I8)
    else if name == "ui8" then Some(UI8)
    else if name == "ui8c" then Some(UI8C)
    else if name == "i16" then Some(I16)
    else if name == "ui16" then Some(UI16)
    else if name == "i32" then Some(I32)
    else if name == "ui32" then Some(UI32)
    else if name == "f32" then Some(F32)
    else if name == "f64" then Some(F64)
    else None
  }

  /** Every key of TYPES is recognised, as itself. */
  lemma LookupKey(t: ElemType)
    ensures Lookup(Key(t)) == Some(t)
  {
  }

  /** `TYPES[t].BYTES_PER_ELEMENT`. TYPES.bool is the string 'bool', which has
      no such property and cannot be constructed, so it has no width. */
  function BytesPerElement(t: ElemType): (r: Option<nat>)
    ensures r.None? <==> t == Bool
    ensures r.Some? ==> r.value in {1, 2, 4, 8}
  {
    match t
    case Bool => None
    case I8 => Some(1)
    case UI8 => Some(1)
    case UI8C => Some(1)
    case I16 => Some(2)
    case UI16 => Some(2)
    case I32 => Some(4)
    case UI32 => Some(4)
    case F32 => Some(4)
    case F64 => Some(8)
  }

  /** `TYPES_NAMES[t]`: the name of the typed-array constructor. */
  function TypeName(t: ElemType): string {
    match t
    case Bool => "Uint8"
    case I8 => "Int8"
    case UI8 => "Uint8"
    case UI8C => "Uint8Clamped"
    case I16 => "Int16"
    case UI16 => "Uint16"
    case I32 => "Int32"
    case UI32 => "Uint32"
    case F32 => "Float32"
    case F64 => "Float64"
  }

  /** UNSIGNED_MAX. */
  const Uint8Max: nat := 256
  const Uint16Max: nat := 65536

  /** The index type chosen for an array field of the given length. */
  function IndexType(length: nat): ElemType {
    if length < Uint8Max then UI8
    else if length < Uint16Max then UI16
    else UI32
  }

  /** What a view records as `$indexType` and `$indexBytes`. */
  datatype IndexWidth = IndexWidth(name: string, bytes: nat)

  function IndexWidthFor(length: nat): (w: IndexWidth)
    ensures w.bytes in {1, 2, 4}
    ensures w.bytes == 1 <==> length < 256
    ensures w.bytes == 2 <==> 256 <= length < 65536
    ensures w.bytes == 4 <==> 65536 <= length
    ensures w.name == (if w.bytes == 1 then "Uint8" else if w.bytes == 2 then "Uint16" else "Uint32")
    // the chosen width is the narrowest unsigned width whose range holds the length
    ensures w.bytes < 4 ==> length < (if w.bytes == 1 then Uint8Max else Uint16Max)
  {
    var t := IndexType(length);
    IndexWidth(TypeName(t), BytesPerElement(t).value)
  }

  /** `roundToMultiple4`: `Math.ceil(x / 4) * 4` on a non-negative number. */
  function RoundToMultiple4(x: nat): (r: nat)
    ensures r % 4 == 0
    ensures x <= r < x + 4
  {
    ((x + 3) / 4) * 4
  }

  /** No multiple of 4 lies between the argument and its rounding. */
  lemma RoundToMultiple4Least(x: nat, m: nat)
    requires m % 4 == 0 && x <= m
    ensures RoundToMultiple4(x) <= m
  {
  }

  /** A multiple of 4 is its own rounding. */
  lemma RoundToMultiple4Fixed(x: nat)
    requires x % 4 == 0
    ensures RoundToMultiple4(x) == x
  {
  }

  /** `Array(n).fill(0).reduce((a, p) => a + v, 0)`: v added n times. The
      products of the sizing formula are written with it too, so that the
      formula stays a sum of sums. */
  function Summed(n: nat, v: nat): nat {
    if n == 0 then 0 else Summed(n - 1, v) + v
  }

  lemma {:induction false} SummedIsProduct(n: nat, v: nat)
    ensures Summed(n, v) == n * v
  {
    if n > 0 {
      SummedIsProduct(n - 1, v);
      assert (n - 1) * v + v == n * v;
    }
  }

  /** The byte size given to a type's shared buffer (src/Storage.js:156-159):
      `roundToMultiple4(summedBytesPerElement * summedLength * size)`, where both
      sums run over all `count` array fields of the schema, whatever their type,
      and use the length of the field being packed. */
  function SharedBytes(bpe: nat, count: nat, length: nat, size: nat): nat {
    RoundToMultiple4(Summed(size, Summed(Summed(count, bpe), Summed(count, length))))
  }

  /** `new TYPES[type](buffer).length`: the element count of a typed array
      built over `bytes` bytes, for one of the catalog's widths. */
  function ElementCount(bytes: nat, bpe: nat): nat
    requires bpe in {1, 2, 4, 8}
  {
    if bpe == 1 then bytes else if bpe == 2 then bytes / 2 else if bpe == 4 then bytes / 4 else bytes / 8
  }

  /** The element count of a type's shared buffer. */
  function SharedElements(bpe: nat, count: nat, length: nat, size: nat): nat
    requires bpe in {1, 2, 4, 8}
  {
    ElementCount(SharedBytes(bpe, count, length, size), bpe)
  }

  /** The sizing formula is the product it spells out, rounded up to a
      multiple of 4: every array field contributes its width and the packed
      field's length, for each of the `size` entities. */
  lemma SharedBytesProduct(bpe: nat, count: nat, length: nat, size: nat)
    ensures SharedBytes(bpe, count, length, size)
         == RoundToMultiple4(size * ((count * bpe) * (count * length)))
  {
    SummedIsProduct(count, bpe);
    SummedIsProduct(count, length);
    SummedIsProduct(count * bpe, count * length);
    SummedIsProduct(size, (count * bpe) * (count * length));
  }

  /** Rounding a multiple of `bpe` up to a multiple of 4 keeps it a multiple of `bpe`. */
  lemma RoundKeepsMultiple(bpe: nat, k: nat)
    requires bpe in {1, 2, 4, 8}
    ensures RoundToMultiple4(bpe * k) % bpe == 0
  {
    var r := RoundToMultiple4(bpe * k);
    if bpe == 8 {
      assert bpe * k == 4 * (2 * k);
      RoundToMultiple4Fixed(bpe * k);
      assert r == 8 * k;
    } else if bpe == 2 {
      assert r == 2 * (2 * (r / 4));
    } else if bpe == 4 {
      assert r == 4 * (r / 4);
    }
  }

  /** The byte size is always a whole number of elements, so building the
      typed array over it never fails with a misaligned length. */
  lemma SharedBytesAligned(bpe: nat, count: nat, length: nat, size: nat)
    requires bpe in {1, 2, 4, 8}
    ensures SharedBytes(bpe, count, length, size) % bpe == 0
  {
    SharedBytesProduct(bpe, count, length, size);
    Regroup(bpe, count, length, size);
    RoundKeepsMultiple(bpe, size * (count * (count * length)));
  }

  lemma Regroup(bpe: nat, count: nat, length: nat, size: nat)
    ensures size * ((count * bpe) * (count * length)) == bpe * (size * (count * (count * length)))
  {
  }

  /** A byte size of at least `k` elements' worth holds at least `k` elements. */
  lemma ElementCountAtLeast(bytes: nat, bpe: nat, k: nat)
    requires bpe in {1, 2, 4, 8} && bytes >= bpe * k
    ensures ElementCount(bytes, bpe) >= k
  {
    if bpe == 2 {
      assert bpe * k == 2 * k;
    } else if bpe == 4 {
      assert bpe * k == 4 * k;
    } else if bpe == 8 {
      assert bpe * k == 8 * k;
    }
  }
}
