/** The offset arithmetic of the array field packer (src/Storage.js:171-185):
    where each entity's view of an array field lies inside its type's shared
    buffer, and where the type's cursor goes next. */
module Packing {
  import opened Catalog

  /** Entity `e`'s view of a field of `length` slots packed at cursor `c`
      requests the range [ViewStart, ViewEnd). */
  function ViewStart(c: nat, length: nat, e: nat): nat {
    c + e * length
  }

  function ViewEnd(c: nat, length: nat, e: nat): nat {
    ViewStart(c, length, e) + length
  }

  /** The cursor after packing a field: `end`, the end of the last view, which
      stays 0 when there are no entities at all. */
  function CursorAfter(c: nat, length: nat, size: nat): (r: nat)
    ensures size > 0 ==> r == c + size * length
    ensures size == 0 ==> r == 0
  {
    if size == 0 then 0 else ViewEnd(c, length, size - 1)
  }

  /** Multiplication by a natural is monotone (by induction, one step at a time). */
  lemma {:induction false} MulMonotone(a: nat, b: nat, c: nat)
    requires a <= b
    ensures a * c <= b * c
    decreases b - a
  {
    if a < b {
      MulMonotone(a, b - 1, c);
      assert (b - 1) * c + c == b * c;
    }
  }

  /** The view of entity `e` ends where the view of entity `e + 1` starts. */
  lemma ViewEndNext(c: nat, length: nat, e: nat)
    ensures ViewEnd(c, length, e) == ViewStart(c, length, e + 1)
  {
    assert (e + 1) * length == e * length + length;
  }

  /** Views of distinct entities do not overlap: an earlier entity's view ends
      where or before a later one's begins. */
  lemma ViewsDisjoint(c: nat, length: nat, e1: nat, e2: nat)
    requires e1 < e2
    ensures ViewEnd(c, length, e1) <= ViewStart(c, length, e2)
  {
    ViewEndNext(c, length, e1);
    MulMonotone(e1 + 1, e2, length);
  }

  /** Every entity's view lies inside the field's block [c, c + size * length). */
  lemma ViewInsideField(c: nat, length: nat, size: nat, e: nat)
    requires e < size
    ensures c <= ViewStart(c, length, e)
    ensures ViewEnd(c, length, e) <= c + size * length
  {
    ViewEndNext(c, length, e);
    MulMonotone(e + 1, size, length);
  }

  /** Every slot of the field's block belongs to the view of entity
      `(x - c) / length`: together with ViewsDisjoint and ViewInsideField, the
      views tile the block exactly. */
  lemma ViewOwner(c: nat, length: nat, size: nat, x: nat)
    requires length > 0
    requires c <= x < c + size * length
    ensures (x - c) / length < size
    ensures ViewStart(c, length, (x - c) / length) <= x < ViewEnd(c, length, (x - c) / length)
  {
    var d := x - c;
    var e := d / length;
    assert d == e * length + d % length;
    if e >= size {
      MulMonotone(size, e, length);
    }
  }

  /** A field packed after this one, at the cursor this one leaves, begins
      after every view of this one. */
  lemma NextFieldAfter(c: nat, length: nat, size: nat, next: nat, e: nat, e2: nat)
    requires e < size
    ensures ViewEnd(c, length, e) <= ViewStart(CursorAfter(c, length, size), next, e2)
  {
    ViewInsideField(c, length, size, e);
  }

  /** The cursor of a type after its array fields, of the given lengths, have
      been packed one after the other from cursor 0. */
  function PackedCursor(lengths: seq<nat>, size: nat): nat {
    if lengths == [] then 0
    else CursorAfter(PackedCursor(lengths[..|lengths| - 1], size), lengths[|lengths| - 1], size)
  }

  function Sum(lengths: seq<nat>): nat {
    if lengths == [] then 0 else Sum(lengths[..|lengths| - 1]) + lengths[|lengths| - 1]
  }

  /** The cursor has moved by `size` slots per unit of length: the fields
      occupy consecutive blocks of `size * length` (and with no entities it
      stays at 0). */
  lemma {:induction false} PackedCursorSum(lengths: seq<nat>, size: nat)
    ensures PackedCursor(lengths, size) == size * Sum(lengths)
  {
    if lengths != [] {
      var init := lengths[..|lengths| - 1];
      var last := lengths[|lengths| - 1];
      if size == 0 {
        assert PackedCursor(lengths, size) == 0;
      } else {
        PackedCursorSum(init, size);
        assert size * Sum(init) + size * last == size * (Sum(init) + last);
      }
    }
  }

  lemma {:induction false} SumOfEqual(lengths: seq<nat>, length: nat)
    requires forall i :: 0 <= i < |lengths| ==> lengths[i] == length
    ensures Sum(lengths) == |lengths| * length
  {
    if lengths != [] {
      var init := lengths[..|lengths| - 1];
      SumOfEqual(init, length);
      assert (|lengths| - 1) * length + length == |lengths| * length;
    }
  }

  /** The sharing assumption under which views fit: when every array field of a
      type has the length of its first field, and there are no more of them than
      the schema's array field count, all their views end inside the type's
      shared buffer, sized from that first length. */
  lemma SameLengthFieldsFit(bpe: nat, count: nat, lengths: seq<nat>, size: nat)
    requires bpe in {1, 2, 4, 8}
    requires 0 < |lengths| <= count
    requires forall i :: 0 <= i < |lengths| ==> lengths[i] == lengths[0]
    ensures PackedCursor(lengths, size) <= SharedElements(bpe, count, lengths[0], size)
  {
    var length := lengths[0];
    if size > 0 {
      var k := size * (count * (count * length));
      assert PackedCursor(lengths, size) <= k by {
        PackedCursorSum(lengths, size);
        SumOfEqual(lengths, length);
        CountBound(|lengths|, count, length, size);
      }
      assert SharedElements(bpe, count, length, size) >= k by {
        SharedBytesProduct(bpe, count, length, size);
        Regroup(bpe, count, length, size);
        ElementCountAtLeast(SharedBytes(bpe, count, length, size), bpe, k);
      }
    }
  }

  lemma MulAtLeastOne(b: nat, k: nat)
    requires b >= 1
    ensures b * k >= k
  {
    MulMonotone(1, b, k);
  }

  /** n fields of length L use at most count * count * L slots per entity. */
  lemma CountBound(n: nat, count: nat, length: nat, size: nat)
    requires n <= count
    ensures size * (n * length) <= size * (count * (count * length))
  {
    if count > 0 {
      MulMonotone(n, count, length);
      MulAtLeastOne(count, count * length);
      MulMonotone(n * length, count * (count * length), size);
      assert size * (n * length) == (n * length) * size;
      assert size * (count * (count * length)) == (count * (count * length)) * size;
    }
  }

  /** Without the sharing assumption views can run past the buffer: with two
      `f32` array fields of lengths 1 and 100 and one entity, the buffer is sized
      from the first length and holds 4 elements, yet the second field's view
      asks for slots 1 to 101. */
  lemma DifferentLengthsOverflow()
    ensures SharedElements(4, 2, 1, 1) == 4
    ensures ViewEnd(PackedCursor([1], 1), 100, 0) == 101
  {
    SharedBytesProduct(4, 2, 1, 1);
  }
}
