/** Typed arrays and the buffer operations of the allocator: creating a zeroed
    scalar buffer (`createTypeStore`), copying one (`slice(0)`, used by
    `createShadows`), and growing one with a prefix copy (`resize`). Element
    values are abstract integers: the allocator only zeroes and copies them. */
module Buffers {
  import opened Catalog
  import opened Schema

  /** A typed array with the properties the allocator attaches to it. Every
      site that creates one in the source sets these right after construction,
      and none changes them later, so they are constant here; only the
      elements of `data` change.

      The two shadows (`$queryShadow`, `$serializeShadow`) are `slice(0)` copies
      that this allocator never writes to again: only the query and
      serialization code, which is not part of this model, updates them. They
      are therefore kept as the contents they were created with. */
  class TypedArray {
    const elem: ElemType
    const data: array<int>
    const query: seq<int>
    const serialize: seq<int>
    /** The registry handle a `$storeBase` accessor resolves through, if the
        array carries one. */
    const base: Option<Handle>
    /** `$indexType` and `$indexBytes`, which only a shared buffer carries. */
    const index: Option<IndexWidth>

    constructor (elem: ElemType, data: array<int>, query: seq<int>, serialize: seq<int>,
                 base: Option<Handle>, index: Option<IndexWidth>)
      ensures this.elem == elem && this.data == data && this.query == query
      ensures this.serialize == serialize && this.base == base && this.index == index
    {
      this.elem := elem;
      this.data := data;
      this.query := query;
      this.serialize := serialize;
      this.base := base;
      this.index := index;
    }
  }

  function Zeros(n: nat): (z: seq<int>)
    ensures |z| == n
    ensures forall i :: 0 <= i < n ==> z[i] == 0
  {
    seq(n, _ => 0)
  }

  /** The contents `resize(ta, size)` returns: a fresh zeroed array of `size`
      elements into whose prefix `ta` is copied. */
  function Grown(s: seq<int>, size: nat): seq<int>
    requires |s| <= size
  {
    s + Zeros(size - |s|)
  }

  /** A grown array has exactly the new size, keeps the old contents as its
      prefix, and is zero beyond them. */
  lemma GrownShape(s: seq<int>, size: nat)
    requires |s| <= size
    ensures |Grown(s, size)| == size
    ensures Grown(s, size)[..|s|] == s
    ensures forall i :: |s| <= i < size ==> Grown(s, size)[i] == 0
  {
  }

  /** Growing to the same size changes nothing. */
  lemma GrownSameSize(s: seq<int>)
    ensures Grown(s, |s|) == s
  {
  }

  /** Two resizes in a row leave what one resize to the final size leaves. */
  lemma GrownTwice(s: seq<int>, m: nat, n: nat)
    requires |s| <= m <= n
    ensures Grown(Grown(s, m), n) == Grown(s, n)
  {
    assert Zeros(m - |s|) + Zeros(n - m) == Zeros(n - |s|);
  }

  /** `resize` (src/Storage.js:68-73). Copying a longer array into a shorter
      one raises a RangeError in the source, hence the precondition. */
  method Resize(ta: array<int>, size: nat) returns (r: array<int>)
    requires ta.Length <= size
    ensures fresh(r)
    ensures r[..] == Grown(ta[..], size)
  {
    r := new int[size](_ => 0);
    forall i | 0 <= i < ta.Length {
      r[i] := ta[i];
    }
    assert r[..] == ta[..] + Zeros(size - ta.Length) by {
      assert forall i :: 0 <= i < size ==> r[..][i] == (ta[..] + Zeros(size - ta.Length))[i];
    }
  }

  /** `createTypeStore` (src/Storage.js:135-139): `length` zeroed elements of
      the named type. */
  method CreateTypeStore(name: string, length: nat) returns (r: Result<array<int>>)
    ensures r.Ok? <==> ScalarCheck(name).Ok?
    ensures r.Err? ==> r.error == ScalarCheck(name).error
    ensures r.Ok? ==> fresh(r.value) && r.value[..] == Zeros(length)
  {
    var check := ScalarCheck(name);
    if check.Err? {
      return Err(check.error);
    }
    var a := new int[length](_ => 0);
    r := Ok(a);
  }

  /** `fill(0)`. */
  method Fill(a: array<int>)
    modifies a
    ensures a[..] == Zeros(a.Length)
  {
    forall i | 0 <= i < a.Length {
      a[i] := 0;
    }
  }
}
