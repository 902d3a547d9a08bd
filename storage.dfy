/** The store: the metadata object that the builder threads through a build,
    the array field packer, the schema walk that replaces leaves by buffers,
    and the resize and reset engines (src/Storage.js:75-133, 141-193, 234-257). */
module Storage {
  import opened Catalog
  import opened Schema
  import opened Buffers
  import opened Packing
  import opened Layout

  /** An entity's view of an array field: the requested range [from, to) of a
      shared buffer (and, at the same offsets, of its two shadows), tagged with
      the field's index width. `Detached` is a view re-derived by
      `resizeSubarrays` from its emptied cursor table: it addresses no slot and
      carries no index width. */
  datatype View =
    | Slice(buf: TypedArray, from: nat, to: nat, width: IndexWidth)
    | Detached(buf: TypedArray)

  /** `store[0].length` as read by `resizeSubarrays`. */
  function ViewLength(v: View): nat {
    match v
    case Slice(_, from, to, _) => if from <= to then to - from else 0
    case Detached(_) => 0
  }

  /** The value a store holds under a schema key: a scalar buffer, the
      metadata object (which is what `createArrayStore` returns for an array
      field), or a nested group. */
  datatype Slot =
    | ScalarSlot(buf: TypedArray)
    | ArraySlot(meta: Metadata)
    | GroupSlot(entries: seq<Entry>)

  datatype Entry = Entry(key: string, slot: Slot)

  /** An element of `$storeFlattened`. */
  datatype FlatEntry = FlatBuffer(buf: TypedArray) | FlatMeta(meta: Metadata)

  const AllTypes: set<ElemType> := {Bool, I8, UI8, UI8C, I16, UI16, I32, UI32, F32, F64}

  /** The scalar buffers of a tree, in the order the builder creates them. */
  function Scalars(es: seq<Entry>): seq<TypedArray>
    decreases es, 1
  {
    if es == [] then [] else Scalars(es[..|es| - 1]) + SlotScalars(es[|es| - 1].slot)
  }

  function SlotScalars(s: Slot): seq<TypedArray>
    decreases s, 0
  {
    match s
    case ScalarSlot(b) => [b]
    case ArraySlot(_) => []
    case GroupSlot(cs) => Scalars(cs)
  }

  /** What the builder pushes onto `$storeFlattened` for a tree. */
  function Flat(es: seq<Entry>): seq<FlatEntry>
    decreases es, 1
  {
    if es == [] then [] else Flat(es[..|es| - 1]) + SlotFlat(es[|es| - 1].slot)
  }

  function SlotFlat(s: Slot): seq<FlatEntry>
    decreases s, 0
  {
    match s
    case ScalarSlot(b) => [FlatBuffer(b)]
    case ArraySlot(m) => [FlatMeta(m)]
    case GroupSlot(cs) => Flat(cs)
  }

  lemma {:induction false} ScalarsAppend(a: seq<Entry>, b: seq<Entry>)
    ensures Scalars(a + b) == Scalars(a) + Scalars(b)
    decreases |b|
  {
    if b != [] {
      var b' := b[..|b| - 1];
      assert (a + b)[..|a + b| - 1] == a + b';
      assert (a + b)[|a + b| - 1] == b[|b| - 1];
      ScalarsAppend(a, b');
    } else {
      assert a + b == a;
    }
  }

  lemma {:induction false} ScalarsSnoc(a: seq<Entry>, e: Entry)
    ensures Scalars(a + [e]) == Scalars(a) + SlotScalars(e.slot)
  {
    assert (a + [e])[..|a|] == a;
  }

  lemma {:induction false} FlatSnoc(a: seq<Entry>, e: Entry)
    ensures Flat(a + [e]) == Flat(a) + SlotFlat(e.slot)
  {
    assert (a + [e])[..|a|] == a;
  }

  lemma FlatStep(start: seq<FlatEntry>, before: seq<FlatEntry>, es: seq<Entry>, e: Entry,
                 after: seq<FlatEntry>)
    requires before == start + Flat(es) && after == before + SlotFlat(e.slot)
    ensures after == start + Flat(es + [e])
  {
    FlatSnoc(es, e);
  }

  /** Scalars of an entry are scalars of the tree holding it. */
  lemma {:induction false} ScalarsSplit(es: seq<Entry>, i: nat)
    requires i < |es|
    ensures Scalars(es) == Scalars(es[..i]) + SlotScalars(es[i].slot) + Scalars(es[i + 1..])
  {
    var front, back := es[..i + 1], es[i + 1..];
    assert front + back == es;
    ScalarsAppend(front, back);
    assert front == es[..i] + [es[i]];
    ScalarsSnoc(es[..i], es[i]);
  }

  /** One zeroed buffer with zeroed shadows is cleared. */
  lemma ClearedOne(b: TypedArray, n: nat)
    requires b.data[..] == Zeros(n) && b.query == Zeros(n) && b.serialize == Zeros(n)
    ensures Cleared([b], n)
  {
  }

  lemma ClearedConcat(a: seq<TypedArray>, b: seq<TypedArray>, n: nat)
    requires Cleared(a, n) && Cleared(b, n)
    ensures Cleared(a + b, n)
  {
    forall i | |a| <= i < |a + b|
      ensures (a + b)[i] == b[i - |a|]
    {
    }
  }

  lemma {:induction false} ShapedSnoc(fields: seq<Field>, es: seq<Entry>, f: Field, e: Entry, m: Metadata)
    requires Shaped(fields, es, m)
    requires e.key == f.key && NodeShaped(f.node, e.slot, m)
    ensures Shaped(fields + [f], es + [e], m)
  {
    forall i | 0 <= i < |fields| + 1
      ensures (es + [e])[i].key == (fields + [f])[i].key
      ensures NodeShaped((fields + [f])[i].node, (es + [e])[i].slot, m)
    {
      if i < |fields| {
        assert (es + [e])[i] == es[i];
        assert (fields + [f])[i] == fields[i];
      }
    }
  }

  function ArraysOf(bs: seq<TypedArray>): set<array<int>> {
    set i | 0 <= i < |bs| :: bs[i].data
  }

  lemma ArraysOfConcat(a: seq<TypedArray>, b: seq<TypedArray>)
    ensures ArraysOf(a + b) == ArraysOf(a) + ArraysOf(b)
  {
    forall x | x in ArraysOf(a + b)
      ensures x in ArraysOf(a) + ArraysOf(b)
    {
      var i :| 0 <= i < |a + b| && (a + b)[i].data == x;
      if i >= |a| {
        assert b[i - |a|] == (a + b)[i];
      }
    }
    forall x | x in ArraysOf(a)
      ensures x in ArraysOf(a + b)
    {
      var i :| 0 <= i < |a| && a[i].data == x;
      assert (a + b)[i] == a[i];
    }
    forall x | x in ArraysOf(b)
      ensures x in ArraysOf(a + b)
    {
      var i :| 0 <= i < |b| && b[i].data == x;
      assert (a + b)[|a| + i] == b[i];
    }
  }

  /** Buffers on arrays of their own: no two of them share an array, and none
      is one of the arrays in `shared`. */
  predicate Apart(bs: seq<TypedArray>, shared: set<array<int>>) {
    (forall i, j :: 0 <= i < j < |bs| ==> bs[i].data != bs[j].data)
    && ArraysOf(bs) !! shared
  }

  /** Buffers made before a step and buffers made by it stay apart when the
      step allocates the new ones and any new shared array. */
  lemma ApartStep(done: seq<TypedArray>, more: seq<TypedArray>, shared0: set<array<int>>,
                  shared: set<array<int>>)
    requires Apart(done, shared0) && Apart(more, shared)
    requires ArraysOf(done) !! ArraysOf(more)
    requires forall a :: a in shared && a !in shared0 ==> a !in ArraysOf(done)
    ensures Apart(done + more, shared)
  {
    ArraysOfConcat(done, more);
    forall i, j | 0 <= i < j < |done + more|
      ensures (done + more)[i].data != (done + more)[j].data
    {
      if j < |done| {
        assert (done + more)[i] == done[i] && (done + more)[j] == done[j];
      } else if i >= |done| {
        assert (done + more)[i] == more[i - |done|] && (done + more)[j] == more[j - |done|];
      } else {
        assert (done + more)[i].data in ArraysOf(done);
        assert (done + more)[j] == more[j - |done|];
        assert (done + more)[j].data in ArraysOf(more);
      }
    }
  }

  /** The buffers `$storeFlattened` lists for a tree are scalar buffers of the
      tree. */
  lemma {:induction false} FlatArraysScalars(es: seq<Entry>)
    decreases es, 1
    ensures forall j :: 0 <= j < |Flat(es)| && Flat(es)[j].FlatBuffer? ==>
      Flat(es)[j].buf.data in ArraysOf(Scalars(es))
  {
    if es != [] {
      var k := |es| - 1;
      FlatArraysScalars(es[..k]);
      SlotFlatArraysScalars(es[k].slot);
      ArraysOfConcat(Scalars(es[..k]), SlotScalars(es[k].slot));
      forall j | 0 <= j < |Flat(es)| && Flat(es)[j].FlatBuffer?
        ensures Flat(es)[j].buf.data in ArraysOf(Scalars(es))
      {
        if j >= |Flat(es[..k])| {
          assert Flat(es)[j] == SlotFlat(es[k].slot)[j - |Flat(es[..k])|];
        }
      }
    }
  }

  lemma {:induction false} SlotFlatArraysScalars(s: Slot)
    decreases s, 0
    ensures forall j :: 0 <= j < |SlotFlat(s)| && SlotFlat(s)[j].FlatBuffer? ==>
      SlotFlat(s)[j].buf.data in ArraysOf(SlotScalars(s))
  {
    match s {
      case ScalarSlot(b) =>
        assert b == SlotScalars(s)[0];
      case ArraySlot(_) =>
      case GroupSlot(cs) =>
        FlatArraysScalars(cs);
    }
  }

  /** Every scalar buffer of a tree is listed in its flattened list. */
  lemma {:induction false} ScalarsListed(es: seq<Entry>)
    decreases es, 1
    ensures forall b :: b in Scalars(es) ==> FlatBuffer(b) in Flat(es)
  {
    if es != [] {
      var k := |es| - 1;
      ScalarsListed(es[..k]);
      SlotScalarsListed(es[k].slot);
    }
  }

  lemma {:induction false} SlotScalarsListed(s: Slot)
    decreases s, 0
    ensures forall b :: b in SlotScalars(s) ==> FlatBuffer(b) in SlotFlat(s)
  {
    match s {
      case ScalarSlot(_) =>
      case ArraySlot(_) =>
      case GroupSlot(cs) => ScalarsListed(cs);
    }
  }

  lemma AllBuffersConcat(a: seq<FlatEntry>, b: seq<FlatEntry>)
    ensures AllBuffers(a + b) <==> AllBuffers(a) && AllBuffers(b)
  {
    if AllBuffers(a + b) {
      forall i | 0 <= i < |a|
        ensures a[i].FlatBuffer?
      {
        assert (a + b)[i] == a[i];
      }
      forall i | 0 <= i < |b|
        ensures b[i].FlatBuffer?
      {
        assert (a + b)[|a| + i] == b[i];
      }
    }
  }

  /** The flattened list of a built tree holds only buffers exactly when the
      schema has no array field: each array field puts the metadata object
      itself on the list. */
  lemma {:induction false} ShapedFlatBuffers(fields: seq<Field>, es: seq<Entry>, m: Metadata)
    requires Shaped(fields, es, m)
    decreases fields, 1
    ensures AllBuffers(Flat(es)) <==> NoArraysIn(fields)
  {
    if fields != [] {
      var k := |fields| - 1;
      assert Shaped(fields[..k], es[..k], m) by {
        forall i | 0 <= i < k
          ensures es[..k][i].key == fields[..k][i].key
          ensures NodeShaped(fields[..k][i].node, es[..k][i].slot, m)
        {
          assert es[..k][i] == es[i] && fields[..k][i] == fields[i];
        }
      }
      ShapedFlatBuffers(fields[..k], es[..k], m);
      NodeFlatBuffers(fields[k].node, es[k].slot, m);
      AllBuffersConcat(Flat(es[..k]), SlotFlat(es[k].slot));
      assert NoArraysIn(fields) <==> NoArraysIn(fields[..k]) && NoArrays(fields[k].node) by {
        if NoArraysIn(fields[..k]) && NoArrays(fields[k].node) {
          forall i | 0 <= i < |fields|
            ensures NoArrays(fields[i].node)
          {
            if i < k {
              assert fields[..k][i] == fields[i];
            }
          }
        }
        if NoArraysIn(fields) {
          forall i | 0 <= i < k
            ensures NoArrays(fields[..k][i].node)
          {
            assert fields[..k][i] == fields[i];
          }
        }
      }
    }
  }

  lemma {:induction false} NodeFlatBuffers(n: Node, s: Slot, m: Metadata)
    requires NodeShaped(n, s, m)
    decreases n, 0
    ensures AllBuffers(SlotFlat(s)) <==> NoArrays(n)
  {
    match n {
      case Leaf(_) =>
      case ArrayLeaf(_, _) =>
        assert SlotFlat(s)[0].FlatMeta?;
      case Group(fs) =>
        ShapedFlatBuffers(fs, s.entries, m);
    }
  }

  /** Buffers of `n` zeroes whose shadows equal them: what the builder makes of
      scalar leaves. */
  ghost predicate Cleared(bs: seq<TypedArray>, n: nat)
    reads ArraysOf(bs)
  {
    forall i :: 0 <= i < |bs| ==>
      bs[i].data[..] == Zeros(n) && bs[i].query == Zeros(n) && bs[i].serialize == Zeros(n)
  }

  /** Every scalar buffer and both its shadows have `n` elements. */
  ghost predicate Sized(bs: seq<TypedArray>, n: nat) {
    forall i :: 0 <= i < |bs| ==>
      bs[i].data.Length == n && |bs[i].query| == n && |bs[i].serialize| == n
  }

  /** The tree the builder makes of a schema: same keys, a scalar leaf becomes
      a buffer of its type with `size` elements and a `$storeBase` accessor, an
      array leaf becomes the metadata object, a group recurses. */
  ghost predicate Shaped(fields: seq<Field>, es: seq<Entry>, m: Metadata)
    decreases fields, 1
  {
    |es| == |fields|
    && forall i :: 0 <= i < |fields| ==>
         es[i].key == fields[i].key && NodeShaped(fields[i].node, es[i].slot, m)
  }

  ghost predicate NodeShaped(n: Node, s: Slot, m: Metadata)
    decreases n, 0
  {
    match n
    case Leaf(name) =>
      s.ScalarSlot? && Lookup(name) == Some(s.buf.elem)
      && s.buf.data.Length == m.size && |s.buf.query| == m.size
      && |s.buf.serialize| == m.size
      && s.buf.base == Some(m.handle) && s.buf.index == None
    case ArrayLeaf(_, _) => s == ArraySlot(m)
    case Group(fs) => s.GroupSlot? && Shaped(fs, s.entries, m)
  }

  /** No buffer or shadow has more than `n` elements: growing to `n` is defined. */
  ghost predicate AtMost(bs: seq<TypedArray>, n: nat) {
    forall i :: 0 <= i < |bs| ==>
      bs[i].data.Length <= n && |bs[i].query| <= n && |bs[i].serialize| <= n
  }

  /** The skeleton `resizeRecursive` keeps: same keys and kinds of value, the
      metadata of array fields untouched. */
  ghost predicate SameShape(es: seq<Entry>, rs: seq<Entry>)
    decreases es, 1
  {
    |rs| == |es|
    && forall i :: 0 <= i < |es| ==> rs[i].key == es[i].key && SlotSameShape(es[i].slot, rs[i].slot)
  }

  ghost predicate SlotSameShape(s: Slot, r: Slot)
    decreases s, 0
  {
    match s
    case ScalarSlot(_) => r.ScalarSlot?
    case ArraySlot(m) => r == ArraySlot(m)
    case GroupSlot(cs) => r.GroupSlot? && SameShape(cs, r.entries)
  }

  /** `b2` is what `resizeRecursive` puts in place of `b`: a new typed array of
      the same type, whose contents and shadows are each grown from `b`'s own,
      and which carries neither a `$storeBase` accessor nor an index width. */
  ghost predicate GrownFrom(b: TypedArray, b2: TypedArray, n: nat)
    reads b.data, b2.data
  {
    b.data.Length <= n && |b.query| <= n && |b.serialize| <= n
    && b2.elem == b.elem && b2.base == None && b2.index == None
    && b2.data[..] == Grown(b.data[..], n)
    && b2.query == Grown(b.query, n)
    && b2.serialize == Grown(b.serialize, n)
  }

  ghost predicate AllGrown(bs: seq<TypedArray>, rs: seq<TypedArray>, n: nat)
    reads ArraysOf(bs), ArraysOf(rs)
  {
    |rs| == |bs| && forall i :: 0 <= i < |bs| ==> GrownFrom(bs[i], rs[i], n)
  }

  /** A shared buffer of type `t` as `createArrayStore` allocates it when it packs
      the first field of that type (src/Storage.js:155-169), and as
      `resizeSubarrays` allocates it anew (src/Storage.js:92-103): zeroed, sized
      from the field length it is given, and two shadows that copy it. */
  ghost predicate SharedBuffer(b: TypedArray, t: ElemType, count: nat, length: nat, size: nat,
                               index: Option<IndexWidth>)
    reads b.data
  {
    BytesPerElement(t).Some?
    && b.elem == t
    && b.data.Length == SharedElements(BytesPerElement(t).value, count, length, size)
    && (forall i :: 0 <= i < b.data.Length ==> b.data[i] == 0)
    && b.query == Zeros(b.data.Length) && b.serialize == Zeros(b.data.Length)
    && b.base == None && b.index == index
  }

  /** The shadows of such a buffer are copies of it. */
  lemma SharedShadowsCopy(b: TypedArray, t: ElemType, count: nat, length: nat, size: nat,
                          index: Option<IndexWidth>)
    requires SharedBuffer(b, t, count, length, size, index)
    ensures b.query == b.data[..] && b.serialize == b.data[..]
  {
  }

  method NewSharedBuffer(t: ElemType, count: nat, length: nat, size: nat, index: Option<IndexWidth>)
    returns (b: TypedArray)
    requires BytesPerElement(t).Some?
    ensures fresh(b) && fresh(b.data)
    ensures SharedBuffer(b, t, count, length, size, index)
  {
    var bpe := BytesPerElement(t).value;
    var totalBytes := SharedBytes(bpe, count, length, size);
    var buffer := new int[totalBytes / bpe](_ => 0);
    b := new TypedArray(t, buffer, buffer[..], buffer[..], None, index);
  }

  /** A scalar leaf of the builder (src/Storage.js:236-241): `createTypeStore`,
      the `$storeBase` accessor, and `createShadows`. */
  method NewScalar(name: string, size: nat, handle: Handle) returns (r: Result<TypedArray>)
    ensures r.Ok? <==> ScalarCheck(name).Ok?
    ensures r.Err? ==> r.error == ScalarCheck(name).error
    ensures r.Ok? ==>
      var b := r.value;
      && fresh(b) && fresh(b.data)
      && b.elem == ScalarCheck(name).value && b.base == Some(handle) && b.index == None
      && b.data[..] == Zeros(size) && b.query == b.data[..] && b.serialize == b.data[..]
  {
    var created := CreateTypeStore(name, size);
    if created.Err? {
      return Err(created.error);
    }
    var data := created.value;
    var b := new TypedArray(ScalarCheck(name).value, data, data[..], data[..], Some(handle), None);
    r := Ok(b);
  }

  /** The views entity by entity of a field of `length` slots packed at cursor `c`. */
  function FieldViews(b: TypedArray, c: nat, length: nat, size: nat): seq<View> {
    seq(size, e requires 0 <= e =>
      Slice(b, ViewStart(c, length, e), ViewEnd(c, length, e), IndexWidthFor(length)))
  }

  /** The views of a packed field are slices of the type's buffer with the
      length's index width, each `length` slots long, back to back from the
      cursor `c` to the cursor the field leaves, inside the field's block, and
      pairwise disjoint. */
  lemma FieldViewsPacked(b: TypedArray, c: nat, length: nat, size: nat)
    ensures |FieldViews(b, c, length, size)| == size
    ensures forall e :: 0 <= e < size ==>
      var v := FieldViews(b, c, length, size)[e];
      && v.Slice? && v.buf == b && v.width == IndexWidthFor(length)
      && v.to == v.from + length
      && c <= v.from && v.to <= c + size * length
    ensures forall e1, e2 :: 0 <= e1 < e2 < size ==>
      FieldViews(b, c, length, size)[e1].to <= FieldViews(b, c, length, size)[e2].from
    ensures forall e :: 0 <= e < size - 1 ==>
      FieldViews(b, c, length, size)[e].to == FieldViews(b, c, length, size)[e + 1].from
    ensures size > 0 ==>
      FieldViews(b, c, length, size)[0].from == c
      && FieldViews(b, c, length, size)[size - 1].to == CursorAfter(c, length, size)
  {
    var vs := FieldViews(b, c, length, size);
    forall e | 0 <= e < size
      ensures c <= vs[e].from && vs[e].to <= c + size * length
    {
      ViewInsideField(c, length, size, e);
    }
    forall e1, e2 | 0 <= e1 < e2 < size
      ensures vs[e1].to <= vs[e2].from
    {
      ViewsDisjoint(c, length, e1, e2);
    }
    forall e | 0 <= e < size - 1
      ensures vs[e].to == vs[e + 1].from
    {
      ViewEndNext(c, length, e);
    }
  }

  /** The loop of createArrayStore (src/Storage.js:171-183): one view per
      entity, consecutive, and the cursor the type is left at. */
  method PackViews(b: TypedArray, c: nat, length: nat, size: nat) returns (vs: seq<View>, end: nat)
    ensures vs == FieldViews(b, c, length, size)
    ensures end == CursorAfter(c, length, size)
  {
    vs := [];
    end := 0;
    var eid: nat := 0;
    while eid < size
      invariant eid <= size
      invariant |vs| == eid
      invariant forall e :: 0 <= e < eid ==>
        vs[e] == Slice(b, ViewStart(c, length, e), ViewEnd(c, length, e), IndexWidthFor(length))
      invariant end == if eid == 0 then 0 else ViewEnd(c, length, eid - 1)
    {
      var from := c + eid * length;
      var to := from + length;
      vs := vs + [Slice(b, from, to, IndexWidthFor(length))];
      end := to;
      eid := eid + 1;
    }
  }

  /** The loop of resizeSubarrays (src/Storage.js:105-116): it reads the cursor
      from the table it has just emptied, so every offset is NaN and every view
      it makes is empty. */
  method DetachedViews(b: TypedArray, size: nat) returns (vs: seq<View>)
    ensures |vs| == size
    ensures forall e :: 0 <= e < size ==> vs[e] == Detached(b) && ViewLength(vs[e]) == 0
  {
    vs := [];
    var eid: nat := 0;
    while eid < size
      invariant eid <= size
      invariant |vs| == eid
      invariant forall e :: 0 <= e < eid ==> vs[e] == Detached(b)
    {
      vs := vs + [Detached(b)];
      eid := eid + 1;
    }
  }

  lemma AllTypesComplete(t: ElemType)
    ensures t in AllTypes
  {
    match t
    case Bool =>
    case I8 =>
    case UI8 =>
    case UI8C =>
    case I16 =>
    case UI16 =>
    case I32 =>
    case UI32 =>
    case F32 =>
    case F64 =>
  }

  /** The loop of `resizeSubarrays` over the types of `order` (src/Storage.js:91-103),
      collecting into `subs` the buffer each allocates: zeroed, sized for `n`
      entities from the length the `i`-th type reads, with two shadows copying
      it and no index width. */
  method RenewedBuffers(order: seq<ElemType>, subs: map<ElemType, TypedArray>, count: nat,
                        first: nat, n: nat) returns (renewed: map<ElemType, TypedArray>)
    requires forall t :: t in subs <==> t in order
    requires forall i, j :: 0 <= i < j < |order| ==> order[i] != order[j]
    requires forall t :: t in subs ==> BytesPerElement(t).Some?
    ensures renewed.Keys == subs.Keys
    ensures forall t :: t in renewed ==> fresh(renewed[t].data) && renewed[t].elem == t
    ensures forall i {:trigger Metadata.RenewLength(first, i, n)} :: 0 <= i < |order| ==>
      SharedBuffer(renewed[order[i]], order[i], count, Metadata.RenewLength(first, i, n), n, None)
  {
    renewed := subs;
    var i := 0;
    while i < |order|
      invariant i <= |order|
      invariant renewed.Keys == subs.Keys
      invariant forall k :: i <= k < |order| ==> renewed[order[k]] == subs[order[k]]
      invariant forall k :: 0 <= k < i ==> fresh(renewed[order[k]].data) && renewed[order[k]].elem == order[k]
      invariant forall k {:trigger Metadata.RenewLength(first, k, n)} :: 0 <= k < i ==>
        SharedBuffer(renewed[order[k]], order[k], count, Metadata.RenewLength(first, k, n), n, None)
    {
      var t := order[i];
      var b := NewSharedBuffer(t, count, Metadata.RenewLength(first, i, n), n, None);
      renewed := renewed[t := b];
      i := i + 1;
    }
  }

  /** Every shared buffer of `subs` is still there, unchanged, in `subs2`. */
  predicate KeepsBuffers(subs: map<ElemType, TypedArray>, subs2: map<ElemType, TypedArray>) {
    forall t :: t in subs ==> t in subs2 && subs2[t] == subs[t]
  }

  /** Keeping the buffers is transitive. */
  lemma KeepsTrans(a: map<ElemType, TypedArray>, b: map<ElemType, TypedArray>, c: map<ElemType, TypedArray>)
    requires KeepsBuffers(a, b) && KeepsBuffers(b, c)
    ensures KeepsBuffers(a, c)
  {
  }

  /** The first `i + 1` keys are the first `i` and key `i`. */
  lemma PrefixSnoc(fields: seq<Field>, i: nat)
    requires i < |fields|
    ensures fields[..i + 1] == fields[..i] + [fields[i]]
    ensures fields[..i + 1][..i] == fields[..i]
  {
  }

  /** A metadata object with these creation order, cursors, shared buffers
      and views is in packing state `st` of a walk that began with the views
      `views0`: the order and cursors are the state's, each type created
      during the walk has a zeroed shared buffer sized from its first field's
      length and tagged with that length's index width, and the numeric views
      are those of the field packed last. */
  ghost predicate PackedAs(order: seq<ElemType>, cursors: map<ElemType, nat>,
                           subs: map<ElemType, TypedArray>, views: seq<View>,
                           count: nat, size: nat, st: PackState, views0: seq<View>)
    reads set t | t in subs :: subs[t].data
  {
    order == st.order && cursors == st.cursors
    && (forall t :: t in st.first ==>
          t in subs
          && SharedBuffer(subs[t], t, count, st.first[t], size, Some(IndexWidthFor(st.first[t]))))
    && (st.last.None? ==> views == views0)
    && (st.last.Some? ==>
          st.last.value.elem in subs
          && views == FieldViews(subs[st.last.value.elem], st.last.value.at, st.last.value.length, size))
  }

  /** Packing one field as `createArrayStore` does moves the state by PackLeaf. */
  lemma PackedAsLeaf(order: seq<ElemType>, cursors: map<ElemType, nat>,
                     subs: map<ElemType, TypedArray>, views: seq<View>,
                     order2: seq<ElemType>, cursors2: map<ElemType, nat>,
                     subs2: map<ElemType, TypedArray>, views2: seq<View>,
                     count: nat, size: nat, st: PackState, views0: seq<View>, t: ElemType, len: nat)
    requires PackedAs(order, cursors, subs, views, count, size, st, views0)
    requires forall u :: u in subs <==> u in order
    requires t in cursors && t in subs2
    requires t in subs ==> subs2 == subs && order2 == order
    requires t !in subs ==>
      subs2 == subs[t := subs2[t]] && order2 == order + [t]
      && SharedBuffer(subs2[t], t, count, len, size, Some(IndexWidthFor(len)))
    requires views2 == FieldViews(subs2[t], cursors[t], len, size)
    requires cursors2 == cursors[t := CursorAfter(cursors[t], len, size)]
    ensures PackedAs(order2, cursors2, subs2, views2, count, size, PackLeaf(t, len, st, size), views0)
  {
    var next := PackLeaf(t, len, st, size);
    forall u | u in next.first
      ensures u in subs2
      ensures SharedBuffer(subs2[u], u, count, next.first[u], size, Some(IndexWidthFor(next.first[u])))
    {
      if u != t || t in order {
        assert u in st.first && u in subs;
        assert subs2[u] == subs[u];
      }
    }
  }

  /** The packing state fixes the metadata's creation order, cursors and
      views, and, given that the earlier buffers are kept, its shared buffers. */
  lemma PackedAsSame(order: seq<ElemType>, cursors: map<ElemType, nat>,
                     subs: map<ElemType, TypedArray>, views: seq<View>,
                     order2: seq<ElemType>, cursors2: map<ElemType, nat>,
                     subs2: map<ElemType, TypedArray>, views2: seq<View>,
                     count: nat, size: nat, st: PackState, views0: seq<View>)
    requires PackedAs(order, cursors, subs, views, count, size, st, views0)
    requires PackedAs(order2, cursors2, subs2, views2, count, size, st, views0)
    requires forall u :: u in subs <==> u in order
    requires forall u :: u in subs2 <==> u in order2
    requires KeepsBuffers(subs, subs2)
    ensures order2 == order && cursors2 == cursors && subs2 == subs && views2 == views
  {
    assert subs2.Keys == subs.Keys;
  }

  /** The metadata object of a build (src/Storage.js:221-230). The builder hands
      it to `createArrayStore` as its `store`, which writes the entity views of
      the field it packs onto it and returns it. */
  class Metadata {
    /** `$storeSize`, `$storeArrayCount`, `$storeRef`. */
    const size: nat
    const arrayCount: nat
    const handle: Handle
    /** `$storeSubarrays`, with the order in which its keys were added. */
    var subarrays: map<ElemType, TypedArray>
    var subarrayOrder: seq<ElemType>
    /** `$subarrayCursors`. */
    var cursors: map<ElemType, nat>
    /** The numeric keys 0 .. size - 1: the views of the field packed last. */
    var views: seq<View>
    /** `$storeFlattened`. */
    var flattened: seq<FlatEntry>

    /** The arrays `resetStore` fills. */
    ghost function DataArrays(): set<array<int>>
      reads this
    {
      FlatArrays() + SharedArrays()
    }

    ghost predicate Valid()
      reads this
    {
      (forall t: ElemType :: t in cursors)
      && (forall t :: t in subarrays <==> t in subarrayOrder)
      && (forall i, j :: 0 <= i < j < |subarrayOrder| ==> subarrayOrder[i] != subarrayOrder[j])
      && (forall t :: t in subarrays ==> BytesPerElement(t).Some? && subarrays[t].elem == t)
      && (|views| == 0 || |views| == size)
      && (subarrayOrder == [] ==> views == [])
    }

    constructor (size: nat, arrayCount: nat, handle: Handle)
      ensures Valid()
      ensures this.size == size && this.arrayCount == arrayCount && this.handle == handle
      ensures subarrays == map[] && subarrayOrder == [] && views == [] && flattened == []
      ensures cursors == map t | t in AllTypes :: 0
    {
      this.size := size;
      this.arrayCount := arrayCount;
      this.handle := handle;
      subarrays := map[];
      subarrayOrder := [];
      cursors := map t | t in AllTypes :: 0;
      views := [];
      flattened := [];
      new;
      forall t: ElemType
        ensures t in cursors
      {
        AllTypesComplete(t);
      }
    }

    /** `$storeFlattened.push` of a scalar buffer. */
    method PushBuffer(b: TypedArray)
      requires Valid()
      modifies this
      ensures Valid()
      ensures flattened == old(flattened) + [FlatBuffer(b)]
      ensures subarrays == old(subarrays) && subarrayOrder == old(subarrayOrder)
      ensures cursors == old(cursors) && views == old(views)
    {
      flattened := flattened + [FlatBuffer(b)];
    }

    /** `$storeFlattened.push` of the metadata object itself. */
    method PushMeta()
      requires Valid()
      modifies this
      ensures Valid()
      ensures flattened == old(flattened) + [FlatMeta(this)]
      ensures subarrays == old(subarrays) && subarrayOrder == old(subarrayOrder)
      ensures cursors == old(cursors) && views == old(views)
    {
      flattened := flattened + [FlatMeta(this)];
    }

    /** `$storeSubarrays[type] = array`. */
    method SetSubarray(t: ElemType, b: TypedArray)
      requires Valid()
      requires BytesPerElement(t).Some? && b.elem == t
      modifies this
      ensures Valid()
      ensures subarrays == old(subarrays)[t := b]
      ensures subarrayOrder == if t in old(subarrays) then old(subarrayOrder) else old(subarrayOrder) + [t]
      ensures flattened == old(flattened) && cursors == old(cursors) && views == old(views)
    {
      if t !in subarrays {
        subarrayOrder := subarrayOrder + [t];
      }
      subarrays := subarrays[t := b];
    }

    /** `createArrayStore` (src/Storage.js:141-188). */
    method CreateArrayStore(name: string, length: Option<nat>) returns (r: Result<Metadata>)
      requires Valid()
      modifies this
      ensures Valid()
      ensures r.Ok? <==> ArrayCheck(name, length).Ok?
      // both checks run before anything is allocated or any cursor moves
      ensures r.Err? ==> r.error == ArrayCheck(name, length).error && unchanged(this)
      ensures r.Ok? ==>
        var t := ArrayCheck(name, length).value.0;
        var len := ArrayCheck(name, length).value.1;
        var c := old(cursors)[t];
        && r.value == this
        && flattened == old(flattened)
        && t in subarrays
        // an existing shared buffer is reused unchanged
        && (t in old(subarrays) ==> subarrays == old(subarrays) && subarrayOrder == old(subarrayOrder))
        // otherwise one is allocated, sized from this field's length
        && (t !in old(subarrays) ==>
              subarrays == old(subarrays)[t := subarrays[t]]
              && subarrayOrder == old(subarrayOrder) + [t]
              && fresh(subarrays[t].data)
              && SharedBuffer(subarrays[t], t, arrayCount, len, size, Some(IndexWidthFor(len))))
        && views == FieldViews(subarrays[t], c, len, size)
        && cursors == old(cursors)[t := CursorAfter(c, len, size)]
    {
      var check := ArrayCheck(name, length);
      if check.Err? {
        return Err(check.error);
      }
      var t, len := check.value.0, check.value.1;
      if t !in subarrays {
        var b := NewSharedBuffer(t, arrayCount, len, size, Some(IndexWidthFor(len)));
        SetSubarray(t, b);
      }
      var vs, end := PackViews(subarrays[t], cursors[t], len, size);
      views := vs;
      cursors := cursors[t := end];
      r := Ok(this);
    }

    /** The field length `resizeSubarrays` reads for the `i`-th type it
        renews when the root's first view had length `first` (see
        Store.ResizeSubarrays). */
    static function RenewLength(first: nat, i: nat, n: nat): nat {
      if i == 0 || n == 0 then first else 0
    }

    /** Every shared buffer is zeroed and sized as `resizeSubarrays` sizes it
        for `n` entities, the `i`-th in creation order from field length
        `RenewLength(first, i, n)`. */
    ghost predicate Renewed(first: nat, n: nat)
      reads this, SharedArrays()
    {
      forall i {:trigger RenewLength(first, i, n)} :: 0 <= i < |subarrayOrder| ==>
        var t := subarrayOrder[i];
        && t in subarrays
        && SharedBuffer(subarrays[t], t, arrayCount, RenewLength(first, i, n), n, None)
    }

    /** The allocations of `resizeSubarrays` (src/Storage.js:91-103): type by
        type in creation order, the shared buffer is replaced by a new zeroed
        one sized for `n` entities, with two shadows copying it and no index
        width. Nothing is copied from the old buffer: `array.set` is handed
        the old array's `ArrayBuffer`, which has no `length`. */
    method RenewSubarrays(first: nat, n: nat)
      requires Valid()
      modifies this
      ensures Valid()
      ensures subarrayOrder == old(subarrayOrder) && subarrays.Keys == old(subarrays).Keys
      ensures flattened == old(flattened) && cursors == old(cursors) && views == old(views)
      ensures forall t :: t in subarrays ==> fresh(subarrays[t].data)
      ensures Renewed(first, n)
    {
      subarrays := RenewedBuffers(subarrayOrder, subarrays, arrayCount, first, n);
    }

    ghost function FlatArrays(): set<array<int>>
      reads this
    {
      set i | 0 <= i < |flattened| && flattened[i].FlatBuffer? :: flattened[i].buf.data
    }

    ghost function SharedArrays(): set<array<int>>
      reads this
    {
      set t | t in subarrays :: subarrays[t].data
    }

    /** The arrays of the flattened entries before the first metadata entry:
        those `resetStore` reaches before it throws. */
    ghost function Reached(): set<array<int>>
      reads this
    {
      set j | 0 <= j < |flattened| && AllBuffers(flattened[..j + 1]) :: flattened[j].buf.data
    }

    method ResetFlattened() returns (ok: bool)
      modifies FlatArrays()
      ensures ok <==> AllBuffers(flattened)
      ensures forall i :: 0 <= i < |flattened| && AllBuffers(flattened[..i + 1]) ==>
        flattened[i].buf.data[..] == Zeros(flattened[i].buf.data.Length)
      // the entries from the first metadata entry on are not reached
      ensures forall a :: a in FlatArrays() && a !in Reached() ==> a[..] == old(a[..])
    {
      var flat := flattened;
      var i := 0;
      while i < |flat|
        invariant i <= |flat|
        invariant AllBuffers(flat[..i])
        invariant forall j :: 0 <= j < i ==> flat[j].buf.data[..] == Zeros(flat[j].buf.data.Length)
        invariant forall a :: a in FlatArrays() && a !in (set j | 0 <= j < i :: flat[j].buf.data) ==>
          a[..] == old(a[..])
      {
        if flat[i].FlatMeta? {
          assert !AllBuffers(flat) && !AllBuffers(flat[..i + 1]);
          AllBuffersPrefixes(flat, i);
          ok := false;
          return;
        }
        Fill(flat[i].buf.data);
        assert flat[..i + 1] == flat[..i] + [flat[i]];
        i := i + 1;
      }
      assert flat[..i] == flat;
      AllBuffersPrefixes(flat, i);
      ok := true;
    }

    method ResetShared()
      requires Valid()
      modifies SharedArrays()
      ensures forall a :: a in SharedArrays() ==> a[..] == Zeros(a.Length)
    {
      var order := subarrayOrder;
      var k := 0;
      while k < |order|
        invariant k <= |order|
        invariant forall j :: 0 <= j < k ==>
          subarrays[order[j]].data[..] == Zeros(subarrays[order[j]].data.Length)
      {
        Fill(subarrays[order[k]].data);
        k := k + 1;
      }
    }

    /** The metadata is in packing state `st` of a walk that began with the
        views `views0` (see PackedAs). */
    ghost predicate Agrees(st: PackState, views0: seq<View>)
      reads this, SharedArrays()
    {
      PackedAs(subarrayOrder, cursors, subarrays, views, arrayCount, size, st, views0)
    }

    /** The scalar-leaf branch of `recursiveTransform` (src/Storage.js:236-241):
        a zeroed buffer with two shadows and the store's `$storeBase` is made
        and pushed onto `$storeFlattened`; the packing state is left alone. */
    method ScalarField(name: string) returns (r: Result<TypedArray>)
      requires Valid()
      modifies this
      ensures Valid()
      ensures r.Err? <==> ScalarCheck(name).Err?
      ensures r.Err? ==> r.error == ScalarCheck(name).error
      ensures r.Ok? ==> NodeShaped(Leaf(name), ScalarSlot(r.value), this) && Cleared([r.value], size)
      ensures r.Ok? ==> fresh(r.value.data)
      ensures r.Ok? ==> flattened == old(flattened) + [FlatBuffer(r.value)]
      ensures subarrays == old(subarrays) && subarrayOrder == old(subarrayOrder)
      ensures cursors == old(cursors) && views == old(views)
    {
      var created := NewScalar(name, size, handle);
      if created.Err? {
        return Err(created.error);
      }
      var b := created.value;
      PushBuffer(b);
      ClearedOne(b, size);
      r := Ok(b);
    }

    /** `createArrayStore` on a field that passes its checks moves the
        packing state by one leaf and keeps the shared buffers already made. */
    method PackField(name: string, length: Option<nat>, ghost st: PackState, ghost views0: seq<View>)
      requires Valid() && Agrees(st, views0) && ArrayCheck(name, length).Ok?
      modifies this
      ensures Valid() && flattened == old(flattened)
      ensures Agrees(PackLeaf(ArrayCheck(name, length).value.0, ArrayCheck(name, length).value.1, st, size), views0)
      ensures KeepsBuffers(old(subarrays), subarrays)
      ensures forall a :: a in SharedArrays() ==> a in old(SharedArrays()) || fresh(a)
    {
      ghost var order, curs, subs, vs := subarrayOrder, cursors, subarrays, views;
      ghost var t, len := ArrayCheck(name, length).value.0, ArrayCheck(name, length).value.1;
      var _ := CreateArrayStore(name, length);
      PackedAsLeaf(order, curs, subs, vs, subarrayOrder, cursors, subarrays, views,
                   arrayCount, size, st, views0, t, len);
    }

    /** The array-leaf branch of `recursiveTransform` (src/Storage.js:243-248):
        the field is packed and the metadata object itself is pushed onto
        `$storeFlattened`. */
    method ArrayField(name: string, length: Option<nat>, ghost st: PackState, ghost views0: seq<View>)
      returns (r: Result<Metadata>)
      requires Valid() && Agrees(st, views0)
      modifies this
      ensures Valid()
      ensures r.Err? <==> ArrayCheck(name, length).Err?
      ensures r.Err? ==> r.error == ArrayCheck(name, length).error
      ensures r.Ok? ==> r.value == this && flattened == old(flattened) + [FlatMeta(this)]
      ensures r.Ok? ==> Agrees(PackNode(ArrayLeaf(name, length), st, size), views0)
      ensures r.Ok? ==> KeepsBuffers(old(subarrays), subarrays)
      ensures r.Ok? ==> forall a :: a in SharedArrays() ==> a in old(SharedArrays()) || fresh(a)
    {
      var check := ArrayCheck(name, length);
      if check.Err? {
        return Err(check.error);
      }
      PackField(name, length, st, views0);
      PushMeta();
      r := Ok(this);
    }

    /** `recursiveTransform` on one key (src/Storage.js:234-257): a scalar leaf
        becomes a zeroed buffer with two shadows and is pushed onto
        `$storeFlattened`; an array leaf is packed and the metadata object
        itself is pushed; a group has its own keys transformed. */
    method TransformNode(n: Node, ghost st: PackState, ghost views0: seq<View>) returns (r: Result<Slot>)
      requires Valid() && Agrees(st, views0)
      modifies this
      decreases n, 0
      ensures Valid()
      ensures r.Ok? ==> Agrees(PackNode(n, st, size), views0)
      ensures r.Ok? ==> KeepsBuffers(old(subarrays), subarrays)
      // a key without array fields leaves the packing state alone
      ensures r.Ok? && NoArrays(n) ==>
        subarrays == old(subarrays) && subarrayOrder == old(subarrayOrder)
        && cursors == old(cursors) && views == old(views)
      ensures r.Err? <==> NodeError(n).Some?
      ensures r.Err? ==> r.error == NodeError(n).value
      ensures r.Ok? ==> NodeShaped(n, r.value, this)
      ensures r.Ok? ==> flattened == old(flattened) + SlotFlat(r.value)
      ensures r.Ok? ==> Cleared(SlotScalars(r.value), size)
      // every scalar buffer is a new array of its own, and so is every new shared buffer
      ensures r.Ok? ==> forall a :: a in ArraysOf(SlotScalars(r.value)) ==> fresh(a)
      ensures r.Ok? ==> Apart(SlotScalars(r.value), SharedArrays())
      ensures r.Ok? ==> forall a :: a in SharedArrays() ==> a in old(SharedArrays()) || fresh(a)
    {
      match n {
        case Leaf(name) =>
          var created := ScalarField(name);
          if created.Err? {
            return Err(created.error);
          }
          r := Ok(ScalarSlot(created.value));
        case ArrayLeaf(name, length) =>
          var packed := ArrayField(name, length, st, views0);
          if packed.Err? {
            return Err(packed.error);
          }
          r := Ok(ArraySlot(this));
        case Group(fs) =>
          var sub := Transform(fs, st, views0);
          if sub.Err? {
            return Err(sub.error);
          }
          r := Ok(GroupSlot(sub.value));
      }
    }

    /** The first `i` keys of `fields` have been transformed into `es`,
        starting from `$storeFlattened` equal to `flat`, the shared buffers
        `subs` and packing state `st`. */
    ghost predicate TransformedUpTo(fields: seq<Field>, i: nat, es: seq<Entry>, st: PackState,
                                    views0: seq<View>, flat: seq<FlatEntry>,
                                    subs: map<ElemType, TypedArray>)
      reads this, ArraysOf(Scalars(es)), SharedArrays()
    {
      i <= |fields| && Valid()
      && Shaped(fields[..i], es, this)
      && flattened == flat + Flat(es)
      && Cleared(Scalars(es), size)
      && Agrees(PackTree(fields[..i], st, size), views0)
      && KeepsBuffers(subs, subarrays)
      && Apart(Scalars(es), SharedArrays())
    }

    /** One step of the `reduce` over the keys: key `i` is transformed. */
    method TransformKey(fields: seq<Field>, i: nat, es: seq<Entry>, ghost st: PackState,
                        ghost views0: seq<View>, ghost flat: seq<FlatEntry>,
                        ghost subs: map<ElemType, TypedArray>)
      returns (r: Result<seq<Entry>>)
      requires i < |fields| && TransformedUpTo(fields, i, es, st, views0, flat, subs)
      modifies this
      decreases fields, 0
      ensures Valid()
      ensures r.Err? <==> NodeError(fields[i].node).Some?
      ensures r.Err? ==> r.error == NodeError(fields[i].node).value
      ensures r.Ok? ==> TransformedUpTo(fields, i + 1, r.value, st, views0, flat, subs)
      ensures r.Ok? ==> forall a :: a in ArraysOf(Scalars(r.value)) ==> a in ArraysOf(Scalars(es)) || fresh(a)
      ensures r.Ok? ==> forall a :: a in SharedArrays() ==> a in old(SharedArrays()) || fresh(a)
    {
      var f := fields[i];
      PrefixSnoc(fields, i);
      ghost var done := Scalars(es);
      assert allocated(done);
      ghost var doneArrays, shared0 := ArraysOf(done), SharedArrays();
      assert forall a :: a in doneArrays ==> allocated(a);
      ghost var before := flattened;
      ghost var kept := subarrays;
      var slot := TransformNode(f.node, PackTree(fields[..i], st, size), views0);
      if slot.Err? {
        return Err(slot.error);
      }
      PackTreeStep(fields, i, st, size);
      KeepsTrans(subs, kept, subarrays);
      assert Cleared(done, size);
      ClearedConcat(done, SlotScalars(slot.value), size);
      ApartStep(done, SlotScalars(slot.value), shared0, SharedArrays());
      ArraysOfConcat(done, SlotScalars(slot.value));
      ScalarsSnoc(es, Entry(f.key, slot.value));
      FlatStep(flat, before, es, Entry(f.key, slot.value), flattened);
      ShapedSnoc(fields[..i], es, f, Entry(f.key, slot.value), this);
      r := Ok(es + [Entry(f.key, slot.value)]);
    }

    /** `Object.keys(a).reduce(recursiveTransform, a)`: the keys of one object,
        in order, stopping at the first leaf that throws. */
    method Transform(fields: seq<Field>, ghost st: PackState, ghost views0: seq<View>)
      returns (r: Result<seq<Entry>>)
      requires Valid() && Agrees(st, views0)
      modifies this
      decreases fields, 1
      ensures Valid()
      ensures r.Ok? ==> Agrees(PackTree(fields, st, size), views0)
      ensures r.Ok? ==> KeepsBuffers(old(subarrays), subarrays)
      ensures r.Ok? && NoArraysIn(fields) ==>
        subarrays == old(subarrays) && subarrayOrder == old(subarrayOrder)
        && cursors == old(cursors) && views == old(views)
      ensures r.Err? <==> FirstError(fields).Some?
      ensures r.Err? ==> r.error == FirstError(fields).value
      ensures r.Ok? ==> Shaped(fields, r.value, this)
      ensures r.Ok? ==> flattened == old(flattened) + Flat(r.value)
      ensures r.Ok? ==> Cleared(Scalars(r.value), size)
      ensures r.Ok? ==> forall a :: a in ArraysOf(Scalars(r.value)) ==> fresh(a)
      ensures r.Ok? ==> Apart(Scalars(r.value), SharedArrays())
      ensures r.Ok? ==> forall a :: a in SharedArrays() ==> a in old(SharedArrays()) || fresh(a)
    {
      ghost var order, curs, subs, vs, flat := subarrayOrder, cursors, subarrays, views, flattened;
      ghost var shared0 := SharedArrays();
      var es: seq<Entry> := [];
      var i := 0;
      assert fields[..0] == [];
      while i < |fields|
        invariant TransformedUpTo(fields, i, es, st, views0, flat, subs)
        invariant FirstError(fields) == FirstError(fields[i..])
        invariant forall a :: a in ArraysOf(Scalars(es)) ==> fresh(a)
        invariant forall a :: a in SharedArrays() ==> a in shared0 || fresh(a)
      {
        assert fields[i..][1..] == fields[i + 1..];
        var next := TransformKey(fields, i, es, st, views0, flat, subs);
        if next.Err? {
          return Err(next.error);
        }
        es := next.value;
        i := i + 1;
      }
      assert fields[..i] == fields;
      if NoArraysIn(fields) {
        NoArraysPackNothing(fields, st, size);
        PackedAsSame(order, curs, subs, vs, subarrayOrder, cursors, subarrays, views,
                     arrayCount, size, st, views0);
      }
      r := Ok(es);
    }
  }

  /** `resizeRecursive` (src/Storage.js:75-87): every scalar buffer of the tree
      is replaced by a grown copy, and so is each of its shadows, from its own
      contents; the metadata object of an array field only holds views, which
      are tagged `$subarray` and skipped, so it is left as it is. */
  method ResizeRecursive(es: seq<Entry>, n: nat) returns (rs: seq<Entry>)
    requires AtMost(Scalars(es), n)
    decreases es, 1
    ensures SameShape(es, rs)
    ensures AllGrown(Scalars(es), Scalars(rs), n)
    // every grown buffer is a new array of its own
    ensures forall a :: a in ArraysOf(Scalars(rs)) ==> fresh(a)
    ensures Apart(Scalars(rs), {})
  {
    rs := [];
    var i := 0;
    while i < |es|
      invariant i <= |es|
      invariant SameShape(es[..i], rs)
      invariant AllGrown(Scalars(es[..i]), Scalars(rs), n)
      invariant forall a :: a in ArraysOf(Scalars(rs)) ==> fresh(a)
      invariant Apart(Scalars(rs), {})
    {
      rs := ResizeKey(es, i, rs, n);
      i := i + 1;
    }
    assert es[..i] == es;
  }

  /** One key of `resizeRecursive`'s walk: the value under key `i` is
      resized and appended to the keys done so far. */
  method ResizeKey(es: seq<Entry>, i: nat, rs: seq<Entry>, n: nat) returns (rs2: seq<Entry>)
    requires i < |es| && AtMost(Scalars(es), n)
    requires SameShape(es[..i], rs) && AllGrown(Scalars(es[..i]), Scalars(rs), n)
    requires Apart(Scalars(rs), {})
    decreases es, 0
    ensures SameShape(es[..i + 1], rs2) && AllGrown(Scalars(es[..i + 1]), Scalars(rs2), n)
    ensures Apart(Scalars(rs2), {})
    ensures forall a :: a in ArraysOf(Scalars(rs2)) ==> a in ArraysOf(Scalars(rs)) || fresh(a)
  {
    ScalarsSplit(es, i);
    AtMostPart(Scalars(es[..i]), SlotScalars(es[i].slot), Scalars(es[i + 1..]), n);
    ghost var done, doneR := Scalars(es[..i]), Scalars(rs);
    assert allocated(done) && allocated(doneR);
    ghost var doneArrays := ArraysOf(doneR);
    assert forall a :: a in doneArrays ==> allocated(a);
    var slot := ResizeSlot(es[i].slot, n);
    assert AllGrown(done, doneR, n);
    ApartStep(doneR, SlotScalars(slot), {}, {});
    ArraysOfConcat(doneR, SlotScalars(slot));
    ScalarsSnoc(es[..i], es[i]);
    ScalarsSnoc(rs, Entry(es[i].key, slot));
    AllGrownConcat(done, doneR, SlotScalars(es[i].slot), SlotScalars(slot), n);
    SameShapeSnoc(es[..i], rs, es[i], Entry(es[i].key, slot));
    assert es[..i + 1] == es[..i] + [es[i]];
    rs2 := rs + [Entry(es[i].key, slot)];
  }

  /** One value of `resizeRecursive`'s walk. */
  method ResizeSlot(s: Slot, n: nat) returns (r: Slot)
    requires AtMost(SlotScalars(s), n)
    decreases s, 0
    ensures SlotSameShape(s, r)
    ensures AllGrown(SlotScalars(s), SlotScalars(r), n)
    ensures forall a :: a in ArraysOf(SlotScalars(r)) ==> fresh(a)
    ensures Apart(SlotScalars(r), {})
  {
    match s {
      case ScalarSlot(b) =>
        assert b == SlotScalars(s)[0];
        var data := Resize(b.data, n);
        var b2 := new TypedArray(b.elem, data, Grown(b.query, n), Grown(b.serialize, n), None, None);
        r := ScalarSlot(b2);
      case ArraySlot(m) =>
        r := ArraySlot(m);
      case GroupSlot(cs) =>
        var sub := ResizeRecursive(cs, n);
        r := GroupSlot(sub);
    }
  }

  /** Buffers of `m` elements fit `n >= m`. */
  lemma SizedAtMost(bs: seq<TypedArray>, m: nat, n: nat)
    requires Sized(bs, m) && m <= n
    ensures AtMost(bs, n)
  {
  }

  /** Buffers grown to `n` have `n` elements. */
  lemma GrownSized(bs: seq<TypedArray>, rs: seq<TypedArray>, n: nat)
    requires AllGrown(bs, rs, n)
    ensures Sized(rs, n)
  {
    forall i | 0 <= i < |rs|
      ensures rs[i].data.Length == n && |rs[i].query| == n && |rs[i].serialize| == n
    {
      assert GrownFrom(bs[i], rs[i], n);
      assert |rs[i].data[..]| == |Grown(bs[i].data[..], n)|;
    }
  }

  lemma AtMostPart(a: seq<TypedArray>, b: seq<TypedArray>, c: seq<TypedArray>, n: nat)
    requires AtMost(a + b + c, n)
    ensures AtMost(b, n)
  {
    forall i | 0 <= i < |b|
      ensures b[i].data.Length <= n && |b[i].query| <= n && |b[i].serialize| <= n
    {
      assert (a + b + c)[|a| + i] == b[i];
    }
  }

  lemma AllGrownConcat(a: seq<TypedArray>, a2: seq<TypedArray>, b: seq<TypedArray>,
                       b2: seq<TypedArray>, n: nat)
    requires AllGrown(a, a2, n) && AllGrown(b, b2, n)
    ensures AllGrown(a + b, a2 + b2, n)
  {
    forall i | |a| <= i < |a + b|
      ensures GrownFrom((a + b)[i], (a2 + b2)[i], n)
    {
      assert (a + b)[i] == b[i - |a|] && (a2 + b2)[i] == b2[i - |a|];
    }
  }

  lemma SameShapeSnoc(es: seq<Entry>, rs: seq<Entry>, e: Entry, r: Entry)
    requires SameShape(es, rs) && r.key == e.key && SlotSameShape(e.slot, r.slot)
    ensures SameShape(es + [e], rs + [r])
  {
    forall i | 0 <= i < |es| + 1
      ensures (rs + [r])[i].key == (es + [e])[i].key
      ensures SlotSameShape((es + [e])[i].slot, (rs + [r])[i].slot)
    {
      if i < |es| {
        assert (es + [e])[i] == es[i] && (rs + [r])[i] == rs[i];
      }
    }
  }

  /** Every element of the list is a buffer: `fill` exists on all of them. */
  predicate AllBuffers(fl: seq<FlatEntry>) {
    forall i :: 0 <= i < |fl| ==> fl[i].FlatBuffer?
  }

  /** The prefixes of a list of buffers are lists of buffers. */
  lemma AllBuffersPrefixes(fl: seq<FlatEntry>, i: nat)
    requires i <= |fl| && AllBuffers(fl[..i])
    ensures forall j :: 0 <= j < i ==> fl[j].FlatBuffer? && AllBuffers(fl[..j + 1])
  {
    forall j | 0 <= j < i
      ensures fl[j].FlatBuffer? && AllBuffers(fl[..j + 1])
    {
      assert fl[..i][j] == fl[j];
      assert forall k :: 0 <= k <= j ==> fl[..j + 1][k] == fl[..i][k];
    }
  }

  /** The root store `createStore` registers (src/Storage.js:259-262): the
      transformed schema, with the metadata's properties copied onto it by
      `Object.assign`. The copied `$storeSubarrays` and `$storeFlattened` are the
      metadata's own objects, so the root reaches them through `meta`. */
  class Store {
    var fields: seq<Entry>
    /** `$storeSize`; `resizeStore` sets the root's own copy. */
    var size: nat
    /** The numeric keys copied from the metadata. */
    var views: seq<View>
    /** `$subarrayCursors`: the metadata's table until `resizeSubarrays`
        replaces the root's copy. */
    var cursors: map<ElemType, nat>
    const meta: Metadata

    constructor (fields: seq<Entry>, meta: Metadata)
      ensures this.fields == fields && this.meta == meta
      ensures size == meta.size && views == meta.views && cursors == meta.cursors
    {
      this.fields := fields;
      this.meta := meta;
      size := meta.size;
      views := meta.views;
      cursors := meta.cursors;
    }

    ghost predicate Valid()
      reads this, meta
    {
      meta.Valid()
      && Sized(Scalars(fields), size)
      && (|views| == 0 || |views| == size)
      && (meta.subarrayOrder == [] ==> views == [])
      && meta.size <= size
      // `$storeFlattened` lists no shared buffer
      && meta.FlatArrays() !! meta.SharedArrays()
    }

    /** `resizeSubarrays` (src/Storage.js:89-118). The root's cursor table is
        replaced by an empty one. Then, type by type in creation order, a new
        zeroed shared buffer is sized from the length of the root's first view,
        and the entity views are re-derived from the emptied cursor table, so
        from the second type on that length reads as 0. The first type of a
        store that has array fields but no views throws a TypeError. */
    method ResizeSubarrays(n: nat) returns (ok: bool)
      requires meta.Valid()
      modifies this, meta
      ensures meta.Valid()
      ensures ok <==> meta.subarrayOrder == [] || |old(views)| > 0
      ensures cursors == map[]
      ensures fields == old(fields) && size == old(size)
      ensures meta.flattened == old(meta.flattened) && meta.subarrayOrder == old(meta.subarrayOrder)
      ensures meta.views == old(meta.views) && meta.cursors == old(meta.cursors)
      ensures !ok ==> meta.subarrays == old(meta.subarrays) && views == old(views)
      ensures ok ==> meta.subarrays.Keys == old(meta.subarrays).Keys
      ensures ok ==> forall t :: t in meta.subarrays ==> fresh(meta.subarrays[t].data)
      ensures ok && meta.subarrayOrder != [] ==> meta.Renewed(ViewLength(old(views)[0]), n)
      ensures ok && n > 0 && meta.subarrayOrder != [] ==>
        var last := meta.subarrayOrder[|meta.subarrayOrder| - 1];
        |views| == n && forall e :: 0 <= e < n ==> views[e] == Detached(meta.subarrays[last])
      ensures ok && (n == 0 || meta.subarrayOrder == []) ==> views == old(views)
    {
      cursors := map[];
      var order := meta.subarrayOrder;
      if order == [] {
        return true;
      }
      if |views| == 0 {
        return false;
      }
      ghost var rootViews := views;
      meta.RenewSubarrays(ViewLength(views[0]), n);
      assert views == rootViews;
      if n > 0 {
        DetachViews(n);
      }
      ok := true;
    }

    /** The entity loop of `resizeSubarrays` for the type renewed last
        (src/Storage.js:105-116): the root's numeric keys become `n` views
        that address nothing. */
    method DetachViews(n: nat)
      requires meta.subarrayOrder != [] && meta.subarrayOrder[|meta.subarrayOrder| - 1] in meta.subarrays
      modifies this
      ensures fields == old(fields) && size == old(size) && cursors == old(cursors)
      ensures |views| == n
      ensures forall e :: 0 <= e < n ==>
        views[e] == Detached(meta.subarrays[meta.subarrayOrder[|meta.subarrayOrder| - 1]])
    {
      views := DetachedViews(meta.subarrays[meta.subarrayOrder[|meta.subarrayOrder| - 1]], n);
    }

    /** The first two steps of `resizeStore` (src/Storage.js:121-122): the
        root's `$storeSize` is set and every scalar buffer of the tree is
        replaced by a new grown one. */
    method GrowTree(n: nat)
      requires Sized(Scalars(fields), size) && size <= n
      modifies this
      ensures size == n && views == old(views) && cursors == old(cursors)
      ensures SameShape(old(fields), fields)
      ensures AllGrown(Scalars(old(fields)), Scalars(fields), n)
      ensures Sized(Scalars(fields), n)
      ensures forall a :: a in ArraysOf(Scalars(fields)) ==> fresh(a)
      ensures Apart(Scalars(fields), {})
    {
      ghost var before := Scalars(fields);
      SizedAtMost(before, size, n);
      size := n;
      var grown := ResizeRecursive(fields, n);
      GrownSized(before, Scalars(grown), n);
      fields := grown;
    }

    /** `resizeStore` (src/Storage.js:120-124). */
    method ResizeStore(n: nat) returns (ok: bool)
      requires Valid() && size <= n
      modifies this, meta
      ensures Valid()
      ensures size == n
      ensures SameShape(old(fields), fields)
      ensures AllGrown(Scalars(old(fields)), Scalars(fields), n)
      ensures forall a :: a in ArraysOf(Scalars(fields)) ==> fresh(a)
      // the flattened list still holds the buffers the tree had before, so
      // none of the grown buffers is an array `resetStore` fills
      ensures Apart(Scalars(fields), meta.DataArrays())
      ensures cursors == map[]
      ensures meta.flattened == old(meta.flattened) && meta.subarrayOrder == old(meta.subarrayOrder)
      ensures meta.views == old(meta.views) && meta.cursors == old(meta.cursors)
      ensures ok <==> meta.subarrayOrder == [] || |old(views)| > 0
      ensures !ok ==> meta.subarrays == old(meta.subarrays) && views == old(views)
      ensures ok ==> meta.subarrays.Keys == old(meta.subarrays).Keys
      ensures ok ==> forall t :: t in meta.subarrays ==> fresh(meta.subarrays[t].data)
      ensures ok && meta.subarrayOrder != [] ==> meta.Renewed(ViewLength(old(views)[0]), n)
      ensures ok && n > 0 && meta.subarrayOrder != [] ==>
        var last := meta.subarrayOrder[|meta.subarrayOrder| - 1];
        |views| == n && forall e :: 0 <= e < n ==> views[e] == Detached(meta.subarrays[last])
      ensures ok && (n == 0 || meta.subarrayOrder == []) ==> views == old(views)
    {
      ghost var before := Scalars(fields);
      assert allocated(before);
      assert forall a :: a in meta.FlatArrays() ==> allocated(a);
      GrowTree(n);
      ghost var after := Scalars(fields);
      assert allocated(after);
      ghost var grownArrays := ArraysOf(after);
      assert forall a :: a in grownArrays ==> allocated(a);
      ok := ResizeSubarrays(n);
      assert AllGrown(before, after, n);
      assert grownArrays !! meta.FlatArrays() && grownArrays !! meta.SharedArrays();
    }

    /** `resetStore` (src/Storage.js:126-133). */
    method ResetStore() returns (ok: bool)
      requires Valid()
      modifies meta.DataArrays()
      ensures ok <==> AllBuffers(meta.flattened)
      ensures forall i :: 0 <= i < |meta.flattened| && AllBuffers(meta.flattened[..i + 1]) ==>
        meta.flattened[i].buf.data[..] == Zeros(meta.flattened[i].buf.data.Length)
      ensures ok ==> forall a :: a in meta.FlatArrays() ==> a[..] == Zeros(a.Length)
      ensures ok ==> forall t :: t in meta.subarrays ==>
        meta.subarrays[t].data[..] == Zeros(meta.subarrays[t].data.Length)
      // a throw leaves every array it had not reached, shared buffers included
      ensures !ok ==> forall a :: a in meta.DataArrays() && a !in meta.Reached() ==> a[..] == old(a[..])
      ensures !ok ==> forall t :: t in meta.subarrays ==>
        meta.subarrays[t].data[..] == old(meta.subarrays[t].data[..])
    {
      ok := meta.ResetFlattened();
      if ok {
        ghost var flat := meta.flattened;
        meta.ResetShared();
        assert forall j :: 0 <= j < |flat| ==> flat[j].buf.data[..] == Zeros(flat[j].buf.data.Length);
      }
    }
  }
}
