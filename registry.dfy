/** The module-level registry of built stores and the public entry points
    `createStore` and `free` (src/Storage.js:66, 200-271). A store is
    registered under a fresh handle (the `$store` symbol); every
    `$storeBase` accessor looks its store up there, so after `free` the
    accessors of that store find nothing. */
module StoreRegistry {
  import opened Catalog
  import opened Schema
  import opened Buffers
  import opened Packing
  import opened Layout
  import opened Storage

  /** A `Map` given as a schema: `createStore` only records the size on it. */
  class MapSchema {
    /** `$storeSize`, absent until `createStore` sets it. */
    var storeSize: Option<nat>

    constructor ()
      ensures storeSize == None
    {
      storeSize := None;
    }
  }

  /** What `createStore` is given: a `Map`, or a plain object schema. */
  datatype Input = MapInput(m: MapSchema) | ObjectInput(fields: seq<Field>)

  /** What `createStore` returns: the `Map` itself, the empty object `{}` of a
      schema without keys, or a registered store. */
  datatype Created = SameMap(m: MapSchema) | EmptyObject | Registered(store: Store)

  /** Every scalar buffer of a tree carries the given `$storeBase` handle. */
  ghost predicate AllBase(bs: seq<TypedArray>, h: Handle) {
    forall i :: 0 <= i < |bs| ==> bs[i].base == Some(h)
  }

  /** A tree shaped by the builder of metadata `m` holds only scalar buffers
      whose `$storeBase` accessor names `m`'s store. */
  lemma {:induction false} ShapedBase(fields: seq<Field>, es: seq<Entry>, m: Metadata)
    requires Shaped(fields, es, m)
    decreases fields, 1
    ensures AllBase(Scalars(es), m.handle)
  {
    if es != [] {
      var k := |es| - 1;
      assert Shaped(fields[..k], es[..k], m) by {
        forall i | 0 <= i < k
          ensures es[..k][i].key == fields[..k][i].key
          ensures NodeShaped(fields[..k][i].node, es[..k][i].slot, m)
        {
          assert es[..k][i] == es[i] && fields[..k][i] == fields[i];
        }
      }
      ShapedBase(fields[..k], es[..k], m);
      NodeBase(fields[k].node, es[k].slot, m);
    }
  }

  lemma {:induction false} NodeBase(n: Node, s: Slot, m: Metadata)
    requires NodeShaped(n, s, m)
    decreases n, 0
    ensures AllBase(SlotScalars(s), m.handle)
  {
    match n {
      case Leaf(_) =>
      case ArrayLeaf(_, _) =>
      case Group(fs) => ShapedBase(fs, s.entries, m);
    }
  }

  /** The packing state a build reaches: the walk over the schema starts
      with no shared buffers, every cursor at 0 and no views. */
  function BuildPack(fields: seq<Field>, size: nat): PackState {
    PackTree(fields, PackState([], map t | t in AllTypes :: 0, map[], None), size)
  }

  /** A built store's metadata is in the packing state of the whole schema:
      its shared buffers, creation order, cursors and views are those
      BuildPack describes (see Storage.PackedAs). */
  ghost predicate BuiltPacked(fields: seq<Field>, size: nat, r: Result<Created>)
    reads if r.Ok? && r.value.Registered? then {r.value.store.meta} else {}
    reads if r.Ok? && r.value.Registered? then r.value.store.meta.SharedArrays() else {}
  {
    r.Ok? && r.value.Registered? ==> r.value.store.meta.Agrees(BuildPack(fields, size), [])
  }

  /** What building an object schema under handle `h` yields: the error of
      the array count when it overflows the call stack, `{}` for a schema with
      no keys, the first error a leaf throws, or else a new store whose tree
      has the schema's shape, whose scalar buffers are zeroed and carry `h`
      as their `$storeBase`, whose flattened list lists them, and whose root
      shows the metadata's views and cursors. */
  ghost predicate Built(fields: seq<Field>, size: nat, h: Handle, r: Result<Created>)
    reads if r.Ok? && r.value.Registered? then {r.value.store, r.value.store.meta} else {}
    reads if r.Ok? && r.value.Registered? then ArraysOf(Scalars(r.value.store.fields)) else {}
  {
    if ArrayCount(fields).None? then r == Err(CallStackExceeded)
    else if fields == [] then r == Ok(EmptyObject)
    else if FirstError(fields).Some? then r == Err(FirstError(fields).value)
    else
      r.Ok? && r.value.Registered?
      && var s := r.value.store;
      && s.meta.handle == h
      && s.meta.arrayCount == ArrayCount(fields).value
      && s.size == size && s.meta.size == size
      && Shaped(fields, s.fields, s.meta)
      && Cleared(Scalars(s.fields), size)
      && Apart(Scalars(s.fields), s.meta.SharedArrays())
      && AllBase(Scalars(s.fields), h)
      && s.meta.flattened == Flat(s.fields)
      && s.views == s.meta.views && s.cursors == s.meta.cursors
      && s.Valid()
  }

  /** The object-schema part of `createStore` (src/Storage.js:208-266): the
      array fields are counted first (a group key naming its own root field
      recurses until the call stack overflows), then a schema with no keys
      yields `{}`, and otherwise the schema is transformed key by key into a
      new store, which is returned only when no leaf threw. */
  method BuildStore(fields: seq<Field>, size: nat, h: Handle) returns (r: Result<Created>)
    ensures Built(fields, size, h, r) && BuiltPacked(fields, size, r)
    ensures r.Ok? && r.value.Registered? ==>
      fresh(r.value.store) && fresh(r.value.store.meta) && r.value.store.meta.handle == h
    // every buffer of the new store is a new array
    ensures r.Ok? && r.value.Registered? ==>
      && (forall a :: a in ArraysOf(Scalars(r.value.store.fields)) ==> fresh(a))
      && (forall a :: a in r.value.store.meta.SharedArrays() ==> fresh(a))
  {
    var count := ArrayCount(fields);
    if count.None? {
      return Err(CallStackExceeded);
    }
    var meta := new Metadata(size, count.value, h);
    if fields == [] {
      return Ok(EmptyObject);
    }
    ghost var start := PackState([], map t | t in AllTypes :: 0, map[], None);
    assert meta.Agrees(start, []);
    var transformed := meta.Transform(fields, start, []);
    if transformed.Err? {
      return Err(transformed.error);
    }
    var es := transformed.value;
    FlatArraysScalars(es);
    ShapedBase(fields, es, meta);
    ghost var scalars := Scalars(es);
    ClearedSized(scalars, size);
    assert allocated(scalars);
    var s := new Store(es, meta);
    assert Cleared(scalars, size);
    assert s.Valid();
    r := Ok(Registered(s));
  }

  /** The shared buffer and cursor of every type after a build
      (src/Storage.js:141-188, 234-257): a type has a buffer exactly when the
      schema has an array field of it, sized from the length of the first such
      field in visiting order, and its cursor has moved past all of them,
      `size` slots per unit of length. */
  lemma BuiltShared(fields: seq<Field>, size: nat, h: Handle, r: Result<Created>, t: ElemType)
    requires Built(fields, size, h, r) && BuiltPacked(fields, size, r)
    requires r.Ok? && r.value.Registered?
    ensures var m := r.value.store.meta;
      && t in m.cursors
      && m.cursors[t] == PackedCursor(Lengths(fields, t), size) == size * Sum(Lengths(fields, t))
      && (t in m.subarrays <==> Lengths(fields, t) != [])
      && (Lengths(fields, t) != [] ==>
            SharedBuffer(m.subarrays[t], t, m.arrayCount, Lengths(fields, t)[0], size,
                         Some(IndexWidthFor(Lengths(fields, t)[0]))))
  {
    var m := r.value.store.meta;
    var start := PackState([], map u | u in AllTypes :: 0, map[], None);
    AllTypesComplete(t);
    PackTreeCursor(fields, start, size, t, []);
    assert [] + Lengths(fields, t) == Lengths(fields, t);
    PackedCursorSum(Lengths(fields, t), size);
    PackTreeFirst(fields, start, size, t);
  }

  /** The root's views after a build (src/Storage.js:170-185, 259): with no
      array field there are none; otherwise they are the `size` consecutive
      slices of the field packed last, one per entity, in its type's shared
      buffer, the last ending at that type's cursor. */
  lemma BuiltViews(fields: seq<Field>, size: nat, h: Handle, r: Result<Created>)
    requires Built(fields, size, h, r) && BuiltPacked(fields, size, r)
    requires r.Ok? && r.value.Registered?
    ensures var s := r.value.store;
      var last := BuildPack(fields, size).last;
      && (last.None? ==> s.views == [])
      && (last.Some? ==>
            var t := last.value.elem;
            && t in s.meta.subarrays
            && |s.views| == size
            && (forall e :: 0 <= e < size ==>
                  s.views[e].Slice? && s.views[e].buf == s.meta.subarrays[t]
                  && s.views[e].to == s.views[e].from + last.value.length)
            && (forall e1, e2 :: 0 <= e1 < e2 < size ==> s.views[e1].to <= s.views[e2].from)
            && (size > 0 ==> s.views[size - 1].to == s.meta.cursors[t]))
  {
    var start := PackState([], map u | u in AllTypes :: 0, map[], None);
    PackTreeLast(fields, start, size);
    var last := BuildPack(fields, size).last;
    if last.Some? {
      var m := r.value.store.meta;
      FieldViewsPacked(m.subarrays[last.value.elem], last.value.at, last.value.length, size);
    }
  }

  /** When the fields of the last packed type all have the same length and
      number no more than the array count, every view of the root lies inside
      its shared buffer. */
  lemma BuiltViewsFit(fields: seq<Field>, size: nat, h: Handle, r: Result<Created>)
    requires Built(fields, size, h, r) && BuiltPacked(fields, size, r)
    requires r.Ok? && r.value.Registered?
    requires BuildPack(fields, size).last.Some?
    requires var ls := Lengths(fields, BuildPack(fields, size).last.value.elem);
      (forall i :: 0 <= i < |ls| ==> ls[i] == ls[0]) && |ls| <= r.value.store.meta.arrayCount
    ensures var s := r.value.store;
      var t := BuildPack(fields, size).last.value.elem;
      t in s.meta.subarrays
      && forall e :: 0 <= e < |s.views| ==> s.views[e].Slice? && s.views[e].to <= s.meta.subarrays[t].data.Length
  {
    var s := r.value.store;
    var t := BuildPack(fields, size).last.value.elem;
    BuiltShared(fields, size, h, r, t);
    BuiltViews(fields, size, h, r);
    var ls := Lengths(fields, t);
    SameLengthFieldsFit(BytesPerElement(t).value, s.meta.arrayCount, ls, size);
    if size > 0 {
      forall e | 0 <= e < |s.views|
        ensures s.views[e].to <= s.views[size - 1].to
      {
        if e < size - 1 {
          assert s.views[e].to <= s.views[size - 1].from;
        }
      }
    }
  }

  /** After a build, `$storeFlattened` holds only buffers exactly when the
      schema has no array field, and it lists every scalar buffer of the tree.
      So `resetStore` on a store with scalar fields only succeeds and zeroes
      every one of them (see Store.ResetStore), and on a store with an array
      field it throws. */
  lemma BuiltFlattened(fields: seq<Field>, size: nat, h: Handle, r: Result<Created>)
    requires Built(fields, size, h, r) && r.Ok? && r.value.Registered?
    ensures AllBuffers(r.value.store.meta.flattened) <==> NoArraysIn(fields)
    ensures ArraysOf(Scalars(r.value.store.fields)) <= r.value.store.meta.FlatArrays()
  {
    var s := r.value.store;
    ShapedFlatBuffers(fields, s.fields, s.meta);
    ScalarsListed(s.fields);
    forall a | a in ArraysOf(Scalars(s.fields))
      ensures a in s.meta.FlatArrays()
    {
      var i :| 0 <= i < |Scalars(s.fields)| && Scalars(s.fields)[i].data == a;
      assert FlatBuffer(Scalars(s.fields)[i]) in s.meta.flattened;
      var j :| 0 <= j < |s.meta.flattened| && s.meta.flattened[j] == FlatBuffer(Scalars(s.fields)[i]);
    }
  }

  /** On a flat schema with distinct keys, no type has more array fields than
      the array count. */
  lemma FlatFieldsCounted(fields: seq<Field>, t: ElemType)
    requires IsFlat(fields) && DistinctKeys(fields)
    ensures ArrayCount(fields).Some? && |Lengths(fields, t)| <= ArrayCount(fields).value
  {
    FlatArrayCount(fields);
    FlatLengthsBound(fields, t);
  }

  /** Zeroed buffers of `n` elements have `n` elements. */
  lemma ClearedSized(bs: seq<TypedArray>, n: nat)
    requires Cleared(bs, n)
    ensures Sized(bs, n)
  {
    forall i | 0 <= i < |bs|
      ensures bs[i].data.Length == n
    {
      assert |bs[i].data[..]| == |Zeros(n)|;
    }
  }

  /** `stores`, keyed by the `$store` symbol of each registered store. */
  class Registry {
    var stores: map<Handle, Store>
    /** The handles handed out so far are exactly those below `next`. */
    var next: Handle

    ghost predicate Valid()
      reads this
    {
      forall h :: h in stores ==> h < next && stores[h].meta.handle == h
    }

    constructor ()
      ensures Valid()
      ensures stores == map[] && next == 0
    {
      stores := map[];
      next := 0;
    }

    /** What the `$storeBase` accessor for handle `h` returns: the store
        registered under it, if it is still there. */
    function Resolve(h: Handle): (r: Option<Store>)
      reads this
      ensures r.Some? <==> h in stores
      ensures r.Some? ==> r.value == stores[h]
    {
      if h in stores then Some(stores[h]) else None
    }

    /** `createStore` (src/Storage.js:200-267). A fresh handle is made on
        every call. A `Map` only gets its size recorded; an object schema is
        built by BuildStore and the result, when it is a store, is registered
        under the new handle. */
    method CreateStore(input: Input, size: nat) returns (r: Result<Created>)
      requires Valid()
      modifies this, if input.MapInput? then {input.m} else {}
      ensures Valid()
      ensures next == old(next) + 1
      ensures input.MapInput? ==>
        r == Ok(SameMap(input.m)) && input.m.storeSize == Some(size) && stores == old(stores)
      ensures input.ObjectInput? ==> Built(input.fields, size, old(next), r)
      ensures input.ObjectInput? ==> BuiltPacked(input.fields, size, r)
      ensures r.Ok? && r.value.Registered? ==>
        var s := r.value.store;
        && old(next) !in old(stores)
        && stores == old(stores)[old(next) := s]
        // every `$storeBase` accessor of the new store finds it
        && Resolve(s.meta.handle) == Some(s)
        && (forall a :: a in ArraysOf(Scalars(s.fields)) ==> fresh(a))
      ensures !(r.Ok? && r.value.Registered?) ==> stores == old(stores)
    {
      var h := next;
      next := next + 1;
      match input {
        case MapInput(m) =>
          m.storeSize := Some(size);
          return Ok(SameMap(m));
        case ObjectInput(fields) =>
          r := BuildStore(fields, size, h);
          if r.Ok? && r.value.Registered? {
            stores := stores[h := r.value.store];
          }
      }
    }

    /** `free` (src/Storage.js:269-271): the store's handle is removed from
        the registry. A `Map` or `{}` has no `$storeRef`, so deleting under
        it removes nothing. */
    method Free(c: Created)
      requires Valid()
      modifies this
      ensures Valid()
      ensures next == old(next)
      ensures c.Registered? ==> stores == old(stores) - {c.store.meta.handle}
      // the freed store's accessors now find nothing; the others are untouched
      ensures c.Registered? ==> Resolve(c.store.meta.handle) == None
      ensures forall h :: h in old(stores) && (!c.Registered? || h != c.store.meta.handle) ==>
        Resolve(h) == Some(old(stores)[h])
      ensures !c.Registered? ==> stores == old(stores)
    {
      if c.Registered? {
        stores := stores - {c.store.meta.handle};
      }
    }
  }
}
