/** The packing state a build leaves in the metadata, as a function of the
    schema: `createArrayStore` (src/Storage.js:141-188) run on every array
    leaf in the order `recursiveTransform` visits them (src/Storage.js:234-257).
    Each leaf of a new type adds that type once, at the end of the creation
    order, with a buffer sized from that leaf's length; every leaf moves its
    type's cursor; and the numeric views are those of the leaf packed last. */
module Layout {
  import opened Catalog
  import opened Schema
  import opened Packing

  /** The field packed last: its type, the cursor it was packed at, and its
      length. */
  datatype LastField = LastField(elem: ElemType, at: nat, length: nat)

  /** The types that have a shared buffer, in creation order; every type's
      cursor; for the types created during the walk, the field length their
      buffer was sized from; and the field packed last. */
  datatype PackState = PackState(order: seq<ElemType>, cursors: map<ElemType, nat>,
                                 first: map<ElemType, nat>, last: Option<LastField>)

  /** One array leaf of type `t` and length `len`, packed for `size` entities. */
  function PackLeaf(t: ElemType, len: nat, st: PackState, size: nat): PackState {
    var c := if t in st.cursors then st.cursors[t] else 0;
    PackState(if t in st.order then st.order else st.order + [t],
              st.cursors[t := CursorAfter(c, len, size)],
              if t in st.order then st.first else st.first[t := len],
              Some(LastField(t, c, len)))
  }

  function PackNode(n: Node, st: PackState, size: nat): PackState
    decreases n, 0
  {
    match n
    case Leaf(_) => st
    case ArrayLeaf(name, length) =>
      if ArrayCheck(name, length).Ok?
      then PackLeaf(ArrayCheck(name, length).value.0, ArrayCheck(name, length).value.1, st, size)
      else st
    case Group(fs) => PackTree(fs, st, size)
  }

  /** The keys of one object, in order. */
  function PackTree(fields: seq<Field>, st: PackState, size: nat): PackState
    decreases fields, 1
  {
    if fields == [] then st
    else PackNode(fields[|fields| - 1].node, PackTree(fields[..|fields| - 1], st, size), size)
  }

  /** The lengths of the array leaves of type `t`, in visiting order. */
  function Lengths(fields: seq<Field>, t: ElemType): seq<nat>
    decreases fields, 1
  {
    if fields == [] then []
    else Lengths(fields[..|fields| - 1], t) + NodeLengths(fields[|fields| - 1].node, t)
  }

  function NodeLengths(n: Node, t: ElemType): seq<nat>
    decreases n, 0
  {
    match n
    case Leaf(_) => []
    case ArrayLeaf(name, length) =>
      if ArrayCheck(name, length).Ok? && ArrayCheck(name, length).value.0 == t
      then [ArrayCheck(name, length).value.1]
      else []
    case Group(fs) => Lengths(fs, t)
  }

  /** A schema without array leaves. */
  predicate NoArrays(n: Node)
    decreases n, 0
  {
    match n
    case Leaf(_) => true
    case ArrayLeaf(_, _) => false
    case Group(fs) => NoArraysIn(fs)
  }

  predicate NoArraysIn(fields: seq<Field>)
    decreases fields, 1
  {
    forall i :: 0 <= i < |fields| ==> NoArrays(fields[i].node)
  }

  /** Packing the first `i + 1` keys is packing the first `i`, then key `i`. */
  lemma PackTreeStep(fields: seq<Field>, i: nat, st: PackState, size: nat)
    requires i < |fields|
    ensures PackTree(fields[..i + 1], st, size) == PackNode(fields[i].node, PackTree(fields[..i], st, size), size)
  {
    assert fields[..i + 1][..i] == fields[..i];
  }

  /** A schema without array leaves packs nothing. */
  lemma {:induction false} NoArraysPackNothing(fields: seq<Field>, st: PackState, size: nat)
    requires NoArraysIn(fields)
    decreases fields, 1
    ensures PackTree(fields, st, size) == st
  {
    if fields != [] {
      var k := |fields| - 1;
      assert NoArraysIn(fields[..k]) by {
        forall i | 0 <= i < k
          ensures NoArrays(fields[..k][i].node)
        {
          assert fields[..k][i] == fields[i];
        }
      }
      NoArraysPackNothing(fields[..k], st, size);
      NodeNoArraysPacksNothing(fields[k].node, st, size);
    }
  }

  lemma {:induction false} NodeNoArraysPacksNothing(n: Node, st: PackState, size: nat)
    requires NoArrays(n)
    decreases n, 0
    ensures PackNode(n, st, size) == st
  {
    match n {
      case Leaf(_) =>
      case ArrayLeaf(_, _) =>
      case Group(fs) => NoArraysPackNothing(fs, st, size);
    }
  }

  /** A type's cursor after the walk is where packing the lengths of its
      leaves, in visiting order, one after the other, leaves it. */
  lemma {:induction false} PackTreeCursor(fields: seq<Field>, st: PackState, size: nat,
                                          t: ElemType, before: seq<nat>)
    requires t in st.cursors && st.cursors[t] == PackedCursor(before, size)
    decreases fields, 1
    ensures t in PackTree(fields, st, size).cursors
    ensures PackTree(fields, st, size).cursors[t] == PackedCursor(before + Lengths(fields, t), size)
  {
    if fields == [] {
      assert before + [] == before;
    } else {
      var k := |fields| - 1;
      PackTreeCursor(fields[..k], st, size, t, before);
      var mid := before + Lengths(fields[..k], t);
      PackNodeCursor(fields[k].node, PackTree(fields[..k], st, size), size, t, mid);
      assert mid + NodeLengths(fields[k].node, t) == before + Lengths(fields, t);
    }
  }

  lemma {:induction false} PackNodeCursor(n: Node, st: PackState, size: nat, t: ElemType, before: seq<nat>)
    requires t in st.cursors && st.cursors[t] == PackedCursor(before, size)
    decreases n, 0
    ensures t in PackNode(n, st, size).cursors
    ensures PackNode(n, st, size).cursors[t] == PackedCursor(before + NodeLengths(n, t), size)
  {
    match n {
      case Leaf(_) =>
        assert before + [] == before;
      case ArrayLeaf(name, length) =>
        if ArrayCheck(name, length).Ok? && ArrayCheck(name, length).value.0 == t {
          var len := ArrayCheck(name, length).value.1;
          assert (before + [len])[..|before|] == before;
        } else {
          assert before + [] == before;
        }
      case Group(fs) =>
        PackTreeCursor(fs, st, size, t, before);
    }
  }

  /** The types that already had a buffer keep their place and their sizing
      length; a type that had none gets one exactly when the walk meets a leaf
      of it, sized from the length of the first such leaf. */
  lemma {:induction false} PackTreeFirst(fields: seq<Field>, st: PackState, size: nat, t: ElemType)
    requires t in st.first ==> t in st.order
    decreases fields, 1
    ensures |st.order| <= |PackTree(fields, st, size).order|
    ensures PackTree(fields, st, size).order[..|st.order|] == st.order
    ensures t in st.order ==> t in PackTree(fields, st, size).order
    ensures t in st.first ==>
      t in PackTree(fields, st, size).first && PackTree(fields, st, size).first[t] == st.first[t]
    ensures t in st.order && t !in st.first ==> t !in PackTree(fields, st, size).first
    ensures t !in st.order ==>
      && (t in PackTree(fields, st, size).order <==> Lengths(fields, t) != [])
      && (t in PackTree(fields, st, size).first <==> Lengths(fields, t) != [])
      && (Lengths(fields, t) != [] ==> PackTree(fields, st, size).first[t] == Lengths(fields, t)[0])
  {
    if fields != [] {
      var k := |fields| - 1;
      var mid := PackTree(fields[..k], st, size);
      PackTreeFirst(fields[..k], st, size, t);
      PackNodeFirst(fields[k].node, mid, size, t);
      assert PackTree(fields, st, size).order[..|mid.order|] == mid.order;
      assert mid.order[..|st.order|] == st.order;
    }
  }

  lemma {:induction false} PackNodeFirst(n: Node, st: PackState, size: nat, t: ElemType)
    requires t in st.first ==> t in st.order
    decreases n, 0
    ensures |st.order| <= |PackNode(n, st, size).order|
    ensures PackNode(n, st, size).order[..|st.order|] == st.order
    ensures t in st.order ==> t in PackNode(n, st, size).order
    ensures t in st.first ==>
      t in PackNode(n, st, size).first && PackNode(n, st, size).first[t] == st.first[t]
    ensures t in st.order && t !in st.first ==> t !in PackNode(n, st, size).first
    ensures t !in st.order ==>
      && (t in PackNode(n, st, size).order <==> NodeLengths(n, t) != [])
      && (t in PackNode(n, st, size).first <==> NodeLengths(n, t) != [])
      && (NodeLengths(n, t) != [] ==> PackNode(n, st, size).first[t] == NodeLengths(n, t)[0])
  {
    match n {
      case Leaf(_) =>
      case ArrayLeaf(name, length) =>
        if ArrayCheck(name, length).Ok? {
          var u := ArrayCheck(name, length).value.0;
          assert (st.order + [u])[..|st.order|] == st.order;
        }
      case Group(fs) =>
        PackTreeFirst(fs, st, size, t);
    }
  }

  /** The cursor of the type packed last is the end of the last field's views. */
  predicate LastAtCursor(st: PackState, size: nat) {
    st.last.Some? ==>
      st.last.value.elem in st.cursors
      && st.cursors[st.last.value.elem] == CursorAfter(st.last.value.at, st.last.value.length, size)
  }

  lemma {:induction false} PackTreeLast(fields: seq<Field>, st: PackState, size: nat)
    requires LastAtCursor(st, size)
    decreases fields, 1
    ensures LastAtCursor(PackTree(fields, st, size), size)
  {
    if fields != [] {
      var k := |fields| - 1;
      PackTreeLast(fields[..k], st, size);
      PackNodeLast(fields[k].node, PackTree(fields[..k], st, size), size);
    }
  }

  lemma {:induction false} PackNodeLast(n: Node, st: PackState, size: nat)
    requires LastAtCursor(st, size)
    decreases n, 0
    ensures LastAtCursor(PackNode(n, st, size), size)
  {
    match n {
      case Leaf(_) =>
      case ArrayLeaf(_, _) =>
      case Group(fs) => PackTreeLast(fs, st, size);
    }
  }

  /** On a flat schema, a type has no more array leaves than the schema has. */
  lemma {:induction false} FlatLengthsBound(fields: seq<Field>, t: ElemType)
    requires IsFlat(fields)
    ensures |Lengths(fields, t)| <= TopLevelArrays(fields)
  {
    if fields != [] {
      var k := |fields| - 1;
      assert IsFlat(fields[..k]) by {
        forall i | 0 <= i < k
          ensures !fields[..k][i].node.Group?
        {
          assert fields[..k][i] == fields[i];
        }
      }
      FlatLengthsBound(fields[..k], t);
      TopLevelArraysSnoc(fields[..k], fields[k]);
      assert fields[..k] + [fields[k]] == fields;
    }
  }

  lemma {:induction false} TopLevelArraysSnoc(fields: seq<Field>, f: Field)
    ensures TopLevelArrays(fields + [f]) == TopLevelArrays(fields) + (if f.node.ArrayLeaf? then 1 else 0)
  {
    if fields == [] {
      assert ([] + [f])[1..] == [];
    } else {
      assert (fields + [f])[1..] == fields[1..] + [f];
      TopLevelArraysSnoc(fields[1..], f);
    }
  }
}
