/** The schema a store is built from (src/Storage.js:195-219), as a tagged
    tree instead of a duck-typed JSON value, with the leaf checks that decide
    whether a build fails and the array field count as the source computes it. */
module Schema {
  import opened Catalog

  /** A schema node after the JSON deep copy. A string is a scalar leaf; an
      array whose first element has own `type` and `length` properties is an
      array leaf (`isArrayType`), its length `None` when it is JSON `null`; any
      other object is a group of named children, in `Object.keys` order. */
  datatype Node =
    | Leaf(typeName: string)
    | ArrayLeaf(typeName: string, length: Option<nat>)
    | Group(fields: seq<Field>)

  datatype Field = Field(key: string, node: Node)

  function Keys(fields: seq<Field>): (ks: seq<string>)
    ensures |ks| == |fields|
    ensures forall i :: 0 <= i < |fields| ==> ks[i] == fields[i].key
  {
    if fields == [] then [] else [fields[0].key] + Keys(fields[1..])
  }

  predicate DistinctKeys(fields: seq<Field>) {
    forall i, j :: 0 <= i < j < |fields| ==> fields[i].key != fields[j].key
  }

  /** `schema[key]`: the node under the first field with that key. */
  function Find(fields: seq<Field>, key: string): (r: Option<Node>)
    ensures r.None? ==> forall i :: 0 <= i < |fields| ==> fields[i].key != key
  {
    if fields == [] then None
    else if fields[0].key == key then Some(fields[0].node)
    else Find(fields[1..], key)
  }

  lemma {:induction false} FindDistinct(fields: seq<Field>, i: nat)
    requires DistinctKeys(fields) && i < |fields|
    ensures Find(fields, fields[i].key) == Some(fields[i].node)
  {
    if i > 0 {
      assert fields[0].key != fields[i].key;
      assert fields[1..][i - 1] == fields[i];
      FindDistinct(fields[1..], i - 1);
    }
  }

  function AddOpt(a: Option<nat>, b: Option<nat>): Option<nat> {
    if a.Some? && b.Some? then Some(a.value + b.value) else None
  }

  /** `collectArrayCount` for one key. It always looks the key up in the ROOT
      schema, also for the keys of a nested group. `None` means the lookups have
      gone through more groups than the root has fields, so some root key was
      visited twice and the source recurses without end. */
  function CountKey(root: seq<Field>, key: string, fuel: nat): Option<nat>
    decreases fuel, 0, 0
  {
    match Find(root, key)
    case None => Some(0)
    case Some(n) =>
      match n
      case ArrayLeaf(_, _) => Some(1)
      case Leaf(_) => Some(0)
      case Group(fs) => if fuel == 0 then None else CountKeys(root, Keys(fs), fuel - 1)
  }

  /** The `reduce(collectArrayCount, 0)` over a list of keys. */
  function CountKeys(root: seq<Field>, keys: seq<string>, fuel: nat): Option<nat>
    decreases fuel, 1, |keys|
  {
    if keys == [] then Some(0)
    else AddOpt(CountKey(root, keys[0], fuel), CountKeys(root, keys[1..], fuel))
  }

  /** `$storeArrayCount` of a schema whose root is a group. */
  function ArrayCount(root: seq<Field>): Option<nat> {
    CountKeys(root, Keys(root), |root|)
  }

  /** The array leaves directly under the root. */
  function TopLevelArrays(fields: seq<Field>): nat {
    if fields == [] then 0
    else (if fields[0].node.ArrayLeaf? then 1 else 0) + TopLevelArrays(fields[1..])
  }

  predicate IsFlat(fields: seq<Field>) {
    forall i :: 0 <= i < |fields| ==> !fields[i].node.Group?
  }

  /** On a flat schema with distinct keys the count is the number of array
      leaves. */
  lemma FlatArrayCount(root: seq<Field>)
    requires IsFlat(root) && DistinctKeys(root)
    ensures ArrayCount(root) == Some(TopLevelArrays(root))
  {
    CountSuffix(root, 0);
    assert root[0..] == root;
  }

  lemma {:induction false} CountSuffix(root: seq<Field>, i: nat)
    requires IsFlat(root) && DistinctKeys(root) && i <= |root|
    ensures CountKeys(root, Keys(root[i..]), |root|) == Some(TopLevelArrays(root[i..]))
    decreases |root| - i
  {
    if i < |root| {
      var rest := root[i..];
      assert rest[1..] == root[i + 1..];
      assert Keys(rest)[0] == root[i].key;
      assert Keys(rest)[1..] == Keys(rest[1..]);
      FindDistinct(root, i);
      CountSuffix(root, i + 1);
    } else {
      assert root[i..] == [];
    }
  }

  /** An array leaf inside a group is looked up at the root, so it is not
      counted when the root has no field of that name. */
  lemma NestedArrayNotCounted()
    ensures ArrayCount([Field("g", Group([Field("pos", ArrayLeaf("f32", Some(3)))]))]) == Some(0)
  {
  }

  /** ... and is counted as the root's field when the root has one. */
  lemma NestedKeyCountsRootField()
    ensures ArrayCount([Field("pos", ArrayLeaf("f32", Some(3))),
                        Field("g", Group([Field("pos", Leaf("ui8"))]))]) == Some(2)
  {
  }

  /** A group holding a key that names itself at the root never finishes. */
  lemma SelfNamedGroupDiverges()
    ensures ArrayCount([Field("a", Group([Field("a", Leaf("ui8"))]))]) == None
  {
  }

  /** createTypeStore's outcome on a type name: `TYPES[type].BYTES_PER_ELEMENT`
      of a name that is not a key reads a property of undefined, and TYPES.bool
      is not a constructor. */
  function ScalarCheck(name: string): (r: Result<ElemType>)
    ensures r.Ok? <==> Lookup(name).Some? && Lookup(name).value != Bool
    ensures r.Ok? ==> Key(r.value) == name && BytesPerElement(r.value).Some?
    ensures Lookup(name).None? ==> r == Err(UndefinedType(name))
    ensures Lookup(name) == Some(Bool) ==> r == Err(NotAConstructor(name))
  {
    match Lookup(name)
    case None => Err(UndefinedType(name))
    case Some(t) => if t == Bool then Err(NotAConstructor(name)) else Ok(t)
  }

  /** createArrayStore's outcome on a leaf (src/Storage.js:151-152, 162): the
      length test comes first, then the type test; a `bool` array passes both
      but fails when its buffer is constructed. */
  function ArrayCheck(name: string, length: Option<nat>): (r: Result<(ElemType, nat)>)
    ensures (length.None? || length.value == 0) ==> r == Err(MissingLength)
    ensures length.Some? && length.value > 0 && Lookup(name).None? ==> r == Err(InvalidArrayType(name))
    ensures length.Some? && length.value > 0 && Lookup(name) == Some(Bool) ==> r == Err(NotAConstructor(name))
    ensures r.Ok? <==> length.Some? && length.value > 0 && Lookup(name).Some? && Lookup(name).value != Bool
    ensures r.Ok? ==> Key(r.value.0) == name && Some(r.value.1) == length && r.value.1 > 0
                      && BytesPerElement(r.value.0).Some?
  {
    if length.None? || length.value == 0 then Err(MissingLength)
    else match Lookup(name)
      case None => Err(InvalidArrayType(name))
      case Some(t) => if t == Bool then Err(NotAConstructor(name)) else Ok((t, length.value))
  }

  /** The error of the first leaf, in the order the store builder visits them,
      that cannot be built. */
  function FirstError(fields: seq<Field>): Option<Error>
    decreases fields, 1
  {
    if fields == [] then None
    else match NodeError(fields[0].node)
      case Some(e) => Some(e)
      case None => FirstError(fields[1..])
  }

  function NodeError(n: Node): Option<Error>
    decreases n, 0
  {
    match n
    case Leaf(name) => if ScalarCheck(name).Err? then Some(ScalarCheck(name).error) else None
    case ArrayLeaf(name, length) =>
      if ArrayCheck(name, length).Err? then Some(ArrayCheck(name, length).error) else None
    case Group(fs) => FirstError(fs)
  }
}
