# bitECS component storage, modelled in Dafny

This project models the storage allocator of bitECS (`src/Storage.js`). It
turns a component schema into a store of typed arrays, one element per
entity. A schema is a tree of named fields:

- A scalar field (`'f32'`) becomes a typed array of `size` elements.
- An array field (`[{ type: 'f32', length: 3 }]`) packs each entity's slice
  into one shared buffer per element type. Its views are numbered `0 .. size-1`.
  A cursor per type records where the next field of that type begins.
- A nested object becomes a nested store.

Every typed array gets two shadow copies, one for queries and one for
serialization. Stores are registered under a fresh handle. Each buffer's
`$storeBase` accessor looks its store up through that handle. `free` removes
the store from the registry. `resizeStore` grows every scalar buffer and
replaces each shared buffer by a new zeroed one, and `resetStore` zeroes
the buffers.

The model is split by concern:

- `Catalog` (catalog.dfy): the type table, byte widths, index widths, the
  rounding helper and the shared-buffer sizing formula.
- `Schema` (schema.dfy): schemas as a tagged tree, plus the leaf checks that
  decide whether a build throws. It also has `collectArrayCount`, which
  resolves every key against the *root* schema.
- `Buffers` (buffers.dfy): the `TypedArray` class, `createTypeStore`,
  `resize` and `fill`.
- `Packing` (packing.dfy): the offset arithmetic of the array-field packer.
  Views are disjoint, lie inside their field's block, and tile it. The
  cursor moves by `size * length`. Views fit the shared buffer when all array
  fields of a type have the same length; otherwise they may not, and a
  concrete schema shows it.
- `Layout` (layout.dfy): the packing state a build leaves in the metadata,
  as a function of the schema. It gives the creation order of the shared
  buffers, the field length each buffer is sized from, every type's cursor
  and the field packed last.
- `Storage` (storage.dfy): the `Metadata` object that a build threads
  through, `createArrayStore`, the schema transform, `resizeRecursive`,
  `resizeSubarrays`, `resizeStore` and `resetStore`.
- `StoreRegistry` (registry.dfy): the registry, `createStore` and `free`.

Thrown exceptions are modelled as `Err` values of a `Result`, or as an
`ok = false` outcome for the resize and reset operations, which have no
result of their own. The `Error` values are:

- `MissingLength`
- `InvalidArrayType`
- `NotAConstructor`: `TYPES.bool` is a string.
- `UndefinedType`: `TYPES[name]` is undefined.
- `CallStackExceeded`: `collectArrayCount` loops on a key that names its own
  group at the root.

Some behaviour that follows from the code as written is modelled as it is:

- `resizeSubarrays` empties the root's cursor table before it reads it. The
  views it re-derives therefore address nothing (`Detached`).
- When the new size is above 0, `resizeSubarrays` reads the length 0 from
  the second element type on. With size 0 every type reads the old view 0.
- Its `array.set(old.buffer)` copies nothing, because an `ArrayBuffer` has
  no `length`. The renewed shared buffers are therefore all zero.
- `resetStore` stops at the first metadata object in `$storeFlattened`,
  because that object has no `fill`. That entry, every later entry and
  every shared buffer keep their contents. No shared buffer is ever listed in
  `$storeFlattened`: the scalar buffers are new arrays of their own, apart
  from the shared ones.
- The root store and every array-field value show the views of the array
  field packed last, because each `createArrayStore` overwrites the numeric
  keys of the one metadata object.
- After `resizeStore`, `$storeFlattened` still lists the pre-resize scalar
  buffers. The grown buffers are new arrays, so a later `resetStore` fills
  the old buffers and leaves the tree's live ones as they are.

## Model

| member | source | states |
|---|---|---|
| Catalog.Lookup | src/Storage.js:27-38 | a name that is found is exactly the key of the type found |
| Catalog.LookupKey | src/Storage.js:1-38 | every key of the type table is recognised as its own type (round trip key → type → key) |
| Catalog.BytesPerElement | src/Storage.js:27-38 | only `bool` lacks a byte width; every other width is 1, 2, 4 or 8 |
| Catalog.IndexWidthFor | src/Storage.js:144-149 | the index width is 1 byte iff length < 256, 2 bytes iff 256 ≤ length < 65536, 4 bytes otherwise, with the matching constructor name; it is the narrowest width whose range holds the length |
| Catalog.RoundToMultiple4 | src/Storage.js:46 | the result is a multiple of 4 and lies in [x, x + 4) |
| Catalog.RoundToMultiple4Least | src/Storage.js:46 | no multiple of 4 at or above x is below the rounding: it is the least such multiple |
| Catalog.RoundToMultiple4Fixed | src/Storage.js:46 | a multiple of 4 is its own rounding |
| Catalog.SummedIsProduct | src/Storage.js:157-158 | adding v to 0, n times, yields n * v |
| Catalog.SharedBytesProduct | src/Storage.js:156-159 | the shared buffer's byte size is round4(size * (count * bpe) * (count * length)) |
| Catalog.RoundKeepsMultiple | src/Storage.js:46 | rounding a multiple of a catalog width up to a multiple of 4 keeps it a multiple of that width |
| Catalog.SharedBytesAligned | src/Storage.js:159-162 | the byte size is always a whole number of elements of the type |
| Catalog.ElementCountAtLeast | src/Storage.js:161-162 | a buffer of at least bpe * k bytes holds at least k elements |
| Packing.CursorAfter | src/Storage.js:172-185 | with entities present the cursor moves to c + size * length; with none it is reset to 0 |
| Packing.ViewEndNext | src/Storage.js:174-175 | each entity's view ends where the next entity's view starts |
| Packing.ViewsDisjoint | src/Storage.js:173-183 | views of distinct entities never overlap |
| Packing.ViewInsideField | src/Storage.js:173-183 | every entity's view lies inside the field's block [c, c + size * length) |
| Packing.ViewOwner | src/Storage.js:173-183 | every slot of the block belongs to the view of entity (x - c) / length: the views tile the block |
| Packing.NextFieldAfter | src/Storage.js:172-185 | a field packed next, at the cursor this one leaves, starts after all of this field's views |
| Packing.PackedCursorSum | src/Storage.js:171-185 | after packing fields of given lengths from cursor 0, the cursor is size * (sum of lengths) |
| Packing.SameLengthFieldsFit | src/Storage.js:155-185 | when all array fields of a type have the first one's length and there are no more than the schema's array count, every view ends inside the shared buffer |
| Packing.CountBound | src/Storage.js:157-159 | n ≤ count fields of length L use no more than size * count * count * L slots |
| Packing.DifferentLengthsOverflow | src/Storage.js:155-185 | with f32 fields of lengths 1 and 100 and one entity, the buffer holds 4 elements but the second view asks for slots 1 to 101 |
| Layout.NoArraysPackNothing | src/Storage.js:250-254 | keys without array fields leave the packing state as it was |
| Layout.NodeNoArraysPacksNothing | src/Storage.js:234-257 | a single key without array fields leaves the packing state as it was |
| Layout.PackTreeCursor | src/Storage.js:172-185 | after the walk, a type's cursor is where packing the lengths of its array fields, in visiting order, one after the other, leaves it |
| Layout.PackNodeCursor | src/Storage.js:172-185 | the same for the subtree under one key |
| Layout.PackTreeFirst | src/Storage.js:154-169 | types that had a buffer keep their place and sizing length; a new type gets a buffer exactly when the walk meets an array field of it, at the end of the creation order, sized from the first such field's length |
| Layout.PackNodeFirst | src/Storage.js:154-169 | the same for the subtree under one key |
| Layout.PackTreeLast | src/Storage.js:172-185 | the cursor of the type packed last stays at the end of the last field's views |
| Layout.PackNodeLast | src/Storage.js:172-185 | the same for the subtree under one key |
| Layout.FlatLengthsBound | src/Storage.js:210-219 | on a flat schema, a type has no more array fields than the schema has array leaves |
| Schema.Keys | src/Storage.js:214 | the key list has one key per field, in field order |
| Schema.Find | src/Storage.js:211 | a lookup that fails means no field has that key |
| Schema.FindDistinct | src/Storage.js:211 | with distinct keys, looking up a field's key finds that field's node |
| Schema.FlatArrayCount | src/Storage.js:210-219 | on a flat schema with distinct keys the array count is the number of array leaves |
| Schema.CountSuffix | src/Storage.js:210-219 | counting any suffix of a flat schema's keys gives the array leaves in that suffix |
| Schema.NestedArrayNotCounted | src/Storage.js:210-219 | an array leaf nested in a group is looked up at the root, so it is not counted when the root lacks that key |
| Schema.NestedKeyCountsRootField | src/Storage.js:210-219 | a nested key that names a root array field counts that root field again |
| Schema.SelfNamedGroupDiverges | src/Storage.js:210-219 | a group holding a key that names itself at the root never finishes counting |
| Schema.ScalarCheck | src/Storage.js:135-139 | a scalar leaf builds iff its name is a key of the type table other than `bool`; the resulting type has that key and a byte width; an unknown name is an undefined type and `bool` is not a constructor |
| Schema.ArrayCheck | src/Storage.js:151-152 | a missing or zero length fails first, then an unknown type, then `bool` (not a constructor); success gives the named type and the given positive length |
| Buffers.GrownShape | src/Storage.js:68-73 | a resized array has the new size, the old contents as prefix and zeroes beyond |
| Buffers.GrownSameSize | src/Storage.js:68-73 | resizing to the current size changes nothing |
| Buffers.GrownTwice | src/Storage.js:68-73 | two resizes in a row equal one resize to the final size |
| Buffers.Resize | src/Storage.js:68-73 | returns a fresh array whose contents are the old ones grown to the new size |
| Buffers.CreateTypeStore | src/Storage.js:135-139 | fails exactly as the scalar check does, otherwise returns a fresh array of `length` zeroes |
| Buffers.Fill | src/Storage.js:128 | every element of the array becomes 0 |
| Storage.SharedShadowsCopy | src/Storage.js:164-165 | the shadows of a freshly allocated shared buffer equal its contents |
| Storage.NewSharedBuffer | src/Storage.js:155-169 | a fresh zeroed buffer of the type, sized by the formula, with two zero shadows and the given index width |
| Storage.NewScalar | src/Storage.js:236-241 | fails exactly as the scalar check does; otherwise a fresh zeroed buffer of `size` elements whose shadows copy it and whose accessor names the store's handle |
| Storage.FieldViewsPacked | src/Storage.js:171-185 | the views of one field are `size` slices of the buffer, each `length` long with the length's index width, in entity order, each ending where the next begins, all inside the block [c, c + size * length); the first starts at the cursor and the last ends where the cursor moves |
| Storage.PackViews | src/Storage.js:171-185 | the loop yields exactly those views, and the cursor it leaves is the end of the last view (0 with no entities) |
| Storage.DetachedViews | src/Storage.js:105-116 | `size` views, each addressing nothing (length 0) |
| Storage.RenewedBuffers | src/Storage.js:91-103 | every type gets a fresh zeroed buffer sized from the length it reads (the root's first view for the first type, 0 after it), with zero shadows and no index width; the set of types is kept |
| Storage.PackedAsLeaf | src/Storage.js:141-188 | packing one array field as `createArrayStore` does moves the metadata from packing state `st` to the state of one more leaf |
| Storage.PackedAsSame | src/Storage.js:141-188 | two metadata states in the same packing state, the later keeping the earlier's buffers, have the same creation order, cursors, shared buffers and views |
| Storage.ScalarsListed | src/Storage.js:236-241 | every scalar buffer of a tree is pushed onto its flattened list |
| Storage.SlotScalarsListed | src/Storage.js:236-241 | the same fact for one value of the tree |
| Storage.ShapedFlatBuffers | src/Storage.js:234-257 | a built tree's flattened list holds only buffers iff the schema has no array field, since each array field pushes the metadata object itself (:248) |
| Storage.NodeFlatBuffers | src/Storage.js:236-250 | the same fact for one key's subtree |
| Storage.Metadata.constructor | src/Storage.js:221-230 | the metadata starts with no shared buffers, no views, an empty flattened list and a zero cursor for every type |
| Storage.Metadata.PushBuffer | src/Storage.js:240 | a scalar buffer is appended to `$storeFlattened`; nothing else changes |
| Storage.Metadata.PushMeta | src/Storage.js:248 | the metadata object itself is appended to `$storeFlattened`; nothing else changes |
| Storage.Metadata.SetSubarray | src/Storage.js:163 | the type's shared buffer is set, and the type joins the creation order only when it is new |
| Storage.Metadata.CreateArrayStore | src/Storage.js:141-188 | fails, changing nothing, exactly when the array check fails; otherwise reuses or allocates the type's shared buffer, sets the numeric views to the field's consecutive views and moves only that type's cursor to the end of the last view |
| Storage.Metadata.RenewSubarrays | src/Storage.js:91-103 | every shared buffer is replaced by a fresh one sized for the new size; the types, views, cursors and flattened list are kept |
| Storage.Metadata.ResetFlattened | src/Storage.js:127-129 | succeeds iff the flattened list holds only buffers; every buffer before the first metadata entry is zeroed, and every array it did not reach keeps its contents |
| Storage.Metadata.ResetShared | src/Storage.js:130-132 | every shared buffer is zeroed |
| Storage.Metadata.ScalarField | src/Storage.js:236-241 | fails exactly as the scalar check does; otherwise a new zeroed array of `size` with the store's handle is appended to `$storeFlattened`, and the packing state is untouched |
| Storage.Metadata.PackField | src/Storage.js:243-246 | a valid array field moves the metadata to the packing state of one more leaf and keeps the shared buffers already made |
| Storage.Metadata.ArrayField | src/Storage.js:243-248 | fails iff the array check fails, with its error; otherwise the field is packed, the metadata itself is appended to `$storeFlattened`, and the earlier shared buffers are kept |
| Storage.Metadata.TransformNode | src/Storage.js:234-257 | a key fails iff its subtree has a bad leaf, with that leaf's error; otherwise the value has the node's shape, its scalars are new zeroed arrays of `size` with matching shadows, no two alike and none a shared buffer, every shared buffer made is new, its flat entries are appended, the metadata moves to the packing state of the key, and a key without array fields leaves the shared buffers, creation order, cursors and views as they were |
| Storage.Metadata.Transform | src/Storage.js:252 | the keys are transformed in order and the walk stops at the first failing leaf with its error; otherwise the whole tree is shaped, zeroed and flattened in visiting order, its scalar buffers are new arrays, no two alike and none a shared buffer, the metadata is in the packing state of all the keys, the shared buffers made before are kept, and keys without array fields change none of the packing state |
| Storage.ResizeRecursive | src/Storage.js:75-87 | the tree keeps its keys and kinds; every scalar buffer and each of its shadows is replaced by a grown copy of itself, on a new array, no two alike; array-field metadata is left alone |
| Storage.ResizeSlot | src/Storage.js:77-85 | one value of the walk: a buffer is replaced by a grown copy on a new array, metadata is kept, a group recurses |
| Storage.Store.constructor | src/Storage.js:259 | the root store holds the transformed tree and copies of the metadata's size, views and cursors |
| Storage.Store.ResizeSubarrays | src/Storage.js:89-118 | empties the root's cursor table; fails iff there are shared buffers but no view 0; otherwise renews every shared buffer and makes every view detached |
| Storage.Store.DetachViews | src/Storage.js:105-116 | the root's numeric keys become `n` views, each detached from the shared buffer of the type renewed last; the tree, size and cursor table are kept |
| Storage.Store.GrowTree | src/Storage.js:121-122 | the size becomes `n` and every scalar buffer of the tree is replaced by a grown copy on a new array, no two alike, with `n` elements |
| Storage.Store.ResizeStore | src/Storage.js:120-124 | sets the size and grows every scalar buffer of the tree from its own contents onto new arrays, none of which `$storeFlattened` or the shared buffers hold, then empties the root's cursor table; it fails iff there are shared buffers but no view 0, and then keeps the shared buffers and root views; otherwise it renews every shared buffer, keeps the set of types, and makes the root's views detached (kept when the new size is 0); the metadata's own views and cursors are untouched |
| Storage.Store.ResetStore | src/Storage.js:126-133 | succeeds iff no metadata is in the flattened list; buffers before the first metadata entry are zeroed, and on success every flattened array and every shared buffer is; on failure every other flattened array and every shared buffer keeps its contents |
| StoreRegistry.ShapedBase | src/Storage.js:239 | every scalar buffer of a built tree carries the store's handle as its accessor |
| StoreRegistry.NodeBase | src/Storage.js:239 | the same for the subtree under one key |
| StoreRegistry.BuildStore | src/Storage.js:208-266 | counts array fields first (failing on a self-naming cycle); a schema with no keys gives `{}`; a bad leaf gives its error; otherwise a fresh store whose tree is shaped and zeroed, whose scalar and shared buffers are all new arrays, no scalar buffer sharing its array with another or with a shared buffer, whose accessors carry the handle, whose flattened list lists the tree, whose metadata is in the packing state of the whole schema, and whose root shows the metadata's views and cursors |
| StoreRegistry.BuiltShared | src/Storage.js:141-188 | after a build, a type has a shared buffer iff the schema has an array field of it; that buffer is zeroed and sized from the first such field's length; the type's cursor is `size` times the sum of those fields' lengths |
| StoreRegistry.BuiltViews | src/Storage.js:170-185 | after a build, the root shows no views when there is no array field, and otherwise the `size` consecutive, ordered slices of the field packed last, the last ending at its type's cursor |
| StoreRegistry.BuiltViewsFit | src/Storage.js:155-185 | when the array fields of the last packed type all have the same length and number no more than the array count, every root view lies inside that type's shared buffer |
| StoreRegistry.BuiltFlattened | src/Storage.js:126-133 | after a build, the flattened list holds only buffers iff the schema has no array field, and it lists every scalar buffer of the tree, so resetting a scalar-only store succeeds and zeroes them all, while a store with an array field makes the reset throw |
| StoreRegistry.FlatFieldsCounted | src/Storage.js:210-219 | on a flat schema with distinct keys, no type has more array fields than the array count |
| StoreRegistry.Registry.constructor | src/Storage.js:66 | the registry starts empty |
| StoreRegistry.Registry.Resolve | src/Storage.js:239 | an accessor finds a store iff its handle is still registered, and then finds that store |
| StoreRegistry.Registry.CreateStore | src/Storage.js:200-267 | every call takes a fresh handle; a `Map` only records the size; an object schema is built as BuildStore states, its scalar buffers new and apart, and a built store is registered under the new handle and resolves from it; nothing else is registered |
| StoreRegistry.Registry.Free | src/Storage.js:269-271 | freeing a store unregisters exactly its handle, so its accessors find nothing; freeing `{}` or a `Map` changes nothing |

## Left out

- The JSON deep copy of the schema (src/Storage.js:208): the model starts from the copied tree. Leaves that are neither strings nor arrays nor objects are not modelled; the builder leaves them as they are. An array that is not an array-field leaf is a group keyed by index.
- A schema whose root is itself an array-field leaf (array count 1 at src/Storage.js:219) is not modelled.
- `$storeMaps` and `$storeCursor` are not modelled: this file only initialises them.
- The default size of 1000000 (src/Storage.js:200) is not modelled: callers of `CreateStore` always pass the size.
- Element values are abstract integers. Typed-array wrap-around, clamping (`Uint8Clamped`) and floating point are not modelled, because the allocator only stores zeroes and copies.
- Buffers.TypedArray: the two shadows are kept as their creation contents, as values. Query and serialization code writes them in place, but that code is not part of this model. As a result, aliasing between a view's shadow slice and the shared shadow buffer is not captured.
- Storage.Metadata.CreateArrayStore: a view records the requested range [from, to). The model does not apply the clamping that `subarray` does at the buffer's end. `Packing.DifferentLengthsOverflow` shows where the two differ.
- The `$subarray`, `$indexType` and `$indexBytes` tags on a view are not kept as properties. `$subarray` becomes the `View` type itself. The index type name and its byte count become one `IndexWidth`, and `Detached` views carry none.
- `Object.assign` copies metadata onto the root store (src/Storage.js:259). The model keeps the root's own copies of size, views and cursors, and reaches the shared objects through `meta`. When a numeric view key overwrites a schema key of the same name, the model does not capture it.
- Storage.Store.ResizeStore: requires the new size to be at least the current one. Shrinking throws a RangeError in `resize` as soon as the tree holds a scalar buffer. Shrinking a store without scalar buffers is not modelled.
- Storage.Store.ResizeStore: when `resizeSubarrays` throws, the root's size and scalar buffers have already been updated. The model returns `ok = false` and keeps those updates; nothing after the throw runs.
- Catalog.Lookup: `TYPES[name]` in the source also finds names inherited from `Object.prototype`, and the model does not. A scalar named `constructor` builds in the source: `TYPES.constructor` is `Object`, which returns the empty buffer it is given. An array field of type `toString` passes the type test and skips the allocation. When the size is above 0 it then throws at `subarray`. With size 0 the entity loop never runs, so the field builds, allocates nothing and leaves the `toString` cursor at 0. The model rejects both names as unknown types.
- Storage.Store.ResizeSubarrays: the source reads `store[0].length`, the length of a view that `subarray` has clamped at the buffer's end. The model reads the requested length. For the schema of `Packing.DifferentLengthsOverflow` resized to 2 entities, the source sizes the buffer from length 3 (24 elements), and the model from length 100 (800 elements).
- StoreRegistry.BuildStore: when a leaf throws, the source leaves a half-built metadata object that nothing references. The model states only the error.
- Schema.ArrayCount: `collectArrayCount` is evaluated with a fuel bound of one group per root field. Running out of fuel means some root key was revisited, which in the source is endless recursion. It is reported as `CallStackExceeded`.
- Garbage collection, and the closures' identity as functions, are not modelled. An accessor is the handle it resolves through.
