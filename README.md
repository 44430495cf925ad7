# NumPy-style tensor indexing: the index-expression translator

This project models the core of ATen's C++ tensor indexing
(`aten/src/ATen/native/TensorIndexing.cpp`). It covers `x.index({...})` and
`x.index_put_({...}, v)`, which translate a list of index descriptors
(`None`, `...`, integers, booleans, slices, index tensors) into two things:

- a chain of view operations (select, slice, unsqueeze, alias);
- a list of pending advanced-index tensors, which a later gather or scatter uses.

Tensors are abstract. A tensor has a shape, an element type, a device and,
when it is 0-dimensional, the scalar it holds. Element data is not modelled.

Modules:

- `Tensors` (`tensors.dfy`): element types, devices, tensors, `Numel`.
- `Indices` (`indices.dfy`): the closed `TensorIndex` type, the arity error, and `count_specified_dimensions`.
- `Views` (`views.dfy`): a view is the expression tree of the primitive calls that built it. It gives the rank those calls produce and whether every call received a dimension in range (`WellFormed`). A view is the indexed tensor itself exactly when it is `Source(self)`. That is the model of `is_same(self)`.
- `SlicingApplier` (`slicing.dfy`): `applySlicing` as a method with a loop. It is proved equal to a left fold `Run` of a per-descriptor `Step`. Lemmas relate that fold to separate per-descriptor tables: cursor advance, rank change, and whether a descriptor is advanced. The module also holds `boolToIndexingTensor` and `typeConvertIndices`.
- `Dispatch` (`dispatch.dfy`): `slicePrefix1sSize`, `copy_to`, `get_item` and both `set_item` overloads, modelled as functions that return a plan. A get plan is a view or a gather on a view. A set plan is no write, a copy into a view, or a scatter into a view, and says whether the value is re-viewed.
- `Render` (`render.dfy`): the `operator<<` renderings. Integers are written in decimal. The tensor printer is a parameter.

`handle_tensor` increments `dim` for every recorded tensor (line 92), so a
mask tensor of rank k adds k to the specified count but moves the cursor by
one.

## Model

| member | source | states |
|---|---|---|
| `Indices.CountSpecifiedDimensions` | aten/src/ATen/native/TensorIndexing.cpp:47-65 | the loop returns the sum of per-descriptor counts: 0 for None, Ellipsis and a boolean; the rank of a Byte or Bool tensor; 1 for everything else |
| `Indices.SpecifiedDimsAppend` | aten/src/ATen/native/TensorIndexing.cpp:47-65 | the count of a concatenation is the sum of the counts |
| `Indices.SpecifiedDimsZero` | aten/src/ATen/native/TensorIndexing.cpp:47-65 | a list consumes no source dimension exactly when each of its descriptors consumes none |
| `SlicingApplier.BoolToIndexingTensor` | aten/src/ATen/native/TensorIndexing.cpp:73-80 | the result is a rank-1 Long tensor on the given device, with one element for true and none for false |
| `SlicingApplier.Store` | aten/src/ATen/native/TensorIndexing.cpp:88-93 | handle_tensor leaves the list at size dim+1 with the tensor at dim, keeps every entry below dim that existed, and leaves the gap as undefined holes |
| `SlicingApplier.StoreAppends` | aten/src/ATen/native/TensorIndexing.cpp:88-93 | when the list is no longer than the cursor, a store only appends holes and then the tensor, so nothing is overwritten |
| `SlicingApplier.StepEffect` | aten/src/ATen/native/TensorIndexing.cpp:98-146 | one iteration moves the cursor by the advance table and changes the rank by the rank table. It keeps the list no longer than the cursor. Only an advanced descriptor changes the list: it appends holes and then, at the old cursor, its index tensor. A tensor index is stored unmodified; a boolean or 0-d mask is stored as its indexing tensor on the view's device |
| `SlicingApplier.BooleanStep` | aten/src/ATen/native/TensorIndexing.cpp:123-139 | a boolean or a 0-d Bool/Byte tensor unsqueezes at the cursor and records, at the cursor, a Long index of shape [1] if true and [0] if false |
| `SlicingApplier.RunEffect` | aten/src/ATen/native/TensorIndexing.cpp:98-146 | over the whole loop the cursor never decreases and ends at the sum of advances; the rank ends at the sum of rank changes; the view stays on the same tensor |
| `SlicingApplier.RunIndices` | aten/src/ATen/native/TensorIndexing.cpp:88-146 | the pending list never outgrows the cursor. The old list is a prefix of the new one. One defined entry is added per advanced descriptor, and the list is untouched when no descriptor is advanced |
| `SlicingApplier.ConsumedBound` | aten/src/ATen/native/TensorIndexing.cpp:86-119 | with at most one Ellipsis, cursor advance minus rank change is at most the specified count plus the Ellipsis width |
| `SlicingApplier.RunInRange` | aten/src/ATen/native/TensorIndexing.cpp:95-146 | with at most one Ellipsis and enough room for the specified dimensions, every select, slice and unsqueeze of the loop gets a dimension in range |
| `SlicingApplier.SlicingSpec` | aten/src/ATen/native/TensorIndexing.cpp:83-148 | applySlicing fails with the too-many-indices error exactly when the count exceeds the rank. Otherwise: the final cursor, rank and pending list are as the tables say; the list is empty iff no descriptor is advanced; with at most one Ellipsis every primitive call is in range |
| `SlicingApplier.TwoEllipsesLeaveRange` | aten/src/ATen/native/TensorIndexing.cpp:118-119 | nothing rejects a second Ellipsis; on a rank-2 tensor `[..., ..., 0]` selects at dimension 2, out of range |
| `SlicingApplier.ApplySlicing` | aten/src/ATen/native/TensorIndexing.cpp:83-148 | the loop fails with the arity error (leaving the list empty) exactly when the count exceeds the rank. Otherwise it returns the view and pending list of the fold `Slicing` |
| `SlicingApplier.ConvertIndices` | aten/src/ATen/native/TensorIndexing.cpp:151-162 | device alignment keeps the length and keeps holes as holes. Every defined index keeps its sizes and element type and lands on the given device |
| `SlicingApplier.TypeConvertIndices` | aten/src/ATen/native/TensorIndexing.cpp:151-162 | the element-by-element loop computes `ConvertIndices` with the device of the view |
| `Dispatch.StripLeadingOnes` | aten/src/ATen/native/TensorIndexing.cpp:224-234 | the result is a suffix of the sizes. Every dropped entry is 1, the result is empty or starts with a non-1, and the element count is unchanged, so the re-view is legal |
| `Dispatch.StripLeadingOnesFacts` | aten/src/ATen/native/TensorIndexing.cpp:224-234 | stripping twice equals stripping once; all-ones sizes strip to empty; the sizes change exactly when they start with 1 |
| `Dispatch.StripLeadingOnesAt` | aten/src/ATen/native/TensorIndexing.cpp:224-234 | the first position whose entry is not 1 determines the result |
| `Dispatch.SlicePrefix1sSize` | aten/src/ATen/native/TensorIndexing.cpp:224-234 | the scan-and-break loop computes `StripLeadingOnes` |
| `Dispatch.GetItem` | aten/src/ATen/native/TensorIndexing.cpp:179-217 | get_item fails only off the single-descriptor fast path, and only with the arity error when the count exceeds the rank. A returned view is never the indexed tensor itself |
| `Dispatch.GetItemFastPathAgrees` | aten/src/ATen/native/TensorIndexing.cpp:183-216 | when the arity check would pass, the fast path for a single None, Ellipsis, integer or slice yields the same plan as the general path |
| `Dispatch.GetItemShape` | aten/src/ATen/native/TensorIndexing.cpp:179-217 | with the count within the rank and at most one Ellipsis, get_item succeeds with an in-range view on the tensor, of rank = source rank + rank changes. It gathers iff some descriptor is advanced, with one defined index per advanced descriptor |
| `Dispatch.GetItemIndexTensor` | aten/src/ATen/native/TensorIndexing.cpp:205-216 | `x[t]` with one non-scalar index tensor gathers from the tensor itself with `t` moved to the tensor's device |
| `Dispatch.GetItemNoOpAliases` | aten/src/ATen/native/TensorIndexing.cpp:205-212 | the empty list or a list of Ellipses gives an alias of the tensor, not the tensor itself |
| `Dispatch.CopyTo` | aten/src/ATen/native/TensorIndexing.cpp:237-242 | copy_to always re-views the value at `StripLeadingOnes` of its sizes, which start with a non-1 and keep its element count |
| `Dispatch.SetItem` | aten/src/ATen/native/TensorIndexing.cpp:246-295 | set_item does no write exactly for a single `false`, and a single None or `true` copies into the tensor unsqueezed at 0. Only the general path fails, with the arity error. A copy re-views the value with leading 1s stripped. A scatter re-views it to its sizes with leading 1s stripped, exactly when its sizes start with 1 |
| `Dispatch.SetItemGeneral` | aten/src/ATen/native/TensorIndexing.cpp:279-294 | the general path always writes, and fails only with the arity error. It writes into the view applySlicing returns. It scatters exactly when the pending list is non-empty, with that list moved to the view's device. A copy re-views the value with leading 1s stripped. A scatter re-views it to exactly those sizes, and only when its sizes start with 1 |
| `Dispatch.SetItemWritesWhereGetItemReads` | aten/src/ATen/native/TensorIndexing.cpp:205-216 | the general paths of set_item and get_item agree. Both fail or neither does. set_item scatters exactly when get_item gathers, into the same view with the same indices. Otherwise it copies into the view get_item returns, or into the view whose alias get_item returns |
| `Dispatch.AdvancedPathsIffAdvanced` | aten/src/ATen/native/TensorIndexing.cpp:205-216 | whenever the arity check passes, with any number of Ellipses, get_item's general path gathers and set_item's scatters exactly when some descriptor is advanced |
| `Dispatch.SetItemFastPathAgrees` | aten/src/ATen/native/TensorIndexing.cpp:256-275 | when the arity check would pass, the fast path for a single None, Ellipsis, integer or slice writes where and how the general path does |
| `Dispatch.SetItemIndexTensor` | aten/src/ATen/native/TensorIndexing.cpp:279-293 | `x[t] = v` with one non-scalar index tensor scatters into the tensor itself with `t` moved to the tensor's device |
| `Dispatch.SetItemPlace` | aten/src/ATen/native/TensorIndexing.cpp:246-295 | where set_item writes does not depend on the value: whether it fails, the kind of write, the destination view and the indices are the same for any two values |
| `Dispatch.SetItemShape` | aten/src/ATen/native/TensorIndexing.cpp:246-294 | with the count within the rank and at most one Ellipsis, set_item succeeds. It writes into an in-range view on the tensor, of rank = source rank + rank changes. A scatter has one defined index per advanced descriptor. Off the fast path it scatters iff some descriptor is advanced |
| `Dispatch.SetItemScalar` | aten/src/ATen/native/TensorIndexing.cpp:299-311 | the scalar overload does no write exactly for a single `false` and fails exactly as the tensor overload does. Its value is a 0-d tensor holding the scalar, of the tensor's element type (Float for a quantized tensor). A scatter never re-views it, and a copy views it at no sizes |
| `Dispatch.SetItemScalarPlace` | aten/src/ATen/native/TensorIndexing.cpp:299-311 | the scalar overload writes where the tensor overload writes, with the same kind of write, destination view and indices |
| `Render.ShowSlice` | aten/src/ATen/native/TensorIndexing.cpp:14-17 | a slice is written `start:stop:step` in canonical decimal, and the text reads back to the three bounds |
| `Render.ShowIndex` | aten/src/ATen/native/TensorIndexing.cpp:19-34 | a descriptor is written as "None", "...", "true" or "false". An integer is written as canonical decimal text that reads back to it, and a slice as text that reads back to its bounds. A tensor is written as the tensor printer writes it |
| `Render.IntToStringRoundTrip` | aten/src/ATen/native/TensorIndexing.cpp:24-25 | the decimal rendering of an integer descriptor reads back to the same integer |
| `Render.IntTextCanonical` | aten/src/ATen/native/TensorIndexing.cpp:24-25 | canonical decimal text (no lone "-", no "-0", no leading zero) is exactly the rendering of the value it reads as, so the rendering is the only such text for its value |
| `Render.JoinShownAppend` | aten/src/ATen/native/TensorIndexing.cpp:36-44 | rendering a concatenation puts exactly one ", " between the two renderings |
| `Render.ShowIndices` | aten/src/ATen/native/TensorIndexing.cpp:36-44 | the loop writes "(", the descriptors separated by ", ", then ")" |

## Left out

- Element data and the gather and scatter primitives (`index`, `index_put_`): their semantics live in other kernels. The plans name the call and its arguments only.
- Broadcasting in `copy_to` (`expand_inplace`) and the element-wise `copy_`: a copy plan records the destination view and the re-viewed value only, so the shape-broadcast error is not modelled.
- The internals of `applySelect` and `applySlice`, which are defined in a header that is not part of this model. Negative-index wrapping, clamping, index-range errors and the zero-step check are not modelled, and neither is the ensure-view flag that only get_item's fast path passes. The same goes for the shortcut that returns the input itself for a full-range slice: every slice is a new view here, so `is_same(self)` holds only when no primitive was applied.
- Errors inside the primitives: a dimension out of range is modelled as a view that is not `WellFormed`, not as an error result. The theorems show when this cannot happen.
- The provenance tensors that integers and slice bounds may carry (`is_integer_with_tensor`, `start_tensor` and the like). They only feed tracing.
- Device guards (`OptionalDeviceGuard`). `typeConvertIndices` keeps only length, definedness, sizes, element type and the target device.
- `scalar_tensor`/`valueToTensor`: a scalar is modelled as an integer held by a 0-dimensional tensor, so floating and complex scalars are not modelled.
- Printing a tensor inside `operator<<`, and stream I/O: renderings are strings, and tensors are printed by a caller-supplied function.
- The `Tensor::index` and `Tensor::index_put_` forwarding wrappers (lines 315-342): each only calls get_item or set_item.
- 64-bit integers: the cursor, sizes and scalars are unbounded, so int64 overflow is not modelled. A Byte tensor's scalar is assumed to be within 0..255, so the `uint8_t` read is the value itself.
