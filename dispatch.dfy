/** The public entry points: get_item (read) and the two set_item overloads
    (write), as plans — which primitive is applied to which view, and how the
    assigned value is re-viewed. The data movement itself (gather, scatter,
    broadcast and element-wise copy) is not modelled. */
module Dispatch {
  import opened Tensors
  import opened Indices
  import opened Views
  import opened SlicingApplier

  // ----- slicePrefix1sSize -----

  /** The suffix of `sizes` that starts at its first entry other than 1: every
      dropped entry is 1, what is left is empty or starts with a non-1, and the
      element count is unchanged, so viewing a tensor at the result is legal. */
  function StripLeadingOnes(sizes: seq<nat>): (r: seq<nat>)
    ensures |r| <= |sizes| && r == sizes[|sizes| - |r|..]
    ensures forall j :: 0 <= j < |sizes| - |r| ==> sizes[j] == 1
    ensures r == [] || r[0] != 1
    ensures Numel(r) == Numel(sizes)
  {
    if sizes != [] && sizes[0] == 1 then StripLeadingOnes(sizes[1..]) else sizes
  }

  /** Stripping is idempotent, strips an all-ones list to nothing, and changes
      a list exactly when it starts with a 1. */
  lemma StripLeadingOnesFacts(sizes: seq<nat>)
    ensures StripLeadingOnes(StripLeadingOnes(sizes)) == StripLeadingOnes(sizes)
    ensures (forall j :: 0 <= j < |sizes| ==> sizes[j] == 1) ==> StripLeadingOnes(sizes) == []
    ensures StripLeadingOnes(sizes) != sizes <==> |sizes| > 0 && sizes[0] == 1
  {
  }

  /** The first non-1 position determines the stripped list. */
  lemma StripLeadingOnesAt(sizes: seq<nat>, k: nat)
    requires k <= |sizes|
    requires forall j :: 0 <= j < k ==> sizes[j] == 1
    requires k == |sizes| || sizes[k] != 1
    ensures StripLeadingOnes(sizes) == sizes[k..]
  {
  }

  /** slicePrefix1sSize: scan for the first entry other than 1, then slice. */
  method SlicePrefix1sSize(sizes: seq<nat>) returns (r: seq<nat>)
    ensures r == StripLeadingOnes(sizes)
  {
    var firstNon1Src := |sizes|;
    var i := 0;
    while i < |sizes|
      invariant 0 <= i <= |sizes| && firstNon1Src == |sizes|
      invariant forall j :: 0 <= j < i ==> sizes[j] == 1
    {
      if sizes[i] != 1 {
        firstNon1Src := i;
        break;
      }
      i := i + 1;
    }
    StripLeadingOnesAt(sizes, firstNon1Src);
    r := sizes[firstNon1Src..];
  }

  // ----- get_item -----

  datatype GetPlan =
    | Return(view: View)                        // basic indexing only: a view
    | Gather(view: View, indices: seq<Slot>)    // view.index(indices)

  /** The single descriptors get_item handles without applySlicing. */
  predicate IsGetFastPath(indices: seq<TensorIndex>)
  {
    |indices| == 1 && (indices[0].None? || indices[0].Ellipsis? || indices[0].Integer? || indices[0].Slice?)
  }

  /** The general path of get_item: applySlicing, then either the view (an
      alias of it when it is the tensor itself) or a gather on it. */
  function GetItemGeneral(self: Tensor, indices: seq<TensorIndex>): Result<GetPlan>
  {
    match Slicing(self, indices)
    case Err(e) => Err(e)
    case Ok(st) =>
      if st.outIndices == [] then
        Ok(Return(if st.result == Source(self) then Alias(st.result) else st.result))
      else
        Ok(Gather(st.result, ConvertIndices(st.outIndices, Root(st.result).device)))
  }

  /** get_item. It fails only on the general path, with the arity error, and
      never hands back the indexed tensor itself as its result view. */
  function GetItem(self: Tensor, indices: seq<TensorIndex>): (r: Result<GetPlan>)
    ensures r.Err? <==> !IsGetFastPath(indices) && SpecifiedDims(indices) > |self.sizes|
    ensures r.Err? ==> r.error == TooManyIndices(|self.sizes|)
    ensures r.Ok? && r.value.Return? ==> r.value.view != Source(self)
  {
    if |indices| == 1 && indices[0].None? then
      Ok(Return(Unsqueeze(Source(self), 0)))
    else if |indices| == 1 && indices[0].Ellipsis? then
      Ok(Return(Alias(Source(self))))
    else if |indices| == 1 && indices[0].Integer? then
      Ok(Return(Select(Source(self), 0, indices[0].n)))
    else if |indices| == 1 && indices[0].Slice? then
      var x := indices[0];
      Ok(Return(Narrow(Source(self), 0, x.start, x.stop, x.step)))
    else
      GetItemGeneral(self, indices)
  }

  /** The fast path is only a shortcut: whenever the arity check would pass,
      it yields the same plan as applySlicing would. */
  lemma GetItemFastPathAgrees(self: Tensor, indices: seq<TensorIndex>)
    requires IsGetFastPath(indices) && SpecifiedDims(indices) <= |self.sizes|
    ensures GetItem(self, indices) == GetItemGeneral(self, indices)
  {
    assert indices[..0] == [];
    assert SpecifiedDims(indices) == Specified(indices[0]);
    var w := |self.sizes| - SpecifiedDims(indices);
    assert Run(Initial(self), indices, w) == Step(Initial(self), indices[0], w);
  }

  lemma {:induction false} DefinedCountConvert(s: seq<Slot>, device: Device)
    ensures DefinedCount(ConvertIndices(s, device)) == DefinedCount(s)
  {
    if s != [] {
      var p := s[..|s| - 1];
      assert ConvertIndices(s, device)[..|s| - 1] == ConvertIndices(p, device);
      DefinedCountConvert(p, device);
    }
  }

  /** What get_item produces when the arity check passes and there is at most
      one Ellipsis: a view on the indexed tensor in which every primitive call
      is in range, of the rank the per-descriptor table gives; a gather exactly
      when some descriptor is advanced, with one defined index per advanced
      descriptor, all on the view's device. */
  lemma GetItemShape(self: Tensor, indices: seq<TensorIndex>)
    requires SpecifiedDims(indices) <= |self.sizes| && Ellipses(indices) <= 1
    ensures GetItem(self, indices).Ok?
    ensures var p := GetItem(self, indices).value;
      && WellFormed(p.view)
      && Root(p.view) == self
      && Rank(p.view) == |self.sizes| + RankChange(indices)
      && (p.Gather? <==> AdvancedCount(indices) > 0)
      && (p.Gather? ==> DefinedCount(p.indices) == AdvancedCount(indices))
  {
    SlicingSpec(self, indices);
    if IsGetFastPath(indices) {
      GetItemFastPathAgrees(self, indices);
    }
    var st := Slicing(self, indices).value;
    DefinedCountConvert(st.outIndices, Root(st.result).device);
  }

  lemma {:induction false} RunEllipses(self: Tensor, indices: seq<TensorIndex>, width: nat)
    requires forall k :: 0 <= k < |indices| ==> indices[k].Ellipsis?
    ensures Run(Initial(self), indices, width).result == Source(self)
    ensures Run(Initial(self), indices, width).outIndices == []
  {
    if indices != [] {
      RunEllipses(self, indices[..|indices| - 1], width);
    }
  }

  /** An expression that selects nothing away — the empty list or Ellipses
      only — gives a fresh alias of the tensor, never the tensor itself. */
  lemma GetItemNoOpAliases(self: Tensor, indices: seq<TensorIndex>)
    requires forall k :: 0 <= k < |indices| ==> indices[k].Ellipsis?
    ensures GetItem(self, indices) == Ok(Return(Alias(Source(self))))
  {
    SpecifiedDimsZero(indices);
    RunEllipses(self, indices, |self.sizes|);
  }

  /** applySlicing on one index tensor that is not a scalar leaves the view
      as it is and records the tensor at position 0. */
  lemma SlicingIndexTensor(self: Tensor, t: Tensor)
    requires !IsScalarIndex(t) && Specified(IndexTensor(t)) <= |self.sizes|
    ensures Slicing(self, [IndexTensor(t)]) == Ok(State(1, Source(self), [Defined(t)]))
  {
    var xs := [IndexTensor(t)];
    assert xs[..0] == [];
    assert SpecifiedDims(xs) == Specified(IndexTensor(t));
    var w: nat := |self.sizes| - SpecifiedDims(xs);
    assert Run(Initial(self), xs, w) == Step(Run(Initial(self), xs[..0], w), xs[0], w);
    assert Store([], 0, t) == [Defined(t)];
  }

  /** `x[t]` with one index tensor that is not a scalar gathers from the
      tensor itself with `t`, moved to the tensor's device. */
  lemma GetItemIndexTensor(self: Tensor, t: Tensor)
    requires !IsScalarIndex(t) && Specified(IndexTensor(t)) <= |self.sizes|
    ensures GetItem(self, [IndexTensor(t)]) == Ok(Gather(Source(self), [Defined(ToDevice(t, self.device))]))
  {
    SlicingIndexTensor(self, t);
    assert ConvertIndices([Defined(t)], self.device) == [Defined(ToDevice(t, self.device))];
  }

  // ----- set_item -----

  /** The assigned value, as is or viewed at other sizes. */
  datatype ValueView = AsIs(value: Tensor) | Reshaped(value: Tensor, sizes: seq<nat>)

  datatype SetPlan =
    | NoWrite
    | CopyInto(dst: View, src: ValueView)                  // copy_to: expand, then copy_
    | Scatter(dst: View, indices: seq<Slot>, src: ValueView)  // dst.index_put_(indices, src)

  /** copy_to: the value is always viewed with its leading 1s stripped before
      it is broadcast against the destination; the view keeps its element count. */
  function CopyTo(dst: View, src: Tensor): (r: SetPlan)
    ensures r.CopyInto? && r.dst == dst && r.src.Reshaped? && r.src.value == src
    ensures r.src.sizes == StripLeadingOnes(src.sizes)
    ensures r.src.sizes == [] || r.src.sizes[0] != 1
    ensures Numel(r.src.sizes) == Numel(src.sizes)
  {
    CopyInto(dst, Reshaped(src, StripLeadingOnes(src.sizes)))
  }

  /** The single descriptors set_item handles without applySlicing. */
  predicate IsSetFastPath(indices: seq<TensorIndex>)
  {
    |indices| == 1 && !indices[0].IndexTensor?
  }

  /** The general path of set_item: applySlicing, then a copy into the view,
      or a scatter into it with the value re-viewed to its sizes without
      leading 1s exactly when it has any. It always writes, and fails only
      with the arity error. */
  function SetItemGeneral(self: Tensor, indices: seq<TensorIndex>, value: Tensor): (r: Result<SetPlan>)
    ensures r.Err? <==> SpecifiedDims(indices) > |self.sizes|
    ensures r.Err? ==> r.error == TooManyIndices(|self.sizes|)
    ensures r.Ok? ==> !r.value.NoWrite?
    ensures r.Ok? ==>
      var st := Slicing(self, indices).value;
      && r.value.dst == st.result
      && (r.value.Scatter? <==> st.outIndices != [])
      && (r.value.Scatter? ==> r.value.indices == ConvertIndices(st.outIndices, Root(st.result).device))
    ensures r.Ok? && r.value.CopyInto? ==> r.value.src == Reshaped(value, StripLeadingOnes(value.sizes))
    ensures r.Ok? && r.value.Scatter? ==>
      r.value.src.value == value &&
      (r.value.src.Reshaped? <==> |value.sizes| > 0 && value.sizes[0] == 1) &&
      (r.value.src.Reshaped? ==> r.value.src.sizes == StripLeadingOnes(value.sizes))
  {
    match Slicing(self, indices)
    case Err(e) => Err(e)
    case Ok(st) =>
      if st.outIndices == [] then
        Ok(CopyTo(st.result, value))
      else
        var slicedValueSizes := StripLeadingOnes(value.sizes);
        var valuesSliced := if value.sizes != slicedValueSizes then Reshaped(value, slicedValueSizes) else AsIs(value);
        Ok(Scatter(st.result, ConvertIndices(st.outIndices, Root(st.result).device), valuesSliced))
  }

  /** set_item with a tensor value. A single false performs no write at all,
      and is the only index that does not; a single None or true writes into
      the tensor unsqueezed at 0; only the general path can fail, with the
      arity error; on the advanced path the value is re-viewed exactly when its
      sizes start with a 1. */
  function SetItem(self: Tensor, indices: seq<TensorIndex>, value: Tensor): (r: Result<SetPlan>)
    ensures r == Ok(NoWrite) <==> indices == [Boolean(false)]
    ensures indices == [None] || indices == [Boolean(true)] ==>
      r == Ok(CopyTo(Unsqueeze(Source(self), 0), value))
    ensures r.Err? <==> !IsSetFastPath(indices) && SpecifiedDims(indices) > |self.sizes|
    ensures r.Err? ==> r.error == TooManyIndices(|self.sizes|)
    ensures r.Ok? && r.value.CopyInto? ==> r.value.src == Reshaped(value, StripLeadingOnes(value.sizes))
    ensures r.Ok? && r.value.Scatter? ==>
      r.value.src.value == value &&
      (r.value.src.Reshaped? <==> |value.sizes| > 0 && value.sizes[0] == 1) &&
      (r.value.src.Reshaped? ==> r.value.src.sizes == StripLeadingOnes(value.sizes))
  {
    if |indices| == 1 && indices[0] == Boolean(false) then
      Ok(NoWrite)
    else if |indices| == 1 && indices[0].Ellipsis? then
      Ok(CopyTo(Source(self), value))
    else if |indices| == 1 && (indices[0].None? || indices[0] == Boolean(true)) then
      Ok(CopyTo(Unsqueeze(Source(self), 0), value))
    else if |indices| == 1 && indices[0].Integer? then
      Ok(CopyTo(Select(Source(self), 0, indices[0].n), value))
    else if |indices| == 1 && indices[0].Slice? then
      var x := indices[0];
      Ok(CopyTo(Narrow(Source(self), 0, x.start, x.stop, x.step), value))
    else
      SetItemGeneral(self, indices, value)
  }

  /** The fast path for a single None, Ellipsis, integer or slice is only a
      shortcut: whenever the arity check would pass, the general path writes
      the same way. */
  lemma SetItemFastPathAgrees(self: Tensor, x: TensorIndex, value: Tensor)
    requires x.None? || x.Ellipsis? || x.Integer? || x.Slice?
    requires Specified(x) <= |self.sizes|
    ensures SetItem(self, [x], value) == SetItemGeneral(self, [x], value)
  {
    var xs := [x];
    assert xs[..0] == [];
    assert SpecifiedDims(xs) == Specified(x);
    var w := |self.sizes| - SpecifiedDims(xs);
    assert Run(Initial(self), xs, w) == Step(Initial(self), x, w);
  }

  /** `x[t] = v` with one index tensor that is not a scalar scatters into the
      tensor itself with `t`, moved to the tensor's device. */
  lemma SetItemIndexTensor(self: Tensor, t: Tensor, value: Tensor)
    requires !IsScalarIndex(t) && Specified(IndexTensor(t)) <= |self.sizes|
    ensures SetItem(self, [IndexTensor(t)], value).Ok?
    ensures var p := SetItem(self, [IndexTensor(t)], value).value;
      p.Scatter? && p.dst == Source(self) && p.indices == [Defined(ToDevice(t, self.device))]
  {
    SlicingIndexTensor(self, t);
    assert SetItem(self, [IndexTensor(t)], value) == SetItemGeneral(self, [IndexTensor(t)], value);
    assert ConvertIndices([Defined(t)], self.device) == [Defined(ToDevice(t, self.device))];
  }

  /** The general path, when the arity check passes and there is at most one
      Ellipsis, writes into an in-range view on the tensor, and scatters
      exactly when some descriptor is advanced. */
  lemma SetItemGeneralShape(self: Tensor, indices: seq<TensorIndex>, value: Tensor)
    requires SpecifiedDims(indices) <= |self.sizes| && Ellipses(indices) <= 1
    ensures SetItemGeneral(self, indices, value).Ok?
    ensures var p := SetItemGeneral(self, indices, value).value;
      && WellFormed(p.dst) && Root(p.dst) == self
      && Rank(p.dst) == |self.sizes| + RankChange(indices)
      && (p.Scatter? <==> AdvancedCount(indices) > 0)
      && (p.Scatter? ==> DefinedCount(p.indices) == AdvancedCount(indices))
  {
    SlicingSpec(self, indices);
    var st := Slicing(self, indices).value;
    DefinedCountConvert(st.outIndices, Root(st.result).device);
  }

  /** set_item's general path writes exactly where get_item's general path
      reads: into the same view (of which get_item returns an alias when it is
      the tensor itself), and a scatter with the same indices as the gather. */
  lemma SetItemWritesWhereGetItemReads(self: Tensor, indices: seq<TensorIndex>, value: Tensor)
    ensures GetItemGeneral(self, indices).Ok? <==> SetItemGeneral(self, indices, value).Ok?
    ensures GetItemGeneral(self, indices).Ok? ==>
      var g, p := GetItemGeneral(self, indices).value, SetItemGeneral(self, indices, value).value;
      && (g.Gather? <==> p.Scatter?)
      && (g.Gather? ==> g.view == p.dst && g.indices == p.indices)
      && (g.Return? ==> g.view == p.dst || g.view == Alias(p.dst))
  {
  }

  /** Whenever the arity check passes, with any number of Ellipses, the
      general paths gather and scatter exactly when some descriptor is
      advanced; only the range of the primitives needs one Ellipsis at most. */
  lemma AdvancedPathsIffAdvanced(self: Tensor, indices: seq<TensorIndex>, value: Tensor)
    requires SpecifiedDims(indices) <= |self.sizes|
    ensures GetItemGeneral(self, indices).Ok? && SetItemGeneral(self, indices, value).Ok?
    ensures GetItemGeneral(self, indices).value.Gather? <==> AdvancedCount(indices) > 0
    ensures SetItemGeneral(self, indices, value).value.Scatter? <==> AdvancedCount(indices) > 0
  {
    SlicingSpec(self, indices);
  }

  /** What set_item writes into when the arity check passes and there is at
      most one Ellipsis: a view on the tensor in which every primitive call is
      in range; it scatters exactly when some descriptor is advanced (and is
      not a fast-path boolean). */
  lemma SetItemShape(self: Tensor, indices: seq<TensorIndex>, value: Tensor)
    requires SpecifiedDims(indices) <= |self.sizes| && Ellipses(indices) <= 1
    ensures SetItem(self, indices, value).Ok?
    ensures var p := SetItem(self, indices, value).value;
      !p.NoWrite? ==>
        && WellFormed(p.dst) && Root(p.dst) == self
        && Rank(p.dst) == |self.sizes| + RankChange(indices)
    ensures var p := SetItem(self, indices, value).value;
      p.Scatter? ==> DefinedCount(p.indices) == AdvancedCount(indices)
    ensures !IsSetFastPath(indices) ==>
      (SetItem(self, indices, value).value.Scatter? <==> AdvancedCount(indices) > 0)
  {
    if IsSetFastPath(indices) {
      SetItemFastShape(self, indices, value);
    } else {
      assert SetItem(self, indices, value) == SetItemGeneral(self, indices, value);
      SetItemGeneralShape(self, indices, value);
    }
  }

  /** The single-descriptor case of `SetItemShape`: never a scatter. */
  lemma SetItemFastShape(self: Tensor, indices: seq<TensorIndex>, value: Tensor)
    requires IsSetFastPath(indices) && SpecifiedDims(indices) <= |self.sizes|
    ensures SetItem(self, indices, value).Ok?
    ensures var p := SetItem(self, indices, value).value;
      && !p.Scatter?
      && (!p.NoWrite? ==>
        && WellFormed(p.dst) && Root(p.dst) == self
        && Rank(p.dst) == |self.sizes| + RankChange(indices))
  {
    var x := indices[0];
    assert indices == [x] && indices[..0] == [];
    assert SpecifiedDims(indices) == Specified(x) && RankChange(indices) == RankDelta(x);
    if x == Boolean(false) {
      assert SetItem(self, indices, value) == Ok(NoWrite);
    } else if x == Boolean(true) {
      assert SetItem(self, indices, value) == Ok(CopyTo(Unsqueeze(Source(self), 0), value));
    } else {
      assert Ellipses(indices) <= 1;
      SetItemFastPathAgrees(self, x, value);
      SetItemGeneralShape(self, indices, value);
    }
  }

  /** Two plans write to the same place: both succeed or neither does, and
      they are of the same kind, into the same view, with the same indices. */
  predicate SamePlace(p: Result<SetPlan>, q: Result<SetPlan>)
  {
    && p.Ok? == q.Ok?
    && (p.Ok? ==>
      && p.value.NoWrite? == q.value.NoWrite?
      && p.value.CopyInto? == q.value.CopyInto?
      && p.value.Scatter? == q.value.Scatter?
      && (!p.value.NoWrite? ==> p.value.dst == q.value.dst)
      && (p.value.Scatter? ==> p.value.indices == q.value.indices))
  }

  /** Where set_item writes does not depend on the value written. */
  lemma SetItemPlace(self: Tensor, indices: seq<TensorIndex>, a: Tensor, b: Tensor)
    ensures SamePlace(SetItem(self, indices, a), SetItem(self, indices, b))
  {
    if !IsSetFastPath(indices) {
      assert SetItem(self, indices, a) == SetItemGeneral(self, indices, a);
      assert SetItem(self, indices, b) == SetItemGeneral(self, indices, b);
      match Slicing(self, indices)
      case Err(_) =>
      case Ok(st) =>
    }
  }

  /** valueToTensor: the scalar as a 0-dimensional tensor with the options of
      the tensor written to, except that a quantized tensor gets a Float value
      on the CPU. */
  function ScalarToTensor(self: Tensor, v: int): Tensor
  {
    if IsQIntType(self.dtype) then Tensor([], Float, Cpu, v)
    else Tensor([], self.dtype, self.device, v)
  }

  /** set_item with a scalar value. It writes where the tensor overload writes;
      the value written is the scalar as a 0-dimensional tensor, of the
      tensor's element type (Float for a quantized tensor), which is never
      re-viewed on the advanced path. */
  function SetItemScalar(self: Tensor, indices: seq<TensorIndex>, v: int): (r: Result<SetPlan>)
    ensures r == Ok(NoWrite) <==> indices == [Boolean(false)]
    ensures r.Err? <==> !IsSetFastPath(indices) && SpecifiedDims(indices) > |self.sizes|
    ensures r.Ok? && !r.value.NoWrite? ==>
      && r.value.src.value.sizes == []
      && r.value.src.value.item == v
      && r.value.src.value.dtype == (if IsQIntType(self.dtype) then Float else self.dtype)
    ensures r.Ok? && r.value.Scatter? ==> r.value.src.AsIs?
    ensures r.Ok? && r.value.CopyInto? ==> r.value.src.Reshaped? && r.value.src.sizes == []
  {
    var value := ScalarToTensor(self, v);
    assert StripLeadingOnes(value.sizes) == [];
    SetItem(self, indices, value)
  }

  /** The scalar overload writes where the tensor overload writes, whatever
      tensor value that one is given. */
  lemma SetItemScalarPlace(self: Tensor, indices: seq<TensorIndex>, v: int, value: Tensor)
    ensures SamePlace(SetItem(self, indices, value), SetItemScalar(self, indices, v))
  {
    SetItemPlace(self, indices, value, ScalarToTensor(self, v));
  }
}
