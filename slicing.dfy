/** The slicing applier (applySlicing): walks the descriptor list left to
    right with an output-dimension cursor, builds the basic view, and records
    advanced index tensors at the cursor positions they act on. Also the
    device alignment of those index tensors (typeConvertIndices). */
module SlicingApplier {
  import opened Tensors
  import opened Indices
  import opened Views

  /** An entry of the pending advanced-index list: an undefined tensor (a hole,
      "no constraint on this dimension") or an index tensor. */
  datatype Slot = Undefined | Defined(tensor: Tensor)

  function Holes(n: nat): (r: seq<Slot>)
    ensures |r| == n
    ensures forall k :: 0 <= k < n ==> r[k] == Undefined
  {
    seq(n, _ => Undefined)
  }

  /** std::vector::resize: truncate, or pad with undefined tensors. */
  function Resize(s: seq<Slot>, n: nat): (r: seq<Slot>)
    ensures |r| == n
    ensures forall k :: 0 <= k < n && k < |s| ==> r[k] == s[k]
    ensures forall k :: |s| <= k < n ==> r[k] == Undefined
  {
    if n <= |s| then s[..n] else s + Holes(n - |s|)
  }

  /** What handle_tensor does to the pending list: resize it to `dim + 1` and
      store the tensor at `dim`. */
  function Store(s: seq<Slot>, dim: nat, t: Tensor): (r: seq<Slot>)
    ensures |r| == dim + 1 && r[dim] == Defined(t)
    ensures forall k :: 0 <= k < dim && k < |s| ==> r[k] == s[k]
    ensures forall k :: |s| <= k < dim ==> r[k] == Undefined
  {
    Resize(s, dim + 1)[dim := Defined(t)]
  }

  /** When the list is no longer than the cursor, storing appends holes up to
      the cursor and then the tensor: nothing already stored is lost. */
  lemma StoreAppends(s: seq<Slot>, dim: nat, t: Tensor)
    requires |s| <= dim
    ensures Store(s, dim, t) == s + Holes(dim - |s|) + [Defined(t)]
  {
    var r, e := Store(s, dim, t), s + Holes(dim - |s|) + [Defined(t)];
    assert |r| == |e|;
    forall k | 0 <= k < |r| ensures r[k] == e[k] {
      if k < |s| {
      } else if k < dim {
        assert e[k] == Holes(dim - |s|)[k - |s|];
      }
    }
  }

  /** boolToIndexingTensor: booleans add a dimension of size 1; a true value
      indexes it wholly (a Long tensor holding the one index 0), a false value
      emptily (an empty Long tensor). The tensor takes the view's device. */
  function BoolToIndexingTensor(device: Device, value: bool): (r: Tensor)
    ensures r.dtype == Long && r.device == device && |r.sizes| == 1
    ensures Numel(r.sizes) == (if value then 1 else 0)
  {
    Tensor(if value then [1] else [0], Long, device, 0)
  }

  /** The state carried from one descriptor to the next. */
  datatype State = State(dim: nat, result: View, outIndices: seq<Slot>)

  function Initial(self: Tensor): State
  {
    State(0, Source(self), [])
  }

  /** A 0-dimensional integral tensor (Bool included) acts as a scalar. */
  predicate IsScalarIndex(t: Tensor)
  {
    |t.sizes| == 0 && IsIntegralType(t.dtype, true)
  }

  /** handle_tensor. */
  function Record(st: State, t: Tensor): State
  {
    State(st.dim + 1, st.result, Store(st.outIndices, st.dim, t))
  }

  /** One iteration of the loop of applySlicing; `width` is how far an
      Ellipsis moves the cursor (the source rank minus the specified count). */
  function Step(st: State, x: TensorIndex, width: nat): State
  {
    match x
    case Integer(n) => st.(result := Select(st.result, st.dim, n))
    case Slice(a, b, c) => State(st.dim + 1, Narrow(st.result, st.dim, a, b, c), st.outIndices)
    case Ellipsis => st.(dim := st.dim + width)
    case None => State(st.dim + 1, Unsqueeze(st.result, st.dim), st.outIndices)
    case Boolean(b) =>
      var u := Unsqueeze(st.result, st.dim);
      Record(st.(result := u), BoolToIndexingTensor(Root(u).device, b))
    case IndexTensor(t) =>
      if IsScalarIndex(t) then
        if t.dtype != Byte && t.dtype != Bool then st.(result := Select(st.result, st.dim, t.item))
        else
          var u := Unsqueeze(st.result, st.dim);
          Record(st.(result := u), BoolToIndexingTensor(Root(u).device, t.item != 0))
      else Record(st, t)
  }

  /** The loop of applySlicing over a list, as a fold from the left. */
  function Run(st: State, xs: seq<TensorIndex>, width: nat): State
  {
    if xs == [] then st else Step(Run(st, xs[..|xs| - 1], width), xs[|xs| - 1], width)
  }

  /** applySlicing as a function: the arity check, then the loop. */
  function Slicing(self: Tensor, indices: seq<TensorIndex>): Result<State>
  {
    var specified := SpecifiedDims(indices);
    if specified > |self.sizes| then Err(TooManyIndices(|self.sizes|))
    else Ok(Run(Initial(self), indices, |self.sizes| - specified))
  }

  // ----- Per-descriptor effects, stated independently of Step -----

  /** How far one descriptor moves the cursor: an integer or a 0-dimensional
      non-mask integral tensor not at all, an Ellipsis by `width`, everything
      else (slice, None, boolean, mask scalar, any other tensor) by one. */
  function Advance(x: TensorIndex, width: nat): nat
  {
    match x
    case Integer(_) => 0
    case Ellipsis => width
    case IndexTensor(t) => if IsScalarIndex(t) && !IsMaskType(t.dtype) then 0 else 1
    case _ => 1
  }

  /** How one descriptor changes the rank of the view: an integer or a
      0-dimensional non-mask integral tensor removes a dimension; None, a
      boolean or a 0-dimensional mask adds one; the rest keep the rank. */
  function RankDelta(x: TensorIndex): int
  {
    match x
    case Integer(_) => -1
    case None => 1
    case Boolean(_) => 1
    case IndexTensor(t) => if IsScalarIndex(t) then (if IsMaskType(t.dtype) then 1 else -1) else 0
    case _ => 0
  }

  /** Whether a descriptor leaves an advanced index tensor behind: a boolean,
      and every tensor except a 0-dimensional non-mask integral one. */
  predicate IsAdvanced(x: TensorIndex)
  {
    x.Boolean? || (x.IndexTensor? && !(IsScalarIndex(x.tensor) && !IsMaskType(x.tensor.dtype)))
  }

  /** The index tensor an advanced descriptor leaves at the cursor: a tensor
      index is kept as it is; a boolean or a 0-dimensional mask becomes the
      indexing tensor of its truth value on the view's device. */
  function RecordedIndex(device: Device, x: TensorIndex): Tensor
    requires IsAdvanced(x)
  {
    if x.IndexTensor? && !IsScalarIndex(x.tensor) then x.tensor
    else BoolToIndexingTensor(device, if x.Boolean? then x.b else x.tensor.item != 0)
  }

  function CursorAdvance(xs: seq<TensorIndex>, width: nat): nat
  {
    if xs == [] then 0 else CursorAdvance(xs[..|xs| - 1], width) + Advance(xs[|xs| - 1], width)
  }

  function RankChange(xs: seq<TensorIndex>): int
  {
    if xs == [] then 0 else RankChange(xs[..|xs| - 1]) + RankDelta(xs[|xs| - 1])
  }

  function AdvancedCount(xs: seq<TensorIndex>): nat
  {
    if xs == [] then 0 else AdvancedCount(xs[..|xs| - 1]) + (if IsAdvanced(xs[|xs| - 1]) then 1 else 0)
  }

  /** Number of defined entries of a pending list. */
  function DefinedCount(s: seq<Slot>): nat
  {
    if s == [] then 0 else DefinedCount(s[..|s| - 1]) + (if s[|s| - 1].Defined? then 1 else 0)
  }

  lemma {:induction false} DefinedCountAppend(s: seq<Slot>, u: seq<Slot>)
    ensures DefinedCount(s + u) == DefinedCount(s) + DefinedCount(u)
  {
    if u != [] {
      assert (s + u)[..|s + u| - 1] == s + u[..|u| - 1];
      DefinedCountAppend(s, u[..|u| - 1]);
    } else {
      assert s + u == s;
    }
  }

  lemma {:induction false} DefinedCountHoles(n: nat)
    ensures DefinedCount(Holes(n)) == 0
  {
    if n > 0 {
      assert Holes(n)[..n - 1] == Holes(n - 1);
      DefinedCountHoles(n - 1);
    }
  }

  // ----- What one step does -----

  /** One step moves the cursor by `Advance`, changes the rank by `RankDelta`,
      and, when the list is no longer than the cursor, keeps it so: an advanced
      descriptor appends holes and then, at the old cursor, the index tensor it
      stands for (a tensor index unchanged); any other descriptor leaves the
      list alone. */
  lemma StepEffect(st: State, x: TensorIndex, width: nat)
    requires |st.outIndices| <= st.dim
    ensures Step(st, x, width).dim == st.dim + Advance(x, width)
    ensures Rank(Step(st, x, width).result) == Rank(st.result) + RankDelta(x)
    ensures Root(Step(st, x, width).result) == Root(st.result)
    ensures var out := Step(st, x, width).outIndices;
      |out| <= Step(st, x, width).dim &&
      if IsAdvanced(x) then
        out == st.outIndices + Holes(st.dim - |st.outIndices|)
          + [Defined(RecordedIndex(Root(st.result).device, x))]
      else out == st.outIndices
  {
    match x
    case Boolean(b) =>
      var u := Unsqueeze(st.result, st.dim);
      StoreAppends(st.outIndices, st.dim, BoolToIndexingTensor(Root(u).device, b));
    case IndexTensor(t) =>
      if IsScalarIndex(t) && IsMaskType(t.dtype) {
        var u := Unsqueeze(st.result, st.dim);
        StoreAppends(st.outIndices, st.dim, BoolToIndexingTensor(Root(u).device, t.item != 0));
      } else if !IsScalarIndex(t) {
        StoreAppends(st.outIndices, st.dim, t);
      }
    case _ =>
  }

  /** A boolean, or a 0-dimensional Bool or Byte tensor, unsqueezes the view at
      the cursor and records there a Long index tensor on the view's device,
      of shape [1] when the value is true and [0] when it is false. */
  lemma BooleanStep(st: State, x: TensorIndex, width: nat)
    requires x.Boolean? || (x.IndexTensor? && IsScalarIndex(x.tensor) && IsMaskType(x.tensor.dtype))
    ensures var value := if x.Boolean? then x.b else x.tensor.item != 0;
      var next := Step(st, x, width);
      && next.result == Unsqueeze(st.result, st.dim)
      && next.dim == st.dim + 1
      && next.outIndices[st.dim].Defined?
      && next.outIndices[st.dim].tensor.dtype == Long
      && next.outIndices[st.dim].tensor.device == Root(st.result).device
      && next.outIndices[st.dim].tensor.sizes == (if value then [1] else [0])
  {
  }

  // ----- What the whole loop does -----

  /** The cursor ends at its start plus the sum of the advances (so it never
      decreases), and the rank ends at its start plus the sum of the rank
      changes; the view keeps sharing the same tensor's storage. */
  lemma {:induction false} RunEffect(st: State, xs: seq<TensorIndex>, width: nat)
    requires |st.outIndices| <= st.dim
    ensures Run(st, xs, width).dim == st.dim + CursorAdvance(xs, width)
    ensures Run(st, xs, width).dim >= st.dim
    ensures Rank(Run(st, xs, width).result) == Rank(st.result) + RankChange(xs)
    ensures Root(Run(st, xs, width).result) == Root(st.result)
  {
    if xs != [] {
      var p := xs[..|xs| - 1];
      RunEffect(st, p, width);
      RunIndices(st, p, width);
      StepEffect(Run(st, p, width), xs[|xs| - 1], width);
    }
  }

  /** The pending list never outgrows the cursor; what is already in it is
      never overwritten (the old list is a prefix of the new one); it gains
      exactly one defined entry per advanced descriptor; and it is untouched
      when there is none. */
  lemma {:induction false} RunIndices(st: State, xs: seq<TensorIndex>, width: nat)
    requires |st.outIndices| <= st.dim
    ensures |Run(st, xs, width).outIndices| <= Run(st, xs, width).dim
    ensures st.outIndices <= Run(st, xs, width).outIndices
    ensures DefinedCount(Run(st, xs, width).outIndices) == DefinedCount(st.outIndices) + AdvancedCount(xs)
    ensures AdvancedCount(xs) == 0 ==> Run(st, xs, width).outIndices == st.outIndices
  {
    if xs != [] {
      var p, x := xs[..|xs| - 1], xs[|xs| - 1];
      RunIndices(st, p, width);
      var mid := Run(st, p, width);
      StepEffect(mid, x, width);
      if IsAdvanced(x) {
        var t := RecordedIndex(Root(mid.result).device, x);
        DefinedCountAppend(mid.outIndices + Holes(mid.dim - |mid.outIndices|), [Defined(t)]);
        DefinedCountAppend(mid.outIndices, Holes(mid.dim - |mid.outIndices|));
        DefinedCountHoles(mid.dim - |mid.outIndices|);
        assert DefinedCount([Defined(t)]) == 1 by {
          assert [Defined(t)][..0] == [];
        }
      }
    }
  }

  /** Cursor movement beyond rank loss never exceeds the specified count,
      plus the Ellipsis width when the list holds its one Ellipsis. */
  lemma {:induction false} ConsumedBound(xs: seq<TensorIndex>, width: nat)
    requires Ellipses(xs) <= 1
    ensures CursorAdvance(xs, width) - RankChange(xs)
      <= SpecifiedDims(xs) + (if Ellipses(xs) == 0 then 0 else width)
  {
    if xs != [] {
      ConsumedBound(xs[..|xs| - 1], width);
    }
  }

  /** A step whose view has room for the dimensions the descriptor consumes
      hands every primitive a dimension in range. */
  lemma StepInRange(st: State, x: TensorIndex, width: nat)
    requires WellFormed(st.result)
    requires Rank(st.result) - st.dim >= Specified(x)
    ensures WellFormed(Step(st, x, width).result)
  {
  }

  /** With at most one Ellipsis, and enough room in the view for the specified
      dimensions (and the Ellipsis width, if there is an Ellipsis), no primitive
      of the loop receives a dimension out of range. */
  lemma {:induction false} RunInRange(st: State, xs: seq<TensorIndex>, width: nat)
    requires WellFormed(st.result) && |st.outIndices| <= st.dim
    requires Ellipses(xs) <= 1
    requires Rank(st.result) - st.dim >= SpecifiedDims(xs) + (if Ellipses(xs) == 0 then 0 else width)
    ensures WellFormed(Run(st, xs, width).result)
  {
    if xs != [] {
      var p, x := xs[..|xs| - 1], xs[|xs| - 1];
      RunInRange(st, p, width);
      RunEffect(st, p, width);
      RunIndices(st, p, width);
      ConsumedBound(p, width);
      StepInRange(Run(st, p, width), x, width);
    }
  }

  /** applySlicing fails with the arity error exactly when the specified count
      exceeds the rank. Otherwise, with at most one Ellipsis, every primitive
      call is in range; the cursor and the rank end where the per-descriptor
      tables say; the pending list is no longer than the cursor and holds one
      defined tensor per advanced descriptor, and is empty when there is none. */
  lemma SlicingSpec(self: Tensor, indices: seq<TensorIndex>)
    ensures Slicing(self, indices).Err? <==> SpecifiedDims(indices) > |self.sizes|
    ensures Slicing(self, indices).Err? ==> Slicing(self, indices).error == TooManyIndices(|self.sizes|)
    ensures Slicing(self, indices).Ok? ==>
      var st := Slicing(self, indices).value;
      && st.dim == CursorAdvance(indices, |self.sizes| - SpecifiedDims(indices))
      && Rank(st.result) == |self.sizes| + RankChange(indices)
      && Root(st.result) == self
      && |st.outIndices| <= st.dim
      && DefinedCount(st.outIndices) == AdvancedCount(indices)
      && (st.outIndices == [] <==> AdvancedCount(indices) == 0)
      && (Ellipses(indices) <= 1 ==> WellFormed(st.result))
  {
    if SpecifiedDims(indices) <= |self.sizes| {
      var w := |self.sizes| - SpecifiedDims(indices);
      RunEffect(Initial(self), indices, w);
      RunIndices(Initial(self), indices, w);
      if Ellipses(indices) <= 1 {
        RunInRange(Initial(self), indices, w);
      }
    }
  }

  /** Why the Ellipsis hypothesis is needed: nothing here rejects a second
      Ellipsis, and on a rank-2 tensor `[..., ..., 0]` selects at dimension 2. */
  lemma TwoEllipsesLeaveRange(self: Tensor)
    requires |self.sizes| == 2
    ensures Slicing(self, [Ellipsis, Ellipsis, Integer(0)]).Ok?
    ensures !WellFormed(Slicing(self, [Ellipsis, Ellipsis, Integer(0)]).value.result)
  {
    var xs := [Ellipsis, Ellipsis, Integer(0)];
    var e1, e2 := [Ellipsis], [Ellipsis, Ellipsis];
    assert xs[..2] == e2 && e2[..1] == e1 && e1[..0] == [];
    assert SpecifiedDims(e1) == 0 && Ellipses(e1) == 1;
    assert SpecifiedDims(e2) == 0;
    assert SpecifiedDims(xs) == 1;
    assert Run(Initial(self), e1, 1) == State(1, Source(self), []);
    assert Run(Initial(self), e2, 1) == State(2, Source(self), []);
    assert Run(Initial(self), xs, 1).result == Select(Source(self), 2, 0);
  }

  /** applySlicing. The pending list is returned instead of being filled
      through a reference parameter. */
  method ApplySlicing(self: Tensor, indices: seq<TensorIndex>) returns (res: Result<View>, outIndices: seq<Slot>)
    ensures res.Err? <==> SpecifiedDims(indices) > |self.sizes|
    ensures res.Err? ==> res.error == TooManyIndices(|self.sizes|) && outIndices == []
    ensures res.Ok? ==>
      && Slicing(self, indices).Ok?
      && res.value == Slicing(self, indices).value.result
      && outIndices == Slicing(self, indices).value.outIndices
  {
    var size := |indices|;
    var dim: nat := 0;
    var specifiedDims := CountSpecifiedDimensions(indices);
    outIndices := [];
    if specifiedDims > |self.sizes| {
      return Err(TooManyIndices(|self.sizes|)), outIndices;
    }
    ghost var width: nat := |self.sizes| - specifiedDims;
    var result := Source(self);
    var i := 0;
    while i < size
      invariant 0 <= i <= size
      invariant State(dim, result, outIndices) == Run(Initial(self), indices[..i], width)
    {
      ghost var next := Step(State(dim, result, outIndices), indices[i], width);
      assert Run(Initial(self), indices[..i + 1], width) == next by {
        assert indices[..i + 1][..i] == indices[..i];
      }
      var obj := indices[i];
      match obj {
        case Integer(n) =>
          result := Select(result, dim, n);
        case Slice(start, stop, step) =>
          result := Narrow(result, dim, start, stop, step);
          dim := dim + 1;
        case Ellipsis =>
          dim := dim + (|self.sizes| - specifiedDims);
        case None =>
          result := Unsqueeze(result, dim);
          dim := dim + 1;
        case Boolean(b) =>
          result := Unsqueeze(result, dim);
          outIndices := Store(outIndices, dim, BoolToIndexingTensor(Root(result).device, b));
          dim := dim + 1;
        case IndexTensor(tensor) =>
          if |tensor.sizes| == 0 && IsIntegralType(tensor.dtype, true) {
            if tensor.dtype != Byte && tensor.dtype != Bool {
              result := Select(result, dim, tensor.item);
            } else {
              result := Unsqueeze(result, dim);
              outIndices := Store(outIndices, dim, BoolToIndexingTensor(Root(result).device, tensor.item != 0));
              dim := dim + 1;
            }
          } else {
            outIndices := Store(outIndices, dim, tensor);
            dim := dim + 1;
          }
      }
      assert State(dim, result, outIndices) == next;
      i := i + 1;
    }
    assert indices[..size] == indices;
    res := Ok(result);
  }

  // ----- Device alignment of the pending list -----

  /** Tensor::to with another device: same sizes and element type. */
  function ToDevice(t: Tensor, device: Device): Tensor
  {
    t.(device := device)
  }

  /** typeConvertIndices at shape level: same length, holes stay holes, and
      every defined index keeps its sizes and element type and moves to the
      view's device. */
  function ConvertIndices(indices: seq<Slot>, device: Device): (r: seq<Slot>)
    ensures |r| == |indices|
    ensures forall k :: 0 <= k < |r| ==> (r[k].Defined? <==> indices[k].Defined?)
    ensures forall k :: 0 <= k < |r| && r[k].Defined? ==>
      r[k].tensor.sizes == indices[k].tensor.sizes &&
      r[k].tensor.dtype == indices[k].tensor.dtype &&
      r[k].tensor.device == device
  {
    seq(|indices|, k requires 0 <= k < |indices| =>
      if indices[k].Defined? then Defined(ToDevice(indices[k].tensor, device)) else indices[k])
  }

  /** typeConvertIndices, filling a vector of undefined tensors entry by entry. */
  method TypeConvertIndices(self: View, indices: seq<Slot>) returns (converted: seq<Slot>)
    ensures converted == ConvertIndices(indices, Root(self).device)
  {
    var device := Root(self).device;
    converted := Holes(|indices|);
    var i := 0;
    while i < |indices|
      invariant 0 <= i <= |indices| && |converted| == |indices|
      invariant forall k :: 0 <= k < i ==> converted[k] == ConvertIndices(indices, device)[k]
    {
      var ind := indices[i];
      if ind.Defined? {
        converted := converted[i := Defined(ToDevice(ind.tensor, device))];
      } else {
        converted := converted[i := indices[i]];
      }
      i := i + 1;
    }
  }
}
