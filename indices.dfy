/** Index descriptors, the arity error, and the count of source dimensions a
    descriptor list consumes (count_specified_dimensions). */
module Indices {
  import opened Tensors

  /** One position of an index expression. Exactly one case is active; there is
      no "invalid" case, so the internal assertion of the source cannot fire. */
  datatype TensorIndex =
    | None
    | Ellipsis
    | Integer(n: int)
    | Boolean(b: bool)
    | Slice(start: int, stop: int, step: int)
    | IndexTensor(tensor: Tensor)

  datatype IndexError = TooManyIndices(rank: nat)

  datatype Result<T> = Ok(value: T) | Err(error: IndexError)

  /** Source dimensions consumed by one descriptor: none for None, Ellipsis and
      a boolean; all dimensions of a Byte or Bool mask tensor; one otherwise. */
  function Specified(x: TensorIndex): nat
  {
    match x
    case None => 0
    case Ellipsis => 0
    case Boolean(_) => 0
    case IndexTensor(t) => if IsMaskType(t.dtype) then |t.sizes| else 1
    case Integer(_) => 1
    case Slice(_, _, _) => 1
  }

  /** The sum of `Specified` over a descriptor list. */
  function SpecifiedDims(xs: seq<TensorIndex>): nat
  {
    if xs == [] then 0 else SpecifiedDims(xs[..|xs| - 1]) + Specified(xs[|xs| - 1])
  }

  /** Number of Ellipsis descriptors in a list. */
  function Ellipses(xs: seq<TensorIndex>): nat
  {
    if xs == [] then 0 else Ellipses(xs[..|xs| - 1]) + (if xs[|xs| - 1].Ellipsis? then 1 else 0)
  }

  /** The count is additive over concatenation of descriptor lists. */
  lemma {:induction false} SpecifiedDimsAppend(xs: seq<TensorIndex>, ys: seq<TensorIndex>)
    ensures SpecifiedDims(xs + ys) == SpecifiedDims(xs) + SpecifiedDims(ys)
  {
    if ys != [] {
      var zs := ys[..|ys| - 1];
      assert (xs + ys)[..|xs + ys| - 1] == xs + zs;
      SpecifiedDimsAppend(xs, zs);
    } else {
      assert xs + ys == xs;
    }
  }

  /** A list made only of None, Ellipsis and boolean descriptors consumes no
      source dimension, and a list that consumes none holds no integer or slice. */
  lemma {:induction false} SpecifiedDimsZero(xs: seq<TensorIndex>)
    ensures SpecifiedDims(xs) == 0 <==>
      forall k :: 0 <= k < |xs| ==> Specified(xs[k]) == 0
  {
    if xs != [] {
      var p := xs[..|xs| - 1];
      SpecifiedDimsZero(p);
      assert forall k :: 0 <= k < |p| ==> p[k] == xs[k];
    }
  }

  /** count_specified_dimensions. */
  method CountSpecifiedDimensions(indices: seq<TensorIndex>) returns (count: nat)
    ensures count == SpecifiedDims(indices)
  {
    count := 0;
    var size := |indices|;
    var i := 0;
    while i < size
      invariant 0 <= i <= size
      invariant count == SpecifiedDims(indices[..i])
    {
      var obj := indices[i];
      if obj.IndexTensor? {
        var tensor := obj.tensor;
        if tensor.dtype == Byte || tensor.dtype == Bool {
          count := count + |tensor.sizes|;
        } else {
          count := count + 1;
        }
      } else if !obj.None? && !obj.Ellipsis? && !obj.Boolean? {
        count := count + 1;
      }
      assert indices[..i + 1][..i] == indices[..i];
      i := i + 1;
    }
    assert indices[..size] == indices;
  }
}
