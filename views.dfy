/** Basic views: the chain of view-producing primitive calls (select, slice,
    unsqueeze, alias) applied to the indexed tensor. A view shares the indexed
    tensor's storage; each node is one call, so a view is the tensor itself
    exactly when no primitive was applied. */
module Views {
  import opened Tensors

  datatype View =
    | Source(tensor: Tensor)
    | Select(inner: View, dim: nat, index: int)
    | Narrow(inner: View, dim: nat, start: int, stop: int, step: int)
    | Unsqueeze(inner: View, dim: nat)
    | Alias(inner: View)

  /** The rank the primitives give a view when they accept it: select removes a
      dimension, slice and alias keep the rank, unsqueeze adds one. */
  function Rank(v: View): int
  {
    match v
    case Source(t) => |t.sizes|
    case Select(inner, _, _) => Rank(inner) - 1
    case Narrow(inner, _, _, _, _) => Rank(inner)
    case Unsqueeze(inner, _) => Rank(inner) + 1
    case Alias(inner) => Rank(inner)
  }

  /** Every primitive call receives a dimension its operand has: select and
      slice need `dim < rank`, unsqueeze accepts `dim <= rank`. A view that is
      not well formed stands for a call that fails inside the primitive. */
  predicate WellFormed(v: View)
  {
    match v
    case Source(_) => true
    case Select(inner, d, _) => WellFormed(inner) && d < Rank(inner)
    case Narrow(inner, d, _, _, _) => WellFormed(inner) && d < Rank(inner)
    case Unsqueeze(inner, d) => WellFormed(inner) && d <= Rank(inner)
    case Alias(inner) => WellFormed(inner)
  }

  /** The tensor whose storage a view shares. */
  function Root(v: View): Tensor
  {
    match v
    case Source(t) => t
    case Select(inner, _, _) => Root(inner)
    case Narrow(inner, _, _, _, _) => Root(inner)
    case Unsqueeze(inner, _) => Root(inner)
    case Alias(inner) => Root(inner)
  }
}
