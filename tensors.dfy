/** Tensors as the indexing code sees them: a shape, an element type, the
    device the tensor lives on and, for a 0-dimensional tensor, the scalar it
    holds. Element data, strides and storage are not modelled. */
module Tensors {

  /** Element types, as far as indexing tells them apart. `Int` stands for the
      integral types other than Byte and Long (Char, Short, Int); `Float` for the
      floating types; `QInt` for the quantized types; `Other` for the rest. */
  datatype ScalarType = Byte | Bool | Int | Long | Float | QInt | Other

  /** at::isIntegralType: the integer types, and Bool only when asked for. */
  predicate IsIntegralType(t: ScalarType, includeBool: bool)
  {
    t == Byte || t == Int || t == Long || (includeBool && t == Bool)
  }

  /** at::isQIntType. */
  predicate IsQIntType(t: ScalarType)
  {
    t == QInt
  }

  /** The element types whose tensors index as masks. */
  predicate IsMaskType(t: ScalarType)
  {
    t == Byte || t == Bool
  }

  datatype Device = Cpu | Cuda(index: nat)

  /** `item` is the value `item<int64_t>()` reads from a 0-dimensional tensor;
      it carries no meaning for tensors of higher rank. */
  datatype Tensor = Tensor(sizes: seq<nat>, dtype: ScalarType, device: Device, item: int)
  {
    function Dim(): nat
    {
      |sizes|
    }
  }

  /** Number of elements of a tensor of the given sizes. */
  function Numel(sizes: seq<nat>): nat
  {
    if sizes == [] then 1 else sizes[0] * Numel(sizes[1..])
  }
}
