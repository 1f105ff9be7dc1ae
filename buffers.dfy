/** Buffer declarations (`decl_buffer`) the intrinsics bind their operands to:
    a name, an element type, a shape, one stride per dimension (a constant or a
    variable left for lowering to resolve) and an offset factor. */
module Buffers {

  datatype Stride = Fixed(n: int) | Symbolic(name: string)

  datatype Buffer = Buffer(name: string, dtype: string, shape: seq<int>, strides: seq<Stride>, offsetFactor: int)

  /** A binding whose innermost stride is 1, whose outer strides are all
      variables, and whose offset factor is one element: tensorization then
      accepts any sub-block of a larger row-major tensor in place. Whether the
      kernel honours the outer strides depends on how it reads the buffer. */
  predicate SubBlockBinding(b: Buffer)
  {
    && |b.strides| == |b.shape| > 0
    && b.strides[|b.strides| - 1] == Fixed(1)
    && (forall d :: 0 <= d < |b.strides| - 1 ==> b.strides[d].Symbolic?)
    && b.offsetFactor == 1
  }

  /** Address of element `idx`, in elements from the buffer's start, once the
      strides have values. */
  function Offset(strides: seq<int>, idx: seq<int>): int
    requires |strides| == |idx|
  {
    if idx == [] then 0 else strides[0] * idx[0] + Offset(strides[1..], idx[1..])
  }
}
