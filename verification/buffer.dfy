/** Read destinations and results (include/tidepool/api/buffer.h). The caller's memory is modelled
    by its capacity, whether its pointer is null, and the bytes that a read leaves at its start. */
module Buffers {
  import opened Blocks
  import opened Status

  /** A null pointer with a non-zero capacity is representable, and refused by every reader. */
  datatype MutableBuffer = MutableBuffer(isNull: bool, capacity: nat) {
    predicate Dangling() {
      isNull && capacity != 0
    }
  }

  /** What landed in the caller's memory. */
  datatype BlockView = BlockView(data: Payload, metadata: BlockMetadata)

  const EMPTY_VIEW := BlockView([], BlockMetadata(0, 0, 0, 0, 0, 0))

  function ViewOf(block: Block): BlockView {
    BlockView(block.data, block.metadata)
  }

  /** What a read of `block` into `dst` answers: the bytes must fit the caller's memory. */
  function ReadStatus(dst: MutableBuffer, block: Block): (r: StatusCode)
    ensures r == InvalidArgument <==> dst.isNull && dst.capacity != 0
    ensures r == OutOfCapacity <==> (dst.capacity == 0 || !dst.isNull) && dst.capacity < |block.data|
    ensures r == OK <==> (dst.capacity == 0 || !dst.isNull) && |block.data| <= dst.capacity
  {
    if dst.Dangling() then InvalidArgument
    else if dst.capacity < block.Size() then OutOfCapacity
    else OK
  }
}
