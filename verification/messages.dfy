/** The message record the bus carries. Its C++ definition lives in
    kernel/model.hpp, which is not part of this model; only the routing tag
    and an opaque payload are kept. */
module Messages {

  /** An unsigned 32-bit value, the width of the message type tag. */
  type U32 = x: int | 0 <= x < 0x1_0000_0000

  /** A trivially-copyable message: the type tag used for routing and an
      inline payload the kernel never inspects. */
  datatype Message = Message(msgType: U32, payload: seq<bv8>)
}
