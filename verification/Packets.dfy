/** The packet header of the device protocol: type (4 bytes), reserved (4), orderId (8). */
module Packets {
  import opened Bytes

  const HEAD_SIZE: nat := 16
  const KERNEL_BINARY: nat := 2
  /** numeric_limits<uint64_t>::max(): the order id that is never issued. */
  const MAX_ORDER_ID: nat := U64 - 1

  /** The caller's packet with the order id written over bytes 8 to 15. */
  function Patched(msg: seq<byte>, id: nat): (p: seq<byte>)
    requires |msg| >= HEAD_SIZE
  {
    msg[..8] + Le(id, 8) + msg[HEAD_SIZE..]
  }

  /** PacketHead{KERNEL_BINARY, 0, id} followed by the 8-byte length of the binary. */
  function BinaryHead(id: nat, size: nat): (p: seq<byte>)
    ensures |p| == 24
  {
    Le(KERNEL_BINARY, 4) + Le(0, 4) + Le(id, 8) + Le(size, 8)
  }

  /** What a receiver reads as the order id of a packet. */
  function OrderId(p: seq<byte>): (id: nat)
    requires |p| >= HEAD_SIZE
  {
    FromLe(p[8..16])
  }

  /** Numbering a packet changes the order id field and nothing else. */
  lemma PatchedOnlyOrderId(msg: seq<byte>, id: nat)
    requires |msg| >= HEAD_SIZE && id <= MAX_ORDER_ID
    ensures |Patched(msg, id)| == |msg| && OrderId(Patched(msg, id)) == id
    ensures forall i :: 0 <= i < |msg| && !(8 <= i < 16) ==> Patched(msg, id)[i] == msg[i]
  {
    Widths();
    FromLeLe(id, 8);
    assert Patched(msg, id)[8..16] == Le(id, 8);
  }

  /** The header field by field: type 2 (KERNEL_BINARY), reserved 0, order id, length. */
  lemma BinaryHeadOrderId(id: nat, size: nat)
    requires id <= MAX_ORDER_ID && size < U64
    ensures FromLe(BinaryHead(id, size)[0..4]) == 2 && FromLe(BinaryHead(id, size)[4..8]) == 0
    ensures OrderId(BinaryHead(id, size)) == id && FromLe(BinaryHead(id, size)[8..16]) == id
    ensures FromLe(BinaryHead(id, size)[16..]) == size
  {
    Widths();
    FromLeLe(2, 4);
    FromLeLe(0, 4);
    assert BinaryHead(id, size)[0..4] == Le(2, 4) && BinaryHead(id, size)[4..8] == Le(0, 4);
    FromLeLe(id, 8);
    FromLeLe(size, 8);
    assert BinaryHead(id, size)[8..16] == Le(id, 8);
    assert BinaryHead(id, size)[16..] == Le(size, 8);
  }
}
