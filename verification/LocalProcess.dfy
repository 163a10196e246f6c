/**
 * One thread's view of LocalProcess on a device connection: the loops that number and write a
 * packet, and the loop that waits for an answer. System calls are resolved by scripts: the n-th
 * write() accepts as many bytes as the n-th script entry says, or fails if that is not positive.
 */
module LocalProcess {
  import opened Bytes
  import opened Seqs
  import opened Packets
  import opened Scripts
  import T = Transport

  const RECV_BUFF_SIZE: nat := 1024

  lemma PlainAppend(a: seq<byte>, b: seq<byte>)
    ensures T.Plain(a + b) == T.Plain(a) + T.Plain(b)
  {
  }

  class DeviceConnection {
    const isOwner: bool
    var nextOrderId: nat
    var wire: seq<T.Cell>
    var script: seq<int>
    var exited: bool

    constructor (isOwner: bool, script: seq<int>)
      ensures this.isOwner == isOwner && this.script == script
      ensures nextOrderId == 1 && wire == [] && !exited
    {
      this.isOwner := isOwner;
      nextOrderId := 1;
      wire := [];
      this.script := script;
      exited := false;
    }

    method SysWrite(bytes: seq<byte>) returns (ret: int)
      requires bytes != []
      modifies this`wire, this`script
      ensures ret == (if Offered(old(script)) == 0 then -1 else Min(|bytes|, old(script)[0]))
      ensures script == if old(script) == [] then [] else old(script)[1..]
      ensures ret == -1 ==> wire == old(wire)
      ensures ret != -1 ==> 1 <= ret <= |bytes| && wire == old(wire) + T.Plain(bytes[..ret])
    {
      if script == [] || script[0] <= 0 {
        ret := -1;
      } else {
        ret := if script[0] < |bytes| then script[0] else |bytes|;
        wire := wire + T.Plain(bytes[..ret]);
      }
      script := if script == [] then [] else script[1..];
    }

    /** DomainSocketClient::Write behind SocketClient::Write: all of it, or -1 behind what the socket still took. */
    method ClientWrite(msg: seq<byte>) returns (ret: int)
      modifies this`wire, this`script
      ensures ret == if Offered(old(script)) >= |msg| then |msg| else -1
      ensures wire == old(wire) + T.Plain(msg[..Min(|msg|, Offered(old(script)))])
    {
      var sent := 0;
      assert wire == old(wire) + T.Plain(msg[..0]);
      while sent < |msg|
        invariant 0 <= sent <= |msg|
        invariant sent + Min(|msg| - sent, Offered(script)) == Min(|msg|, Offered(old(script)))
        invariant wire == old(wire) + T.Plain(msg[..sent])
      {
        var n := SysWrite(msg[sent..]);
        if n == -1 {
          return -1;
        }
        assert msg[..sent] + msg[sent..][..n] == msg[..sent + n];
        PlainAppend(msg[..sent], msg[sent..][..n]);
        sent := sent + n;
      }
      assert msg[..sent] == msg;
      ret := sent;
    }

    /** SendBytes reports the whole length or 0, even when a failure left a torn packet behind. */
    method SendBytes(msg: seq<byte>) returns (sent: nat)
      modifies this`wire, this`script
      ensures sent == if Offered(old(script)) >= |msg| then |msg| else 0
      ensures wire == old(wire) + T.Plain(msg[..Min(|msg|, Offered(old(script)))])
    {
      var total: nat := 0;
      assert msg == [] ==> wire == old(wire) + T.Plain(msg[..0]);
      while total < |msg|
        invariant total == 0 || total == |msg|
        invariant total == 0 && msg != [] ==> wire == old(wire) && script == old(script)
        invariant total == |msg| ==>
                    Offered(old(script)) >= |msg| && wire == old(wire) + T.Plain(msg[..Min(|msg|, Offered(old(script)))])
      {
        assert msg[0..] == msg;
        var n := ClientWrite(msg[total..]);
        if n <= 0 {
          return total;
        }
        total := total + n;
      }
      sent := total;
    }

    /** The compare-exchange loop, run alone: `spurious` exchanges fail before one succeeds. */
    method ReserveOrderId(spurious: nat) returns (id: nat)
      modifies this`nextOrderId
      ensures (nextOrderId, id) == T.Reserve(old(nextOrderId)) || (id == 0 && old(nextOrderId) == 0)
      ensures id == 0 ==> nextOrderId == old(nextOrderId)
    {
      var reg := nextOrderId;
      var failures := spurious;
      while reg != 0 && reg != MAX_ORDER_ID
        invariant reg == nextOrderId == old(nextOrderId)
        decreases failures
      {
        if failures == 0 {
          nextOrderId := reg + 1;
          return reg;
        }
        reg := nextOrderId;
        failures := failures - 1;
      }
      id := 0;
    }

    /** Notify on a device connection, case by case. */
    method Notify(msg: seq<byte>, spurious: nat) returns (ret: int)
      requires 1 <= nextOrderId <= MAX_ORDER_ID
      modifies this
      ensures 1 <= nextOrderId <= MAX_ORDER_ID && exited == (old(exited) || !isOwner)
      ensures !isOwner || |msg| < 16 || old(nextOrderId) == MAX_ORDER_ID ==>
                ret == -1 && wire == old(wire) && nextOrderId == old(nextOrderId)
      ensures isOwner && |msg| >= 16 && old(nextOrderId) < MAX_ORDER_ID ==>
                var packet, taken := Patched(msg, old(nextOrderId)), Offered(old(script));
                && nextOrderId == old(nextOrderId) + 1
                && ret == (if taken >= |msg| then |msg| else 0)
                && wire == old(wire) + T.Plain(packet[..Min(|packet|, taken)])
    {
      if !isOwner {
        exited := true;
        return -1;
      }
      if |msg| < HEAD_SIZE {
        return -1;
      }
      var id := ReserveOrderId(spurious);
      if id == 0 {
        return -1;
      }
      var packet := Patched(msg, id);
      PatchedOnlyOrderId(msg, id);
      ret := SendBytes(packet);
    }

    /**
     * NotifyKernelBinary: the header with the binary attached as a descriptor, or header and
     * binary as bytes; either way under one order id.
     */
    method NotifyKernelBinary(elf: seq<byte>, memfd: bool, fileScript: seq<int>, sendmsgOk: bool, spurious: nat)
      returns (ret: int)
      requires 1 <= nextOrderId <= MAX_ORDER_ID
      modifies this
      ensures 1 <= nextOrderId <= MAX_ORDER_ID && exited == (old(exited) || !isOwner)
      ensures !isOwner || old(nextOrderId) == MAX_ORDER_ID ==>
                ret == -1 && wire == old(wire) && nextOrderId == old(nextOrderId)
      ensures isOwner && old(nextOrderId) < MAX_ORDER_ID ==>
                var head, taken := BinaryHead(old(nextOrderId), |elf|), Offered(old(script));
                && nextOrderId == old(nextOrderId) + 1
                && (memfd && Offered(fileScript) >= |elf| && sendmsgOk ==>
                      ret == |head| && wire == old(wire) + T.WithFd(head, elf))
                && (!(memfd && Offered(fileScript) >= |elf| && sendmsgOk) ==>
                      && ret == (if taken >= |head| + |elf| then |head| + |elf| else 0)
                      && wire == old(wire) + T.Plain((head + elf)[..Min(|head| + |elf|, taken)]))
    {
      if !isOwner {
        exited := true;
        return -1;
      }
      var id := ReserveOrderId(spurious);
      if id == 0 {
        return -1;
      }
      var head := BinaryHead(id, |elf|);
      if memfd {
        var ok, contents := WriteAllToFd(elf, fileScript);
        if ok && sendmsgOk {
          assert contents == elf;
          wire := wire + T.WithFd(head, contents);
          return |head|;
        }
      }
      ret := SendBytes(head + elf);
    }
  }

  /** WriteAllToFd: the file holds what was taken, and success means all of it. */
  method WriteAllToFd(data: seq<byte>, script: seq<int>) returns (ok: bool, contents: seq<byte>)
    ensures ok <==> Offered(script) >= |data|
    ensures contents == data[..Min(|data|, Offered(script))]
  {
    var offset := 0;
    var left := script;
    contents := [];
    while offset < |data|
      invariant 0 <= offset <= |data| && contents == data[..offset]
      invariant offset + Min(|data| - offset, Offered(left)) == Min(|data|, Offered(script))
    {
      if left == [] || left[0] <= 0 {
        return false, contents;
      }
      var n := if left[0] < |data| - offset then left[0] else |data| - offset;
      contents := contents + data[offset..offset + n];
      offset := offset + n;
      left := left[1..];
    }
    ok := true;
  }

  // ---------------------------------------------------------------- Wait

  function LeadingEmpty(chunks: seq<seq<byte>>): (n: nat)
    ensures n <= |chunks| && forall i :: 0 <= i < n ==> chunks[i] == []
    ensures n < |chunks| ==> chunks[n] != []
  {
    if chunks == [] || chunks[0] != [] then 0 else 1 + LeadingEmpty(chunks[1..])
  }

  /** How many reads from here on belong to one answer. */
  function BurstLength(chunks: seq<seq<byte>>): (n: nat)
    ensures n <= |chunks|
  {
    if chunks == [] || chunks[0] == [] then 0
    else if |chunks[0]| == RECV_BUFF_SIZE then 1 + BurstLength(chunks[1..])
    else 1
  }

  /** All chunks of a burst but the last are full; it ends at a short chunk, at silence or at the end. */
  lemma {:induction false} BurstShape(chunks: seq<seq<byte>>)
    ensures var n := BurstLength(chunks);
            && (forall i :: 0 <= i < n - 1 ==> |chunks[i]| == 1024)
            && (forall i :: 0 <= i < n ==> chunks[i] != [])
            && (n < |chunks| && (n == 0 || |chunks[n - 1]| == 1024) ==> chunks[n] == [])
  {
    if chunks != [] && |chunks[0]| == RECV_BUFF_SIZE {
      BurstShape(chunks[1..]);
      var n := BurstLength(chunks);
      assert forall i :: 1 <= i < n ==> chunks[i] == chunks[1..][i - 1];
    }
  }

  lemma {:induction false} ConcatPrefixStep(chunks: seq<seq<byte>>, i: nat)
    requires i < |chunks|
    ensures Concat(chunks[..i + 1]) == Concat(chunks[..i]) + chunks[i]
  {
    assert chunks[..i + 1] == chunks[..i] + [chunks[i]];
    ConcatSnoc(chunks[..i], chunks[i]);
  }

  lemma {:induction false} BurstLengthAt(chunks: seq<seq<byte>>, i: nat)
    requires i <= |chunks|
    requires forall j :: 0 <= j < i ==> |chunks[j]| == RECV_BUFF_SIZE
    ensures BurstLength(chunks) == i + BurstLength(chunks[i..])
  {
    if i == 0 {
      assert chunks[0..] == chunks;
    } else {
      BurstLengthAt(chunks[1..], i - 1);
      assert chunks[1..][i - 1..] == chunks[i..];
    }
  }

  /** A burst ends where the stream falls silent, or behind its first chunk that is not full. */
  lemma BurstEnds(chunks: seq<seq<byte>>, k: nat)
    requires k <= |chunks|
    requires forall j :: 0 <= j < k - 1 ==> |chunks[j]| == RECV_BUFF_SIZE
    requires k > 0 ==> chunks[k - 1] != []
    requires k == 0 || |chunks[k - 1]| == RECV_BUFF_SIZE ==> k == |chunks| || chunks[k] == []
    ensures BurstLength(chunks) == k
  {
    if k == 0 || |chunks[k - 1]| == RECV_BUFF_SIZE {
      BurstLengthAt(chunks, k);
    } else {
      BurstLengthAt(chunks, k - 1);
    }
  }

  lemma ConcatNone<T>(ss: seq<seq<T>>)
    requires ss == []
    ensures Concat(ss) == []
  {
  }

  /**
   * Wait over a stream given by the results of its reads (empty: timed out, failed or closed);
   * beyond the end of the list every read is empty. It blocks forever only without a timeout on a
   * stream that never carries data.
   */
  method Wait(chunks: seq<seq<byte>>, timeOut: nat) returns (msg: seq<byte>, empties: nat, hung: bool)
    ensures hung <==> timeOut == 0 && LeadingEmpty(chunks) == |chunks|
    ensures timeOut > 0 ==> empties <= timeOut + 1
    ensures var e := LeadingEmpty(chunks);
            msg == if timeOut > 0 && e > timeOut then []
                   else Concat(chunks[e..][..BurstLength(chunks[e..])])
  {
    hide Concat, BurstLength, LeadingEmpty;
    ghost var e := LeadingEmpty(chunks);
    ghost var burst := chunks[e..];
    ghost var k := 0;                  // chunks received
    var pos: nat, count: nat, len: nat := 0, 0, 0;
    msg, empties, hung := [], 0, false;
    ConcatNone(burst[..0]);
    while msg == [] || len == RECV_BUFF_SIZE
      invariant timeOut > 0 ==> count == empties <= timeOut
      invariant k == 0 ==> msg == [] && len == 0 && empties == pos && (pos <= e || e == |chunks|)
      invariant k > 0 ==>
        && k <= |burst| && (timeOut > 0 ==> e <= timeOut)
        && msg == Concat(burst[..k]) && msg != []
        && (forall j :: 0 <= j < k - 1 ==> |burst[j]| == RECV_BUFF_SIZE)
        && burst[k - 1] != []
        && (len > 0 ==> pos == e + k && len == |burst[k - 1]|)
        && (len == 0 ==> BurstLength(burst) == k)
      decreases |burst| - k, if k == 0 then |chunks| - pos + timeOut + 1 else 0, len
    {
      if timeOut == 0 && msg == [] && pos >= |chunks| {
        hung := true;
        return;
      }
      len := if pos < |chunks| then |chunks[pos]| else 0;
      if len > 0 {
        assert burst[k] == chunks[pos];
        ConcatPrefixStep(burst, k);
        msg, k, pos := msg + chunks[pos], k + 1, pos + 1;
        continue;
      }
      if k > 0 {
        BurstEnds(burst, k);
      }
      pos, empties := pos + 1, empties + 1;
      if timeOut > 0 {
        if count >= timeOut {
          if k == 0 && e == |chunks| {
            BurstEnds(burst, 0);
          }
          return;
        }
        count := count + 1;
      }
    }
    if len > 0 {
      BurstEnds(burst, k);
    }
  }
}
