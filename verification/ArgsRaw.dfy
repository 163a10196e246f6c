/**
 * The copy of a kernel launch's host arguments: where a pointer parameter goes, how it is inserted, and
 * what happens to the data that placeholders designate inside the buffer.
 */
module ArgsRaw {
  import opened Bytes

  const MAX_ALL_PARAM_SIZE: nat := 0x4000_0000
  const PTR: nat := 8

  type u32 = x: int | 0 <= x < 0x1_0000_0000
  type u64 = x: int | 0 <= x < 0x1_0000_0000_0000_0000

  /** The runtime stores the address of the bytes at dataOffset into the 8 bytes at addrOffset. */
  datatype PlaceHolder = PlaceHolder(addrOffset: u32, dataOffset: u32)

  /**
   * Ok is the source's true; Failed and DeviceFailed are its false, before and after the buffer was changed.
   * Fault: the insertion point lies behind the end of the vector, which the source does not check.
   */
  datatype Outcome = Ok | Failed | DeviceFailed | Fault

  /** CeilByAlignSize<8>. */
  function Aligned(n: nat): (r: nat)
    ensures n <= r < n + 8 && r % 8 == 0
  {
    (n + 7) / 8 * 8
  }

  function Padded(args: seq<byte>): (r: seq<byte>)
    ensures |r| == Aligned(|args|) && r[..|args|] == args
    ensures forall i :: |args| <= i < |r| ==> r[i] == 0
  {
    args + seq(Aligned(|args|) - |args|, i => 0)
  }

  function LastAddr(places: seq<PlaceHolder>): (r: u32)
    ensures forall i :: 0 <= i < |places| ==> places[i].addrOffset <= r
    ensures places != [] ==> exists i :: 0 <= i < |places| && places[i].addrOffset == r
  {
    if places == [] then 0 else
    var rest, last := LastAddr(places[..|places| - 1]), places[|places| - 1].addrOffset;
    if rest > last then rest else last
  }

  function Add32(a: u32, b: nat): (r: u32)
    ensures a + b < U32 ==> r == a + b
  {
    (a + b) % U32
  }

  /** Behind everything, or behind the last address slot (and the overflow status address) if there are any. */
  function AppendOffset(size: nat, places: seq<PlaceHolder>, overflowStatus: bool): (r: nat)
  {
    if places == [] then Aligned(size)
    else if overflowStatus then Add32(Add32(LastAddr(places), PTR), PTR)
    else Add32(LastAddr(places), PTR)
  }

  /** The placeholders after the data from `from` on has moved by one pointer. */
  function Shifted(places: seq<PlaceHolder>, from: nat): (r: seq<PlaceHolder>)
    ensures |r| == |places|
  {
    seq(|places|, i requires 0 <= i < |places| =>
      if places[i].dataOffset >= from then places[i].(dataOffset := Add32(places[i].dataOffset, PTR)) else places[i])
  }

  function Inserted(args: seq<byte>, offset: nat, param: seq<byte>): (r: seq<byte>)
    requires offset <= Aligned(|args|)
  {
    Padded(args)[..offset] + param + Padded(args)[offset..]
  }

  function Zeros(n: nat): (r: seq<byte>)
    ensures |r| == n
  {
    seq(n, i => 0)
  }

  /** The placeholders after ExpandArgsAt, or after ExpandArgs. */
  function MovedPlaces(places: seq<PlaceHolder>, fixed: bool, insertOffset: nat): (r: seq<PlaceHolder>) {
    Shifted(places, if fixed then insertOffset else 0)
  }

  function InsertOffset(size: nat, places: seq<PlaceHolder>, fixed: bool, insertOffset: nat, overflowStatus: bool)
    : (r: nat)
  {
    if fixed then insertOffset else AppendOffset(size, places, overflowStatus)
  }

  /** The offsets behind all address slots fit 32 bits. */
  predicate Unwrapped(places: seq<PlaceHolder>) {
    forall i :: 0 <= i < |places| ==> places[i].addrOffset + 16 < 0x1_0000_0000
  }

  /** The byte is a kernel parameter's: in front of the end of some address slot, or anywhere without placeholders. */
  predicate IsParameter(places: seq<PlaceHolder>, p: nat) {
    places == [] || exists i :: 0 <= i < |places| && p < places[i].addrOffset + 8
  }

  /** No kernel parameter has moved or changed. */
  ghost predicate ParametersStay(args: seq<byte>, args': seq<byte>, places: seq<PlaceHolder>) {
    forall p :: 0 <= p < |args| && IsParameter(places, p) ==> p < |args'| && args'[p] == args[p]
  }

  /** An appended pointer moves no kernel parameter; without placeholders it stands at the very end. */
  lemma AppendKeepsParameters(args: seq<byte>, places: seq<PlaceHolder>, overflowStatus: bool, param: seq<byte>)
    requires Unwrapped(places) && |param| == PTR
    requires AppendOffset(|args|, places, overflowStatus) <= Aligned(|args|)
    ensures var r := Inserted(args, AppendOffset(|args|, places, overflowStatus), param);
            ParametersStay(args, r, places) && (places == [] ==> r[|r| - PTR..] == param)
  {
    var offset := AppendOffset(|args|, places, overflowStatus);
    InsertedBytes(args, offset, param);
    if places != [] {
      var i :| 0 <= i < |places| && places[i].addrOffset == LastAddr(places);
      AppendedClearOfSlots(places, |args|, overflowStatus);
    }
  }

  /** args_ points at one of the two buffers of the context, or into device memory. */
  datatype Source = Copy | WithMemInfo | Device

  class ArgsRawContext {
    var argsCopy: seq<byte>
    var argsWithMemInfo: seq<byte>
    /** What args_ designates when it points into device memory. */
    var device: seq<byte>
    var source: Source
    var argsSize: u32
    var places: seq<PlaceHolder>

    predicate Valid()
      reads this
    {
      0 < argsSize == |Args()| && (source.WithMemInfo? ==> argsSize % PTR == 0)
    }

    function Args(): seq<byte>
      reads this
    {
      match source
      case Copy => argsCopy
      case WithMemInfo => argsWithMemInfo
      case Device => device
    }

    /** What an expansion reads: it clears the vector first, also when args_ points at that very vector. */
    function Readable(): seq<byte>
      reads this
    {
      if source.WithMemInfo? then Zeros(argsSize) else Args()
    }

    constructor (args: seq<byte>, places: seq<PlaceHolder>)
      requires 0 < |args| < U32
      ensures Valid() && source == Copy && Args() == args && this.places == places
    {
      argsCopy, argsWithMemInfo, device, source := args, [], [], Copy;
      argsSize, this.places := |args|, places;
    }

    constructor OnDevice(args: seq<byte>)
      requires 0 < |args| < U32
      ensures Valid() && source == Device && Args() == args && places == []
    {
      argsCopy, argsWithMemInfo, device, source := [], [], args, Device;
      argsSize, places := |args|, [];
    }

    /** The clone points at its own buffers. */
    method Clone() returns (clone: ArgsRawContext)
      requires Valid()
      ensures fresh(clone) && clone.Valid() && clone.source == source
      ensures clone.Args() == Args() && clone.places == places
    {
      clone := new ArgsRawContext(Args(), places);
      clone.argsCopy, clone.argsWithMemInfo, clone.device, clone.source := argsCopy, argsWithMemInfo, device, source;
    }

    method GetLastParamOffset(overflowStatus: bool) returns (offset: nat)
      requires Valid()
      ensures offset == if argsSize > 0x4000_0000 then 0 else AppendOffset(argsSize, places, overflowStatus)
    {
      hide LastAddr, Aligned, Add32;
      if argsSize > MAX_ALL_PARAM_SIZE {
        return 0;
      }
      if places == [] {
        return Aligned(argsSize);
      }
      var lastAddrOffset := MaxAddr(places);
      offset := Add32(lastAddrOffset, PTR);
      if overflowStatus {
        offset := Add32(offset, PTR);
      }
    }

    method ExpandArgs(param: seq<byte>, overflowStatus: bool, deviceOk: bool) returns (outcome: Outcome, offset: nat)
      requires Valid() && |param| == PTR
      modifies this
      ensures outcome.Failed? <==> old(argsSize) > 0x4000_0000
      ensures !outcome.Failed? ==> offset == AppendOffset(old(argsSize), old(places), overflowStatus)
      ensures outcome.Fault? <==> !outcome.Failed? && offset > Aligned(old(argsSize))
      ensures outcome.DeviceFailed? <==>
                !outcome.Failed? && offset <= Aligned(old(argsSize)) && old(source).Device? && !deviceOk
      ensures outcome.Ok? ==>
                Valid() && Args() == Inserted(old(Readable()), offset, param) && places == Shifted(old(places), 0)
      ensures outcome.Ok? && Unwrapped(old(places)) ==>
                ParametersStay(old(Readable()), Args(), old(places)) && |Args()| >= PTR
                && (old(places) == [] ==> Args()[|Args()| - PTR..] == param)
      ensures outcome.DeviceFailed? ==> places == Shifted(old(places), 0) && argsSize == Aligned(old(argsSize)) + PTR
      ensures outcome.Failed? ==> places == old(places) && argsSize == old(argsSize)
      ensures outcome.Failed? && !old(source).WithMemInfo? ==> Valid() && Args() == old(Args())
    {
      hide AppendOffset, Inserted, Shifted, ParametersStay, Unwrapped, Aligned, Zeros;
      outcome, offset := InsertParam(param, false, 0, overflowStatus, deviceOk);
      if outcome.Ok? && Unwrapped(old(places)) {
        AppendKeepsParameters(old(Readable()), old(places), overflowStatus, param);
      }
    }

    method ExpandArgsAt(param: seq<byte>, insertOffset: u32, overflowStatus: bool, deviceOk: bool)
      returns (outcome: Outcome, offset: nat)
      requires Valid() && |param| == PTR
      modifies this
      ensures outcome.Failed? <==> old(argsSize) > 0x4000_0000 || insertOffset > Aligned(old(argsSize))
      ensures !outcome.Fault? && (outcome.DeviceFailed? <==> !outcome.Failed? && old(source).Device? && !deviceOk)
      ensures outcome.Ok? ==>
                && offset == insertOffset && Valid() && Args() == Inserted(old(Readable()), offset, param)
                && places == Shifted(old(places), insertOffset)
      ensures outcome.DeviceFailed? ==>
                places == Shifted(old(places), insertOffset) && argsSize == Aligned(old(argsSize)) + PTR
      ensures outcome.Failed? ==> places == old(places) && argsSize == old(argsSize)
      ensures outcome.Failed? && !old(source).WithMemInfo? ==> Valid() && Args() == old(Args())
    {
      outcome, offset := InsertParam(param, true, insertOffset, overflowStatus, deviceOk);
    }

    /** deviceOk: the device allocation and the copy to it succeed; asked only for arguments in device memory. */
    method InsertParam(param: seq<byte>, fixed: bool, insertOffset: u32, overflowStatus: bool, deviceOk: bool)
      returns (outcome: Outcome, offset: nat)
      requires Valid() && |param| == PTR
      modifies this
      ensures outcome.Failed? <==> old(argsSize) > 0x4000_0000 || (fixed && insertOffset > Aligned(old(argsSize)))
      ensures !outcome.Failed? ==>
                offset == InsertOffset(old(argsSize), old(places), fixed, insertOffset, overflowStatus)
      ensures outcome.Fault? <==> !outcome.Failed? && offset > Aligned(old(argsSize))
      ensures outcome.DeviceFailed? <==>
                !outcome.Failed? && offset <= Aligned(old(argsSize)) && old(source).Device? && !deviceOk
      ensures outcome.Ok? ==>
                && Valid() && Args() == Inserted(old(Readable()), offset, param)
                && source == (if old(source).Device? then Device else WithMemInfo)
      ensures outcome.Ok? || outcome.DeviceFailed? ==>
                places == MovedPlaces(old(places), fixed, insertOffset) && argsSize == Aligned(old(argsSize)) + PTR
      ensures outcome.Failed? ==> places == old(places) && argsSize == old(argsSize) && source == old(source)
      ensures outcome.Failed? && !old(source).WithMemInfo? ==> Valid() && Args() == old(Args())
      ensures outcome.Failed? && old(source).WithMemInfo? ==>
                argsWithMemInfo == if argsSize > MAX_ALL_PARAM_SIZE then [] else Zeros(argsSize)
    {
      hide Aligned, Padded, Zeros, InsertOffset, MovedPlaces;
      ghost var read := Readable();
      argsWithMemInfo, offset := [], 0;
      if argsSize > MAX_ALL_PARAM_SIZE {
        return Failed, offset;
      }
      argsWithMemInfo := Zeros(Aligned(argsSize));
      if !source.WithMemInfo? {
        argsWithMemInfo := Padded(Args());
      } else {
        PaddedZeros(argsSize);
      }
      assert argsWithMemInfo == Padded(read);
      if fixed && insertOffset > |argsWithMemInfo| {
        return Failed, offset;
      }
      offset, places := Reserve(argsSize, places, fixed, insertOffset, overflowStatus);
      if offset > |argsWithMemInfo| {
        return Fault, offset;
      }
      outcome := InsertAt(param, offset, deviceOk);
    }

    /** The end of InsertParam: the parameter goes into the vector, and the vector takes the place of the arguments. */
    method InsertAt(param: seq<byte>, offset: nat, deviceOk: bool) returns (outcome: Outcome)
      requires offset <= |argsWithMemInfo| && |param| == PTR
      requires |argsWithMemInfo| + PTR < U32 && |argsWithMemInfo| % PTR == 0
      modifies this`argsWithMemInfo, this`argsSize, this`source, this`device
      ensures outcome == (if old(source).Device? && !deviceOk then DeviceFailed else Ok)
      ensures argsSize == |old(argsWithMemInfo)| + PTR
      ensures source == if old(source).Device? then Device else WithMemInfo
      ensures outcome.Ok? ==>
                Valid() && Args() == old(argsWithMemInfo)[..offset] + param + old(argsWithMemInfo)[offset..]
    {
      argsWithMemInfo := argsWithMemInfo[..offset] + param + argsWithMemInfo[offset..];
      argsSize := |argsWithMemInfo|;
      if !source.Device? {
        source := WithMemInfo;
        return Ok;
      }
      if !deviceOk {
        return DeviceFailed;
      }
      device := argsWithMemInfo;
      outcome := Ok;
    }
  }

  /** The part of InsertParam that chooses the insertion point and moves the data offsets. */
  method Reserve(size: u32, places: seq<PlaceHolder>, fixed: bool, insertOffset: u32, overflowStatus: bool)
    returns (offset: nat, moved: seq<PlaceHolder>)
    ensures offset == InsertOffset(size, places, fixed, insertOffset, overflowStatus)
    ensures moved == MovedPlaces(places, fixed, insertOffset)
  {
    hide LastAddr, Add32, Shifted, Aligned;
    if fixed {
      offset := insertOffset;
      moved := ShiftFrom(places, insertOffset);
    } else if places == [] {
      offset, moved := Aligned(size), [];
      NothingShifted(0);
    } else {
      var lastAddrOffset := MaxAddr(places);
      offset := Add32(lastAddrOffset, PTR);
      if overflowStatus {
        offset := Add32(offset, PTR);
      }
      moved := ShiftFrom(places, 0);
    }
  }

  lemma NothingShifted(from: nat)
    ensures Shifted([], from) == []
  {
  }

  lemma PaddedZeros(n: nat)
    requires n % PTR == 0
    ensures Padded(Zeros(n)) == Zeros(n) == Zeros(Aligned(n))
  {
    assert Aligned(n) == n;
  }

  /** Expanding the same context again leaves nothing of the arguments, nor of the pointer inserted first. */
  method ExpandAgain(context: ArgsRawContext, param: seq<byte>, overflowStatus: bool)
    returns (outcome: Outcome, offset: nat)
    requires context.Valid() && context.source.WithMemInfo? && |param| == PTR
    modifies context
    ensures outcome.Ok? <==> old(context.argsSize) <= MAX_ALL_PARAM_SIZE
                             && AppendOffset(old(context.argsSize), old(context.places), overflowStatus)
                                <= Aligned(old(context.argsSize))
    ensures outcome.Ok? ==>
              && context.Valid() && offset + PTR <= context.argsSize
              && context.Args()[offset..offset + PTR] == param
              && forall i :: 0 <= i < context.argsSize && !(offset <= i < offset + PTR) ==> context.Args()[i] == 0
  {
    hide AppendOffset, Shifted;
    ghost var read := context.Readable();
    outcome, offset := context.ExpandArgs(param, overflowStatus, true);
    if outcome.Ok? {
      ghost var r := Inserted(read, offset, param);
      assert r[offset..offset + PTR] == param;
    }
  }

  method MaxAddr(places: seq<PlaceHolder>) returns (last: u32)
    ensures last == LastAddr(places)
  {
    last := 0;
    for i := 0 to |places|
      invariant last == LastAddr(places[..i])
    {
      assert places[..i + 1][..i] == places[..i];
      if places[i].addrOffset > last {
        last := places[i].addrOffset;
      }
    }
    assert places[..|places|] == places;
  }

  method ShiftFrom(places: seq<PlaceHolder>, from: u32) returns (shifted: seq<PlaceHolder>)
    ensures shifted == Shifted(places, from)
  {
    shifted := places;
    for i := 0 to |places|
      invariant |shifted| == |places|
      invariant forall k :: 0 <= k < i ==> shifted[k] == Shifted(places, from)[k]
      invariant forall k :: i <= k < |places| ==> shifted[k] == places[k]
    {
      if shifted[i].dataOffset >= from {
        shifted := shifted[i := shifted[i].(dataOffset := Add32(shifted[i].dataOffset, PTR))];
      }
    }
  }

  // ---------------------------------------------------------------- what an insertion keeps

  /** The parameter stands at its offset, and every old byte before or behind it. */
  lemma InsertedBytes(args: seq<byte>, offset: nat, param: seq<byte>)
    requires offset <= Aligned(|args|) && |param| == PTR
    ensures var r := Inserted(args, offset, param);
            && |r| == Aligned(|args|) + PTR
            && r[offset..offset + PTR] == param
            && forall p :: 0 <= p < |args| ==> Moved(p, offset) < |r| && r[Moved(p, offset)] == args[p]
  {
    var r := Inserted(args, offset, param);
    forall p | 0 <= p < |args| ensures Moved(p, offset) < |r| && r[Moved(p, offset)] == args[p] {
      assert Padded(args)[..|args|][p] == args[p];
    }
  }

  /** Where an insertion at `offset` leaves the byte that was at p. */
  function Moved(p: nat, offset: nat): (r: nat) {
    if p < offset then p else p + PTR
  }

  /** The data of placeholder i ends where the next placeholder's data starts, or with the buffer. */
  predicate InData(places: seq<PlaceHolder>, size: nat, i: nat, p: nat)
    requires i < |places|
  {
    && places[i].dataOffset <= p < size
    && forall j :: 0 <= j < |places| ==> places[j].dataOffset <= places[i].dataOffset || p < places[j].dataOffset
  }

  /** Read from its new data offset, placeholder i still has its old bytes, one after the other. */
  ghost predicate KeepsData(places: seq<PlaceHolder>, places': seq<PlaceHolder>, size: nat, offset: nat, i: nat)
    requires i < |places| == |places'|
  {
    forall p :: places[i].dataOffset <= p && InData(places, size, i, p) ==>
      Moved(p, offset) == places'[i].dataOffset + (p - places[i].dataOffset)
  }

  /** The insertion point falls inside the data of placeholder i, behind its first byte. */
  ghost predicate Splits(places: seq<PlaceHolder>, size: nat, offset: nat, i: nat)
    requires i < |places|
  {
    places[i].dataOffset < offset && InData(places, size, i, offset)
  }

  lemma InDataDownward(places: seq<PlaceHolder>, size: nat, i: nat, p: nat, q: nat)
    requires i < |places| && InData(places, size, i, q) && places[i].dataOffset <= p <= q
    ensures InData(places, size, i, p)
  {
  }

  /** ExpandArgsAt: a placeholder keeps its data unless the insertion splits it. */
  lemma InsertKeepsDataIff(places: seq<PlaceHolder>, size: nat, offset: nat, i: nat)
    requires i < |places| && size <= MAX_ALL_PARAM_SIZE
    ensures KeepsData(places, Shifted(places, offset), size, offset, i) <==> !Splits(places, size, offset, i)
  {
    var places' := Shifted(places, offset);
    if Splits(places, size, offset, i) {
      assert Moved(offset, offset) != places'[i].dataOffset + (offset - places[i].dataOffset);
    } else {
      forall p | places[i].dataOffset <= p && InData(places, size, i, p)
        ensures Moved(p, offset) == places'[i].dataOffset + (p - places[i].dataOffset)
      {
        if places[i].dataOffset < offset <= p {
          InDataDownward(places, size, i, offset, p);
        }
      }
    }
  }

  /** Below some data offset an insertion splits nothing iff it happens right at a data offset. */
  lemma NothingSplitIff(places: seq<PlaceHolder>, size: nat, offset: nat)
    requires offset < size && exists i :: 0 <= i < |places| && places[i].dataOffset <= offset
    ensures (forall i :: 0 <= i < |places| ==> !Splits(places, size, offset, i))
       <==> exists i :: 0 <= i < |places| && places[i].dataOffset == offset
  {
    var i :| 0 <= i < |places| && places[i].dataOffset <= offset;
    var m := LastAtOrBelow(places, offset, i);
    if places[m].dataOffset < offset {
      assert Splits(places, size, offset, m);
    } else {
      forall k | 0 <= k < |places| ensures !Splits(places, size, offset, k) {
        assert places[m].dataOffset == offset;
      }
    }
  }

  /** The placeholder whose data starts last among those that start at or below the offset. */
  lemma {:induction false} LastAtOrBelow(places: seq<PlaceHolder>, offset: nat, i: nat) returns (m: nat)
    requires i < |places| && places[i].dataOffset <= offset
    ensures m < |places| && places[m].dataOffset <= offset
    ensures forall j :: 0 <= j < |places| && places[j].dataOffset <= offset ==>
              places[j].dataOffset <= places[m].dataOffset
    decreases offset - places[i].dataOffset
  {
    if j :| 0 <= j < |places| && places[i].dataOffset < places[j].dataOffset <= offset {
      m := LastAtOrBelow(places, offset, j);
    } else {
      m := i;
    }
  }

  /** ExpandArgs moves all data offsets: exactly the data behind the insertion point is still designated. */
  lemma AppendKeepsDataIff(places: seq<PlaceHolder>, size: nat, offset: nat, i: nat)
    requires i < |places| && size <= MAX_ALL_PARAM_SIZE
    ensures KeepsData(places, Shifted(places, 0), size, offset, i)
       <==> places[i].dataOffset >= offset || places[i].dataOffset >= size
  {
    var places' := Shifted(places, 0);
    var d := places[i].dataOffset;
    if d < size {
      assert places'[i].dataOffset == d + PTR;
      if d < offset {
        assert InData(places, size, i, d);
        assert Moved(d, offset) != places'[i].dataOffset + (d - d);
      }
    }
  }

  // ---------------------------------------------------------------- what the runtime stores later

  function Overwritten(args: seq<byte>, offset: nat, param: seq<byte>): (r: seq<byte>)
    requires offset + |param| <= |args|
    ensures |r| == |args|
  {
    args[..offset] + param + args[offset + |param|..]
  }

  /** The address of a placeholder's data, stored at its address slot if that lies in the arguments. */
  function StoredAt(args: seq<byte>, p: PlaceHolder, base: u64): (r: seq<byte>)
    ensures |r| == |args|
  {
    if p.addrOffset + PTR > |args| then args
    else Overwritten(args, p.addrOffset, Le((base + p.dataOffset) % U64, PTR))
  }

  /** The arguments at the device address `base`, with all placeholders filled in. */
  function Stored(args: seq<byte>, places: seq<PlaceHolder>, base: u64): (r: seq<byte>)
    ensures |r| == |args|
  {
    if places == [] then args
    else StoredAt(Stored(args, places[..|places| - 1], base), places[|places| - 1], base)
  }

  /** The address slot lies in the arguments and shares a byte with the pointer at `offset`. */
  predicate Overlaps(p: PlaceHolder, size: nat, offset: nat) {
    p.addrOffset + PTR <= size && p.addrOffset < offset + PTR && offset < p.addrOffset + PTR
  }

  predicate Clear(places: seq<PlaceHolder>, size: nat, offset: nat) {
    forall i :: 0 <= i < |places| ==> !Overlaps(places[i], size, offset)
  }

  lemma StoredAtElsewhere(args: seq<byte>, p: PlaceHolder, base: u64, offset: nat)
    requires offset + PTR <= |args| && !Overlaps(p, |args|, offset)
    ensures StoredAt(args, p, base)[offset..offset + PTR] == args[offset..offset + PTR]
  {
    hide Le;
  }

  lemma {:induction false} ClearKeepsPointer(args: seq<byte>, places: seq<PlaceHolder>, base: u64, offset: nat)
    requires offset + PTR <= |args| && Clear(places, |args|, offset)
    ensures Stored(args, places, base)[offset..offset + PTR] == args[offset..offset + PTR]
  {
    hide StoredAt, Overlaps;
    if places != [] {
      var front, last := places[..|places| - 1], places[|places| - 1];
      ClearKeepsPointer(args, front, base, offset);
      StoredAtElsewhere(Stored(args, front, base), last, base, offset);
    }
  }

  /** Some base address gives an overlapping slot a byte that differs from the pointer's. */
  lemma OverlapBreaks(args: seq<byte>, p: PlaceHolder, offset: nat, param: seq<byte>) returns (base: u64)
    requires offset + PTR <= |args| && Overlaps(p, |args|, offset) && |param| == PTR
    ensures forall before: seq<byte> {:trigger StoredAt(before, p, base)} :: |before| == |args| ==>
              StoredAt(before, p, base)[offset..offset + PTR] != param
  {
    hide Le, Pow256, Overwritten;
    var at := if offset < p.addrOffset then p.addrOffset else offset;
    var j := at - p.addrOffset;
    var value := if param[at - offset] == 0 then Pow256(j) else 0;
    PowBelow(j);
    base := BaseFor(value, p.dataOffset);
    LePow(j, PTR);
    LeZero(j, PTR);
    forall before: seq<byte> | |before| == |args|
      ensures StoredAt(before, p, base)[offset..offset + PTR] != param
    {
      SlotByte(before, p, value, at, offset);
    }
  }

  lemma BaseFor(value: u64, distance: u32) returns (base: u64)
    ensures (base + distance) % U64 == value
  {
    base := if value >= distance then value - distance else value + U64 - distance;
  }

  lemma PowBelow(j: nat)
    requires j < PTR
    ensures Pow256(j) < U64
  {
    Widths();
    PowGrows(j, PTR);
  }

  lemma {:induction false} PowGrows(j: nat, w: nat)
    requires j < w
    ensures Pow256(j) < Pow256(w)
  {
    if j + 1 < w {
      PowGrows(j, w - 1);
    }
  }

  lemma SlotByte(before: seq<byte>, p: PlaceHolder, value: nat, at: nat, offset: nat)
    requires p.addrOffset + PTR <= |before| && p.addrOffset <= at < p.addrOffset + PTR
    requires offset <= at < offset + PTR <= |before|
    ensures Overwritten(before, p.addrOffset, Le(value, PTR))[offset..offset + PTR][at - offset]
         == Le(value, PTR)[at - p.addrOffset]
  {
    hide Le;
  }

  lemma {:induction false} NotClearBreaks(args: seq<byte>, places: seq<PlaceHolder>, offset: nat, param: seq<byte>)
    returns (base: u64)
    requires offset + PTR <= |args| && !Clear(places, |args|, offset) && |param| == PTR
    ensures Stored(args, places, base)[offset..offset + PTR] != param
  {
    hide StoredAt, Overlaps;
    var front, last := places[..|places| - 1], places[|places| - 1];
    if Overlaps(last, |args|, offset) {
      base := OverlapBreaks(args, last, offset, param);
      assert |Stored(args, front, base)| == |args|;
    } else {
      var i :| 0 <= i < |places| && Overlaps(places[i], |args|, offset);
      assert front[i] == places[i];
      base := NotClearBreaks(args, front, offset, param);
      StoredAtElsewhere(Stored(args, front, base), last, base, offset);
    }
  }

  /** No address slot overlaps a pointer that ExpandArgs inserted, so the runtime's stores leave it alone. */
  lemma AppendedClearOfSlots(places: seq<PlaceHolder>, size: nat, overflowStatus: bool)
    requires places != [] && LastAddr(places) + 2 * PTR < U32
    ensures forall i :: 0 <= i < |places| ==>
              places[i].addrOffset + PTR <= AppendOffset(size, places, overflowStatus)
  {
    hide LastAddr, Aligned, Add32;
    assert AppendOffset(size, places, overflowStatus) >= LastAddr(places) + PTR;
  }

  /** How far behind its address slot the last placeholder pushes the insertion point. */
  function Reach(overflowStatus: bool): (r: nat) {
    if overflowStatus then 2 * PTR else PTR
  }

  /**
   * The insertion point lies in the padded buffer iff every address slot does, with the overflow
   * address behind it; or it wrapped around 2^32 into the buffer.
   */
  lemma AppendInBoundsIff(places: seq<PlaceHolder>, size: nat, overflowStatus: bool)
    ensures AppendOffset(size, places, overflowStatus) <= Aligned(size)
       <==> || (forall i :: 0 <= i < |places| ==> places[i].addrOffset + Reach(overflowStatus) <= Aligned(size))
            || (LastAddr(places) + Reach(overflowStatus) >= U32
                && LastAddr(places) + Reach(overflowStatus) - U32 <= Aligned(size))
  {
    hide LastAddr, Aligned;
    if places != [] {
      var i :| 0 <= i < |places| && places[i].addrOffset == LastAddr(places);
      var reach := Reach(overflowStatus);
      assert AppendOffset(size, places, overflowStatus)
          == if LastAddr(places) + reach < U32 then LastAddr(places) + reach else LastAddr(places) + reach - U32;
    }
  }

  /** Data in front of the last address slot is not designated any more after ExpandArgs. */
  lemma AppendCanMisplaceData()
    ensures var places := [PlaceHolder(16, 8)];
            && AppendOffset(32, places, false) == 24
            && !KeepsData(places, Shifted(places, 0), 32, 24, 0)
  {
    var places := [PlaceHolder(16, 8)];
    assert LastAddr(places) == 16;
    AppendKeepsDataIff(places, 32, 24, 0);
  }
}
