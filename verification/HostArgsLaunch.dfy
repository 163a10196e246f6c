/**
 * Launching a kernel with host arguments under the sanitizer: where the pointer to the record area
 * goes, and the prepare, fill and commit / roll back / abort sequence around it.
 */
module HostArgsLaunch {
  import opened Bytes
  import opened Seqs
  import opened ArgsRaw
  import Elf

  /** "__CCE_KernelArgSize" */
  const KERNEL_ARG_SIZE: seq<byte> :=
    [0x5f, 0x5f, 0x43, 0x43, 0x45, 0x5f, 0x4b, 0x65, 0x72, 0x6e, 0x65, 0x6c, 0x41, 0x72, 0x67, 0x53, 0x69, 0x7a, 0x65]

  /** ".init_array_sanitizer_file_mapping" */
  const STATIC_STUB: seq<byte> :=
    [0x2e, 0x69, 0x6e, 0x69, 0x74, 0x5f, 0x61, 0x72, 0x72, 0x61, 0x79, 0x5f, 0x73, 0x61, 0x6e, 0x69, 0x74,
     0x69, 0x7a, 0x65, 0x72, 0x5f, 0x66, 0x69, 0x6c, 0x65, 0x5f, 0x6d, 0x61, 0x70, 0x70, 0x69, 0x6e, 0x67]

  /** A function context: its handle and the binary it is registered with. */
  datatype Func = Func(handle: nat, isAiCpu: bool, elf: Elf.Buffer)

  function Headers(elf: Elf.Buffer): (r: Option<Elf.SectionMap>) {
    if Elf.Loadable(elf) then Some(Elf.MapOn(map[], Elf.LoadEntries(elf))) else None
  }

  predicate HasStaticStub(f: Func) {
    Headers(f.elf).Some? && STATIC_STUB in Headers(f.elf).value
  }

  /** A kernel that reads the record area unconditionally and has no plain version. */
  predicate Static(f: Func) {
    !f.isAiCpu && HasStaticStub(f)
  }

  function KernelArgSize(elf: Elf.Buffer, headers: Elf.SectionMap): (r: Option<u32>)
  {
    if KERNEL_ARG_SIZE !in headers then None else
    var s := headers[KERNEL_ARG_SIZE];
    if Elf.ShSize(s) < 4 || Elf.ShOffset(s) > |elf| || |elf| - Elf.ShOffset(s) < 4 then None else
    FromLeBound(elf[Elf.ShOffset(s)..Elf.ShOffset(s) + 4]);
    Widths();
    Some(FromLe(elf[Elf.ShOffset(s)..Elf.ShOffset(s) + 4]))
  }

  function DeclaredSize(f: Func): (r: Option<u32>) {
    if f.isAiCpu || Headers(f.elf).None? then None else KernelArgSize(f.elf, Headers(f.elf).value)
  }

  /** A static kernel is one that is not for the AI CPU and whose image has a section of the stub's name. */
  lemma StaticIff(f: Func)
    ensures Static(f) <==>
              !f.isAiCpu && Elf.Loadable(f.elf) && Elf.Named(Elf.LoadEntries(f.elf), STATIC_STUB) != []
  {
    hide Elf.Loadable, Elf.LoadEntries;
    Elf.FreshMapsKeepLastAndAll(Elf.LoadEntries(f.elf), STATIC_STUB);
  }

  /** The declared size is the first four bytes of the last section of its name, if they are there. */
  lemma DeclaredSizeIff(f: Func, k: u32)
    ensures DeclaredSize(f) == Some(k) <==>
              && !f.isAiCpu && Elf.Loadable(f.elf)
              && var named := Elf.Named(Elf.LoadEntries(f.elf), KERNEL_ARG_SIZE);
                 && named != []
                 && var s := named[|named| - 1];
                    && Elf.ShSize(s) >= 4 && Elf.ShOffset(s) + 4 <= |f.elf|
                    && f.elf[Elf.ShOffset(s)..Elf.ShOffset(s) + 4] == Le(k, 4)
  {
    hide Elf.Loadable, Elf.LoadEntries, Elf.ShSize, Elf.ShOffset, Le, FromLe, Elf.Named, Elf.MapOn;
    var entries := Elf.LoadEntries(f.elf);
    Elf.FreshMapsKeepLastAndAll(entries, KERNEL_ARG_SIZE);
    Widths();
    FromLeLe(k, 4);
    var named := Elf.Named(entries, KERNEL_ARG_SIZE);
    if named != [] {
      var s := named[|named| - 1];
      if Elf.ShOffset(s) + 4 <= |f.elf| {
        LeFromLe(f.elf[Elf.ShOffset(s)..Elf.ShOffset(s) + 4]);
      }
    }
  }

  /** The two section names, letter by letter. */
  lemma KernelArgSizeName()
    ensures |KERNEL_ARG_SIZE| == |"__CCE_KernelArgSize"|
    ensures forall i :: 0 <= i < |KERNEL_ARG_SIZE| ==> KERNEL_ARG_SIZE[i] == "__CCE_KernelArgSize"[i] as int
  {
  }

  lemma StaticStubName()
    ensures |STATIC_STUB| == |".init_array_sanitizer_file_mapping"|
    ensures forall i :: 0 <= i < |STATIC_STUB| ==> STATIC_STUB[i] == ".init_array_sanitizer_file_mapping"[i] as int
  {
    var a, b := STATIC_STUB, ".init_array_sanitizer_file_mapping";
    assert forall i :: 0 <= i < 17 ==> a[i] == b[i] as int;
    assert forall i :: 17 <= i < |a| ==> a[i] == b[i] as int;
  }

  // ---------------------------------------------------------------- where the pointer goes

  /** What the runtime's parameter table says about the last parameter of the handle to be launched. */
  datatype ParamInfo = ParamInfo(offset: u64, size: u64)

  predicate IsSlotInPlaceholderData(places: seq<PlaceHolder>, offset: nat) {
    exists i :: 0 <= i < |places| && places[i].dataOffset <= offset
  }

  function LocateRecordArgSlot(argsSize: nat, k: u32, last: Option<ParamInfo>, places: seq<PlaceHolder>)
    : (r: Option<nat>)
  {
    if && k != 0 && last.Some? && last.value.size == PTR
       && (last.value.offset + last.value.size) % U64 == k
       && (last.value.offset + last.value.size) % U64 <= argsSize
       && !IsSlotInPlaceholderData(places, last.value.offset)
    then Some(last.value.offset)
    else if k >= PTR && k % PTR == 0 && argsSize >= k && !IsSlotInPlaceholderData(places, k - PTR)
    then Some(k - PTR)
    else None
  }

  datatype Placement = Overwrite(offset: nat) | Insert(at: u32) | Append

  function Place(isStatic: bool, k: Option<u32>, argsSize: nat, last: Option<ParamInfo>, places: seq<PlaceHolder>)
    : (r: Placement)
  {
    if !isStatic || k.None? then Append else
    var slot := LocateRecordArgSlot(argsSize, k.value, last, places);
    if slot.Some? then Overwrite(slot.value)
    else if k.value >= PTR && k.value % PTR == 0 && k.value <= argsSize && IsSlotInPlaceholderData(places, k.value - PTR)
    then Insert(k.value - PTR)
    else Append
  }

  /** The kernel reads its record pointer from the last 8 declared bytes; there it is overwritten or inserted. */
  lemma DeclaredSlotIsUsed(k: u32, argsSize: nat, last: Option<ParamInfo>, places: seq<PlaceHolder>)
    requires PTR <= k <= argsSize && k % PTR == 0
    ensures var p := Place(true, Some(k), argsSize, last, places);
            p == if IsSlotInPlaceholderData(places, k - PTR) then Insert(k - PTR) else Overwrite(k - PTR)
  {
    if last.Some? && last.value.size == PTR && (last.value.offset + PTR) % U64 == k {
      assert last.value.offset == k - PTR;
    }
  }

  /** Every other declared size: only the parameter table can name a slot, and only one that ends the declared area. */
  lemma OtherSizesAppend(isStatic: bool, k: Option<u32>, argsSize: nat, last: Option<ParamInfo>,
                         places: seq<PlaceHolder>)
    ensures !isStatic || k.None? || k == Some(0) || k.value > argsSize ==>
              Place(isStatic, k, argsSize, last, places) == Append
    ensures isStatic && k.Some? && 8 <= k.value <= argsSize && k.value % 8 != 0 ==>
              Place(isStatic, k, argsSize, last, places)
              == if && last == Some(ParamInfo(k.value - 8, 8))
                    && (forall i :: 0 <= i < |places| ==> k.value - 8 < places[i].dataOffset)
                 then Overwrite(k.value - 8) else Append
    ensures isStatic && k.Some? && 0 < k.value < 8 && last.None? ==> Place(isStatic, k, argsSize, last, places) == Append
  {
    if isStatic && k.Some? && 8 <= k.value <= argsSize && k.value % 8 != 0 && last.Some? && last.value.size == 8 {
      assert (last.value.offset + 8) % U64 == k.value <==> last.value.offset == k.value - 8;
    }
  }

  /** A slot to overwrite holds no placeholder data; it lies in the buffer unless the table's offset wraps around. */
  lemma OverwriteInBoundsIff(k: u32, argsSize: nat, last: Option<ParamInfo>, places: seq<PlaceHolder>)
    requires argsSize < U64 && Place(true, Some(k), argsSize, last, places).Overwrite?
    ensures var offset := Place(true, Some(k), argsSize, last, places).offset;
            && !IsSlotInPlaceholderData(places, offset)
            && (offset + PTR <= argsSize <==> k >= PTR)
            && (k >= PTR ==> offset == k - PTR)
  {
    var offset := Place(true, Some(k), argsSize, last, places).offset;
    if k < PTR {
      assert offset + PTR >= U64;
    }
  }

  /** A wrapped table offset is taken for a slot, far outside the arguments. */
  lemma OverwriteCanLeaveArguments()
    ensures Place(true, Some(4), 32, Some(ParamInfo(U64 - 4, PTR)), []) == Overwrite(U64 - 4)
  {
  }

  // ---------------------------------------------------------------- what overwriting and inserting do to data

  /** Overwriting spares all placeholder data iff no data starts inside the slot, behind its first byte. */
  lemma OverwriteSparesDataIff(places: seq<PlaceHolder>, argsSize: nat, offset: nat)
    requires !IsSlotInPlaceholderData(places, offset) && offset + PTR <= argsSize
    ensures (forall i, p: nat :: 0 <= i < |places| && InData(places, argsSize, i, p) ==> !(offset <= p < offset + PTR))
       <==> forall i :: 0 <= i < |places| ==> places[i].dataOffset >= offset + PTR
  {
    if i :| 0 <= i < |places| && places[i].dataOffset < offset + PTR {
      var d := places[i].dataOffset;
      assert InData(places, argsSize, i, d);
      assert offset <= d < offset + PTR;
    } else {
      forall i, p: nat | 0 <= i < |places| && InData(places, argsSize, i, p) ensures !(offset <= p < offset + PTR) {
        assert places[i].dataOffset >= offset + PTR;
      }
    }
  }

  predicate AlignedData(places: seq<PlaceHolder>) {
    forall i :: 0 <= i < |places| ==> places[i].dataOffset % PTR == 0
  }

  /** With 8-aligned data and a declared size that is a multiple of 8, overwriting touches no placeholder data. */
  lemma AlignedOverwriteSparesData(k: u32, argsSize: nat, last: Option<ParamInfo>, places: seq<PlaceHolder>)
    requires PTR <= k <= argsSize && k % PTR == 0 && AlignedData(places)
    requires Place(true, Some(k), argsSize, last, places).Overwrite?
    ensures forall i, p: nat :: 0 <= i < |places| && InData(places, argsSize, i, p) ==> !(k - PTR <= p < k)
  {
    DeclaredSlotIsUsed(k, argsSize, last, places);
    forall i | 0 <= i < |places| ensures places[i].dataOffset >= k {
      assert places[i].dataOffset > k - PTR;
    }
    OverwriteSparesDataIff(places, argsSize, k - PTR);
  }

  /** Data at an unaligned offset inside the slot is overwritten. */
  lemma UnalignedDataIsOverwritten()
    ensures var places := [PlaceHolder(0, 20)];
            Place(true, Some(24), 32, None, places) == Overwrite(16) && InData(places, 32, 0, 20)
  {
    var places := [PlaceHolder(0, 20)];
    assert !IsSlotInPlaceholderData(places, 16);
  }

  /** After an insertion all placeholders still have their data iff some data started right at the slot. */
  lemma InsertKeepsAllDataIff(k: u32, argsSize: nat, last: Option<ParamInfo>, places: seq<PlaceHolder>, at: u32)
    requires PTR <= k <= argsSize <= MAX_ALL_PARAM_SIZE && k % PTR == 0
    requires Place(true, Some(k), argsSize, last, places) == Insert(at)
    ensures (forall i :: 0 <= i < |places| ==> KeepsData(places, Shifted(places, at), argsSize, at, i))
       <==> exists i :: 0 <= i < |places| && places[i].dataOffset == at
  {
    hide KeepsData, Splits, Shifted;
    DeclaredSlotIsUsed(k, argsSize, last, places);
    NothingSplitIff(places, argsSize, at);
    forall i | 0 <= i < |places|
      ensures KeepsData(places, Shifted(places, at), argsSize, at, i) <==> !Splits(places, argsSize, at, i)
    {
      InsertKeepsDataIff(places, argsSize, at, i);
    }
  }

  /** Data that starts before the slot and reaches into it is cut in two, although everything is 8-aligned. */
  lemma InsertCanSplitData()
    ensures var places := [PlaceHolder(0, 8)];
            Place(true, Some(24), 32, None, places) == Insert(16) && !KeepsData(places, Shifted(places, 16), 32, 16, 0)
  {
    var places := [PlaceHolder(0, 8)];
    assert places[0].dataOffset <= 16 && IsSlotInPlaceholderData(places, 16);
    assert Splits(places, 32, 16, 0);
    InsertKeepsDataIff(places, 32, 16, 0);
  }

  // ---------------------------------------------------------------- the launch

  /** What surrounds one launch: the caller's arguments, the other components' answers and the allocations. */
  datatype Env = Env(
    sanitizer: bool,
    known: Option<Func>,        // FuncManager or CreateFuncContext
    aiCpuMagic: bool,
    skip: bool,
    sink: bool,
    instrumented: Option<Func>, // what the instrumentation task would return
    last: Option<ParamInfo>,    // of the original handle
    memInfo: u64,               // __sanitizer_init, 0 on failure
    overflowStatus: bool,
    hasOrigin: bool)

  datatype Result =
    | Launched(handle: nat, args: Option<seq<byte>>, places: seq<PlaceHolder>)
    | Aborted
    | NoOrigin
    | Undefined // memory outside the copied arguments was touched

  /** RunDBITask does not instrument what the compiler already did. */
  function RunDBITask(original: Func, env: Env): (r: Option<Func>)
    ensures r.Some? ==> !HasStaticStub(original)
  {
    if HasStaticStub(original) then None else env.instrumented
  }

  function Record(env: Env): (r: seq<byte>)
    ensures |r| == PTR
  {
    Le(env.memInfo, PTR)
  }

  function PlaceOf(f: Func, argsSize: nat, env: Env, places: seq<PlaceHolder>): (r: Placement) {
    Place(Static(f), DeclaredSize(f), argsSize, env.last, places)
  }

  /** SanitizerPre left the launch prepared, or gave up and rolled back or aborted. */
  datatype Prepared =
    | Committed(args: seq<byte>, places: seq<PlaceHolder>, offset: nat)
    | GaveUp
    | Broken

  /** Filling the record pointer into a copy of the arguments, for the kernel that is to be launched. */
  function Fill(f: Func, args: seq<byte>, places: seq<PlaceHolder>, env: Env): (r: Prepared) {
    if env.memInfo == 0 then GaveUp else
    match PlaceOf(f, |args|, env, places)
    case Overwrite(offset) =>
      if offset + PTR > |args| then Broken else Committed(Overwritten(args, offset, Record(env)), places, offset)
    case Insert(at) =>
      if |args| > MAX_ALL_PARAM_SIZE || at > Aligned(|args|) then GaveUp
      else Committed(Inserted(args, at, Record(env)), Shifted(places, at), at)
    case Append =>
      var offset := AppendOffset(|args|, places, env.overflowStatus);
      if |args| > MAX_ALL_PARAM_SIZE then GaveUp
      else if offset > Aligned(|args|) then Broken
      else Committed(Inserted(args, offset, Record(env)), Shifted(places, 0), offset)
  }

  /** The kernel whose needs decide: the instrumented one if there is one. */
  function Target(original: Func, env: Env): (r: Func) {
    var inst := RunDBITask(original, env);
    if inst.Some? then inst.value else original
  }

  class Launch {
    var funcHandle: nat
    var argsSize: nat
    var hostArgs: Option<seq<byte>>
    var places: seq<PlaceHolder>
    var abortLaunch: bool
    var memInfo: u64
    var funcCtx: Option<Func>
    var dbiFuncCtx: Option<Func>
    /** DBITaskConfig::argsSize_, passed to the instrumentation tool. */
    var tuneArgsSize: nat

    constructor ()
    {
      funcHandle, argsSize, hostArgs, places, abortLaunch, memInfo := 0, 0, None, [], false, 0;
      funcCtx, dbiFuncCtx, tuneArgsSize := None, None, 0;
    }

    /** False stops the hijacking; the launch then goes on with the caller's own arguments. */
    method InitParam(handle: nat, args: Option<seq<byte>>, size: nat, callerPlaces: seq<PlaceHolder>, env: Env)
      returns (ok: bool, context: ArgsRawContext?)
      requires size < U64 && (args.Some? ==> |args.value| == size)
      modifies this
      ensures funcHandle == handle && hostArgs == args && argsSize == size && places == callerPlaces && !abortLaunch
      ensures ok <==> env.known.Some? && !env.aiCpuMagic && args.Some? && size % U32 != 0
      ensures ok ==>
                && funcCtx == env.known && dbiFuncCtx == None
                && context != null && fresh(context) && context.Valid() && context.source.Copy?
                && context.Args() == args.value[..size % U32] && context.places == callerPlaces
    {
      context := null;
      funcHandle, hostArgs, argsSize, places, abortLaunch := handle, args, size, callerPlaces, false;
      if env.known.Some? && env.aiCpuMagic {
        return false, context;
      }
      if args.None? || size % U32 == 0 {
        return false, context;
      }
      context := new ArgsRawContext(args.value[..size % U32], callerPlaces);
      if env.known.None? {
        return false, context;
      }
      funcCtx, dbiFuncCtx := env.known, None;
      ok := true;
    }

    /** The failure handler of SanitizerPre. */
    method HandlePreFailure(isStatic: bool, instrumented: bool, originHandle: nat, originDbi: Option<Func>)
      modifies this
      ensures memInfo == 0 && funcCtx == old(funcCtx) && tuneArgsSize == old(tuneArgsSize)
      ensures hostArgs == old(hostArgs) && argsSize == old(argsSize) && places == old(places)
      ensures abortLaunch == (isStatic || old(abortLaunch))
      ensures funcHandle == (if instrumented && !isStatic then originHandle else old(funcHandle))
      ensures dbiFuncCtx == (if instrumented && !isStatic then originDbi else old(dbiFuncCtx))
    {
      if memInfo != 0 {
        memInfo := 0;
      }
      if isStatic {
        abortLaunch := true;
        return;
      }
      if instrumented {
        funcHandle := originHandle;
        dbiFuncCtx := originDbi;
      }
    }

    /** Writes the record pointer into the copied arguments, in place or by expanding them. */
    method FillRecord(context: ArgsRawContext, target: Func, env: Env) returns (outcome: Outcome)
      requires context.Valid() && context.source.Copy?
      requires hostArgs == Some(context.Args()) && argsSize == context.argsSize && places == context.places
      modifies `hostArgs, `argsSize, `places, `memInfo, context
      ensures memInfo == env.memInfo
      ensures match Fill(target, old(context.Args()), old(places), env)
              case Committed(filled, moved, _) =>
                outcome.Ok? && hostArgs == Some(filled) && argsSize == |filled| && places == moved
              case GaveUp => && outcome.Failed?
                && hostArgs == old(hostArgs) && argsSize == old(argsSize) && places == old(places)
              case Broken => outcome.Fault?
    {
      hide Static, DeclaredSize, Place, Inserted, Shifted, AppendOffset, Aligned;
      memInfo := env.memInfo;
      if memInfo == 0 {
        return Failed;
      }
      var placement := Place(Static(target), DeclaredSize(target), argsSize, env.last, places);
      if placement.Overwrite? {
        if placement.offset + PTR > argsSize {
          return Fault;
        }
        context.argsCopy := Overwritten(context.argsCopy, placement.offset, Le(memInfo, PTR));
        hostArgs := Some(context.Args());
        return Ok;
      }
      var offset;
      if placement.Insert? {
        outcome, offset := context.ExpandArgsAt(Le(memInfo, PTR), placement.at, env.overflowStatus, true);
      } else {
        outcome, offset := context.ExpandArgs(Le(memInfo, PTR), env.overflowStatus, true);
      }
      if outcome.Ok? {
        hostArgs, argsSize, places := Some(context.Args()), context.argsSize, context.places;
      }
    }

    /** Past the skip and stream checks: instrument, fill, then commit, roll back or abort. */
    method SanitizerPre(context: ArgsRawContext, original: Func, env: Env) returns (broken: bool)
      requires context.Valid() && context.source.Copy? && funcCtx == Some(original) && !abortLaunch
      modifies this, context
      ensures var inst, target := RunDBITask(original, env), Target(original, env);
              match Fill(target, old(context.Args()), old(context.places), env)
              case Committed(filled, moved, _) =>
                && !broken && !abortLaunch && memInfo == env.memInfo
                && hostArgs == Some(filled) && argsSize == |filled| && places == moved
                && funcHandle == (if inst.Some? then inst.value.handle else old(funcHandle))
                && dbiFuncCtx == (if inst.Some? then inst else old(dbiFuncCtx))
              case GaveUp =>
                && !broken && abortLaunch == Static(target) && memInfo == 0
                && hostArgs == Some(old(context.Args())) && argsSize == |old(context.Args())|
                && places == old(context.places)
                && funcHandle == old(funcHandle) && dbiFuncCtx == old(dbiFuncCtx)
              case Broken => broken
      ensures tuneArgsSize == if |old(context.Args())| > MAX_ALL_PARAM_SIZE then 0
                              else AppendOffset(|old(context.Args())|, old(context.places), env.overflowStatus)
      ensures !broken && memInfo != 0 && !Static(Target(original, env)) ==>
                hostArgs.Some? && HoldsRecord(hostArgs.value, tuneArgsSize, env)
    {
      hide Static, Fill, AppendOffset, RunDBITask, HoldsRecord;
      hostArgs, argsSize, places := Some(context.Args()), context.argsSize, context.places;
      tuneArgsSize := context.GetLastParamOffset(env.overflowStatus);
      var originDbi, originHandle := dbiFuncCtx, funcHandle;
      var inst := RunDBITask(original, env);
      if inst.Some? {
        funcCtx := inst;
      }
      var target := funcCtx.value;
      var outcome := FillRecord(context, target, env);
      if outcome.Fault? {
        return true;
      }
      if outcome.Failed? {
        HandlePreFailure(Static(target), inst.Some?, originHandle, originDbi);
        return false;
      }
      if !Static(target) {
        TunedRecordWhereRead(target, old(context.Args()), old(context.places), env);
      }
      if inst.Some? {
        dbiFuncCtx := inst;
        funcHandle := inst.value.handle;
      }
      broken := false;
    }

    /** The hijacked launch, up to what the original function is called with. */
    method Call(handle: nat, args: Option<seq<byte>>, size: nat, callerPlaces: seq<PlaceHolder>, env: Env)
      returns (r: Result)
      requires size < U64 && (args.Some? ==> |args.value| == size)
      requires env.known.Some? ==> env.known.value.handle == handle
      modifies this
      ensures r == LaunchResult(handle, args, size, callerPlaces, env)
    {
      hide Fill, Static, HasStaticStub, RunDBITask;
      var ok, context := InitParam(handle, args, size, callerPlaces, env);
      if ok && env.sanitizer && !env.skip && !env.sink {
        var broken := SanitizerPre(context, env.known.value, env);
        if broken {
          return Undefined;
        }
      }
      if !env.hasOrigin {
        return NoOrigin;
      }
      if abortLaunch {
        return Aborted;
      }
      r := Launched(funcHandle, hostArgs, places);
    }
  }

  /** The sanitizer takes part in the launch. */
  predicate Hijacked(args: Option<seq<byte>>, size: nat, env: Env) {
    && env.known.Some? && !env.aiCpuMagic && args.Some? && size % U32 != 0
    && env.sanitizer && !env.skip && !env.sink
  }

  function LaunchResult(handle: nat, args: Option<seq<byte>>, size: nat, places: seq<PlaceHolder>, env: Env): (r: Result)
    requires args.Some? ==> |args.value| == size
  {
    if !Hijacked(args, size, env) then if env.hasOrigin then Launched(handle, args, places) else NoOrigin else
    var copy, target := args.value[..size % U32], Target(env.known.value, env);
    match Fill(target, copy, places, env)
    case Broken => Undefined
    case _ => if !env.hasOrigin then NoOrigin else
    match Fill(target, copy, places, env)
    case Committed(filled, moved, _) => Launched(target.handle, Some(filled), moved)
    case _ => if Static(target) then Aborted else Launched(handle, Some(copy), places)
  }

  // ---------------------------------------------------------------- what is launched

  /** The record pointer cannot be supplied: no record area, or arguments too large to expand. */
  predicate Fails(target: Func, argsSize: nat, env: Env, places: seq<PlaceHolder>) {
    env.memInfo == 0 || (argsSize > MAX_ALL_PARAM_SIZE && !PlaceOf(target, argsSize, env, places).Overwrite?)
  }

  function RecordOffset(target: Func, argsSize: nat, env: Env, places: seq<PlaceHolder>): (r: nat) {
    match PlaceOf(target, argsSize, env, places)
    case Overwrite(offset) => offset
    case Insert(at) => at
    case Append => AppendOffset(argsSize, places, env.overflowStatus)
  }

  /** The place for the pointer lies outside the arguments; the source does not notice. */
  predicate OutOfBounds(target: Func, argsSize: nat, env: Env, places: seq<PlaceHolder>) {
    var offset := RecordOffset(target, argsSize, env, places);
    if PlaceOf(target, argsSize, env, places).Overwrite? then offset + PTR > argsSize else offset > Aligned(argsSize)
  }

  predicate HoldsRecord(args: seq<byte>, offset: nat, env: Env) {
    offset + PTR <= |args| && args[offset..offset + PTR] == Record(env)
  }

  lemma InsertInside(isStatic: bool, k: Option<u32>, argsSize: nat, last: Option<ParamInfo>, places: seq<PlaceHolder>)
    ensures var p := Place(isStatic, k, argsSize, last, places);
            p.Insert? ==> p.at + PTR <= argsSize
  {
  }

  /** Besides the slot, the filled arguments hold every byte of the old ones, moved only by an insertion. */
  ghost predicate OthersKept(args: seq<byte>, filled: seq<byte>, offset: nat, inserted: bool) {
    && |filled| == (if inserted then Aligned(|args|) + PTR else |args|)
    && forall p {:trigger args[p]} :: 0 <= p < |args| && (inserted || !(offset <= p < offset + PTR)) ==>
         var q := if inserted then Moved(p, offset) else p;
         q < |filled| && filled[q] == args[p]
  }

  lemma FillOutcome(target: Func, args: seq<byte>, places: seq<PlaceHolder>, env: Env)
    ensures var p := Fill(target, args, places, env);
            && (p.GaveUp? <==> Fails(target, |args|, env, places))
            && (p.Broken? <==> !Fails(target, |args|, env, places) && OutOfBounds(target, |args|, env, places))
            && (p.Committed? ==>
                  && p.offset == RecordOffset(target, |args|, env, places) && HoldsRecord(p.args, p.offset, env)
                  && OthersKept(args, p.args, p.offset, !PlaceOf(target, |args|, env, places).Overwrite?))
  {
    hide Place, Static, DeclaredSize, AppendOffset, Aligned, Record, Inserted, Shifted, Moved;
    InsertInside(Static(target), DeclaredSize(target), |args|, env.last, places);
    var offset := RecordOffset(target, |args|, env, places);
    if PlaceOf(target, |args|, env, places).Overwrite? {
      if offset + PTR <= |args| {
        assert Overwritten(args, offset, Record(env))[offset..offset + PTR] == Record(env);
      }
    } else if offset <= Aligned(|args|) {
      InsertedBytes(args, offset, Record(env));
    }
  }

  /**
   * What is launched, on every path. A launch that the sanitizer does not take part in goes on as the
   * caller asked. Otherwise it is the original kernel, which then has no static stub, with the caller's
   * arguments cut to 32 bits of size, or the kernel that is to find the record pointer, which then stands in
   * arguments otherwise unchanged. Without a record pointer a static stub aborts, an instrumented kernel is rolled back.
   */
  lemma LaunchIsSafe(handle: nat, args: Option<seq<byte>>, size: nat, places: seq<PlaceHolder>, env: Env)
    requires args.Some? ==> |args.value| == size
    requires env.known.Some? ==> env.known.value.handle == handle
    ensures (!env.sanitizer || env.skip || env.sink || env.known.None? || env.aiCpuMagic || args.None?
             || size % U32 == 0) ==>
              LaunchResult(handle, args, size, places, env)
              == if env.hasOrigin then Launched(handle, args, places) else NoOrigin
    ensures (env.sanitizer && !env.skip && !env.sink && env.known.Some? && !env.aiCpuMagic && args.Some?
             && size % U32 != 0) ==>
              var original, target := env.known.value, Target(env.known.value, env);
              var copy, r := args.value[..size % U32], LaunchResult(handle, args, size, places, env);
              var placement := PlaceOf(target, |copy|, env, places);
              var fails := env.memInfo == 0 || (|copy| > 0x4000_0000 && !placement.Overwrite?);
              && (Some(copy) == args <==> size < U32)
              && (r.Undefined? <==> !fails && OutOfBounds(target, |copy|, env, places))
              && (r.NoOrigin? <==> !r.Undefined? && !env.hasOrigin)
              && (r.Aborted? <==> env.hasOrigin && fails && Static(target))
              && (r.Launched? && fails ==> r == Launched(handle, Some(copy), places) && !Static(original))
              && (r.Launched? && !fails ==>
                    && r.handle == target.handle && r.args.Some?
                    && HoldsRecord(r.args.value, RecordOffset(target, |copy|, env, places), env)
                    && OthersKept(copy, r.args.value, RecordOffset(target, |copy|, env, places), !placement.Overwrite?)
                    && (placement.Append? && Unwrapped(places) ==> ParametersStay(copy, r.args.value, places)))
  {
    hide Fill, OutOfBounds, HoldsRecord, RecordOffset, HasStaticStub, OthersKept, PlaceOf, ParametersStay, Unwrapped;
    if Hijacked(args, size, env) {
      var copy := args.value[..size % U32];
      FillOutcome(Target(env.known.value, env), copy, places, env);
      FillKeepsParameters(Target(env.known.value, env), copy, places, env);
      assert size < U32 ==> copy == args.value;
    }
  }

  lemma FillKeepsParameters(target: Func, args: seq<byte>, places: seq<PlaceHolder>, env: Env)
    ensures var p := Fill(target, args, places, env);
            p.Committed? && PlaceOf(target, |args|, env, places).Append? && Unwrapped(places) ==>
              ParametersStay(args, p.args, places)
  {
    hide PlaceOf, Record, Inserted, Shifted, ParametersStay, Unwrapped, AppendOffset, Aligned;
    if Fill(target, args, places, env).Committed? && PlaceOf(target, |args|, env, places).Append? && Unwrapped(places) {
      AppendKeepsParameters(args, places, env.overflowStatus, Record(env));
    }
  }

  /** An instrumented kernel is launched in place of its original as soon as it can find its record pointer. */
  lemma InstrumentedReplaces(args: Option<seq<byte>>, size: nat, places: seq<PlaceHolder>, env: Env)
    requires args.Some? ==> |args.value| == size
    requires Hijacked(args, size, env) && !HasStaticStub(env.known.value) && env.instrumented.Some?
    ensures var inst, handle := env.instrumented.value, env.known.value.handle;
            var r := LaunchResult(handle, args, size, places, env);
            r.Launched? && env.memInfo != 0 && size % U32 <= 0x4000_0000 ==> r.handle == inst.handle
  {
    hide HasStaticStub, HoldsRecord, RecordOffset, OthersKept, PlaceOf, ParametersStay, OutOfBounds, Fill;
    LaunchIsSafe(env.known.value.handle, args, size, places, env);
  }

  /** From 4 GiB on a launch without a record area gets the low part of its arguments only. */
  lemma ArgumentsCanBeCut(args: seq<byte>)
    requires |args| == U32 + 8
    ensures var env := Env(true, Some(Func(7, false, [])), false, false, false, None, None, 0, false, true);
            LaunchResult(7, Some(args), |args|, [], env) == Launched(7, Some(args[..8]), [])
  {
    var f := Func(7, false, []);
    assert !Static(f) && |args| % U32 == 8;
  }

  // ---------------------------------------------------------------- static stubs that slip through

  /** The sanitizer is on and the launch neither skipped nor bound to a stream. */
  predicate Sanitized(env: Env) {
    env.sanitizer && !env.skip && !env.sink && env.hasOrigin
  }

  /** With a record area at m the kernel is launched, and its arguments do not hold m at the record's place. */
  predicate LaunchedUnarmed(f: Func, args: Option<seq<byte>>, size: nat, places: seq<PlaceHolder>, env: Env, m: u64)
    requires args.Some? ==> |args.value| == size
  {
    var r := LaunchResult(f.handle, args, size, places, env.(memInfo := m));
    && r.Launched?
    && !(r.args.Some?
         && HoldsRecord(r.args.value, RecordOffset(f, size % U32, env.(memInfo := m), places), env.(memInfo := m)))
  }

  /** What a caller can check before the launch: InitParam will stop the hijacking. */
  predicate StopsHijack(args: Option<seq<byte>>, size: nat, env: Env) {
    env.aiCpuMagic || args.None? || size % U32 == 0
  }

  /** When hijacking stops early, a static stub is launched just as the caller asked. */
  lemma StaticLaunchedAsIs(f: Func, args: Option<seq<byte>>, size: nat, places: seq<PlaceHolder>, env: Env)
    requires args.Some? ==> |args.value| == size
    ensures Sanitized(env) && env.known == Some(f) && StopsHijack(args, size, env) ==>
              LaunchResult(f.handle, args, size, places, env) == Launched(f.handle, args, places)
  {
  }

  lemma DifferentRecords(args: seq<byte>, offset: nat, env: Env)
    ensures !HoldsRecord(args, offset, env.(memInfo := 1)) || !HoldsRecord(args, offset, env.(memInfo := 2))
  {
    assert Le(1, PTR)[0] == 1 && Le(2, PTR)[0] == 2;
  }

  lemma PlaceWithoutMemInfo(f: Func, size: nat, places: seq<PlaceHolder>, env: Env, m: u64)
    ensures RecordOffset(f, size, env.(memInfo := m), places) == RecordOffset(f, size, env, places)
  {
    hide Place, Static, DeclaredSize, AppendOffset;
  }

  /** A static stub is launched without the pointer to its record area exactly if InitParam stops the hijacking. */
  lemma StaticUnarmedIff(f: Func, args: Option<seq<byte>>, size: nat, places: seq<PlaceHolder>, env: Env)
    requires args.Some? ==> |args.value| == size
    ensures Sanitized(env) && env.known == Some(f) && Static(f) ==>
              ((exists m: u64 :: LaunchedUnarmed(f, args, size, places, env, m)) <==> StopsHijack(args, size, env))
  {
    hide HasStaticStub, HoldsRecord, RecordOffset, LaunchResult, Fails, OutOfBounds, OthersKept, PlaceOf;
    if Sanitized(env) && env.known == Some(f) && Static(f) {
      if StopsHijack(args, size, env) {
        StaticLaunchedAsIs(f, args, size, places, env.(memInfo := 1));
        StaticLaunchedAsIs(f, args, size, places, env.(memInfo := 2));
        PlaceWithoutMemInfo(f, size % U32, places, env, 1);
        PlaceWithoutMemInfo(f, size % U32, places, env, 2);
        if args.Some? {
          DifferentRecords(args.value, RecordOffset(f, size % U32, env, places), env);
        }
        assert LaunchedUnarmed(f, args, size, places, env, 1) || LaunchedUnarmed(f, args, size, places, env, 2);
      } else {
        forall m: u64 ensures !LaunchedUnarmed(f, args, size, places, env, m) {
          LaunchIsSafe(f.handle, args, size, places, env.(memInfo := m));
          StubTarget(f, env.(memInfo := m));
        }
      }
    }
  }

  lemma StubTarget(f: Func, env: Env)
    ensures HasStaticStub(f) ==> Target(f, env) == f
  {
    hide HasStaticStub;
  }

  /** The smallest image with a static stub: one section, which is also the name table. */
  function StaticImage(): (r: Elf.Buffer) {
    ImageHead() + ImageSection() + (STATIC_STUB + [0])
  }

  function ImageHead(): (r: seq<byte>)
    ensures |r| == 64
  {
    [0x7f, 0x45, 0x4c, 0x46, 2, 1] + Zeros(34) + Le(64, 8) + Zeros(4)
    + Le(64, 2) + Le(0, 2) + Le(0, 2) + Le(64, 2) + Le(1, 2) + Le(0, 2)
  }

  function ImageSection(): (r: seq<byte>)
    ensures |r| == 64
  {
    Le(0, 4) + Zeros(20) + Le(128, 8) + Le(35, 8) + Zeros(24)
  }

  lemma ImageFields()
    ensures var h, s := ImageHead(), ImageSection();
            && h[0..4] == [0x7f, 0x45, 0x4c, 0x46] && h[4] == 2 && h[5] == 1
            && Elf.Shoff(h) == 64 && Elf.Ehsize(h) == 64 && Elf.Phentsize(h) == 0 && Elf.Phnum(h) == 0
            && Elf.Shentsize(h) == 64 && Elf.Shnum(h) == 1 && Elf.Shstrndx(h) == 0
            && Elf.ShName(s) == 0 && Elf.ShOffset(s) == 128 && Elf.ShSize(s) == 35
  {
    hide Le, FromLe;
    Widths();
    FromLeLe(64, 8);
    FromLeLe(64, 2);
    FromLeLe(0, 2);
    FromLeLe(1, 2);
    FromLeLe(0, 4);
    FromLeLe(128, 8);
    FromLeLe(35, 8);
    HeadSlices();
    SectionSlices();
  }

  lemma HeadSlices()
    ensures var h := ImageHead();
            && h[0..4] == [0x7f, 0x45, 0x4c, 0x46] && h[4] == 2 && h[5] == 1
            && h[40..48] == Le(64, 8) && h[52..54] == Le(64, 2) && h[54..56] == Le(0, 2) && h[56..58] == Le(0, 2)
            && h[58..60] == Le(64, 2) && h[60..62] == Le(1, 2) && h[62..64] == Le(0, 2)
  {
    hide Le, Zeros;
  }

  lemma SectionSlices()
    ensures var s := ImageSection(); s[0..4] == Le(0, 4) && s[24..32] == Le(128, 8) && s[32..40] == Le(35, 8)
  {
    hide Le, Zeros;
  }

  lemma {:induction false} CStrOf(name: seq<byte>, i: nat)
    requires i <= |name| && 0 !in name
    ensures Elf.CStr(name + [0], i) == name[i..]
    decreases |name| - i
  {
    if i < |name| {
      assert name[i] in name;
      CStrOf(name, i + 1);
    }
  }

  lemma ImageSlices(h: seq<byte>, s: seq<byte>, names: seq<byte>)
    requires |h| == |s| == 64 && |names| == 35
    ensures var data := h + s + names; |data| == 163 && data[..64] == h && data[64..128] == s && data[128..163] == names
  {
  }

  lemma StaticImageEntries()
    ensures Elf.Loadable(StaticImage())
    ensures Elf.LoadEntries(StaticImage()) == [Elf.Entry(STATIC_STUB, ImageSection())]
  {
    hide ImageHead, ImageSection, Elf.Shoff, Elf.Ehsize, Elf.Phentsize, Elf.Phnum, Elf.Shentsize, Elf.Shnum,
      Elf.Shstrndx, Elf.ShName, Elf.ShOffset, Elf.ShSize, Elf.CStr;
    var data, h, s, names := StaticImage(), ImageHead(), ImageSection(), STATIC_STUB + [0];
    ImageFields();
    ImageSlices(h, s, names);
    assert Elf.HasTable(data, h);
    Elf.SafetyGivenTable(data, h);
    var headers: seq<Elf.Shdr> := [s];
    assert Elf.Sections(data, h) == headers;
    assert Elf.NameTable(data, s) == Some(names);
    CStrOf(STATIC_STUB, 0);
    assert Elf.NamedUpTo(names, headers) == [Elf.Entry(STATIC_STUB, s)] by {
      assert headers[1..] == [];
      assert STATIC_STUB[0..] == STATIC_STUB;
    }
  }

  /** Kernels with a static stub exist. */
  lemma StaticImageIsStatic(handle: nat)
    ensures Static(Func(handle, false, StaticImage()))
  {
    hide Static, StaticImage, ImageSection, Elf.Loadable, Elf.LoadEntries;
    StaticImageEntries();
    StaticIff(Func(handle, false, StaticImage()));
    var e := Elf.Entry(STATIC_STUB, ImageSection());
    assert Elf.Named([e], STATIC_STUB) == Elf.Named([e][..0], STATIC_STUB) + [e.header];
  }

  /** Such a kernel, launched under the sanitizer without arguments, runs without a record pointer. */
  lemma StaticCanBeUnarmed(env: Env)
    ensures var f := Func(7, false, StaticImage());
            Sanitized(env) && env.known == Some(f) ==>
              Static(f) && LaunchResult(7, None, 0, [], env) == Launched(7, None, [])
  {
    hide Static, HasStaticStub, StaticImage;
    StaticImageIsStatic(7);
  }

  // ---------------------------------------------------------------- until the kernel reads it

  /**
   * The runtime stores the addresses of the placeholders' data after the launch. Whatever address the
   * arguments get, the record pointer is still there for the kernel exactly if no address slot in the
   * arguments shares a byte with it, for all three placements.
   */
  lemma RecordSurvivesIff(target: Func, args: seq<byte>, places: seq<PlaceHolder>, env: Env)
    ensures var p := Fill(target, args, places, env);
            p.Committed? ==>
              ((forall base: u64 :: HoldsRecord(Stored(p.args, p.places, base), p.offset, env))
               <==> Clear(places, |p.args|, p.offset))
  {
    hide HoldsRecord, Fill, Stored, Clear;
    var p := Fill(target, args, places, env);
    if p.Committed? {
      FillOutcome(target, args, places, env);
      FillKeepsSlots(target, args, places, env);
      HoldsRecordIs(p.args, p.offset, env);
      if Clear(places, |p.args|, p.offset) {
        forall base: u64 ensures HoldsRecord(Stored(p.args, p.places, base), p.offset, env) {
          ClearKeepsPointer(p.args, p.places, base, p.offset);
          HoldsRecordIs(Stored(p.args, p.places, base), p.offset, env);
        }
      } else {
        var base := NotClearBreaks(p.args, p.places, p.offset, Record(env));
        HoldsRecordIs(Stored(p.args, p.places, base), p.offset, env);
      }
    }
  }

  lemma HoldsRecordIs(args: seq<byte>, offset: nat, env: Env)
    ensures HoldsRecord(args, offset, env) <==> offset + PTR <= |args| && args[offset..offset + PTR] == Record(env)
  {
  }

  lemma FillKeepsSlots(target: Func, args: seq<byte>, places: seq<PlaceHolder>, env: Env)
    requires Fill(target, args, places, env).Committed?
    ensures var p := Fill(target, args, places, env);
            Clear(p.places, |p.args|, p.offset) <==> Clear(places, |p.args|, p.offset)
  {
    hide Place, Static, DeclaredSize, AppendOffset, Aligned, Inserted, Overwritten, Record, Overlaps;
    var p := Fill(target, args, places, env);
    assert |p.places| == |places|;
    forall i | 0 <= i < |places|
      ensures Overlaps(p.places[i], |p.args|, p.offset) <==> Overlaps(places[i], |p.args|, p.offset)
    {
      SameSlot(p.places[i], places[i], |p.args|, p.offset);
    }
  }

  lemma SameSlot(p: PlaceHolder, q: PlaceHolder, size: nat, offset: nat)
    requires p.addrOffset == q.addrOffset
    ensures Overlaps(p, size, offset) <==> Overlaps(q, size, offset)
  {
  }

  /** An appended pointer is clear of all address slots, unless the sum behind the last one wraps around 2^32. */
  lemma AppendedSurvives(target: Func, args: seq<byte>, places: seq<PlaceHolder>, env: Env, base: u64)
    requires Fill(target, args, places, env).Committed? && PlaceOf(target, |args|, env, places).Append?
    requires LastAddr(places) + 2 * PTR < U32
    ensures var p := Fill(target, args, places, env); HoldsRecord(Stored(p.args, p.places, base), p.offset, env)
  {
    hide HoldsRecord, Stored, PlaceOf, LastAddr, AppendOffset;
    var p := Fill(target, args, places, env);
    RecordSurvivesIff(target, args, places, env);
    if places != [] {
      AppendedClearOfSlots(places, |args|, env.overflowStatus);
    }
    assert Clear(places, |p.args|, p.offset);
  }

  /** A declared slot can be an address slot: overwriting and inserting choose it all the same. */
  lemma RecordCanBeStoredOver()
    ensures var places := [PlaceHolder(16, 24)];
            Place(true, Some(24), 32, None, places) == Overwrite(16) && !Clear(places, 32, 16)
    ensures var places := [PlaceHolder(16, 16)];
            Place(true, Some(24), 32, None, places) == Insert(16) && !Clear(Shifted(places, 16), 40, 16)
  {
    var a, b := [PlaceHolder(16, 24)], [PlaceHolder(16, 16)];
    assert !IsSlotInPlaceholderData(a, 16) && Overlaps(a[0], 32, 16);
    assert b[0].dataOffset <= 16 && Overlaps(Shifted(b, 16)[0], 40, 16);
  }

  /** A kernel with a static stub is launched under its own handle, whatever instrumentation would return. */
  lemma StaticStubKeepsHandle(handle: nat, args: Option<seq<byte>>, size: nat, places: seq<PlaceHolder>, env: Env)
    requires args.Some? ==> |args.value| == size
    requires env.known.Some? ==> env.known.value.handle == handle
    ensures var r := LaunchResult(handle, args, size, places, env);
            r.Launched? && env.known.Some? && HasStaticStub(env.known.value) ==> r.handle == handle
    ensures var r := LaunchResult(handle, args, size, places, env);
            r.Launched? && r.handle != handle ==>
              Hijacked(args, size, env) && env.instrumented.Some? && r.handle == env.instrumented.value.handle
  {
    hide HasStaticStub, Fill, Static;
  }

  /**
   * When a launch is undefined: a wrapped offset of the parameter table was taken for a slot, or an
   * address slot, with the overflow address behind it, sticks out of the padded arguments.
   */
  lemma UndefinedIff(target: Func, argsSize: nat, env: Env, places: seq<PlaceHolder>)
    requires argsSize < U32
    ensures OutOfBounds(target, argsSize, env, places) <==>
              match PlaceOf(target, argsSize, env, places)
              case Overwrite(_) => DeclaredSize(target).Some? && DeclaredSize(target).value < PTR
              case Insert(_) => false
              case Append =>
                && (exists i :: 0 <= i < |places|
                                && places[i].addrOffset + Reach(env.overflowStatus) > Aligned(argsSize))
                && (LastAddr(places) + Reach(env.overflowStatus) < U32
                    || LastAddr(places) + Reach(env.overflowStatus) - U32 > Aligned(argsSize))
  {
    hide Static, DeclaredSize, Place, Aligned, AppendOffset, LastAddr;
    match PlaceOf(target, argsSize, env, places)
    case Overwrite(_) =>
      OverwriteOnlyStatic(Static(target), DeclaredSize(target), argsSize, env.last, places);
      OverwriteInBoundsIff(DeclaredSize(target).value, argsSize, env.last, places);
    case Insert(_) =>
      InsertInside(Static(target), DeclaredSize(target), argsSize, env.last, places);
      assert Aligned(argsSize) >= argsSize;
    case Append =>
      AppendInBoundsIff(places, argsSize, env.overflowStatus);
  }

  lemma OverwriteOnlyStatic(isStatic: bool, k: Option<u32>, argsSize: nat, last: Option<ParamInfo>,
                            places: seq<PlaceHolder>)
    ensures Place(isStatic, k, argsSize, last, places).Overwrite? ==> isStatic && k.Some?
  {
  }

  /** A slot that ends with the arguments makes a launch undefined if the kernel also has an overflow address. */
  lemma LaunchCanBeUndefined(args: seq<byte>)
    requires |args| == 32
    ensures var env := Env(true, Some(Func(7, false, [])), false, false, false, None, None, 1, true, true);
            LaunchResult(7, Some(args), 32, [PlaceHolder(24, 31)], env) == Undefined
  {
    var places := [PlaceHolder(24, 31)];
    var f := Func(7, false, []);
    assert LastAddr(places) == 24;
    assert !Static(f) && AppendOffset(32, places, true) == 40;
    assert args[..32] == args;
  }

  /** The last 8 declared bytes are a whole slot of the arguments. */
  predicate Usable(k: Option<u32>, argsSize: nat) {
    k.Some? && PTR <= k.value <= argsSize && k.value % PTR == 0
  }

  /** A static kernel with a usable declared size finds the pointer in its last 8 declared bytes. */
  lemma StaticRecordWhereRead(target: Func, argsSize: nat, env: Env, places: seq<PlaceHolder>)
    ensures Static(target) && Usable(DeclaredSize(target), argsSize) ==>
              && RecordOffset(target, argsSize, env, places) == DeclaredSize(target).value - PTR
              && !OutOfBounds(target, argsSize, env, places)
  {
    hide Static, DeclaredSize, Place, Aligned;
    if Static(target) && Usable(DeclaredSize(target), argsSize) {
      DeclaredSlotIsUsed(DeclaredSize(target).value, argsSize, env.last, places);
      assert Aligned(argsSize) >= argsSize;
    }
  }

  /** An instrumented kernel without a static stub reads the pointer at the offset that the tool was told. */
  lemma TunedRecordWhereRead(target: Func, args: seq<byte>, places: seq<PlaceHolder>, env: Env)
    requires !Static(target) && Fill(target, args, places, env).Committed?
    ensures |args| <= MAX_ALL_PARAM_SIZE
    ensures HoldsRecord(Fill(target, args, places, env).args, AppendOffset(|args|, places, env.overflowStatus), env)
  {
    hide Static, AppendOffset, Record, HoldsRecord, Fill;
    FillOutcome(target, args, places, env);
  }

  /** Filling in the record pointer spares the data of placeholder i. */
  predicate Spares(target: Func, argsSize: nat, env: Env, places: seq<PlaceHolder>, i: nat)
    requires i < |places|
  {
    match PlaceOf(target, argsSize, env, places)
    case Overwrite(offset) => offset + PTR <= places[i].dataOffset
    case Insert(at) => exists j :: 0 <= j < |places| && places[j].dataOffset == at
    case Append => AppendOffset(argsSize, places, env.overflowStatus) <= places[i].dataOffset
  }

  /** The placeholder then keeps its address slot, and its new data offset designates its old data. */
  lemma SparedDataIsDesignated(target: Func, args: seq<byte>, places: seq<PlaceHolder>, env: Env, i: nat, p: nat)
    requires Fill(target, args, places, env).Committed? && i < |places|
    requires Spares(target, |args|, env, places, i)
    requires places[i].dataOffset <= p && InData(places, |args|, i, p)
    ensures var f := Fill(target, args, places, env);
            && |f.places| == |places| && f.places[i].addrOffset == places[i].addrOffset
            && f.places[i].dataOffset + (p - places[i].dataOffset) < |f.args|
            && f.args[f.places[i].dataOffset + (p - places[i].dataOffset)] == args[p]
  {
    hide Place, Static, DeclaredSize, AppendOffset, Aligned, Inserted, Splits, InData, KeepsData, HoldsRecord, Moved;
    FillOutcome(target, args, places, env);
    var f := Fill(target, args, places, env);
    InDataBounds(places, |args|, i, p);
    match PlaceOf(target, |args|, env, places)
    case Overwrite(offset) =>
      assert f.args[p] == args[p];
    case Insert(at) =>
      InsertInside(Static(target), DeclaredSize(target), |args|, env.last, places);
      NotSplit(places, |args|, at, i);
      InsertKeepsDataIff(places, |args|, at, i);
      KeepsDataAt(places, f.places, |args|, at, i, p);
      assert f.args[Moved(p, at)] == args[p];
    case Append =>
      AppendKeepsDataIff(places, |args|, f.offset, i);
      KeepsDataAt(places, f.places, |args|, f.offset, i, p);
      assert f.args[Moved(p, f.offset)] == args[p];
  }

  lemma InDataBounds(places: seq<PlaceHolder>, size: nat, i: nat, p: nat)
    requires i < |places| && InData(places, size, i, p)
    ensures places[i].dataOffset <= p < size
  {
  }

  lemma NotSplit(places: seq<PlaceHolder>, size: nat, at: nat, i: nat)
    requires i < |places| && at < size && exists j :: 0 <= j < |places| && places[j].dataOffset == at
    ensures !Splits(places, size, at, i)
  {
    NothingSplitIff(places, size, at);
  }

  lemma KeepsDataAt(places: seq<PlaceHolder>, places': seq<PlaceHolder>, size: nat, offset: nat, i: nat, p: nat)
    requires i < |places| == |places'| && KeepsData(places, places', size, offset, i)
    requires places[i].dataOffset <= p && InData(places, size, i, p)
    ensures Moved(p, offset) == places'[i].dataOffset + (p - places[i].dataOffset)
  {
  }
}
