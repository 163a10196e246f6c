# Verified model of the injection library's transport, parsing and launch logic

This project models the parts of the runtime injection library in which state, interleavings and
byte arithmetic meet, and proves what they guarantee. `dafny verify dfyconfig.toml` checks it.

| file | what it models |
|---|---|
| `Transport.dfy` | the device packet transport as a step relation: threads, the weak compare-exchange loop behind the order ids, one send mutex per connection, partial writes, descriptors attached to bytes |
| `LocalProcess.dfy` | the same calls as the code of one thread: numbering, the two write loops, the file-descriptor path with its fallback, and the waiting loop |
| `Packets.dfy`, `Bytes.dfy`, `Scripts.dfy`, `Seqs.dfy` | packet headers, little-endian integers, results of successive writes, small sequence facts |
| `Pipes.dfy` | any number of concurrent `PipeCall`s over one descriptor table, one global list and one mutex, with forked children and descriptor-number reuse |
| `PipeProcess.dfy` | `Pipe::Create`, `Close`, `CloseAll`, the child branch and the read and write loops as imperative code |
| `Elf.dfy` | section headers of 64-bit ELF images: copying loader, in-place scanner, symbol-table locator, reader of same-named sections |
| `ArgsRaw.dfy` | the copied argument buffer of a kernel launch and the insertion of a pointer parameter |
| `HostArgsLaunch.dfy` | where the sanitizer's record pointer goes and the commit, roll-back or abort decision around a launch |
| `MSBit.dfy` | the control file of the instrumentation tool: name interning, writer, and a decoder as its specification |
| `Paths.dfy` | path parser, printer, join and the in-place `..` resolver |
| `Layers.dfy` | duplicate suppression for nested hijacked calls |
| `Camodel.dfy` | the log queue of the cycle-accurate model: producers, one consumer, `SendSync` |

Concurrent code is a total step function over schedules: an event that is not enabled changes nothing,
so a statement about all schedules is a statement about all interleavings. Code that updates fields or
buffers is also written as class methods or loops and proved against the same functions. That a forked
child sends nothing (`Transport.ForkedChildIsSilent`) holds by the placement of the owner check and is a
remark rather than a result.

## Assumptions

- `write` of a non-empty buffer returns a positive count or fails; the 24-byte `sendmsg` header goes out
  whole or not at all. A relaxed load or a failed exchange may return any value that the counter has held.
- Descriptors 0 to 2 are open before the first `PipeCall`, and code outside it closes only what it opened.
- An ELF image is shorter than 2^63 bytes.
- The four bytes that are copied behind the name text of the control file are arbitrary.
- The launch is sanitizer-only (no operator profiling), and a function context's cached answer about the
  static stub is the one that its binary gives. Addresses returned by `__sanitizer_init` fit 64 bits.
- The runtime stores the address of a placeholder's data, little-endian, into its 8-byte address slot, and not
  where that slot would leave the arguments.
- The layer stack is one thread's; other threads may add device ids to the shared set at any time.

## Where code and documentation, or code and expectation, part

- `SendBytes` says that a partial send returns the bytes sent (csrc/core/LocalProcess.cpp:176). The socket
  client below turns any failure into -1, so the caller sees 0 although a torn packet may be on the wire.
  `Transport.QuietWire` states exactly when the wire is clean, `Transport.UntilError` that it is up to the
  first failing write, and `Transport.TornWire` what it carries after one.
- The control file's structure comment separates names by 0 (csrc/kernel_injection/MSBit.cpp:39); the code
  writes byte 12. The model follows the code.
- Printing a parsed path is not idempotent: `"a /"` prints as `"a "`, which prints as `"a"`
  (`Paths.PrintNotIdempotent`; the exact condition is `Paths.PrintIdempotentIff`).
- Inserting the record pointer at the declared slot splits placeholder data that starts before the slot and
  reaches into it, even if everything is 8-aligned (`HostArgsLaunch.InsertCanSplitData`; all data survives
  iff some data starts right at the slot, `HostArgsLaunch.InsertKeepsAllDataIff`).
- The overwritten slot is free of placeholder data iff no data starts inside its last seven bytes
  (`HostArgsLaunch.OverwriteSparesDataIff`, with an unaligned counterexample).
- `aclrtMallocAlign32Impl` holds a layer guard but is not in the masking map, so it and a nested `rtMalloc`
  are both reported (`Layers.UnmappedPairReportsTwice`).
- Expanding the arguments again without a clone inserts the new pointer into zeros: the vector is cleared
  before it is read (`ArgsRaw.ExpandAgain`). With arguments in device memory a failing allocation or copy
  reports failure after size and placeholders have changed (`ArgsRaw.ArgsRawContext.InsertParam`).
- Appending the record pointer behind the last address slot moves every data offset, so data in front of that
  slot is not designated any more (`ArgsRaw.AppendCanMisplaceData`; exactly then, `ArgsRaw.AppendKeepsDataIff`).
- Appending does not compare its insertion point with the end of the vector. With an overflow status address,
  32 bytes of arguments and an address slot at 24 make the launch undefined
  (`HostArgsLaunch.LaunchCanBeUndefined`; exactly when, `HostArgsLaunch.UndefinedIff`).
- A static stub is meant to abort when its record pointer cannot be supplied. If hijacking stops before that
  (no host arguments, a size whose low 32 bits are 0, or an AI CPU binary), it is launched without one
  (`HostArgsLaunch.StaticCanBeUnarmed`; exactly then, `HostArgsLaunch.StaticUnarmedIff`).
- The copied arguments keep 32 bits of their size, so from 4 GiB on only their low part is launched
  (`HostArgsLaunch.ArgumentsCanBeCut`; unchanged iff below 4 GiB, `HostArgsLaunch.LaunchIsSafe`).
- The declared slot may be an address slot of a placeholder, into which the runtime stores later
  (`HostArgsLaunch.RecordCanBeStoredOver`; the pointer survives exactly when none overlaps,
  `HostArgsLaunch.RecordSurvivesIff`).
- A parameter table offset that wraps around 2^64 is taken for a slot, outside the arguments, when the declared
  size is below 8 (`HostArgsLaunch.OverwriteCanLeaveArguments`; only then, `HostArgsLaunch.OverwriteInBoundsIff`).
- Destroying the log queue's owner loses messages (`Camodel.ShutDownLoses`): all that were enqueued before are
  sent iff at most one is queued with the consumer at its lock or in its wait, or none is
  (`Camodel.ShutDownSendsAllIff`, for every schedule of the other threads).
- It can also leave a `SendSync` asleep for good (`Camodel.ShutDownStrands`): no schedule does so iff nothing is
  queued and nobody is unnotified past the consumer's next notification (`Camodel.NeverStrandsIff`).

## Model

| member | source | states |
|---|---|---|
| Transport.StepInv | csrc/core/LocalProcess.cpp:146-227 | every step of every thread keeps the protocol invariant: a connection's bytes are the written parts of its packets in order, ids grow along it, only the mutex holder's newest packet is open, and issued ids match packets one to one |
| Transport.RunInv | csrc/core/LocalProcess.cpp:146-227 | the invariant holds in every reachable state of every interleaving |
| Transport.QuietWire | csrc/core/LocalProcess.cpp:146-183 | while nobody sends on a connection, its bytes are whole packets one after the other if and only if no send died half-way; order ids strictly increase along the connection; a packet counts as sent exactly when all its bytes are there |
| Transport.UntilError | csrc/core/LocalProcess.cpp:146-227 | along any run without a transport error of a connection all its packets but the one going out are complete, and whenever nobody sends its bytes are whole packets; a packet was given up iff there was an error |
| Transport.ErrorsAreFailures | csrc/core/LocalProcess.cpp:170-183 | along any run every failing write of a connection gives up exactly one of its packets, and nothing else does |
| Transport.TornWire | csrc/core/LocalProcess.cpp:170-183 | after errors the bytes still begin with the whole packets before the first one given up and the written part of that one |
| Transport.BusyWire | csrc/core/LocalProcess.cpp:170-183 | at any other moment the bytes are whole packets followed by the written part of the newest packet |
| Transport.WholeIffNonePartial | csrc/core/LocalProcess.cpp:170-183 | for any history, the bytes written equal the concatenation of the completely written packets iff no packet was written in part |
| Transport.PacketContents | csrc/core/LocalProcess.cpp:155-203 | a packet on the wire is the caller's message except for bytes 8 to 15, which read back as its order id; a kernel binary is a header of type 2, reserved 0, id and length, with the binary as the contents of the descriptor on its first byte or as the bytes behind it |
| Transport.CounterRefinement | csrc/core/LocalProcess.cpp:87-97 | each step of the compare-exchange loop is one atomic reservation of a saturating counter, or leaves the counter alone |
| Transport.ReturnsFrom | csrc/core/LocalProcess.cpp:87-97 | from any reachable state the k-th value returned is the k-th value of the counter, then 0 for ever |
| Transport.ReserveIsAtomic | csrc/core/LocalProcess.cpp:87-97 | over whole runs the ids handed out are 1, 2, 3, ... without gap or repetition, the largest 64-bit value is never issued, and exhaustion is permanent |
| Transport.IdsAndPacketsMatch | csrc/core/LocalProcess.h:64-86 | across all connections no two packets share an id, and every issued id has its packet |
| Transport.OneIdPerCall | csrc/core/LocalProcess.cpp:185-227 | over any run a thread has reserved as often as it has taken a send mutex, up to a reservation still in progress, whichever way its packets travelled |
| Transport.CallCompletes | csrc/core/LocalProcess.cpp:146-227 | from any state with an idle thread and a free mutex the thread alone can carry a call through, by bytes or by descriptor: the next id, the whole packet on the wire, the mutex given back |
| Transport.ErrorReleases | csrc/core/LocalProcess.cpp:170-183 | a failing write gives up the packet as it stands and gives the mutex back |
| Transport.ExhaustedReleases | csrc/core/LocalProcess.cpp:154-160 | with the counter exhausted a call returns 0 from the reservation, sends nothing and gives the mutex back |
| Transport.ShortNotSent | csrc/core/LocalProcess.cpp:151-153 | a message of less than 16 bytes is turned away before the mutex |
| Packets.PatchedOnlyOrderId | csrc/core/LocalProcess.cpp:155-162 | renumbering keeps length and every byte outside the order id field, and the field reads back as the id |
| Packets.BinaryHeadOrderId | csrc/core/LocalProcess.cpp:202-203 | the kernel binary header reads as type 2, reserved 0, the id and the length of the binary |
| Bytes.FromLeLe | csrc/utils/Serialize.h:31-72 | deserializing a serialized unsigned integer that fits gives it back |
| LocalProcess.DeviceConnection.ClientWrite | csrc/core/DomainSocket.cpp:313-345 | succeeds iff the socket takes the whole message; the wire gains exactly what it takes before the first failure |
| LocalProcess.DeviceConnection.SendBytes | csrc/core/LocalProcess.cpp:170-183 | returns the whole length iff the socket takes it all, and 0 otherwise, although the wire has gained what was taken |
| LocalProcess.DeviceConnection.ReserveOrderId | csrc/core/LocalProcess.cpp:87-97 | one reservation of the saturating counter after any number of spurious failures |
| LocalProcess.DeviceConnection.Notify | csrc/core/LocalProcess.cpp:146-168 | case by case: a foreign process, a message below 16 bytes or an exhausted counter change nothing and return -1; otherwise one id is consumed and the wire gains what the socket takes of the renumbered message |
| LocalProcess.DeviceConnection.NotifyKernelBinary | csrc/core/LocalProcess.cpp:185-227 | one id is consumed; header with the binary attached iff the memory file, its filling and sendmsg all succeed, otherwise what the socket takes of header and binary under the same id |
| LocalProcess.WriteAllToFd | csrc/core/LocalProcess.cpp:57-67 | the file holds exactly what the writes take, and success means all of the data |
| LocalProcess.BurstShape | csrc/core/LocalProcess.cpp:235-242 | the reads that make up one answer are all full except possibly the last, and end at a short read, at silence or at the end |
| LocalProcess.Wait | csrc/core/LocalProcess.cpp:229-252 | returns exactly the concatenation of the first burst, or nothing if the stream is silent for longer than the timeout; with a positive timeout it ends after at most timeOut + 1 empty reads; it blocks for ever iff there is no timeout and never any data |
| Pipes.StepInv | csrc/utils/PipeCall.cpp:60-95 | every step of every call, writer thread, child or unrelated thread keeps descriptor numbers, end slots and the global list in one-to-one correspondence |
| Pipes.RunInv | csrc/utils/PipeCall.cpp:156-211 | the correspondence holds in every reachable state, with the list seen as it will be at the next release |
| Pipes.ListIsOpenPipes | csrc/utils/PipeCall.cpp:100-120 | whenever the mutex is free, the global list is without duplicates and is exactly the set of open pipe descriptors |
| Pipes.ExecHoldsOwnEndsOnly | csrc/utils/PipeCall.cpp:177-191 | a child that reaches execvp has its own stdin read end on 0, its own stdout write end on 1 and 2, and no other pipe descriptor |
| Pipes.WriteEndsGoAway | csrc/utils/PipeCall.cpp:101-119 | once all children have reached execvp, no child holds any stdin write end or another call's stdout write end, and the parent holds one only while the owning call has not closed it |
| Pipes.ClosedExactlyOnce | csrc/utils/PipeCall.cpp:37-83 | every close hits the end it was meant for although numbers are reused; no end is closed twice; a call that returned, on any path, has closed every end it created |
| Pipes.FindNeverMisses | csrc/utils/PipeCall.cpp:75-83 | when a descriptor is about to be erased from the global list, it is there |
| Pipes.CallRunsThrough | csrc/utils/PipeCall.cpp:156-211 | a call on its own can go from its first pipe to its last destructor: its child reaches execvp, and descriptors and list are then as before |
| Pipes.FailedForkRunsThrough | csrc/utils/PipeCall.cpp:175-176 | so can one whose fork fails |
| Pipes.FailedPipeRunsThrough | csrc/utils/PipeCall.cpp:162-166 | and one whose second pipe fails |
| PipeProcess.EraseAtFind | csrc/utils/PipeCall.cpp:80-81 | erasing at the found position removes the first occurrence |
| PipeProcess.Process.Create | csrc/utils/PipeCall.cpp:60-70 | success adds two descriptors to table and list; failure changes nothing and leaves both ends at -1 |
| PipeProcess.Process.Close | csrc/utils/PipeCall.cpp:75-83 | removes the descriptor from the table and from the list and sets the caller's variable to -1 |
| PipeProcess.Process.CloseAll | csrc/utils/PipeCall.cpp:88-95 | closes exactly the listed descriptors and empties the list |
| PipeProcess.Process.ChildUntilExec | csrc/utils/PipeCall.cpp:177-188 | redirecting, closing the own ends and closing the rest gives the table that the protocol attributes to the child |
| PipeProcess.ForkedChildReady | csrc/utils/PipeCall.cpp:168-188 | in every reachable state a forked child meets what that code needs: four distinct own ends, all open and listed |
| PipeProcess.WriteAll | csrc/utils/PipeCall.cpp:127-136 | the child receives exactly what the writes take until the first that takes nothing |
| PipeProcess.WriteDelivers | csrc/utils/PipeCall.cpp:127-136 | which is the whole input if no write fails |
| PipeProcess.ReadAll | csrc/utils/PipeCall.cpp:138-147 | the output grows by every chunk up to the first empty or failed read |
| Elf.ReadBytes | csrc/utils/ElfLoader.h:139-169 | a read succeeds iff the range lies in the buffer, and yields that range |
| Elf.ReadSectionHeaders | csrc/utils/ElfLoader.cpp:102-117 | succeeds iff the whole section table lies in the buffer at its unwrapped place, and then decodes every header from there, although offsets are computed modulo 2^64 |
| Elf.SafetyGivenTable | csrc/utils/ElfLoader.cpp:63-77 | for a table that lies in the buffer the safety check reduces to three size fields; its wrapping sum never rejects and adds nothing |
| Elf.EhdrFields | csrc/utils/ElfLoader.cpp:31-77 | the fields read out of an ELF header are those laid out in it in the order of the System V ABI |
| Elf.ShdrFields | csrc/utils/ElfLoader.cpp:136-152 | and those read out of a section header likewise |
| Elf.ParsableIff | csrc/utils/ElfLoader.cpp:31-145 | table and name table are readable iff magic, class, byte order and entry size are right, the table lies inside, three sizes do not exceed the image's, and the name table lies inside and ends in NUL |
| Elf.NamedUpToStops | csrc/utils/ElfLoader.cpp:146-156 | the entries inserted are those before the first name offset outside the table |
| Elf.LoadableIff | csrc/utils/ElfLoader.cpp:213-263 | an image is accepted iff moreover every name starts inside the name table |
| Elf.CStrStopsInside | csrc/utils/ElfLoader.cpp:142-151 | in a NUL-terminated name table every name stops inside the table at its first NUL |
| Elf.MapsKeepLastAndAll | csrc/utils/ElfLoader.cpp:146-156 | inserting entries keeps the last header of each name in the map and appends all of them in table order to the multimap |
| Elf.BuildSectionMap | csrc/utils/ElfLoader.cpp:127-158 | accepts iff table and name table are readable and every name offset is inside; the maps are the old ones with all inserted entries, also when a later name fails |
| Elf.InsertNames | csrc/utils/ElfLoader.cpp:146-156 | the insertion loop stops at the first name offset outside the table |
| Elf.ElfLoader.FromBuffer | csrc/utils/ElfLoader.cpp:213-233 | accepts exactly the loadable images and adds their entries to the loader's maps |
| Elf.ScanSectionHeaders | csrc/utils/ElfLoader.cpp:235-263 | accepts exactly the loadable images and returns fresh maps of their entries |
| Elf.ScannerRefinesLoader | csrc/utils/ElfLoader.cpp:213-263 | on every byte string scanner and fresh loader give the same answer and equal maps; the map holds the last section of each name, the multimap all of them in table order |
| Elf.LocateKernelSymtab | csrc/utils/ElfLoader.cpp:265-325 | succeeds iff the first symbol table and its linked string table exist and lie in the buffer; returns them, both ending inside it, and the least index named .text |
| Elf.HasSymtabIff | csrc/utils/ElfLoader.cpp:297-323 | that is: the first section of type 2 and the section it links to end inside the image |
| Elf.Locate | csrc/utils/ElfLoader.cpp:297-309 | one pass finds the first SHT_SYMTAB and the first .text |
| Elf.TextAgreesWithScanner | csrc/utils/ElfLoader.cpp:265-325 | if the scanner accepts too and .text is unique, the header at the located index is the map's .text entry |
| Elf.ReadAllRawData | csrc/utils/ElfLoader.h:180-200 | fails with empty output iff the name is absent or some range leaves the buffer; otherwise returns the concatenation in order |
| Elf.LoadAndReadAll | csrc/utils/ElfLoader.cpp:200-206 | on a loaded image this is all sections of the name in section-table order |
| Elf.ContentsConcat | csrc/utils/ElfLoader.h:189-198 | the contents of one list of sections behind another are the contents one behind the other |
| Elf.ContentsAt | csrc/utils/ElfLoader.h:189-198 | the bytes of a section stand behind those of all sections before it, and nothing else is there |
| Paths.Parse | csrc/utils/Path.cpp:38-63 | the two-index loop computes the non-empty, non-"." components of the stripped text |
| Paths.RoundTripIff | csrc/utils/Path.cpp:38-77 | parsing a printed path gives it back iff its components are non-empty, slash-free and not "." and no end of the text is a space |
| Paths.PrintIdempotentIff | csrc/utils/Path.cpp:38-77 | for every text, printing the parsed path is idempotent iff the last component that the stripped text keeps does not end in a space and, in a relative text, the first one does not start with one |
| Paths.KeptEnds | csrc/utils/Path.cpp:49-62 | two scans of the text find where the first kept component starts and the last one ends |
| Paths.PrintNotIdempotent | csrc/utils/Path.cpp:40-40 | a text on which it is not |
| Paths.SplitJoin | csrc/utils/Path.cpp:49-75 | splitting a joined list of components gives the list back |
| Paths.Slash | csrc/utils/Path.cpp:141-151 | an absolute right operand replaces the left one; otherwise its components are appended |
| Paths.SlashAssociative | csrc/utils/Path.cpp:141-151 | joining is associative |
| Paths.JoinIsTextualIff | csrc/utils/Path.cpp:141-151 | for all two paths, joining them is what parsing their texts with a separator between them gives (the right one alone if it is absolute), iff their components are proper and the outer ends of what is written are not spaces |
| Paths.ResolveInPlace | csrc/utils/Path.cpp:122-132 | the two-pointer loop leaves in the first part of the array the stack reduction of its old components; slow never passes fast |
| Paths.Resolve | csrc/utils/Path.cpp:105-134 | resolving is joining to the working directory and reducing |
| Paths.ResolveLaws | csrc/utils/Path.cpp:120-134 | a reduced list has no "..", reducing it again changes nothing, and a prefix may be reduced first |
| Paths.ParentLaws | csrc/utils/Path.cpp:125-132 | ".." takes back the component before it, does nothing at the root, and a list without it stays as it is |
| Paths.ResolvedParents | csrc/utils/Path.cpp:120-134 | the same for resolving whole paths, whatever the working directory |
| Paths.ResolvedIdempotent | csrc/utils/Path.cpp:120-134 | resolving an absolute path twice is resolving it once, whatever the working directories |
| Paths.ResolvedJoin | csrc/utils/Path.cpp:120-151 | resolving a joined path may resolve the left part first |
| MSBit.InjectBindHelper.Reset | csrc/kernel_injection/MSBit.cpp:79-84 | forgets all bindings, names and the core type |
| MSBit.InjectBindHelper.Init | csrc/kernel_injection/MSBit.cpp:86-92 | the core type changes to the one the architecture name asks for, if it asks for one |
| MSBit.ArchitectureSelects | csrc/kernel_injection/MSBit.cpp:86-103 | with "-vec" in the architecture name exactly the mixed and vector bindings are accepted, with "-cube" and no "-vec" the mixed and cube ones, with neither or no name all of them |
| MSBit.ForCoresConcat | csrc/kernel_injection/MSBit.cpp:94-115 | binding by binding and in order |
| MSBit.InjectBindHelper.Bind | csrc/kernel_injection/MSBit.cpp:94-115 | a binding is accepted iff one side is mixed or both core types agree; names stay interned in the order of first use and records keep pointing at their names |
| MSBit.InjectBindHelper.Serialize | csrc/kernel_injection/MSBit.cpp:117-139 | the stream loop writes the file that the decoder below is about |
| MSBit.DecodeInfosOfBytes | csrc/kernel_injection/MSBit.cpp:68-72 | records whose masks fit 16-bit counts are read back from their bytes |
| MSBit.InfoLayout | csrc/kernel_injection/MSBit.cpp:53-72 | a record is instruction id, function id, mask count and masks, two bytes each |
| MSBit.NamesLayout | csrc/kernel_injection/MSBit.cpp:34-35 | names are joined by byte 12 |
| MSBit.FileLayout | csrc/kernel_injection/MSBit.cpp:36-50 | the file is 12 bytes of header with the split at 6, the records, a 4-byte size that counts itself, the names and the four trailing bytes |
| MSBit.SplitJoin | csrc/kernel_injection/MSBit.cpp:125-125 | separator-free names survive joining and cutting |
| MSBit.JoinSplit | csrc/kernel_injection/MSBit.cpp:125-125 | cutting any text and joining the pieces gives the text back |
| MSBit.HeaderFields | csrc/kernel_injection/MSBit.cpp:123-137 | the header's size field counts the whole file, its version and reserved fields are 0 |
| MSBit.DecodeWritten | csrc/kernel_injection/MSBit.cpp:123-130 | with an exact split the decoder reads the written records and the name text up to its 32-bit size, whatever four bytes follow it |
| MSBit.ResolvedNames | csrc/kernel_injection/MSBit.cpp:105-108 | a name list that resolves the records to the bindings begins with the interned names, so no truncated list can |
| MSBit.RoundTripIff | csrc/kernel_injection/MSBit.cpp:63-139 | decoding the written file returns exactly the accepted triples in order if and only if the records take less than 65536 bytes, no name contains the separator and the name text fits 32 bits |
| MSBit.StoredFits | csrc/kernel_injection/MSBit.cpp:110-114 | bindings whose instruction ids fit 16 bits are stored unchanged, others with their low 16 bits |
| MSBit.Start | csrc/kernel_injection/MSBit.cpp:178-186 | the same for a whole run: reset, architecture, any sequence of bindings, write |
| Layers.HijackedLayerManager.Push | csrc/core/HijackedLayerManager.cpp:56-59 | the function becomes the innermost layer |
| Layers.HijackedLayerManager.Pop | csrc/core/HijackedLayerManager.cpp:61-66 | the innermost layer goes; nothing happens on an empty stack |
| Layers.HijackedLayerManager.ParentInCallStack | csrc/core/HijackedLayerManager.cpp:68-86 | true iff some active layer masks the function |
| Layers.HijackedLayerManager.InCallStack | csrc/core/HijackedLayerManager.cpp:88-91 | true iff the function is an active layer |
| Layers.Hijacker.IsDevIdUsed | csrc/bind/BindSanitizer.cpp:129-140 | answers whether the id was there and leaves it there |
| Layers.Hijacker.Enter | csrc/bind/BindSanitizer.cpp:144-151 | what an entry point pushes, asks and chooses before its body runs |
| Layers.Hijacker.Run | csrc/core/HijackedLayerManager.cpp:93-102 | for every tree of calls, starting stack and exception, the layer stack at every exit is the one at entry, and the choices made are those of the tree's trace |
| Layers.ReportedIffUnmasked | csrc/bind/BindSanitizer.cpp:153-205 | every event of a trace belongs to a node of the tree; a gated call is reported exactly when neither an ancestor in the tree nor the starting stack masks it (the used-device check aside) |
| Layers.EventsAreReached | csrc/core/HijackedLayerManager.cpp:93-102 | the choice between reporting and not is made at exactly the entry points that no exception before them keeps from being called |
| Layers.OriginMasks | csrc/acl_rt_impl/AscendclImplOrigin.cpp:23-28 | an Origin forwarder makes no choice itself but masks the calls below it as an entry point does |
| Layers.NamesakesMasked | csrc/core/HijackedLayerManager.cpp:34-50 | ten layers mask the runtime call whose name theirs contains |
| Layers.OthersMasked | csrc/core/HijackedLayerManager.cpp:35-51 | the other seven and what they mask |
| Layers.UnmappedGuards | csrc/bind/BindSanitizer.cpp:641-677 | guarded entry points that mask nothing |
| Layers.SilentBelow | csrc/bind/BindSanitizer.cpp:653-729 | below a guarded acl call no runtime call that it masks is reported, at any depth |
| Layers.ReportedOnce | csrc/bind/BindSanitizer.cpp:624-729 | over any tree below a guarded acl call, from any starting stack, the call and all the runtime calls it masks are reported exactly once together, or not at all if it sets a device already in use |
| Layers.PairReports | csrc/bind/BindSanitizer.cpp:144-205 | for an acl call directly above a runtime call, the set-device pair included, the second report appears iff the map and the stack do not mask it and it sets no device in use by then |
| Layers.UnmappedPairReportsTwice | csrc/bind/BindSanitizer.cpp:660-664 | the 32-byte-aligned allocation is such an unmapped pair |
| Layers.DeviceReportedOnce | csrc/bind/BindSanitizer.cpp:144-151 | over any tree of calls a device id is reported at most once by the two set-device entry points together, and exactly when this thread was the one to enter it into the shared set |
| Camodel.StepInv | csrc/camodel/CamodelHelper.cpp:19-41 | every step keeps: sent, in-flight and queued messages are the history; the consumer never sleeps on an empty queue past an unnotified SendSync |
| Camodel.RunInv | csrc/camodel/CamodelHelper.cpp:19-41 | these hold in every reachable state, for any number of producers and waiters |
| Camodel.Fifo | csrc/camodel/CamodelHelper.cpp:25-41 | what was sent is a prefix of what was enqueued, and nothing is lost or doubled |
| Camodel.EnqueueNotifies | csrc/camodel/CamodelHelper.cpp:19-23 | enqueueing appends the message and wakes every sleeper |
| Camodel.SyncReturnsSent | csrc/camodel/CamodelHelper.h:66-72 | when a SendSync returns, everything enqueued before is sent except at most the newest message, which the consumer holds |
| Camodel.SyncReturnsEarly | csrc/camodel/CamodelHelper.h:66-72 | that exception does occur |
| Camodel.Drains | csrc/camodel/CamodelHelper.cpp:25-41 | from every reachable listening state the consumer, left alone, sends everything and notifies every waiter within a computed number of steps |
| Camodel.AfterDone | csrc/camodel/CamodelHelper.h:79-84 | after the consumer left its loop nothing is sent any more and the queue only grows |
| Camodel.LostAfterDone | csrc/camodel/CamodelHelper.h:66-84 | what is queued when the consumer has left its loop is lost, and then no SendSync ever returns |
| Camodel.ShutDownSendsAllIff | csrc/camodel/CamodelHelper.h:79-84 | from every reachable listening state and for every schedule of all threads after the shutdown: once the consumer has stopped, everything enqueued before is sent iff the queue held no more than the one message a consumer at its lock or in its wait still takes; it never takes more |
| Camodel.ShutDownLoses | csrc/camodel/CamodelHelper.h:79-84 | a message enqueued just before the shutdown is lost |
| Camodel.StopsInFour | csrc/camodel/CamodelHelper.cpp:25-41 | after a shutdown the consumer, left alone, stops within four steps, with the same exact condition for having sent everything |
| Camodel.StrandsOnEmptyIff | csrc/camodel/CamodelHelper.h:66-84 | it then leaves an unnotified SendSync on an empty queue iff all was sent, one was unnotified at the shutdown, and the consumer was not about to notify |
| Camodel.NeverStrandsIff | csrc/camodel/CamodelHelper.h:66-84 | no schedule of the other threads without further messages, new SendSync calls included, leaves anyone stranded iff at the shutdown nothing was queued and nobody was unnotified past the next notification |
| Camodel.EnqueueStrands | csrc/camodel/CamodelHelper.h:66-84 | with a message enqueued after it, every shutdown has a schedule that strands a SendSync |
| Camodel.ShutDownStrands | csrc/camodel/CamodelHelper.h:66-84 | shutting down during the last send strands a SendSync that waits for it |
| Camodel.CamodelHelper.SendCaLog | csrc/camodel/CamodelHelper.cpp:19-23 | the message is enqueued last |
| Camodel.CamodelHelper.TakeTurn | csrc/camodel/CamodelHelper.cpp:28-39 | a turn of the loop sends the oldest message present by the end of its wait, if any |
| Camodel.CamodelHelper.PopMessage | csrc/camodel/CamodelHelper.cpp:25-41 | over any turns the loop sends old queue and arrivals in order, one message a turn that finds one, and leaves the rest queued |
| Camodel.SendsLaws | csrc/camodel/CamodelHelper.cpp:25-41 | with enough queued every turn sends one message, and without arrivals enough turns send everything |
| ArgsRaw.ArgsRawContext.GetLastParamOffset | csrc/runtime/inject_helpers/ArgsRawContext.cpp:121-138 | the offset at which ExpandArgs will put a parameter, or 0 for arguments above 1 GiB |
| ArgsRaw.ArgsRawContext.InsertParam | csrc/runtime/inject_helpers/ArgsRawContext.cpp:54-119 | for host, device and already expanded arguments: when it fails early or at the device, when its insertion point leaves the vector, and otherwise the new buffer and placeholders; an early failure leaves arguments that do not stand in the cleared vector alone |
| ArgsRaw.ExpandAgain | csrc/runtime/inject_helpers/ArgsRawContext.cpp:57-70 | expanding an expanded context leaves the new pointer among zeros |
| ArgsRaw.ArgsRawContext.Clone | csrc/runtime/inject_helpers/ArgsRawContext.cpp:174-185 | the clone holds the same arguments in its own buffers |
| ArgsRaw.ArgsRawContext.ExpandArgs | csrc/runtime/inject_helpers/ArgsRawContext.cpp:44-47 | on host memory, fails iff the arguments exceed 1 GiB; no kernel parameter moves, and without placeholders the pointer is the last 8 bytes |
| ArgsRaw.AppendKeepsParameters | csrc/runtime/inject_helpers/ArgsRawContext.cpp:85-97 | appending moves no byte in front of the end of an address slot, and none at all without placeholders |
| ArgsRaw.ArgsRawContext.ExpandArgsAt | csrc/runtime/inject_helpers/ArgsRawContext.cpp:49-52 | on host memory, fails iff the arguments exceed 1 GiB or the offset lies behind the padded buffer |
| ArgsRaw.InsertedBytes | csrc/runtime/inject_helpers/ArgsRawContext.cpp:100-101 | after an insertion the parameter stands at its offset and every old byte before or behind it |
| ArgsRaw.InsertKeepsDataIff | csrc/runtime/inject_helpers/ArgsRawContext.cpp:78-84 | after ExpandArgsAt a placeholder designates its old data iff the insertion does not fall inside that data |
| ArgsRaw.NothingSplitIff | csrc/runtime/inject_helpers/ArgsRawContext.cpp:78-84 | an insertion at or behind some data start splits nothing iff it happens right at a data start |
| ArgsRaw.AppendKeepsDataIff | csrc/runtime/inject_helpers/ArgsRawContext.cpp:93-97 | after ExpandArgs a placeholder designates its old data iff the data starts at or behind the insertion point, or outside the arguments |
| ArgsRaw.AppendedClearOfSlots | csrc/runtime/inject_helpers/ArgsRawContext.cpp:88-94 | no address slot that the runtime fills overlaps a pointer inserted by ExpandArgs (offsets not wrapping 32 bits) |
| ArgsRaw.ClearKeepsPointer | csrc/runtime/inject_helpers/ArgsRawContext.cpp:88-101 | storing the addresses of all placeholders' data leaves a pointer alone that shares no byte with an address slot |
| ArgsRaw.NotClearBreaks | csrc/runtime/inject_helpers/ArgsRawContext.cpp:88-101 | if one does, some address of the arguments makes those stores destroy it |
| ArgsRaw.AppendInBoundsIff | csrc/runtime/inject_helpers/ArgsRawContext.cpp:88-100 | its insertion point lies in the vector iff every address slot does, with the overflow address behind it, or the sum wrapped around 2^32 into it |
| ArgsRaw.AppendCanMisplaceData | csrc/runtime/inject_helpers/ArgsRawContext.cpp:95-97 | arguments whose data stands before the last address slot and is lost to its placeholder |
| HostArgsLaunch.DeclaredSlotIsUsed | csrc/acl_rt_impl/HijackedFuncOfAclrtLaunchKernelWithHostArgsImpl.cpp:95-119 | for a static stub whose declared size K is a multiple of 8 in [8, argsSize], exactly one of overwrite and insert is chosen, at K - 8, whatever the parameter table says |
| HostArgsLaunch.OtherSizesAppend | csrc/acl_rt_impl/HijackedFuncOfAclrtLaunchKernelWithHostArgsImpl.cpp:103-118 | for every other declared size only a table entry of 8 bytes that ends the declared area names a slot; otherwise the pointer is appended |
| HostArgsLaunch.StaticIff | csrc/runtime/inject_helpers/RegisterContext.cpp:299-304 | a kernel is static iff it is not for the AI CPU and its image is accepted and has the stub's section |
| HostArgsLaunch.DeclaredSizeIff | csrc/acl_rt_impl/HijackedFuncOfAclrtLaunchKernelWithHostArgsImpl.cpp:59-74 | the declared size is k iff the last section of its name has at least four bytes, the first four inside the image, and they are k in little-endian order |
| HostArgsLaunch.OverwriteInBoundsIff | csrc/acl_rt_impl/HijackedFuncOfAclrtLaunchKernelWithHostArgsImpl.cpp:103-111 | an overwritten slot holds no placeholder data and lies in the arguments iff the table's offset did not wrap around 2^64 |
| HostArgsLaunch.OverwriteCanLeaveArguments | csrc/acl_rt_impl/HijackedFuncOfAclrtLaunchKernelWithHostArgsImpl.cpp:103-111 | a parameter table offset for which the slot lies outside the arguments |
| HostArgsLaunch.OverwriteSparesDataIff | csrc/acl_rt_impl/HijackedFuncOfAclrtLaunchKernelWithHostArgsImpl.cpp:79-88 | overwriting touches no placeholder data iff no data starts inside the slot |
| HostArgsLaunch.AlignedOverwriteSparesData | csrc/acl_rt_impl/HijackedFuncOfAclrtLaunchKernelWithHostArgsImpl.cpp:79-119 | with 8-aligned data offsets it never does |
| HostArgsLaunch.UnalignedDataIsOverwritten | csrc/acl_rt_impl/HijackedFuncOfAclrtLaunchKernelWithHostArgsImpl.cpp:79-88 | an unaligned offset for which it does |
| HostArgsLaunch.InsertKeepsAllDataIff | csrc/acl_rt_impl/HijackedFuncOfAclrtLaunchKernelWithHostArgsImpl.cpp:225-242 | after an insertion all placeholders designate their data iff some data started right at the slot |
| HostArgsLaunch.InsertCanSplitData | csrc/acl_rt_impl/HijackedFuncOfAclrtLaunchKernelWithHostArgsImpl.cpp:225-242 | aligned arguments for which the insertion cuts data in two |
| HostArgsLaunch.Launch.InitParam | csrc/acl_rt_impl/HijackedFuncOfAclrtLaunchKernelWithHostArgsImpl.cpp:121-172 | when hijacking stops with the caller's own arguments, and otherwise the fresh copy, cut to 32 bits of size |
| HostArgsLaunch.Launch.HandlePreFailure | csrc/acl_rt_impl/HijackedFuncOfAclrtLaunchKernelWithHostArgsImpl.cpp:261-280 | a static stub aborts and keeps its handle; an instrumented kernel is rolled back to the original handle and context |
| HostArgsLaunch.Launch.FillRecord | csrc/acl_rt_impl/HijackedFuncOfAclrtLaunchKernelWithHostArgsImpl.cpp:282-317 | the record pointer is written in place or inserted; on failure arguments and placeholders are unchanged |
| HostArgsLaunch.Launch.SanitizerPre | csrc/acl_rt_impl/HijackedFuncOfAclrtLaunchKernelWithHostArgsImpl.cpp:185-323 | handle and context switch to the instrumented kernel only together with complete arguments; a kernel without a static stub then finds the record pointer at the offset given to the instrumentation tool |
| HostArgsLaunch.Launch.Call | csrc/acl_rt_impl/HijackedFuncOfAclrtLaunchKernelWithHostArgsImpl.cpp:432-451 | what the original function is called with, if it is called, on every path |
| HostArgsLaunch.FillOutcome | csrc/acl_rt_impl/HijackedFuncOfAclrtLaunchKernelWithHostArgsImpl.cpp:282-317 | filling gives up iff there is no record area or the arguments are too large to expand, is undefined iff the place lies outside them, and otherwise holds the pointer at its place and every other byte |
| HostArgsLaunch.LaunchIsSafe | csrc/acl_rt_impl/HijackedFuncOfAclrtLaunchKernelWithHostArgsImpl.cpp:121-451 | on every path: a launch whose hijacking stops goes on as the caller asked; otherwise what is launched is the original handle of a kernel without a static stub, with the caller's arguments cut to 32 bits of size (the same iff below 4 GiB), or the kernel that is to find the record pointer, which stands in otherwise unchanged arguments (appended, it moves no kernel parameter); a static stub without a pointer then aborts, and nothing else does |
| HostArgsLaunch.InstrumentedReplaces | csrc/acl_rt_impl/HijackedFuncOfAclrtLaunchKernelWithHostArgsImpl.cpp:211-216 | an instrumented kernel is launched in place of its original whenever there is a record area and the arguments can be expanded |
| HostArgsLaunch.StaticUnarmedIff | csrc/acl_rt_impl/HijackedFuncOfAclrtLaunchKernelWithHostArgsImpl.cpp:153-158 | a static stub is launched without its record pointer iff hijacking stops early: AI CPU binary, no host arguments, or a size whose low 32 bits are 0 |
| HostArgsLaunch.StaticLaunchedAsIs | csrc/acl_rt_impl/HijackedFuncOfAclrtLaunchKernelWithHostArgsImpl.cpp:392-396 | it then gets exactly what the caller passed |
| HostArgsLaunch.StaticCanBeUnarmed | csrc/acl_rt_impl/HijackedFuncOfAclrtLaunchKernelWithHostArgsImpl.cpp:392-396 | a concrete image with a static stub for which a launch without arguments does so |
| HostArgsLaunch.StaticImageIsStatic | csrc/runtime/inject_helpers/RegisterContext.cpp:299-304 | a 163-byte image that the scanner accepts and that has the static stub's section |
| HostArgsLaunch.ArgumentsCanBeCut | csrc/runtime/inject_helpers/ArgsManager.cpp:157-166 | arguments of 4 GiB and 8 bytes of which 8 are launched |
| HostArgsLaunch.RecordSurvivesIff | csrc/acl_rt_impl/HijackedFuncOfAclrtLaunchKernelWithHostArgsImpl.cpp:282-317 | whatever the device address of the arguments, the addresses that the runtime stores later leave the record pointer alone iff no address slot in the arguments shares a byte with it, for all three placements |
| HostArgsLaunch.AppendedSurvives | csrc/runtime/inject_helpers/ArgsRawContext.cpp:88-101 | an appended pointer is always left alone (offsets not wrapping 32 bits) |
| HostArgsLaunch.RecordCanBeStoredOver | csrc/acl_rt_impl/HijackedFuncOfAclrtLaunchKernelWithHostArgsImpl.cpp:95-119 | arguments for which the overwritten, and for which the inserted, slot is an address slot |
| HostArgsLaunch.StaticRecordWhereRead | csrc/acl_rt_impl/HijackedFuncOfAclrtLaunchKernelWithHostArgsImpl.cpp:228-242 | a static stub with a usable declared size finds the pointer in the last 8 declared bytes |
| HostArgsLaunch.TunedRecordWhereRead | csrc/acl_rt_impl/HijackedFuncOfAclrtLaunchKernelWithHostArgsImpl.cpp:205-207 | any other kernel finds it at the offset that was computed before instrumentation |
| HostArgsLaunch.SparedDataIsDesignated | csrc/acl_rt_impl/HijackedFuncOfAclrtLaunchKernelWithHostArgsImpl.cpp:288-317 | in what is launched, a placeholder spared by the chosen placement keeps its address slot and its new data offset reads its old data |
| HostArgsLaunch.UndefinedIff | csrc/acl_rt_impl/HijackedFuncOfAclrtLaunchKernelWithHostArgsImpl.cpp:282-317 | the place lies outside the arguments iff a wrapped table offset was taken for a slot below 8 declared bytes, or an address slot with the overflow address behind it sticks out of the padded arguments |
| HostArgsLaunch.LaunchCanBeUndefined | csrc/acl_rt_impl/HijackedFuncOfAclrtLaunchKernelWithHostArgsImpl.cpp:300-309 | 32 bytes of any content for which it does |
| HostArgsLaunch.StaticStubKeepsHandle | csrc/runtime/inject_helpers/DBITask.cpp:513-517 | on every path a kernel with a static stub is launched under its own handle, and a foreign handle is only ever the instrumented kernel of a hijacked launch |

## Left out

- Transport.QuietWire: the `sendmsg` header is assumed all-or-nothing, and a missing client object (which makes `NotifyKernelBinary` return after taking an id) is not modelled.
- LocalProcess.DeviceConnection.Notify: models device connections only; for other connections the source promises atomicity per system call, not per message, so no wire property is claimed.
- LocalProcess.Wait: reads are given as a finite list of results followed by silence; real time is not modelled.
- Pipes.ExecHoldsOwnEndsOnly: covers the child up to execvp; a failing execvp, waitpid statuses and the exit code of the command are not modelled.
- PipeProcess.Process.Close: requires the descriptor to be in the list, because erasing at the end of the vector would be undefined; `Pipes.FindNeverMisses` shows that it always is.
- Elf.ElfLoader.FromBuffer: a loader that already failed on another image keeps that image's header and buffer; only its maps are specified then.
- Paths.Resolve: the working directory is a parameter, an unreadable one is the empty text.
- MSBit.Start: path checks, file output and permissions are not modelled.
- Layers.Hijacker.Run: one thread; what the reporting paths record (allocation sizes, addresses) is not modelled, only whether they are taken.
- Camodel.NeverStrandsIff: covers schedules without further messages; with one, `Camodel.EnqueueStrands` shows that every shutdown can strand someone.
- Camodel.Drains: waiting is by steps, not by time; the enable flag is consulted by callers only and is not modelled.
- ArgsRaw.ArgsRawContext.InsertParam: the copy into the vector, whose result the source ignores, is taken to succeed; allocation and release of device buffers are not modelled.
- HostArgsLaunch.Launch.Call: operator profiling and its replays, SanitizerPost, memory reports and the result of the original function are not modelled; a null placeholder array is taken to come with a count of 0.
- HostArgsLaunch.LaunchIsSafe: an AI CPU function is not treated as a static stub, as in the source.
- The server side of the sockets, accept and listen loops and the in-memory transport: connection handling without the ordering properties above.
- Symbol loading, registration macros, other launch hijackers, simple memory, stream and device hijackers, platform tables and build scripts: foreign calls or near copies.
