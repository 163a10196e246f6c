/**
 * The control file of bisheng-tune: binding instructions to probe functions, interning the
 * function names, writing the file, and a decoder that reads the file as its structures say.
 */
module MSBit {
  import opened Bytes
  import opened Seqs

  type Name = seq<byte>
  type u16 = x: int | 0 <= x < 0x1_0000

  /** FUNC_NAME_SEP: form feed. (The comment on FuncNameList speaks of 0.) */
  const SEP: byte := 12
  const CTRL_SIZE: nat := 12
  const LIST_HEAD: nat := 4

  datatype Core = MIX | CUBE | VEC

  /** What a caller binds: instruction, function name, parameter mask. */
  datatype Triple = Triple(instr: nat, name: Name, mask: seq<u16>)

  datatype Info = Info(instrId: u16, funcId: u16, mask: seq<u16>)

  // ---------------------------------------------------------------- writing

  function MaskBytes(mask: seq<u16>): (r: seq<byte>)
    ensures |r| == 2 * |mask|
  {
    if mask == [] then [] else Le(mask[0], 2) + MaskBytes(mask[1..])
  }

  /** FuncInfo: paraNum is the mask length cut to 16 bits, and only that many masks follow. */
  function InfoBytes(info: Info): (r: seq<byte>)
    ensures |r| == 6 + 2 * (|info.mask| % U16)
  {
    var n := |info.mask| % U16;
    Le(info.instrId, 2) + Le(info.funcId, 2) + Le(n, 2) + MaskBytes(info.mask[..n])
  }

  function InfosBytes(infos: seq<Info>): (r: seq<byte>)
  {
    if infos == [] then [] else InfoBytes(infos[0]) + InfosBytes(infos[1..])
  }

  function Join(names: seq<Name>): (r: seq<byte>)
  {
    if names == [] then [] else if |names| == 1 then names[0] else names[0] + [SEP] + Join(names[1..])
  }

  /** Everything behind the file header; four bytes behind the name text are copied with it. */
  function Data(names: seq<Name>, infos: seq<Info>, trailing: seq<byte>): (r: seq<byte>)
    requires |trailing| == 4
  {
    var text := Join(names);
    var size := (|text| + LIST_HEAD) % U32;
    InfosBytes(infos) + Le(size, 4) + (text + trailing)[..size]
  }

  function File(names: seq<Name>, infos: seq<Info>, trailing: seq<byte>): (r: seq<byte>)
    requires |trailing| == 4
  {
    var data := Data(names, infos, trailing);
    Le((|data| + CTRL_SIZE) % U32, 4) + Le(0, 2) + Le(|InfosBytes(infos)| % U16, 2) + Le(0, 2) + Le(0, 2) + data
  }

  // ---------------------------------------------------------------- the decoder

  function Masks(bytes: seq<byte>): (r: seq<u16>)
    requires |bytes| % 2 == 0
    ensures 2 * |r| == |bytes|
  {
    if bytes == [] then [] else
    FromLeBound(bytes[..2]);
    Widths();
    [FromLe(bytes[..2])] + Masks(bytes[2..])
  }

  function DecodeInfos(bytes: seq<byte>): (r: Option<seq<Info>>)
    decreases |bytes|
  {
    if bytes == [] then Some([]) else
    if |bytes| < 6 then None else
    FromLeBound(bytes[0..2]);
    FromLeBound(bytes[2..4]);
    Widths();
    var n := FromLe(bytes[4..6]);
    if |bytes| < 6 + 2 * n then None else
    match DecodeInfos(bytes[6 + 2 * n..])
    case None => None
    case Some(rest) =>
      Some([Info(FromLe(bytes[0..2]), FromLe(bytes[2..4]), Masks(bytes[6..6 + 2 * n]))] + rest)
  }

  function Split(text: seq<byte>): (r: seq<Name>)
    ensures r != []
  {
    if text == [] then [[]]
    else
      var rest := Split(text[1..]);
      if text[0] == SEP then [[]] + rest else [[text[0]] + rest[0]] + rest[1..]
  }

  function Resolve(infos: seq<Info>, names: seq<Name>): (r: Option<seq<Triple>>)
  {
    if infos == [] then Some([]) else
    if infos[0].funcId >= |names| then None else
    match Resolve(infos[1..], names)
    case None => None
    case Some(rest) => Some([Triple(infos[0].instrId, names[infos[0].funcId], infos[0].mask)] + rest)
  }

  /** What lies behind the file header: FuncInfos up to the split, then FuncNameList, whose size counts itself. */
  function DecodeData(split: nat, data: seq<byte>): (r: Option<seq<Triple>>)
  {
    if |data| < split + LIST_HEAD then None else
    var size := FromLe(data[split..split + LIST_HEAD]);
    if size < LIST_HEAD || |data| < split + size then None else
    match DecodeInfos(data[..split])
    case None => None
    case Some(infos) => Resolve(infos, Split(data[split + LIST_HEAD..split + size]))
  }

  function Decode(file: seq<byte>): (r: Option<seq<Triple>>)
  {
    if |file| < CTRL_SIZE then None else DecodeData(FromLe(file[6..8]), file[CTRL_SIZE..])
  }

  // ---------------------------------------------------------------- binding

  predicate OccursAt(text: string, part: string, i: nat) {
    i + |part| <= |text| && text[i..i + |part|] == part
  }

  predicate Contains(text: string, part: string) {
    exists i: nat :: i <= |text| && OccursAt(text, part, i)
  }

  /** The core type after Reset and Init. */
  function CoreOf(archName: Option<string>): Core {
    if archName.None? then MIX
    else if Contains(archName.value, "-vec") then VEC
    else if Contains(archName.value, "-cube") then CUBE
    else MIX
  }

  predicate Accepts(core: Core, probe: Core) {
    core.MIX? || probe.MIX? || core == probe
  }

  /** The instruction id is stored in 16 bits. */
  function Stored(t: Triple): Triple {
    t.(instr := t.instr % U16)
  }

  function StoredAll(triples: seq<Triple>): (r: seq<Triple>)
    ensures |r| == |triples|
  {
    seq(|triples|, i requires 0 <= i < |triples| => Stored(triples[i]))
  }

  /** The names of the bindings in the order of their first use. */
  function FirstUses(triples: seq<Triple>): (r: seq<Name>)
    ensures |r| <= |triples|
  {
    if triples == [] then [] else
    var before, last := FirstUses(triples[..|triples| - 1]), triples[|triples| - 1].name;
    if last in before then before else before + [last]
  }

  class InjectBindHelper {
    var funcNames: seq<Name>
    var injectFuncIdMap: map<Name, u16>
    var injectInfo: seq<Info>
    var core: Core
    /** The accepted bindings since the last Reset. */
    ghost var accepted: seq<Triple>

    ghost predicate Valid()
      reads this
    {
      && Interned(funcNames, injectFuncIdMap)
      && Matches(injectInfo, accepted, funcNames)
      && funcNames == FirstUses(accepted)
    }

    constructor ()
      ensures Valid() && accepted == [] && core == MIX
    {
      funcNames, injectFuncIdMap, injectInfo, core := [], map[], [], MIX;
      accepted := [];
    }

    method Reset()
      modifies this
      ensures Valid() && accepted == [] && core == MIX
    {
      funcNames, injectFuncIdMap, injectInfo, core := [], map[], [], MIX;
      accepted := [];
    }

    method Init(archName: string)
      modifies this`core
      ensures core == if CoreOf(Some(archName)) == MIX then old(core) else CoreOf(Some(archName))
    {
      if Contains(archName, "-vec") {
        core := VEC;
      } else if Contains(archName, "-cube") {
        core := CUBE;
      }
    }

    method Bind(t: Triple, probe: Core)
      requires Valid()
      modifies this
      ensures Valid() && core == old(core)
      ensures accepted == old(accepted) + (if Accepts(core, probe) then [t] else [])
    {
      hide Interned, Matches, FirstUses;
      if !core.MIX? && !probe.MIX? {
        if core != probe {
          return;
        }
      }
      ghost var names := funcNames;
      InternedKeys(funcNames, injectFuncIdMap, t.name);
      FirstUsesSnoc(accepted, t);
      if t.name !in injectFuncIdMap {
        InternNew(funcNames, injectFuncIdMap, t.name);
        injectFuncIdMap := injectFuncIdMap[t.name := |funcNames| % U16];
        funcNames := funcNames + [t.name];
      }
      var info := Info(t.instr % U16, injectFuncIdMap[t.name], t.mask);
      InternedId(funcNames, injectFuncIdMap, t.name);
      MatchesSnoc(injectInfo, accepted, names, funcNames, info, t);
      injectInfo := injectInfo + [info];
      accepted := accepted + [t];
    }

    method Serialize(trailing: seq<byte>) returns (file: seq<byte>)
      requires |trailing| == 4
      ensures file == File(funcNames, injectInfo, trailing)
    {
      hide InfoBytes, Join, Le;
      var buffer: seq<byte> := [];
      for i := 0 to |injectInfo|
        invariant buffer + InfosBytes(injectInfo[i..]) == InfosBytes(injectInfo)
      {
        assert injectInfo[i..][1..] == injectInfo[i + 1..];
        buffer := buffer + InfoBytes(injectInfo[i]);
      }
      assert buffer == InfosBytes(injectInfo);
      var split := |buffer| % U16;
      var text := Join(funcNames);
      var size := (|text| + LIST_HEAD) % U32;
      buffer := buffer + Le(size, 4);
      buffer := buffer + (text + trailing)[..size];
      file := Le((|buffer| + CTRL_SIZE) % U32, 4) + Le(0, 2) + Le(split, 2) + Le(0, 2) + Le(0, 2) + buffer;
    }
  }

  ghost predicate Interned(names: seq<Name>, ids: map<Name, u16>) {
    && (forall i, j :: 0 <= i < j < |names| ==> names[i] != names[j])
    && (forall n :: n in ids <==> n in names)
    && (forall i :: 0 <= i < |names| ==> names[i] in ids && ids[names[i]] == i % U16)
  }

  lemma InternNew(names: seq<Name>, ids: map<Name, u16>, name: Name)
    requires Interned(names, ids) && name !in ids
    ensures Interned(names + [name], ids[name := |names| % U16])
  {
    assert name !in names;
  }

  lemma InternedKeys(names: seq<Name>, ids: map<Name, u16>, name: Name)
    requires Interned(names, ids)
    ensures name in ids <==> name in names
  {
  }

  lemma FirstUsesSnoc(triples: seq<Triple>, t: Triple)
    ensures FirstUses(triples + [t]) == FirstUses(triples) + if t.name in FirstUses(triples) then [] else [t.name]
  {
    assert (triples + [t])[..|triples|] == triples;
  }

  lemma InternedId(names: seq<Name>, ids: map<Name, u16>, name: Name)
    requires Interned(names, ids) && name in ids
    ensures exists n :: 0 <= n < |names| && names[n] == name && ids[name] == n % U16
  {
    assert name in names;
  }

  /** Each record holds the instruction, mask and (16-bit) name number of its binding. */
  ghost predicate Matches(infos: seq<Info>, triples: seq<Triple>, names: seq<Name>) {
    && |infos| == |triples|
    && forall i :: 0 <= i < |infos| ==>
         && infos[i].instrId == triples[i].instr % U16 && infos[i].mask == triples[i].mask
         && exists n :: 0 <= n < |names| && names[n] == triples[i].name && infos[i].funcId == n % U16
  }

  lemma MatchesSnoc(infos: seq<Info>, triples: seq<Triple>, names: seq<Name>, names': seq<Name>, info: Info, t: Triple)
    requires Matches(infos, triples, names) && names <= names'
    requires info.instrId == t.instr % U16 && info.mask == t.mask
    requires exists n :: 0 <= n < |names'| && names'[n] == t.name && info.funcId == n % U16
    ensures Matches(infos + [info], triples + [t], names')
  {
    forall i | 0 <= i < |infos|
      ensures exists n :: 0 <= n < |names'| && names'[n] == triples[i].name && infos[i].funcId == n % U16
    {
      var n :| 0 <= n < |names| && names[n] == triples[i].name && infos[i].funcId == n % U16;
      assert names'[n] == names[n];
    }
  }

  // ---------------------------------------------------------------- the round trip

  lemma {:induction false} MasksOfMaskBytes(mask: seq<u16>)
    ensures Masks(MaskBytes(mask)) == mask
  {
    if mask != [] {
      Widths();
      FromLeLe(mask[0], 2);
      var bytes := MaskBytes(mask);
      assert bytes[..2] == Le(mask[0], 2) && bytes[2..] == MaskBytes(mask[1..]);
      MasksOfMaskBytes(mask[1..]);
    }
  }

  predicate ShortMasks(infos: seq<Info>) {
    forall i :: 0 <= i < |infos| ==> |infos[i].mask| < U16
  }

  lemma FieldSlices(a: seq<byte>, b: seq<byte>, c: seq<byte>, d: seq<byte>, rest: seq<byte>)
    requires |a| == 2 && |b| == 2 && |c| == 2
    ensures var bytes := a + b + c + d + rest;
            && bytes[0..2] == a && bytes[2..4] == b && bytes[4..6] == c
            && bytes[6..6 + |d|] == d && bytes[6 + |d|..] == rest
  {
  }

  /** A record read from its own bytes, with more bytes behind it. */
  lemma DecodeFirst(info: Info, rest: seq<byte>)
    requires |info.mask| < U16
    ensures var bytes := InfoBytes(info) + rest;
            var n := FromLe(bytes[4..6]);
            && n == |info.mask| && |bytes| >= 6 + 2 * n && bytes[6 + 2 * n..] == rest
            && FromLe(bytes[0..2]) == info.instrId && FromLe(bytes[2..4]) == info.funcId
            && Masks(bytes[6..6 + 2 * n]) == info.mask
  {
    hide Le, FromLe, MaskBytes, Masks;
    Widths();
    FromLeLe(info.instrId, 2);
    FromLeLe(info.funcId, 2);
    FromLeLe(|info.mask|, 2);
    assert info.mask[..|info.mask|] == info.mask;
    FieldSlices(Le(info.instrId, 2), Le(info.funcId, 2), Le(|info.mask|, 2), MaskBytes(info.mask), rest);
    MasksOfMaskBytes(info.mask);
  }

  lemma DecodeStep(bytes: seq<byte>, info: Info, rest: seq<byte>)
    requires |bytes| >= 6
    requires var n := FromLe(bytes[4..6]);
             && n == |info.mask| && |bytes| >= 6 + 2 * n && bytes[6 + 2 * n..] == rest
             && FromLe(bytes[0..2]) == info.instrId && FromLe(bytes[2..4]) == info.funcId
             && Masks(bytes[6..6 + 2 * n]) == info.mask
    requires DecodeInfos(rest).Some?
    ensures DecodeInfos(bytes) == Some([info] + DecodeInfos(rest).value)
  {
    hide FromLe, Masks;
  }

  lemma {:induction false} DecodeInfosOfBytes(infos: seq<Info>)
    requires ShortMasks(infos)
    ensures DecodeInfos(InfosBytes(infos)) == Some(infos)
  {
    hide InfoBytes, FromLe, Masks, DecodeInfos;
    if infos == [] {
      DecodeNothing();
    } else {
      var rest := InfosBytes(infos[1..]);
      DecodeFirst(infos[0], rest);
      DecodeInfosOfBytes(infos[1..]);
      DecodeStep(InfosBytes(infos), infos[0], rest);
      assert [infos[0]] + infos[1..] == infos;
    }
  }

  lemma DecodeNothing()
    ensures DecodeInfos([]) == Some([])
  {
  }

  lemma {:induction false} SplitName(name: Name)
    requires SEP !in name
    ensures Split(name) == [name]
  {
    if name != [] {
      assert name[0] in name && name == [name[0]] + name[1..];
      SplitName(name[1..]);
    }
  }

  lemma {:induction false} SplitPrefix(name: Name, rest: seq<byte>)
    requires SEP !in name
    ensures Split(name + [SEP] + rest) == [name] + Split(rest)
  {
    var text := name + [SEP] + rest;
    if name == [] {
      assert text[1..] == rest;
    } else {
      assert name[0] in name && text[0] == name[0] != SEP;
      assert text[1..] == name[1..] + [SEP] + rest;
      SplitPrefix(name[1..], rest);
      assert Split(text) == [[name[0]] + name[1..]] + ([name[1..]] + Split(rest))[1..];
      assert name == [name[0]] + name[1..];
    }
  }

  predicate SeparatorFree(names: seq<Name>) {
    forall i :: 0 <= i < |names| ==> SEP !in names[i]
  }

  /** Cutting at the separator undoes joining. */
  lemma {:induction false} SplitJoin(names: seq<Name>)
    requires SeparatorFree(names)
    ensures Split(Join(names)) == if names == [] then [[]] else names
  {
    if |names| == 1 {
      SplitName(names[0]);
    } else if |names| > 1 {
      SplitPrefix(names[0], Join(names[1..]));
      SplitJoin(names[1..]);
    }
  }

  lemma {:induction false} SplitIsSeparatorFree(text: seq<byte>)
    ensures SeparatorFree(Split(text))
  {
    if text != [] {
      SplitIsSeparatorFree(text[1..]);
    }
  }

  /** Joining undoes cutting: the pieces and the separators between them account for every byte. */
  lemma {:induction false} JoinSplit(text: seq<byte>)
    ensures Join(Split(text)) == text
  {
    if text != [] {
      var rest := Split(text[1..]);
      JoinSplit(text[1..]);
      if text[0] == SEP {
        assert ([[]] + rest)[1..] == rest;
        assert Join([[]] + rest) == [] + [SEP] + Join(rest);
      } else {
        var first := [[text[0]] + rest[0]] + rest[1..];
        assert first[1..] == rest[1..];
        assert Join(first) == [text[0]] + Join(rest);
      }
      assert text == [text[0]] + text[1..];
    }
  }

  lemma {:induction false} JoinPrefix(names: seq<Name>, more: seq<Name>)
    requires names <= more
    ensures |Join(names)| <= |Join(more)|
  {
    if |names| > 1 {
      JoinPrefix(names[1..], more[1..]);
    }
  }

  // ---- the two parts of the file

  /** The size field of FuncNameList. */
  function ListSize(names: seq<Name>): (r: nat) {
    (|Join(names)| + LIST_HEAD) % U32
  }

  lemma DecodeFileHead(names: seq<Name>, infos: seq<Info>, trailing: seq<byte>)
    requires |trailing| == 4
    ensures Decode(File(names, infos, trailing)) == DecodeData(|InfosBytes(infos)| % U16, Data(names, infos, trailing))
  {
    hide Data, DecodeData, Join, InfosBytes, FromLe, Le;
    var file := File(names, infos, trailing);
    Widths();
    FromLeLe(|InfosBytes(infos)| % U16, 2);
    assert file[6..8] == Le(|InfosBytes(infos)| % U16, 2);
    assert file[CTRL_SIZE..] == Data(names, infos, trailing);
  }

  lemma HeaderSlices(a: seq<byte>, b: seq<byte>, c: seq<byte>, d: seq<byte>, e: seq<byte>, rest: seq<byte>)
    requires |a| == 4 && |b| == |c| == |d| == |e| == 2
    ensures var file := a + b + c + d + e + rest;
            file[0..4] == a && file[4..6] == b && file[6..8] == c && file[8..10] == d && file[10..12] == e
  {
  }

  /** CtrlInfo counts the whole file; version and reserved fields are 0. */
  lemma HeaderFields(names: seq<Name>, infos: seq<Info>, trailing: seq<byte>)
    requires |trailing| == 4
    ensures var file := File(names, infos, trailing);
            && |file| >= CTRL_SIZE && FromLe(file[0..4]) == |file| % U32
            && FromLe(file[4..6]) == FromLe(file[8..10]) == FromLe(file[10..12]) == 0
  {
    hide Data, InfosBytes, FromLe, Le;
    Widths();
    var data := Data(names, infos, trailing);
    FromLeLe((|data| + CTRL_SIZE) % U32, 4);
    FromLeLe(0, 2);
    var size, split := Le((|data| + CTRL_SIZE) % U32, 4), Le(|InfosBytes(infos)| % U16, 2);
    HeaderSlices(size, Le(0, 2), split, Le(0, 2), Le(0, 2), data);
  }

  lemma ListText(text: seq<byte>, trailing: seq<byte>, size: nat)
    requires |trailing| == 4 && size == (|text| + LIST_HEAD) % U32
    ensures size <= |text| + LIST_HEAD && |(text + trailing)[..size]| == size
    ensures size >= LIST_HEAD ==> (text + trailing)[..size][..size - LIST_HEAD] == text[..size - LIST_HEAD]
  {
  }

  lemma DataParts(infos: seq<byte>, head: seq<byte>, list: seq<byte>)
    requires |head| == LIST_HEAD
    ensures var data, split := infos + head + list, |infos|;
            && data[..split] == infos && data[split..split + LIST_HEAD] == head
            && data[split + LIST_HEAD..] == list
  {
  }

  /** With an exact splitOffset1 the decoder reads the written records and the name text up to its size. */
  lemma DecodeWritten(names: seq<Name>, infos: seq<Info>, trailing: seq<byte>)
    requires |trailing| == 4
    ensures DecodeData(|InfosBytes(infos)|, Data(names, infos, trailing))
         == if ListSize(names) < LIST_HEAD then None else
            match DecodeInfos(InfosBytes(infos))
            case None => None
            case Some(read) => Resolve(read, Split(Join(names)[..ListSize(names) - LIST_HEAD]))
  {
    hide Join, InfosBytes, FromLe, Le, DecodeInfos, Resolve, Split;
    var text, size, split := Join(names), ListSize(names), |InfosBytes(infos)|;
    var list := (text + trailing)[..size];
    ListText(text, trailing, size);
    DataParts(InfosBytes(infos), Le(size, 4), list);
    Widths();
    FromLeLe(size, 4);
    var data := Data(names, infos, trailing);
    if size >= LIST_HEAD {
      assert |data| == split + LIST_HEAD + size;
      assert data[split + LIST_HEAD..split + size] == data[split + LIST_HEAD..][..size - LIST_HEAD];
    }
  }

  // ---- what decoding can return

  /** The bytes that the FuncInfos of these bindings take. */
  function Room(triples: seq<Triple>): (r: nat)
  {
    if triples == [] then 0 else 6 + 2 * |triples[0].mask| + Room(triples[1..])
  }

  lemma {:induction false} RoomOfStored(triples: seq<Triple>)
    ensures Room(StoredAll(triples)) == Room(triples)
  {
    if triples != [] {
      RoomOfStored(triples[1..]);
      assert StoredAll(triples)[1..] == StoredAll(triples[1..]);
    }
  }

  /** Whatever is decoded takes exactly the bytes before the split. */
  lemma {:induction false} DecodedRoom(bytes: seq<byte>, names: seq<Name>)
    requires DecodeInfos(bytes).Some? && Resolve(DecodeInfos(bytes).value, names).Some?
    ensures Room(Resolve(DecodeInfos(bytes).value, names).value) == |bytes|
    decreases |bytes|
  {
    if bytes != [] {
      var n := FromLe(bytes[4..6]);
      var rest := bytes[6 + 2 * n..];
      var infos := DecodeInfos(bytes).value;
      assert infos[1..] == DecodeInfos(rest).value;
      DecodedRoom(rest, names);
      var r := Resolve(infos, names).value;
      assert r[1..] == Resolve(infos[1..], names).value;
    }
  }

  lemma {:induction false} WrittenRoom(infos: seq<Info>, triples: seq<Triple>, names: seq<Name>)
    requires Matches(infos, triples, names) && Room(triples) < U16
    ensures ShortMasks(infos) && |InfosBytes(infos)| == Room(triples)
  {
    hide InfoBytes, Matches;
    MatchesHead(infos, triples, names);
    if infos != [] {
      MatchesTail(infos, triples, names);
      WrittenRoom(infos[1..], triples[1..], names);
      forall i | 0 <= i < |infos| ensures |infos[i].mask| < U16 {
        assert i > 0 ==> infos[i] == infos[1..][i - 1];
      }
    }
  }

  lemma MatchesHead(infos: seq<Info>, triples: seq<Triple>, names: seq<Name>)
    requires Matches(infos, triples, names)
    ensures |infos| == |triples| && (infos != [] ==> infos[0].mask == triples[0].mask)
  {
  }

  lemma MatchesTail(infos: seq<Info>, triples: seq<Triple>, names: seq<Name>)
    requires Matches(infos, triples, names) && infos != []
    ensures Matches(infos[1..], triples[1..], names)
  {
    forall i | 0 <= i < |infos[1..]|
      ensures exists n :: 0 <= n < |names| && names[n] == triples[1..][i].name && infos[1..][i].funcId == n % U16
    {
      assert infos[1..][i] == infos[i + 1] && triples[1..][i] == triples[i + 1];
    }
  }

  /** Looking names up record by record. */
  lemma {:induction false} ResolveIs(infos: seq<Info>, names: seq<Name>)
    ensures Resolve(infos, names).Some? <==> forall i :: 0 <= i < |infos| ==> infos[i].funcId < |names|
    ensures Resolve(infos, names).Some? ==>
              var r := Resolve(infos, names).value;
              && |r| == |infos|
              && forall i :: 0 <= i < |r| ==> r[i] == Triple(infos[i].instrId, names[infos[i].funcId], infos[i].mask)
  {
    if infos != [] {
      ResolveIs(infos[1..], names);
      assert forall i :: 0 < i < |infos| ==> infos[i] == infos[1..][i - 1];
      assert infos[0].funcId < |names| && Resolve(infos[1..], names).Some? ==> Resolve(infos, names).Some?;
    }
  }

  lemma {:induction false} FirstUsesAreUsed(triples: seq<Triple>, i: nat) returns (k: nat)
    requires i < |FirstUses(triples)|
    ensures k < |triples| && triples[k].name == FirstUses(triples)[i]
  {
    var before := FirstUses(triples[..|triples| - 1]);
    if i < |before| {
      k := FirstUsesAreUsed(triples[..|triples| - 1], i);
    } else {
      k := |triples| - 1;
    }
  }

  predicate NamesSeparatorFree(triples: seq<Triple>) {
    forall k :: 0 <= k < |triples| ==> SEP !in triples[k].name
  }

  lemma FirstUsesSeparatorFree(triples: seq<Triple>)
    requires NamesSeparatorFree(triples)
    ensures SeparatorFree(FirstUses(triples))
  {
    forall i | 0 <= i < |FirstUses(triples)| ensures SEP !in FirstUses(triples)[i] {
      var k := FirstUsesAreUsed(triples, i);
    }
  }

  /** The records and the true name list resolve to the stored bindings. */
  lemma ResolveMatching(infos: seq<Info>, triples: seq<Triple>, names: seq<Name>)
    requires Matches(infos, triples, names) && |names| <= U16
    ensures Resolve(infos, names) == Some(StoredAll(triples))
  {
    forall i | 0 <= i < |infos|
      ensures infos[i].funcId < |names|
      ensures Triple(infos[i].instrId, names[infos[i].funcId], infos[i].mask) == Stored(triples[i])
    {
      var n :| 0 <= n < |names| && names[n] == triples[i].name && infos[i].funcId == n % U16;
    }
    ResolveIs(infos, names);
    assert Resolve(infos, names).value == StoredAll(triples);
  }

  lemma ResolvedName(infos: seq<Info>, triples: seq<Triple>, names: seq<Name>, read: seq<Name>, i: nat, k: nat)
    requires Matches(infos, triples, names) && i < |names| <= U16 && k < |triples| && triples[k].name == names[i]
    requires forall i, j :: 0 <= i < j < |names| ==> names[i] != names[j]
    requires Resolve(infos, read) == Some(StoredAll(triples))
    ensures i < |read| && read[i] == names[i]
  {
    hide Resolve;
    ResolveIs(infos, read);
    assert infos[k].funcId == i by {
      var n :| 0 <= n < |names| && names[n] == triples[k].name && infos[k].funcId == n % U16;
      assert !(n < i) && !(i < n);
    }
    assert StoredAll(triples)[k] == Triple(infos[k].instrId, read[infos[k].funcId], infos[k].mask);
  }

  /** A name list that resolves the records to the stored bindings starts with the true one. */
  lemma ResolvedNames(infos: seq<Info>, triples: seq<Triple>, names: seq<Name>, read: seq<Name>)
    requires Matches(infos, triples, names) && |names| <= U16 && names == FirstUses(triples)
    requires forall i, j :: 0 <= i < j < |names| ==> names[i] != names[j]
    requires Resolve(infos, read) == Some(StoredAll(triples))
    ensures names <= read
  {
    hide Matches, FirstUses, Resolve, StoredAll;
    forall i | 0 <= i < |names| ensures i < |read| && read[i] == names[i] {
      var k := FirstUsesAreUsed(triples, i);
      ResolvedName(infos, triples, names, read, i, k);
    }
    assert |names| <= |read| by {
      if |names| > 0 {
        var k := FirstUsesAreUsed(triples, |names| - 1);
        ResolvedName(infos, triples, names, read, |names| - 1, k);
      }
    }
  }

  // ---- the theorem

  /** What a caller of Bind can check: 16-bit room for the records, no separator in a name, 32-bit name text. */
  predicate Fits(triples: seq<Triple>) {
    && Room(triples) < U16
    && NamesSeparatorFree(triples)
    && |Join(FirstUses(triples))| + LIST_HEAD < U32
  }

  lemma {:induction false} RoomBoundsCount(triples: seq<Triple>)
    ensures 6 * |triples| <= Room(triples)
  {
    if triples != [] {
      RoomBoundsCount(triples[1..]);
    }
  }

  lemma NoNamesNoRecords(infos: seq<Info>, triples: seq<Triple>, names: seq<Name>)
    requires Matches(infos, triples, names)
    ensures names == [] ==> infos == []
  {
    if infos != [] {
      assert infos[0].mask == triples[0].mask;
    }
  }

  lemma FitsDecodes(names: seq<Name>, ids: map<Name, u16>, infos: seq<Info>, triples: seq<Triple>, trailing: seq<byte>)
    requires Interned(names, ids) && Matches(infos, triples, names) && names == FirstUses(triples)
    requires |trailing| == 4 && Fits(triples)
    ensures Decode(File(names, infos, trailing)) == Some(StoredAll(triples))
  {
    hide Decode, DecodeData, File, Data, InfosBytes, DecodeInfos, Resolve, Split, Join, FirstUses, Room, StoredAll;
    WrittenRoom(infos, triples, names);
    DecodeFileHead(names, infos, trailing);
    DecodeWritten(names, infos, trailing);
    DecodeInfosOfBytes(infos);
    assert Join(names)[..|Join(names)|] == Join(names);
    FirstUsesSeparatorFree(triples);
    SplitJoin(names);
    RoomBoundsCount(triples);
    if names == [] {
      NoNamesNoRecords(infos, triples, names);
      ResolveMatching(infos, triples, [[]]);
    } else {
      ResolveMatching(infos, triples, names);
    }
  }

  lemma DecodedFits(names: seq<Name>, ids: map<Name, u16>, infos: seq<Info>, triples: seq<Triple>, trailing: seq<byte>)
    requires Interned(names, ids) && Matches(infos, triples, names) && names == FirstUses(triples)
    requires |trailing| == 4 && Decode(File(names, infos, trailing)) == Some(StoredAll(triples))
    ensures Fits(triples)
  {
    hide Decode, File, Data, InfosBytes, DecodeInfos, Resolve, Split, Join, FirstUses, Room, StoredAll;
    DecodeFileHead(names, infos, trailing);
    var split, data := |InfosBytes(infos)| % U16, Data(names, infos, trailing);
    var text := data[split + LIST_HEAD..split + FromLe(data[split..split + LIST_HEAD])];
    DecodedRoom(data[..split], Split(text));
    RoomOfStored(triples);
    WrittenRoom(infos, triples, names);
    DecodeWritten(names, infos, trailing);
    DecodeInfosOfBytes(infos);
    var list := Join(names)[..ListSize(names) - LIST_HEAD];
    DecodedNamesFit(infos, triples, names, list);
  }

  lemma DecodedNamesFit(infos: seq<Info>, triples: seq<Triple>, names: seq<Name>, list: seq<byte>)
    requires Matches(infos, triples, names) && names == FirstUses(triples) && Room(triples) < U16
    requires forall i, j :: 0 <= i < j < |names| ==> names[i] != names[j]
    requires Resolve(infos, Split(list)) == Some(StoredAll(triples))
    ensures NamesSeparatorFree(triples) && |Join(names)| <= |list|
  {
    hide Split, Join, Room, FirstUses, Resolve;
    RoomBoundsCount(triples);
    ResolveIs(infos, Split(list));
    SplitIsSeparatorFree(list);
    forall k | 0 <= k < |triples| ensures SEP !in triples[k].name {
      assert StoredAll(triples)[k].name == Split(list)[infos[k].funcId];
    }
    ResolvedNames(infos, triples, names, Split(list));
    JoinPrefix(names, Split(list));
    JoinSplit(list);
  }

  /** A written file decodes to the stored bindings exactly when the bindings fit the format's fields. */
  lemma RoundTripIff(names: seq<Name>, ids: map<Name, u16>, infos: seq<Info>, triples: seq<Triple>, trailing: seq<byte>)
    requires Interned(names, ids) && Matches(infos, triples, names) && names == FirstUses(triples)
    requires |trailing| == 4
    ensures Decode(File(names, infos, trailing)) == Some(StoredAll(triples)) <==> Fits(triples)
  {
    hide *;
    if Fits(triples) {
      FitsDecodes(names, ids, infos, triples, trailing);
    }
    if Decode(File(names, infos, trailing)) == Some(StoredAll(triples)) {
      DecodedFits(names, ids, infos, triples, trailing);
    }
  }

  /** Instruction ids that fit 16 bits come back unchanged, so the file then decodes to the bindings themselves. */
  lemma StoredFits(triples: seq<Triple>)
    ensures (forall k :: 0 <= k < |triples| ==> triples[k].instr < 0x1_0000) ==> StoredAll(triples) == triples
    ensures forall k :: 0 <= k < |triples| ==>
              StoredAll(triples)[k] == Triple(triples[k].instr % 0x1_0000, triples[k].name, triples[k].mask)
  {
  }

  // ---------------------------------------------------------------- the layout, byte by byte

  /** A record: instruction id, function id, mask count, masks. */
  lemma InfoLayout(info: Info)
    requires |info.mask| < 0x1_0000
    ensures var bytes := InfoBytes(info);
            && |bytes| == 6 + 2 * |info.mask|
            && FromLe(bytes[0..2]) == info.instrId && FromLe(bytes[2..4]) == info.funcId
            && FromLe(bytes[4..6]) == |info.mask|
            && forall k :: 0 <= k < |info.mask| ==> FromLe(bytes[6 + 2 * k..8 + 2 * k]) == info.mask[k]
  {
    hide Le, FromLe, MaskBytes;
    Widths();
    FromLeLe(info.instrId, 2);
    FromLeLe(info.funcId, 2);
    FromLeLe(|info.mask|, 2);
    assert info.mask[..|info.mask|] == info.mask;
    FieldSlices(Le(info.instrId, 2), Le(info.funcId, 2), Le(|info.mask|, 2), MaskBytes(info.mask), []);
    var bytes := InfoBytes(info);
    assert bytes == Le(info.instrId, 2) + Le(info.funcId, 2) + Le(|info.mask|, 2) + MaskBytes(info.mask) + [];
    forall k | 0 <= k < |info.mask| ensures FromLe(bytes[6 + 2 * k..8 + 2 * k]) == info.mask[k] {
      MaskAt(info.mask, k);
      assert bytes[6 + 2 * k..8 + 2 * k] == MaskBytes(info.mask)[2 * k..2 * k + 2];
    }
  }

  lemma {:induction false} MaskAt(mask: seq<u16>, k: nat)
    requires k < |mask|
    ensures FromLe(MaskBytes(mask)[2 * k..2 * k + 2]) == mask[k]
  {
    hide Le, FromLe;
    var bytes := MaskBytes(mask);
    if k == 0 {
      Widths();
      FromLeLe(mask[0], 2);
      assert bytes[0..2] == Le(mask[0], 2);
    } else {
      MaskAt(mask[1..], k - 1);
      assert bytes[2 * k..2 * k + 2] == MaskBytes(mask[1..])[2 * (k - 1)..2 * (k - 1) + 2];
    }
  }

  /** Names are joined by form feed, byte 12. */
  lemma NamesLayout(name: Name, names: seq<Name>)
    ensures Join([name]) == name
    ensures names != [] ==> Join([name] + names) == name + [12] + Join(names)
  {
    if names != [] {
      assert ([name] + names)[1..] == names;
    }
  }

  /** The file: 12 bytes of header with the split at 6, the records, the list's size with its own 4 bytes, the names. */
  lemma FileLayout(names: seq<Name>, infos: seq<Info>, trailing: seq<byte>)
    requires |trailing| == 4 && |InfosBytes(infos)| < 0x1_0000 && |Join(names)| + 4 < 0x1_0000_0000
    ensures var file, split, text := File(names, infos, trailing), |InfosBytes(infos)|, Join(names);
            && |file| == 12 + split + 4 + |text| + 4
            && FromLe(file[6..8]) == split && file[12..12 + split] == InfosBytes(infos)
            && FromLe(file[12 + split..12 + split + 4]) == |text| + 4
            && file[12 + split + 4..12 + split + 4 + |text|] == text
            && file[12 + split + 4 + |text|..] == trailing
  {
    hide InfosBytes, Join, Le, FromLe, Data;
    Widths();
    var text, records := Join(names), InfosBytes(infos);
    FromLeLe(|records|, 2);
    FromLeLe(|text| + 4, 4);
    var data := Data(names, infos, trailing);
    var size, split := Le((|data| + CTRL_SIZE) % U32, 4), Le(|records|, 2);
    HeaderSlices(size, Le(0, 2), split, Le(0, 2), Le(0, 2), data);
    DataIs(names, infos, trailing);
    var list := Le(|text| + 4, 4);
    WholeSlices(size + Le(0, 2) + split + Le(0, 2) + Le(0, 2), records, list, text, trailing);
  }

  lemma DataIs(names: seq<Name>, infos: seq<Info>, trailing: seq<byte>)
    requires |trailing| == 4 && |Join(names)| + 4 < 0x1_0000_0000
    ensures Data(names, infos, trailing) == InfosBytes(infos) + Le(|Join(names)| + 4, 4) + Join(names) + trailing
  {
    hide InfosBytes, Join, Le;
    var text := Join(names);
    assert (text + trailing)[..|text| + 4] == text + trailing;
  }

  lemma WholeSlices(head: seq<byte>, a: seq<byte>, b: seq<byte>, c: seq<byte>, d: seq<byte>)
    requires |head| == 12 && |b| == 4
    ensures var file := head + (a + b + c + d);
            && |file| == 12 + |a| + 4 + |c| + |d|
            && file[12..12 + |a|] == a && file[12 + |a|..12 + |a| + 4] == b
            && file[12 + |a| + 4..12 + |a| + 4 + |c|] == c && file[12 + |a| + 4 + |c|..] == d
  {
  }

  // ---------------------------------------------------------------- one run of the tool

  /** The bindings that a core type accepts, in order. */
  function AcceptedOf(core: Core, binds: seq<(Triple, Core)>): (r: seq<Triple>)
  {
    if binds == [] then [] else
    (if Accepts(core, binds[0].1) then [binds[0].0] else []) + AcceptedOf(core, binds[1..])
  }

  /** The bindings whose probe is for one of these cores, in order. */
  function ForCores(binds: seq<(Triple, Core)>, cores: set<Core>): (r: seq<Triple>)
  {
    if binds == [] then [] else
    (if binds[0].1 in cores then [binds[0].0] else []) + ForCores(binds[1..], cores)
  }

  lemma {:induction false} AcceptedByCore(core: Core, binds: seq<(Triple, Core)>)
    ensures core == VEC ==> AcceptedOf(core, binds) == ForCores(binds, {MIX, VEC})
    ensures core == CUBE ==> AcceptedOf(core, binds) == ForCores(binds, {MIX, CUBE})
    ensures core == MIX ==> AcceptedOf(core, binds) == ForCores(binds, {MIX, VEC, CUBE})
  {
    if binds != [] {
      AnyCore(binds[0].1);
      AcceptedByCore(core, binds[1..]);
    }
  }

  lemma AnyCore(core: Core)
    ensures core in {MIX, VEC, CUBE}
  {
    match core
    case MIX =>
    case CUBE =>
    case VEC =>
  }

  /** Filtering goes binding by binding, in order. */
  lemma {:induction false} ForCoresConcat(a: seq<(Triple, Core)>, b: seq<(Triple, Core)>, cores: set<Core>)
    ensures ForCores(a + b, cores) == ForCores(a, cores) + ForCores(b, cores)
  {
    hide ForCores;
    if a == [] {
      ForCoresFirst(a, cores);
      assert a + b == b;
    } else {
      assert (a + b)[1..] == a[1..] + b && (a + b)[0] == a[0];
      ForCoresConcat(a[1..], b, cores);
      ForCoresFirst(a, cores);
      ForCoresFirst(a + b, cores);
    }
  }

  lemma ForCoresFirst(binds: seq<(Triple, Core)>, cores: set<Core>)
    ensures binds == [] ==> ForCores(binds, cores) == []
    ensures binds != [] && binds[0].1 in cores ==> ForCores(binds, cores) == [binds[0].0] + ForCores(binds[1..], cores)
    ensures binds != [] && binds[0].1 !in cores ==> ForCores(binds, cores) == ForCores(binds[1..], cores)
  {
  }

  /** Accepting every core keeps every binding. */
  lemma {:induction false} ForAllCores(binds: seq<(Triple, Core)>)
    ensures |ForCores(binds, {MIX, VEC, CUBE})| == |binds|
    ensures forall k :: 0 <= k < |binds| ==> ForCores(binds, {MIX, VEC, CUBE})[k] == binds[k].0
  {
    if binds != [] {
      AnyCore(binds[0].1);
      ForAllCores(binds[1..]);
      var rest := ForCores(binds[1..], {MIX, VEC, CUBE});
      assert ForCores(binds, {MIX, VEC, CUBE}) == [binds[0].0] + rest;
    }
  }

  /** The text is made of two texts with the marker between them. */
  ghost predicate Marked(text: string, marker: string) {
    exists u: string, v: string :: text == u + marker + v
  }

  /** What the architecture name makes of the bindings: "-vec" before "-cube", and all of them with neither. */
  lemma ArchitectureSelects(arch: string, binds: seq<(Triple, Core)>)
    ensures Marked(arch, "-vec") ==> AcceptedOf(CoreOf(Some(arch)), binds) == ForCores(binds, {MIX, VEC})
    ensures Marked(arch, "-cube") && !Marked(arch, "-vec") ==>
              AcceptedOf(CoreOf(Some(arch)), binds) == ForCores(binds, {MIX, CUBE})
    ensures !Marked(arch, "-cube") && !Marked(arch, "-vec") ==>
              AcceptedOf(CoreOf(Some(arch)), binds) == ForCores(binds, {MIX, VEC, CUBE})
    ensures AcceptedOf(CoreOf(None), binds) == ForCores(binds, {MIX, VEC, CUBE})
  {
    hide Accepts, ForCores, AcceptedOf, Contains, Marked;
    ContainsIff(arch, "-vec");
    ContainsIff(arch, "-cube");
    AcceptedByCore(VEC, binds);
    AcceptedByCore(CUBE, binds);
    AcceptedByCore(MIX, binds);
  }

  lemma ContainsIff(text: string, part: string)
    ensures Contains(text, part) <==> Marked(text, part)
  {
    if Contains(text, part) {
      var i: nat :| i <= |text| && OccursAt(text, part, i);
      assert text == text[..i] + part + text[i + |part|..];
    }
    if Marked(text, part) {
      var u: string, v: string :| text == u + part + v;
      assert text[|u|..|u| + |part|] == part;
      assert OccursAt(text, part, |u|);
    }
  }

  method BindAll(helper: InjectBindHelper, binds: seq<(Triple, Core)>)
    requires helper.Valid()
    modifies helper
    ensures helper.Valid() && helper.core == old(helper.core)
    ensures helper.accepted == old(helper.accepted) + AcceptedOf(helper.core, binds)
  {
    hide Accepts, FirstUses, Matches, Interned;
    for i := 0 to |binds|
      invariant helper.Valid() && helper.core == old(helper.core)
      invariant helper.accepted + AcceptedOf(helper.core, binds[i..])
             == old(helper.accepted) + AcceptedOf(helper.core, binds)
    {
      assert binds[i..][1..] == binds[i + 1..];
      helper.Bind(binds[i].0, binds[i].1);
    }
  }

  /**
   * MSBitStart, with the Bind calls of MSBitAtInit as a parameter and the four bytes behind the name
   * text as another: the file decodes to the accepted bindings exactly when they fit.
   */
  method Start(helper: InjectBindHelper, archName: Option<string>, binds: seq<(Triple, Core)>, trailing: seq<byte>)
    returns (file: seq<byte>)
    requires |trailing| == 4
    modifies helper
    ensures helper.Valid() && helper.accepted == AcceptedOf(CoreOf(archName), binds)
    ensures var accepted := AcceptedOf(CoreOf(archName), binds);
            Decode(file) == Some(StoredAll(accepted)) <==> Fits(accepted)
  {
    hide Decode, File, Fits, StoredAll, Contains, FirstUses, Matches, Interned, AcceptedOf;
    helper.Reset();
    if archName.Some? {
      helper.Init(archName.value);
    }
    BindAll(helper, binds);
    file := helper.Serialize(trailing);
    RoundTripIff(helper.funcNames, helper.injectFuncIdMap, helper.injectInfo, helper.accepted, trailing);
  }
}
