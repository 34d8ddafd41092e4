/** The decoder of `wheel/macosx_libfile.py`: given a Mach-O or fat binary, the minimum macOS
    version recorded in it.

    The file is an in-memory `LibFile` (contents plus cursor). The methods do what the Python
    functions do, read by read and seek by seek; each is proved equal to a function of the file's
    contents defined below, and the properties of those functions are proved in
    `MacosxLibfileProperties`. A Python `ValueError` (a structure built from a short read) is the
    `ValueError` result. */
module MacosxLibfile {
  import opened Results
  import opened BinaryFile
  import opened MachO
  import opened Versions

  // ---------------------------------------------------------------------------------------------
  // What each step reads, as functions of the file contents

  /** `read_data(struct_class, lib_file)` with the cursor at `pos`: the structure's bytes, or
      `ValueError` when fewer than `ctypes.sizeof(struct_class)` of them are left. */
  function StructAt(data: seq<u8>, pos: nat, structClass: Struct): (r: Result<seq<u8>>)
    ensures pos + Sizeof(structClass) <= |data| ==> r == Ok(data[pos..pos + Sizeof(structClass)])
    ensures pos + Sizeof(structClass) > |data| ==> r == ValueError
  {
    var chunk := Window(data, pos, Sizeof(structClass));
    if |chunk| < Sizeof(structClass) then ValueError else Ok(chunk)
  }

  /** The byte-order decision of `get_base_class_and_magic_number` for the magic number read in
      host order: a reversed magic selects the swapped base class and is swapped back. */
  function ClassifyMagic(raw: u32): (c: (ByteOrder, u32))
    ensures c.0 == Swapped <==> IsCigam(raw)
    ensures IsCigam(raw) ==> IsMagic(c.1) && c.1 == Swap32(raw)
    ensures IsMagic(raw) ==> c == (Native, raw)
    ensures !IsCigam(raw) ==> c.1 == raw
  {
    MagicSwaps(raw);
    if IsCigam(raw) then (Swapped, Swap32(raw)) else (Native, raw)
  }

  /** `get_base_class_and_magic_number` at `start`: the base class and the normalised magic
      number, or `ValueError` when fewer than 4 bytes are left. The normalised magic is what the
      first header field reads as with the chosen base class. */
  function MagicAt(data: seq<u8>, start: nat): (r: Result<(ByteOrder, u32)>)
    ensures r.Ok? <==> start + 4 <= |data|
    ensures r.Ok? ==> start + 4 <= |data| && U32At(data, start, r.value.0) == r.value.1
  {
    var chunk := Window(data, start, 4);
    if |chunk| < 4 then ValueError
    else
      assert U32LE(chunk, 0) == U32LE(data, start);
      var c := ClassifyMagic(U32LE(chunk, 0));
      Swap32Involutive(U32LE(data, start));
      U32AtSwapped(data, start);
      Ok(c)
  }

  /** The header class `read_mach_header` picks: the 32-bit one only for `MH_MAGIC`. */
  function MachHeaderClass(magic: u32): Struct {
    if magic == MH_MAGIC then MachHeader else MachHeader64
  }

  /** What one pass of the `for` loop of `read_mach_header` does with the command at `pos`. */
  datatype Step =
    | Found(result: Result<Option<Version>>)  // a version command, or a short read: the loop ends
    | Skip(next: nat)                          // any other command: the loop goes on at `next`

  /** One pass of the loop: the `cmd`/`cmdsize` prefix at `pos`, then either the whole version
      command (decoded by `parse_version`) or the position `cmdsize` bytes on. */
  function CommandAt(data: seq<u8>, order: ByteOrder, pos: nat): Step {
    match StructAt(data, pos, SegmentBase)
    case ValueError => Found(ValueError)
    case Ok(segmentBase) =>
      var cmd := CmdOf(segmentBase, order);
      if cmd == LC_VERSION_MIN_MACOSX then
        match StructAt(data, pos, VersionMinCommand)
        case ValueError => Found(ValueError)
        case Ok(versionInfo) => Found(Ok(Some(ParseVersion(VersionFieldOf(versionInfo, order)))))
      else if cmd == LC_BUILD_VERSION then
        match StructAt(data, pos, BuildVersionCommand)
        case ValueError => Found(ValueError)
        case Ok(versionInfo) => Found(Ok(Some(ParseVersion(MinosFieldOf(versionInfo, order)))))
      else
        Skip(pos + CmdSizeOf(segmentBase, order))
  }

  /** The whole `for` loop of `read_mach_header`: `ncmds` load commands starting at `pos`. */
  function ScanLoadCommands(data: seq<u8>, order: ByteOrder, pos: nat, ncmds: nat): Result<Option<Version>>
    decreases ncmds
  {
    if ncmds == 0 then Ok(None)
    else
      match CommandAt(data, order, pos)
      case Found(result) => result
      case Skip(next) => ScanLoadCommands(data, order, next, ncmds - 1)
  }

  /** `read_mach_header` for the header at `start`, which determines its own byte order. */
  function MachHeaderAt(data: seq<u8>, start: nat): Result<Option<Version>> {
    var baseClassAndMagic :- MagicAt(data, start);
    var baseClass := baseClassAndMagic.0;
    var machHeaderClass := MachHeaderClass(baseClassAndMagic.1);
    var machHeader :- StructAt(data, start, machHeaderClass);
    ScanLoadCommands(data, baseClass, start + |machHeader|, NcmdsOf(machHeader, baseClass))
  }

  /** The bytes of one `fat_arch` record. */
  type FatArchBytes = b: seq<u8> | |b| == 20 witness seq(20, _ => 0)

  /** `fat_arch_list`: `nfat` consecutive `fat_arch` records from `pos`; a short read raises. */
  function FatArchList(data: seq<u8>, pos: nat, nfat: nat): (r: Result<seq<FatArchBytes>>)
    ensures r.Ok? ==> |r.value| == nfat
    decreases nfat
  {
    if nfat == 0 then Ok([])
    else
      var el :- StructAt(data, pos, FatArch);
      var rest :- FatArchList(data, pos + |el|, nfat - 1);
      Ok([el] + rest)
  }

  /** `prefix` followed by the records of `r`, or the failure `r` is. */
  function Prepend(prefix: seq<FatArchBytes>, r: Result<seq<FatArchBytes>>): Result<seq<FatArchBytes>> {
    match r
    case Ok(rest) => Ok(prefix + rest)
    case ValueError => ValueError
  }

  lemma PrependNothing(r: Result<seq<FatArchBytes>>)
    ensures Prepend([], r) == r
  {
    if r.Ok? {
      assert [] + r.value == r.value;
    }
  }

  lemma PrependStep(prefix: seq<FatArchBytes>, el: FatArchBytes, r: Result<seq<FatArchBytes>>)
    ensures Prepend(prefix, Prepend([el], r)) == Prepend(prefix + [el], r)
  {
    if r.Ok? {
      assert prefix + ([el] + r.value) == (prefix + [el]) + r.value;
    }
  }

  /** `versions_list` after the loop over `fat_arch_list`: the version of every slice whose header
      yields one, in order; a slice that raises `ValueError` or has no version adds nothing. */
  function SliceVersions(data: seq<u8>, order: ByteOrder, archs: seq<FatArchBytes>): seq<Version>
  {
    if archs == [] then []
    else
      var last := archs[|archs| - 1];
      SliceVersions(data, order, archs[..|archs| - 1]) + Appended(MachHeaderAt(data, ArchOffsetOf(last, order)))
  }

  /** What one slice's `read_mach_header` outcome adds to `versions_list`. */
  function Appended(version: Result<Option<Version>>): seq<Version> {
    match version
    case Ok(Some(v)) => [v]
    case _ => []
  }

  lemma SliceVersionsStep(data: seq<u8>, order: ByteOrder, archs: seq<FatArchBytes>, j: nat)
    requires j < |archs|
    ensures SliceVersions(data, order, archs[..j + 1])
            == SliceVersions(data, order, archs[..j]) + Appended(MachHeaderAt(data, ArchOffsetOf(archs[j], order)))
  {
    assert archs[..j + 1][..j] == archs[..j];
  }

  /** The fat branch of `extract_macosx_min_system_version`: the `fat_header` at 0, the
      `fat_arch` list after it, and the greatest version among the slices. */
  function FatVersion(data: seq<u8>, baseClass: ByteOrder): Result<Option<Version>> {
    var fatHeader :- StructAt(data, 0, FatHeader);
    var nfatArch := NfatArchOf(fatHeader, baseClass);
    var fatArchList :- FatArchList(data, |fatHeader|, nfatArch);
    var versionsList := SliceVersions(data, baseClass, fatArchList);
    if |versionsList| > 0 then Ok(Some(Max(versionsList))) else Ok(None)
  }

  /** `extract_macosx_min_system_version` on a file with contents `data`. */
  function MinSystemVersion(data: seq<u8>): Result<Option<Version>> {
    var baseClassAndMagic :- MagicAt(data, 0);
    var baseClass := baseClassAndMagic.0;
    var magicNumber := baseClassAndMagic.1;
    if !IsMagic(magicNumber) then Ok(None)
    else if magicNumber == FAT_MAGIC || magicNumber == FAT_CIGAM_64 then FatVersion(data, baseClass)
    else
      match MachHeaderAt(data, 0)
      case Ok(version) => Ok(version)
      case ValueError => Ok(None)
  }

  // ---------------------------------------------------------------------------------------------
  // Where the cursor is left

  /** The cursor after one pass of the load-command loop at `pos`: past what the failed peek or
      the version command's read returned, or `cmdsize` bytes on from `pos` after a skip. */
  function CommandCursor(data: seq<u8>, order: ByteOrder, pos: nat): (c: nat)
    ensures CommandAt(data, order, pos).Skip? ==> c == CommandAt(data, order, pos).next
    ensures CommandAt(data, order, pos).Found? ==> c <= pos + Sizeof(BuildVersionCommand)
  {
    match StructAt(data, pos, SegmentBase)
    case ValueError => pos + |Window(data, pos, Sizeof(SegmentBase))|
    case Ok(segmentBase) =>
      var cmd := CmdOf(segmentBase, order);
      if cmd == LC_VERSION_MIN_MACOSX then pos + |Window(data, pos, Sizeof(VersionMinCommand))|
      else if cmd == LC_BUILD_VERSION then pos + |Window(data, pos, Sizeof(BuildVersionCommand))|
      else pos + CmdSizeOf(segmentBase, order)
  }

  /** The cursor after the load-command loop: where the pass that ended it left it, or the start
      of the command after the last one skipped. */
  function ScanCursor(data: seq<u8>, order: ByteOrder, pos: nat, ncmds: nat): nat
    decreases ncmds
  {
    if ncmds == 0 then pos
    else
      match CommandAt(data, order, pos)
      case Found(_) => CommandCursor(data, order, pos)
      case Skip(next) => ScanCursor(data, order, next, ncmds - 1)
  }

  /** The cursor after `read_mach_header` at `start`. */
  function MachHeaderCursor(data: seq<u8>, start: nat): nat {
    match MagicAt(data, start)
    case ValueError => start + |Window(data, start, 4)|
    case Ok(baseClassAndMagic) =>
      var baseClass := baseClassAndMagic.0;
      var machHeaderClass := MachHeaderClass(baseClassAndMagic.1);
      match StructAt(data, start, machHeaderClass)
      case ValueError => start + |Window(data, start, Sizeof(machHeaderClass))|
      case Ok(machHeader) => ScanCursor(data, baseClass, start + |machHeader|, NcmdsOf(machHeader, baseClass))
  }

  // ---------------------------------------------------------------------------------------------
  // The decoder, step by step on the cursor

  /** Where a function taking an optional `seek` starts: at `seek` if given, else at the cursor. */
  function StartOf(seek: Option<nat>, pos: nat): nat {
    if seek.Some? then seek.value else pos
  }

  /** `get_base_class_and_magic_number`: reads the 4-byte magic at `seek` (or at the cursor),
      decides the byte order, and puts the cursor back where it started. */
  method GetBaseClassAndMagicNumber(libFile: LibFile, seek: Option<nat>) returns (r: Result<(ByteOrder, u32)>)
    modifies libFile
    ensures r == MagicAt(libFile.data, StartOf(seek, old(libFile.pos)))
    ensures r.Ok? ==> libFile.pos == StartOf(seek, old(libFile.pos))
    ensures r.ValueError? ==> libFile.pos == ShortReadEnd(libFile.data, StartOf(seek, old(libFile.pos)))
  {
    var start: nat;
    if seek.None? {
      start := libFile.Tell();
    } else {
      start := seek.value;
      libFile.Seek(start);
    }
    var chunk := libFile.Read(4);
    if |chunk| < 4 {
      return ValueError;
    }
    var magicNumber := U32LE(chunk, 0);
    var baseClass: ByteOrder;
    if IsCigam(magicNumber) {
      baseClass := Swapped;
      magicNumber := Swap32(magicNumber);
    } else {
      baseClass := Native;
    }
    libFile.Seek(start);
    return Ok((baseClass, magicNumber));
  }

  /** `read_data`: one structure from the cursor, which moves past whatever was read. */
  method ReadData(structClass: Struct, libFile: LibFile) returns (r: Result<seq<u8>>)
    modifies libFile
    ensures r == StructAt(libFile.data, old(libFile.pos), structClass)
    ensures libFile.pos == old(libFile.pos) + |Window(libFile.data, old(libFile.pos), Sizeof(structClass))|
  {
    var chunk := libFile.Read(Sizeof(structClass));
    if |chunk| < Sizeof(structClass) {
      return ValueError;
    }
    return Ok(chunk);
  }

  /** `read_mach_header`: the header at `seek` (or at the cursor), then its load commands. */
  method ReadMachHeader(libFile: LibFile, seek: Option<nat>) returns (r: Result<Option<Version>>)
    modifies libFile
    ensures r == MachHeaderAt(libFile.data, StartOf(seek, old(libFile.pos)))
    ensures libFile.pos == MachHeaderCursor(libFile.data, StartOf(seek, old(libFile.pos)))
  {
    if seek.Some? {
      libFile.Seek(seek.value);
    }
    var baseClassAndMagic :- GetBaseClassAndMagicNumber(libFile, None);
    var baseClass, magicNumber := baseClassAndMagic.0, baseClassAndMagic.1;
    var machHeaderClass := MachHeaderClass(magicNumber);
    var machHeader :- ReadData(machHeaderClass, libFile);
    r := ReadLoadCommands(libFile, baseClass, NcmdsOf(machHeader, baseClass));
  }

  /** One pass of the `for` loop of `read_mach_header`: save the cursor, peek at the
      `cmd`/`cmdsize` prefix and seek back; read a version command in full, or seek `cmdsize`
      bytes on past any other command. */
  method ReadLoadCommand(libFile: LibFile, baseClass: ByteOrder) returns (step: Step)
    modifies libFile
    ensures step == CommandAt(libFile.data, baseClass, old(libFile.pos))
    ensures libFile.pos == CommandCursor(libFile.data, baseClass, old(libFile.pos))
  {
    var pos := libFile.Tell();
    var segmentBase := ReadData(SegmentBase, libFile);
    if segmentBase.ValueError? {
      return Found(ValueError);
    }
    libFile.Seek(pos);
    var cmd := CmdOf(segmentBase.value, baseClass);
    if cmd == LC_VERSION_MIN_MACOSX {
      var versionInfo := ReadData(VersionMinCommand, libFile);
      if versionInfo.ValueError? {
        return Found(ValueError);
      }
      return Found(Ok(Some(ParseVersion(VersionFieldOf(versionInfo.value, baseClass)))));
    } else if cmd == LC_BUILD_VERSION {
      var versionInfo := ReadData(BuildVersionCommand, libFile);
      if versionInfo.ValueError? {
        return Found(ValueError);
      }
      return Found(Ok(Some(ParseVersion(MinosFieldOf(versionInfo.value, baseClass)))));
    }
    libFile.Seek(pos + CmdSizeOf(segmentBase.value, baseClass));
    return Skip(pos + CmdSizeOf(segmentBase.value, baseClass));
  }

  /** The `for` loop of `read_mach_header` over `ncmds` commands from the cursor: the first
      version command (or short read) decides the result; none at all gives `None`. */
  method ReadLoadCommands(libFile: LibFile, baseClass: ByteOrder, ncmds: nat) returns (r: Result<Option<Version>>)
    modifies libFile
    ensures r == ScanLoadCommands(libFile.data, baseClass, old(libFile.pos), ncmds)
    ensures libFile.pos == ScanCursor(libFile.data, baseClass, old(libFile.pos), ncmds)
  {
    var remaining := ncmds;
    while remaining > 0
      invariant ScanLoadCommands(libFile.data, baseClass, libFile.pos, remaining)
                == ScanLoadCommands(libFile.data, baseClass, old(libFile.pos), ncmds)
      invariant ScanCursor(libFile.data, baseClass, libFile.pos, remaining)
                == ScanCursor(libFile.data, baseClass, old(libFile.pos), ncmds)
    {
      var step := ReadLoadCommand(libFile, baseClass);
      if step.Found? {
        return step.result;
      }
      remaining := remaining - 1;
    }
    return Ok(None);
  }

  /** `[read_data(FatArch, lib_file) for _ in range(nfat_arch)]`: `nfatArch` consecutive
      `fat_arch` records from the cursor; the first short read raises. */
  method ReadFatArchList(libFile: LibFile, nfatArch: nat) returns (r: Result<seq<FatArchBytes>>)
    modifies libFile
    ensures r == FatArchList(libFile.data, old(libFile.pos), nfatArch)
    ensures r.Ok? ==> libFile.pos == old(libFile.pos) + 20 * nfatArch
    ensures r.ValueError? ==> libFile.pos == ShortReadEnd(libFile.data, old(libFile.pos))
  {
    var fatArchList: seq<FatArchBytes> := [];
    var i := 0;
    PrependNothing(FatArchList(libFile.data, libFile.pos, nfatArch));
    while i < nfatArch
      invariant i <= nfatArch
      invariant FatArchList(libFile.data, old(libFile.pos), nfatArch)
                == Prepend(fatArchList, FatArchList(libFile.data, libFile.pos, nfatArch - i))
      invariant libFile.pos == old(libFile.pos) + 20 * i
      invariant i > 0 ==> libFile.pos <= |libFile.data|
    {
      var el :- ReadData(FatArch, libFile);
      PrependStep(fatArchList, el, FatArchList(libFile.data, libFile.pos, nfatArch - i - 1));
      fatArchList := fatArchList + [el];
      i := i + 1;
    }
    assert fatArchList + [] == fatArchList;
    return Ok(fatArchList);
  }

  /** One pass of the loop that fills `versions_list`: the slice's header is read at its `offset`;
      its version, if any, is what the pass appends, and a `ValueError` inside the slice is
      swallowed. */
  method ReadSliceVersion(libFile: LibFile, baseClass: ByteOrder, fatArch: FatArchBytes)
    returns (appended: seq<Version>)
    modifies libFile
    ensures appended == Appended(MachHeaderAt(libFile.data, ArchOffsetOf(fatArch, baseClass)))
    ensures libFile.pos == MachHeaderCursor(libFile.data, ArchOffsetOf(fatArch, baseClass))
  {
    var version := ReadMachHeader(libFile, Some(ArchOffsetOf(fatArch, baseClass)));
    if version.Ok? && version.value.Some? {
      return [version.value.value];
    }
    return [];
  }

  /** The cursor after the loop over the slices: each slice seeks to its own `offset`, so only
      the last one decides it. */
  function LastSliceCursor(data: seq<u8>, order: ByteOrder, archs: seq<FatArchBytes>, pos: nat): nat {
    if archs == [] then pos else MachHeaderCursor(data, ArchOffsetOf(archs[|archs| - 1], order))
  }

  /** The loop that fills `versions_list`, one slice after another. */
  method CollectSliceVersions(libFile: LibFile, baseClass: ByteOrder, fatArchList: seq<FatArchBytes>)
    returns (versionsList: seq<Version>)
    modifies libFile
    ensures versionsList == SliceVersions(libFile.data, baseClass, fatArchList)
    ensures libFile.pos == LastSliceCursor(libFile.data, baseClass, fatArchList, old(libFile.pos))
  {
    versionsList := [];
    var j := 0;
    while j < |fatArchList|
      invariant j <= |fatArchList|
      invariant versionsList == SliceVersions(libFile.data, baseClass, fatArchList[..j])
      invariant libFile.pos == LastSliceCursor(libFile.data, baseClass, fatArchList[..j], old(libFile.pos))
    {
      SliceVersionsStep(libFile.data, baseClass, fatArchList, j);
      var appended := ReadSliceVersion(libFile, baseClass, fatArchList[j]);
      versionsList := versionsList + appended;
      j := j + 1;
    }
    assert fatArchList[..j] == fatArchList;
  }

  /** The fat branch on the cursor, which is at the start of the file. */
  method ReadFatVersion(libFile: LibFile, baseClass: ByteOrder) returns (r: Result<Option<Version>>)
    requires libFile.pos == 0
    modifies libFile
    ensures r == FatVersion(libFile.data, baseClass)
  {
    var fatHeader :- ReadData(FatHeader, libFile);
    var nfatArch := NfatArchOf(fatHeader, baseClass);
    var fatArchList :- ReadFatArchList(libFile, nfatArch);
    var versionsList := CollectSliceVersions(libFile, baseClass, fatArchList);
    if |versionsList| > 0 {
      return Ok(Some(Max(versionsList)));
    } else {
      return Ok(None);
    }
  }

  /** `extract_macosx_min_system_version` on a file whose contents are `contents`. */
  method ExtractMacosxMinSystemVersion(contents: seq<u8>) returns (r: Result<Option<Version>>)
    ensures r == MinSystemVersion(contents)
  {
    var libFile := new LibFile.Open(contents);
    var baseClassAndMagic :- GetBaseClassAndMagicNumber(libFile, Some(0));
    var baseClass, magicNumber := baseClassAndMagic.0, baseClassAndMagic.1;
    if !IsMagic(magicNumber) {
      return Ok(None);
    }
    if magicNumber == FAT_MAGIC || magicNumber == FAT_CIGAM_64 {
      // `magicNumber` is a magic number, so the FAT_CIGAM_64 alternative never holds and the
      // `fat_arch_64` layout is never chosen.
      assert magicNumber == FAT_MAGIC;
      r := ReadFatVersion(libFile, baseClass);
    } else {
      var version := ReadMachHeader(libFile, Some(0));
      if version.ValueError? {
        return Ok(None);
      }
      return version;
    }
  }
}
