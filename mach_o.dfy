/** The constants and record layouts taken from the Mach-O header files, the 32-bit byte swap,
    and the decoding of a 32-bit field in either byte order.

    The host is fixed as little-endian: a `ctypes.Structure` (the "native" base class) reads
    little-endian fields and a `ctypes.BigEndianStructure` (the "swapped" one) big-endian fields. */
module MachO {
  import opened BinaryFile

  /** An unsigned 32-bit value, as `ctypes.c_uint32` yields it. */
  type u32 = x: nat | x < 0x1_0000_0000

  const FAT_MAGIC: u32 := 0xCAFE_BABE
  const FAT_CIGAM: u32 := 0xBEBA_FECA
  const FAT_MAGIC_64: u32 := 0xCAFE_BABF
  const FAT_CIGAM_64: u32 := 0xBFBA_FECA
  const MH_MAGIC: u32 := 0xFEED_FACE
  const MH_CIGAM: u32 := 0xCEFA_EDFE
  const MH_MAGIC_64: u32 := 0xFEED_FACF
  const MH_CIGAM_64: u32 := 0xCFFA_EDFE

  const LC_VERSION_MIN_MACOSX: u32 := 0x24
  const LC_BUILD_VERSION: u32 := 0x32

  /** The byte-reversed magic numbers that make the decoder switch byte order. */
  predicate IsCigam(x: nat) {
    x == FAT_CIGAM || x == FAT_CIGAM_64 || x == MH_CIGAM || x == MH_CIGAM_64
  }

  /** The magic numbers the top level accepts. */
  predicate IsMagic(x: nat) {
    x == FAT_MAGIC || x == FAT_MAGIC_64 || x == MH_MAGIC || x == MH_MAGIC_64
  }

  // ---------------------------------------------------------------------------------------------
  // Byte swap

  /** `swap32`: the four low bytes of `x` in reverse order. Each masked shift of the source picks
      one byte of `x` and moves it to a distinct byte lane, so the bitwise or is a sum here. */
  function Swap32(x: nat): (r: u32) {
    (x % 0x100) * 0x100_0000
    + ((x / 0x100) % 0x100) * 0x1_0000
    + ((x / 0x1_0000) % 0x100) * 0x100
    + (x / 0x100_0000) % 0x100
  }

  /** The unsigned value whose bytes, least significant first, are `b0`, `b1`, `b2`, `b3`. */
  function Bytes32(b0: u8, b1: u8, b2: u8, b3: u8): u32 {
    b0 + 0x100 * b1 + 0x1_0000 * b2 + 0x100_0000 * b3
  }

  /** The bytes of `Bytes32(b0, b1, b2, b3)` are `b0`, `b1`, `b2`, `b3` again. */
  lemma Bytes32Digits(b0: u8, b1: u8, b2: u8, b3: u8)
    ensures var x := Bytes32(b0, b1, b2, b3);
            x % 0x100 == b0 && (x / 0x100) % 0x100 == b1 && (x / 0x1_0000) % 0x100 == b2 && x / 0x100_0000 == b3
  {
    var x := Bytes32(b0, b1, b2, b3);
    var q1, q2 := b1 + 0x100 * b2 + 0x1_0000 * b3, b2 + 0x100 * b3;
    assert x == b0 + 0x100 * q1 && x / 0x100 == q1;
    assert q1 == b1 + 0x100 * q2 && q1 % 0x100 == b1;
    assert x == (b0 + 0x100 * b1) + 0x1_0000 * q2 && x / 0x1_0000 == q2;
    assert x == (b0 + 0x100 * b1 + 0x1_0000 * b2) + 0x100_0000 * b3;
  }

  /** Every 32-bit value is made of its four bytes. */
  lemma BytesOf(x: u32)
    ensures x == Bytes32(x % 0x100, (x / 0x100) % 0x100, (x / 0x1_0000) % 0x100, x / 0x100_0000)
  {
    var q1 := x / 0x100;
    var q2 := q1 / 0x100;
    assert x == x % 0x100 + 0x100 * q1;
    assert q1 == q1 % 0x100 + 0x100 * q2;
    assert q2 == x / 0x1_0000;
    assert q2 / 0x100 == x / 0x100_0000;
    assert q2 == q2 % 0x100 + 0x100 * (q2 / 0x100);
  }

  /** Swapping reverses the order of the four bytes. */
  lemma Swap32Bytes(b0: u8, b1: u8, b2: u8, b3: u8)
    ensures Swap32(Bytes32(b0, b1, b2, b3)) == Bytes32(b3, b2, b1, b0)
  {
    Bytes32Digits(b0, b1, b2, b3);
  }

  /** `swap32` undoes itself on every 32-bit value. */
  lemma Swap32Involutive(x: u32)
    ensures Swap32(Swap32(x)) == x
  {
    var b0, b1, b2, b3 := x % 0x100, (x / 0x100) % 0x100, (x / 0x1_0000) % 0x100, x / 0x100_0000;
    BytesOf(x);
    Swap32Bytes(b0, b1, b2, b3);
    Swap32Bytes(b3, b2, b1, b0);
  }

  /** Each `_MAGIC` constant and its `_CIGAM` partner are byte swaps of each other, so swapping a
      reversed magic number gives a magic number; and no magic number is also a reversed one. */
  lemma MagicSwaps(raw: u32)
    ensures raw == FAT_MAGIC ==> Swap32(raw) == FAT_CIGAM
    ensures raw == FAT_CIGAM ==> Swap32(raw) == FAT_MAGIC
    ensures raw == FAT_MAGIC_64 ==> Swap32(raw) == FAT_CIGAM_64
    ensures raw == FAT_CIGAM_64 ==> Swap32(raw) == FAT_MAGIC_64
    ensures raw == MH_MAGIC ==> Swap32(raw) == MH_CIGAM
    ensures raw == MH_CIGAM ==> Swap32(raw) == MH_MAGIC
    ensures raw == MH_MAGIC_64 ==> Swap32(raw) == MH_CIGAM_64
    ensures raw == MH_CIGAM_64 ==> Swap32(raw) == MH_MAGIC_64
    ensures IsCigam(raw) ==> IsMagic(Swap32(raw))
    ensures IsMagic(raw) ==> !IsCigam(raw)
  {
    if raw == FAT_MAGIC {
      assert raw == Bytes32(0xBE, 0xBA, 0xFE, 0xCA);
      Swap32Bytes(0xBE, 0xBA, 0xFE, 0xCA);
    } else if raw == FAT_CIGAM {
      assert raw == Bytes32(0xCA, 0xFE, 0xBA, 0xBE);
      Swap32Bytes(0xCA, 0xFE, 0xBA, 0xBE);
    } else if raw == FAT_MAGIC_64 {
      assert raw == Bytes32(0xBF, 0xBA, 0xFE, 0xCA);
      Swap32Bytes(0xBF, 0xBA, 0xFE, 0xCA);
    } else if raw == FAT_CIGAM_64 {
      assert raw == Bytes32(0xCA, 0xFE, 0xBA, 0xBF);
      Swap32Bytes(0xCA, 0xFE, 0xBA, 0xBF);
    } else if raw == MH_MAGIC {
      assert raw == Bytes32(0xCE, 0xFA, 0xED, 0xFE);
      Swap32Bytes(0xCE, 0xFA, 0xED, 0xFE);
    } else if raw == MH_CIGAM {
      assert raw == Bytes32(0xFE, 0xED, 0xFA, 0xCE);
      Swap32Bytes(0xFE, 0xED, 0xFA, 0xCE);
    } else if raw == MH_MAGIC_64 {
      assert raw == Bytes32(0xCF, 0xFA, 0xED, 0xFE);
      Swap32Bytes(0xCF, 0xFA, 0xED, 0xFE);
    } else if raw == MH_CIGAM_64 {
      assert raw == Bytes32(0xFE, 0xED, 0xFA, 0xCF);
      Swap32Bytes(0xFE, 0xED, 0xFA, 0xCF);
    }
  }

  // ---------------------------------------------------------------------------------------------
  // Field decoding

  /** The structure base class: `Native` is `ctypes.Structure` (little-endian on this host),
      `Swapped` is the opposite-endian structure (`ctypes.BigEndianStructure`). */
  datatype ByteOrder = Native | Swapped

  /** A `c_uint32` read in host (little-endian) order from `b` at `off`. */
  function U32LE(b: seq<u8>, off: nat): u32
    requires off + 4 <= |b|
  {
    Bytes32(b[off], b[off + 1], b[off + 2], b[off + 3])
  }

  /** A `c_uint32` field read from `b` at `off` with the base class `order`. */
  function U32At(b: seq<u8>, off: nat, order: ByteOrder): u32
    requires off + 4 <= |b|
  {
    match order
    case Native => U32LE(b, off)
    case Swapped => Bytes32(b[off + 3], b[off + 2], b[off + 1], b[off])
  }

  /** The swapped base class reads a field as `swap32` of its host-order reading. */
  lemma U32AtSwapped(b: seq<u8>, off: nat)
    requires off + 4 <= |b|
    ensures U32At(b, off, Swapped) == Swap32(U32LE(b, off))
  {
    Swap32Bytes(b[off], b[off + 1], b[off + 2], b[off + 3]);
  }

  // ---------------------------------------------------------------------------------------------
  // Record layouts

  /** The `ctypes` field types the layouts below use; on the target platforms both are 4 bytes. */
  datatype CType = CInt | CUInt32

  /** The field names the layouts below use. */
  datatype FieldName =
    | magic | cputype | cpusubtype | filetype | ncmds | sizeofcmds | flags | reserved
    | nfat_arch | offset | size | align
    | cmd | cmdsize | version | sdk | platform | minos | ntools

  /** One `(name, ctype)` entry of a `_fields_` list. */
  datatype Field = Field(name: FieldName, ctype: CType)

  /** `ctypes.sizeof` of a field type. */
  function CTypeSize(t: CType): nat {
    4
  }

  /** `ctypes.sizeof` of a structure. Every field is 4 bytes wide and 4-aligned, so there is no padding. */
  function StructSize(fields: seq<Field>): nat {
    if fields == [] then 0 else CTypeSize(fields[0].ctype) + StructSize(fields[1..])
  }

  /** The first field called `name` is a `c_uint32`. */
  predicate HasU32Field(fields: seq<Field>, name: FieldName) {
    |fields| > 0 &&
    if fields[0].name == name then fields[0].ctype == CUInt32 else HasU32Field(fields[1..], name)
  }

  /** Byte offset of the field `name` within the structure. */
  function OffsetOf(fields: seq<Field>, name: FieldName): (off: nat)
    requires HasU32Field(fields, name)
    ensures off + 4 <= StructSize(fields)
  {
    if fields[0].name == name then 0 else CTypeSize(fields[0].ctype) + OffsetOf(fields[1..], name)
  }

  /** The value of the `c_uint32` field `name` of a structure built from the bytes `rec`. */
  function GetField(fields: seq<Field>, name: FieldName, rec: seq<u8>, order: ByteOrder): u32
    requires HasU32Field(fields, name) && |rec| == StructSize(fields)
  {
    U32At(rec, OffsetOf(fields, name), order)
  }

  const MACH_HEADER_FIELDS: seq<Field> := [
    Field(magic, CUInt32), Field(cputype, CInt),
    Field(cpusubtype, CInt), Field(filetype, CUInt32),
    Field(ncmds, CUInt32), Field(sizeofcmds, CUInt32),
    Field(flags, CUInt32)
  ]

  const MACH_HEADER_FIELDS_64: seq<Field> := MACH_HEADER_FIELDS + [Field(reserved, CUInt32)]

  const FAT_HEADER_FIELDS: seq<Field> := [Field(magic, CUInt32), Field(nfat_arch, CUInt32)]

  const FAT_ARCH_FIELDS: seq<Field> := [
    Field(cputype, CInt), Field(cpusubtype, CInt),
    Field(offset, CUInt32), Field(size, CUInt32),
    Field(align, CUInt32)
  ]

  const SEGMENT_BASE_FIELDS: seq<Field> := [Field(cmd, CUInt32), Field(cmdsize, CUInt32)]

  const VERSION_MIN_COMMAND_FIELDS: seq<Field> :=
    SEGMENT_BASE_FIELDS + [Field(version, CUInt32), Field(sdk, CUInt32)]

  const BUILD_VERSION_COMMAND_FIELDS: seq<Field> :=
    SEGMENT_BASE_FIELDS + [Field(platform, CUInt32), Field(minos, CUInt32),
                           Field(sdk, CUInt32), Field(ntools, CUInt32)]

  /** Every field takes 4 bytes, so a structure is 4 bytes per field. */
  lemma {:induction false} StructSizeIsFourPerField(fields: seq<Field>)
    ensures StructSize(fields) == 4 * |fields|
  {
    if fields != [] {
      StructSizeIsFourPerField(fields[1..]);
    }
  }

  /** The field at index `i` is the first called `name`: it starts `4 * i` bytes in. */
  lemma {:induction false} OffsetOfIndex(fields: seq<Field>, name: FieldName, i: nat)
    requires i < |fields| && fields[i].name == name && fields[i].ctype == CUInt32
    requires forall j :: 0 <= j < i ==> fields[j].name != name
    ensures HasU32Field(fields, name) && OffsetOf(fields, name) == 4 * i
  {
    if i > 0 {
      OffsetOfIndex(fields[1..], name, i - 1);
    }
  }

  // ---------------------------------------------------------------------------------------------
  // The structure classes the decoder reads, and the fields it reads from them

  /** The `ctypes` structure classes built from the layouts above (for either base class). */
  datatype Struct =
    | MachHeader | MachHeader64 | FatHeader | FatArch
    | SegmentBase | VersionMinCommand | BuildVersionCommand

  /** The `_fields_` list of each structure class. */
  function FieldsOf(s: Struct): seq<Field> {
    match s
    case MachHeader => MACH_HEADER_FIELDS
    case MachHeader64 => MACH_HEADER_FIELDS_64
    case FatHeader => FAT_HEADER_FIELDS
    case FatArch => FAT_ARCH_FIELDS
    case SegmentBase => SEGMENT_BASE_FIELDS
    case VersionMinCommand => VERSION_MIN_COMMAND_FIELDS
    case BuildVersionCommand => BUILD_VERSION_COMMAND_FIELDS
  }

  /** `ctypes.sizeof(struct_class)`; the `...Layout` lemmas below derive it from the `_fields_` lists. */
  function Sizeof(s: Struct): nat {
    match s
    case MachHeader => 28
    case MachHeader64 => 32
    case FatHeader => 8
    case FatArch => 20
    case SegmentBase => 8
    case VersionMinCommand => 16
    case BuildVersionCommand => 24
  }

  /** The field reads the decoder makes, each the `c_uint32` at the offset the `...Layout`
      lemmas below derive from the structure's `_fields_` list. */
  function NcmdsOf(machHeader: seq<u8>, order: ByteOrder): u32
    requires |machHeader| >= 20
  {
    U32At(machHeader, 16, order)
  }

  function NfatArchOf(fatHeader: seq<u8>, order: ByteOrder): u32
    requires |fatHeader| >= 8
  {
    U32At(fatHeader, 4, order)
  }

  function ArchOffsetOf(fatArch: seq<u8>, order: ByteOrder): u32
    requires |fatArch| >= 12
  {
    U32At(fatArch, 8, order)
  }

  function CmdOf(segmentBase: seq<u8>, order: ByteOrder): u32
    requires |segmentBase| >= 4
  {
    U32At(segmentBase, 0, order)
  }

  function CmdSizeOf(segmentBase: seq<u8>, order: ByteOrder): u32
    requires |segmentBase| >= 8
  {
    U32At(segmentBase, 4, order)
  }

  function VersionFieldOf(versionInfo: seq<u8>, order: ByteOrder): u32
    requires |versionInfo| >= 12
  {
    U32At(versionInfo, 8, order)
  }

  function MinosFieldOf(versionInfo: seq<u8>, order: ByteOrder): u32
    requires |versionInfo| >= 16
  {
    U32At(versionInfo, 12, order)
  }

  // The lemmas below tie `Sizeof` and the field reads to the `_fields_` lists: `Sizeof` is the
  // size `ctypes` gives the structure, and each read is the named `c_uint32` field of a structure
  // built from that many bytes.

  /** `mach_header`: 28 bytes, `ncmds` at byte 16. */
  lemma MachHeaderLayout(rec: seq<u8>, order: ByteOrder)
    requires |rec| == Sizeof(MachHeader)
    ensures Sizeof(MachHeader) == StructSize(MACH_HEADER_FIELDS)
    ensures HasU32Field(MACH_HEADER_FIELDS, ncmds) && NcmdsOf(rec, order) == GetField(MACH_HEADER_FIELDS, ncmds, rec, order)
  {
    StructSizeIsFourPerField(MACH_HEADER_FIELDS);
    OffsetOfIndex(MACH_HEADER_FIELDS, ncmds, 4);
  }

  /** `mach_header_64`: 32 bytes, `ncmds` at byte 16. */
  lemma MachHeader64Layout(rec: seq<u8>, order: ByteOrder)
    requires |rec| == Sizeof(MachHeader64)
    ensures Sizeof(MachHeader64) == StructSize(MACH_HEADER_FIELDS_64)
    ensures HasU32Field(MACH_HEADER_FIELDS_64, ncmds) && NcmdsOf(rec, order) == GetField(MACH_HEADER_FIELDS_64, ncmds, rec, order)
  {
    StructSizeIsFourPerField(MACH_HEADER_FIELDS_64);
    OffsetOfIndex(MACH_HEADER_FIELDS_64, ncmds, 4);
  }

  /** `fat_header`: 8 bytes, `nfat_arch` at byte 4. */
  lemma FatHeaderLayout(rec: seq<u8>, order: ByteOrder)
    requires |rec| == Sizeof(FatHeader)
    ensures Sizeof(FatHeader) == StructSize(FAT_HEADER_FIELDS)
    ensures HasU32Field(FAT_HEADER_FIELDS, nfat_arch) && NfatArchOf(rec, order) == GetField(FAT_HEADER_FIELDS, nfat_arch, rec, order)
  {
    StructSizeIsFourPerField(FAT_HEADER_FIELDS);
    OffsetOfIndex(FAT_HEADER_FIELDS, nfat_arch, 1);
  }

  /** `fat_arch`: 20 bytes, `offset` at byte 8. */
  lemma FatArchLayout(rec: seq<u8>, order: ByteOrder)
    requires |rec| == Sizeof(FatArch)
    ensures Sizeof(FatArch) == StructSize(FAT_ARCH_FIELDS)
    ensures HasU32Field(FAT_ARCH_FIELDS, offset) && ArchOffsetOf(rec, order) == GetField(FAT_ARCH_FIELDS, offset, rec, order)
  {
    StructSizeIsFourPerField(FAT_ARCH_FIELDS);
    OffsetOfIndex(FAT_ARCH_FIELDS, offset, 2);
  }

  /** `segment_base`: 8 bytes, `cmd` at byte 0 and `cmdsize` at byte 4. */
  lemma SegmentBaseLayout(rec: seq<u8>, order: ByteOrder)
    requires |rec| == Sizeof(SegmentBase)
    ensures Sizeof(SegmentBase) == StructSize(SEGMENT_BASE_FIELDS)
    ensures HasU32Field(SEGMENT_BASE_FIELDS, cmd) && CmdOf(rec, order) == GetField(SEGMENT_BASE_FIELDS, cmd, rec, order)
    ensures HasU32Field(SEGMENT_BASE_FIELDS, cmdsize) && CmdSizeOf(rec, order) == GetField(SEGMENT_BASE_FIELDS, cmdsize, rec, order)
  {
    StructSizeIsFourPerField(SEGMENT_BASE_FIELDS);
    OffsetOfIndex(SEGMENT_BASE_FIELDS, cmd, 0);
    OffsetOfIndex(SEGMENT_BASE_FIELDS, cmdsize, 1);
  }

  /** `version_min_command`: 16 bytes, `version` at byte 8. */
  lemma VersionMinCommandLayout(rec: seq<u8>, order: ByteOrder)
    requires |rec| == Sizeof(VersionMinCommand)
    ensures Sizeof(VersionMinCommand) == StructSize(VERSION_MIN_COMMAND_FIELDS)
    ensures HasU32Field(VERSION_MIN_COMMAND_FIELDS, version) && VersionFieldOf(rec, order) == GetField(VERSION_MIN_COMMAND_FIELDS, version, rec, order)
  {
    StructSizeIsFourPerField(VERSION_MIN_COMMAND_FIELDS);
    OffsetOfIndex(VERSION_MIN_COMMAND_FIELDS, version, 2);
  }

  /** `build_version_command`: 24 bytes, `minos` at byte 12. */
  lemma BuildVersionCommandLayout(rec: seq<u8>, order: ByteOrder)
    requires |rec| == Sizeof(BuildVersionCommand)
    ensures Sizeof(BuildVersionCommand) == StructSize(BUILD_VERSION_COMMAND_FIELDS)
    ensures HasU32Field(BUILD_VERSION_COMMAND_FIELDS, minos) && MinosFieldOf(rec, order) == GetField(BUILD_VERSION_COMMAND_FIELDS, minos, rec, order)
  {
    StructSizeIsFourPerField(BUILD_VERSION_COMMAND_FIELDS);
    OffsetOfIndex(BUILD_VERSION_COMMAND_FIELDS, minos, 3);
  }
}
