# macOS minimum-system-version decoder

A model of `wheel/macosx_libfile.py`. This is the part of `wheel` that opens a Mach-O library,
thin or fat (universal), and reports the minimum macOS version the library was built for. That
version comes from the first `LC_VERSION_MIN_MACOSX` or `LC_BUILD_VERSION` load command. For a
fat file it is the greatest version over all slices.

The model has six modules:

- `Results`: `Option` and `Result`. `ValueError` stands for the exception `from_buffer_copy`
  raises when a read comes back short.
- `BinaryFile`: the opened file. It is a `LibFile` class whose contents are fixed and whose
  cursor `pos` is read by `Tell` and changed by `Seek` and `Read`. `Read` returns fewer bytes near the end
  of the file, as Python's `read` does.
- `MachO`: the magic and load-command constants and `swap32`. It also holds the record layouts
  as field lists, and the readers of `c_uint32` fields in native (little-endian) and swapped
  byte order.
- `Versions`: `parse_version`, Python's tuple order on `(major, minor, patch)`, and `max`.
- `MacosxLibfile`: the decoder. Each Python function is modelled twice:
  - as a function of the file contents (`MagicAt`, `MachHeaderAt`, `MinSystemVersion`, …),
    together with a function giving where it leaves the cursor (`CommandCursor`, `ScanCursor`,
    `MachHeaderCursor`, …);
  - as a method on the `LibFile` cursor that performs the same reads, seeks and loops as the
    source. Each method's postcondition says it returns what the function computes and leaves
    the cursor where the cursor function says (except `ReadFatVersion`, see Left out).
- `MacosxLibfileProperties`: what the decoder computes, stated in terms of the file's bytes:
  - which load command decides the version;
  - when a `ValueError` escapes;
  - which magic numbers take which path;
  - that the fat path returns the maximum of what the slices yield.

The model follows the code as written, including where it departs from the Mach-O conventions it
cites:

- `parse_version` masks with `2**9-1` rather than `0xff`. A version packed as `xxxx.yy.zz` with
  an odd minor or an odd major is therefore decoded with 256 added to the patch or to the minor.
  For example, `0x000A0D00` (10.13) decodes to `(10, 13, 256)`.
- The fat branch tests `magic_number in [FAT_MAGIC, FAT_CIGAM_64]`. The magic number has already
  been normalised, so it is never `FAT_CIGAM_64`. A `FAT_MAGIC_64` file is therefore read as a
  single Mach-O header at offset 0, and the `fat_arch_64` layout is never used.
- `read_mach_header` treats every magic number other than `MH_MAGIC` as 64-bit. A header's width
  is 28 bytes for `MH_MAGIC` and 32 bytes otherwise.
- `get_base_class_and_magic_number` seeks back to where it started (line 237), so
  `read_mach_header` reads the header starting at the magic number.

## Model

| member | source | states |
|---|---|---|
| MachO.Swap32 | wheel/macosx_libfile.py:211-215 | `swap32` as the sum of its four masked shifts; what it does is stated by `Swap32Bytes` and `Swap32Involutive` |
| MachO.Swap32Bytes | wheel/macosx_libfile.py:211-215 | `swap32` reverses the four bytes of a 32-bit value |
| MachO.Swap32Involutive | wheel/macosx_libfile.py:211-215 | `swap32` undoes itself on every 32-bit value |
| MachO.MagicSwaps | wheel/macosx_libfile.py:43-50 | each `_MAGIC` constant and its `_CIGAM` partner swap into each other; a swapped `_CIGAM` is a magic number, and no magic number is a `_CIGAM` |
| MachO.U32AtSwapped | wheel/macosx_libfile.py:227-233 | a field read with the opposite-endian base class is `swap32` of its host-order reading |
| MachO.OffsetOf | wheel/macosx_libfile.py:56-61 | a `c_uint32` field of a record lies wholly inside the record |
| MachO.StructSizeIsFourPerField | wheel/macosx_libfile.py:56-61 | every record the decoder reads is four bytes per field (all fields are `c_int` or `c_uint32`) |
| MachO.OffsetOfIndex | wheel/macosx_libfile.py:56-61 | the field at position `i` of a record lies at byte `4 * i` |
| MachO.MachHeaderLayout | wheel/macosx_libfile.py:56-61 | `mach_header` is 28 bytes, and `ncmds` is its field at byte 16 |
| MachO.MachHeader64Layout | wheel/macosx_libfile.py:76 | `mach_header_64` is 32 bytes, and `ncmds` is its field at byte 16 |
| MachO.FatHeaderLayout | wheel/macosx_libfile.py:90 | `fat_header` is 8 bytes, and `nfat_arch` is its field at byte 4 |
| MachO.FatArchLayout | wheel/macosx_libfile.py:98-102 | `fat_arch` is 20 bytes, and `offset` is its field at byte 8 |
| MachO.SegmentBaseLayout | wheel/macosx_libfile.py:129 | the load-command peek is 8 bytes: `cmd` at byte 0 and `cmdsize` at byte 4 |
| MachO.VersionMinCommandLayout | wheel/macosx_libfile.py:181-182 | `version_min_command` is 16 bytes, and `version` is its field at byte 8 |
| MachO.BuildVersionCommandLayout | wheel/macosx_libfile.py:195-197 | `build_version_command` is 24 bytes, and `minos` is its field at byte 12 |
| Versions.ParseVersion | wheel/macosx_libfile.py:345-350 | patch and minor are below 512 (9-bit masks), and the major is below 2^16 |
| Versions.LayoutVersionRoundTrip | wheel/macosx_libfile.py:190 | the documented `xxxx.yy.zz` reading and packing of a version field are inverse bijections |
| Versions.ParseVersionOfPacked | wheel/macosx_libfile.py:345-350 | on a packed `xxxx.yy.zz` field, `parse_version` adds 256 × (minor mod 2) to the patch and 256 × (major mod 2) to the minor |
| Versions.ParseVersionOfPackedEven | wheel/macosx_libfile.py:345-350 | with an even major and an even minor, `parse_version` recovers the packed version |
| Versions.ParseVersionMatchesLayoutIff | wheel/macosx_libfile.py:345-350 | `parse_version` agrees with the documented layout if and only if bits 8 and 16 of the field are clear |
| Versions.ParseVersionTenThirteen | wheel/macosx_libfile.py:345-350 | `0x000A0D00` (10.13) decodes to `(10, 13, 256)` |
| Versions.Less | wheel/macosx_libfile.py:281 | Python's `<` on `(major, minor, patch)` tuples, the order `max` uses |
| Versions.LessIsStrictTotalOrder | wheel/macosx_libfile.py:281 | tuple order is irreflexive, asymmetric, transitive and total |
| Versions.Max | wheel/macosx_libfile.py:280-281 | `max` returns a member of the list that no member exceeds in tuple order |
| Versions.MaxIsUnique | wheel/macosx_libfile.py:280-281 | any member that no member exceeds is the one `max` returns |
| BinaryFile.Window | wheel/macosx_libfile.py:241-243 | `read(n)` returns `n` bytes exactly when they are all in the file, and fewer otherwise |
| MacosxLibfile.StructAt | wheel/macosx_libfile.py:241-243 | `read_data` yields the record's bytes at the cursor, or raises `ValueError` when the file ends first |
| MacosxLibfile.ClassifyMagic | wheel/macosx_libfile.py:227-235 | the swapped base class is chosen exactly for the four `_CIGAM` values, which are swapped into magic numbers; every other value is kept in native order |
| MacosxLibfile.MagicAt | wheel/macosx_libfile.py:218-238 | the magic read succeeds exactly when 4 bytes remain, and the returned number is the field at `start` in the chosen byte order |
| MacosxLibfile.FatArchList | wheel/macosx_libfile.py:266 | a successful `fat_arch` list has `nfat_arch` entries |
| MacosxLibfile.MachHeaderClass | wheel/macosx_libfile.py:303-321 | the 28-byte `mach_header` for `MH_MAGIC` only, the 32-byte `mach_header_64` for every other magic number; `MachHeaderAtBytes` states the widths |
| MacosxLibfile.CommandAt | wheel/macosx_libfile.py:325-341 | one pass of the load-command loop, as a function of the file; `CommandAtBytes` states it in bytes |
| MacosxLibfile.ScanLoadCommands | wheel/macosx_libfile.py:324-342 | the whole load-command loop; `ScanNoneIffAllSkipped`, `ScanStopsAtFirstFound` and `ScanIgnoresLaterCommands` state its first-match rule |
| MacosxLibfile.MachHeaderAt | wheel/macosx_libfile.py:293-342 | `read_mach_header` at an offset; `MachHeaderAtBytes` states it in bytes |
| MacosxLibfile.SliceVersions | wheel/macosx_libfile.py:271-278 | `versions_list` after the slice loop; `SliceVersionsMembers` states which versions it holds |
| MacosxLibfile.MinSystemVersion | wheel/macosx_libfile.py:246-290 | `extract_macosx_min_system_version`; `RaisesIff`, `UnrecognizedMagicIsNone`, `ThinFileIsOneHeader` and `FatResultIsMax` state its outcome |
| MacosxLibfile.ScanCursor | wheel/macosx_libfile.py:324-342 | where the load-command loop leaves the cursor; `ScanStopsAtFirstFound` and `ScanIgnoresLaterCommands` pin it to the pass that ends the loop, or to the command after the last one skipped |
| MacosxLibfile.MachHeaderCursor | wheel/macosx_libfile.py:293-342 | where `read_mach_header` leaves the cursor; `MachHeaderCursorBytes` states it in bytes |
| MacosxLibfile.LastSliceCursor | wheel/macosx_libfile.py:271-278 | where the slice loop leaves the cursor: the last slice's `MachHeaderCursor`, or the old cursor when there are no slices |
| MacosxLibfile.FatVersion | wheel/macosx_libfile.py:252-283 | the fat branch: `fat_header`, `fat_arch` list, then `max` of the slices' versions; `FatResultIsMax` states its outcome |
| MacosxLibfile.CommandCursor | wheel/macosx_libfile.py:325-341 | after a skipped command the cursor is at the next command; after a version command it is at most 24 bytes on |
| MacosxLibfile.GetBaseClassAndMagicNumber | wheel/macosx_libfile.py:218-238 | returns `MagicAt` at `seek` (or at the cursor); leaves the cursor where it started, or at the end of the file after a short read |
| MacosxLibfile.ReadData | wheel/macosx_libfile.py:241-243 | returns `StructAt` at the cursor, and moves the cursor past the bytes read |
| MacosxLibfile.ReadMachHeader | wheel/macosx_libfile.py:293-342 | returns `MachHeaderAt` at `seek` (or at the cursor), and leaves the cursor at `MachHeaderCursor` |
| MacosxLibfile.ReadLoadCommand | wheel/macosx_libfile.py:325-341 | one loop pass: returns `CommandAt` at the cursor, and leaves the cursor at `CommandCursor` (`pos + cmdsize` on a skip) |
| MacosxLibfile.ReadLoadCommands | wheel/macosx_libfile.py:324-342 | the `ncmds` loop returns `ScanLoadCommands` from the cursor, and leaves the cursor at `ScanCursor` |
| MacosxLibfile.ReadFatArchList | wheel/macosx_libfile.py:266 | returns `FatArchList` at the cursor; a full read leaves the cursor `20 * nfat_arch` bytes on, a short one at the end of the file |
| MacosxLibfile.ReadSliceVersion | wheel/macosx_libfile.py:273-278 | one slice's contribution to `versions_list`, with `ValueError` swallowed; the cursor is where that slice's `read_mach_header` leaves it |
| MacosxLibfile.CollectSliceVersions | wheel/macosx_libfile.py:271-278 | returns `SliceVersions` over the `fat_arch` list; the cursor is where the last slice's read leaves it |
| MacosxLibfile.ReadFatVersion | wheel/macosx_libfile.py:252-283 | the fat branch on the cursor returns `FatVersion` |
| MacosxLibfile.ExtractMacosxMinSystemVersion | wheel/macosx_libfile.py:246-290 | returns `MinSystemVersion` of the file contents |
| MacosxLibfileProperties.CommandAtBytes | wheel/macosx_libfile.py:325-341 | one pass, in bytes: fewer than 8 bytes raise; `LC_VERSION_MIN_MACOSX` yields the field at +8 (16 bytes needed); `LC_BUILD_VERSION` yields the field at +12 (24 bytes needed); any other `cmd` moves to `pos + cmdsize` |
| MacosxLibfileProperties.VersionMinCommandAt | wheel/macosx_libfile.py:328-333 | a version-min command yields `parse_version` of its `version` field, or raises when cut short |
| MacosxLibfileProperties.BuildVersionCommandAt | wheel/macosx_libfile.py:334-339 | a build-version command yields `parse_version` of its `minos` field, or raises when cut short |
| MacosxLibfileProperties.OtherCommandAt | wheel/macosx_libfile.py:340-342 | any other command is skipped by its `cmdsize` |
| MacosxLibfileProperties.CommandCursorBytes | wheel/macosx_libfile.py:325-341 | one pass leaves the cursor at the end of the file after a short read, 16 or 24 bytes on after a version command, and `cmdsize` bytes on after any other command |
| MacosxLibfileProperties.ScanNoneIffAllSkipped | wheel/macosx_libfile.py:324-342 | the loop returns `None` if and only if all `ncmds` commands are skipped |
| MacosxLibfileProperties.ScanStopsAtFirstFound | wheel/macosx_libfile.py:328-339 | the first version command among the first `ncmds` commands decides the result and the final cursor |
| MacosxLibfileProperties.ScanIgnoresLaterCommands | wheel/macosx_libfile.py:324 | when the first `ncmds` commands are all skipped, the loop returns `None` with the cursor at the next command, and the commands after them play no part |
| MacosxLibfileProperties.MagicAtBytes | wheel/macosx_libfile.py:223-235 | the magic read, in bytes: short files raise; `_CIGAM` values give the swapped order and the swapped number; all other values are kept as read |
| MacosxLibfileProperties.BigEndianHeaderIsSwapped | wheel/macosx_libfile.py:227-233 | a file starting `FE ED FA CE` is read with the swapped base class as `MH_MAGIC` |
| MacosxLibfileProperties.MachHeaderAtBytes | wheel/macosx_libfile.py:300-324 | `read_mach_header`, in bytes: the header is 28 bytes for `MH_MAGIC` and 32 bytes otherwise; `ncmds` is the field at +16; the load commands start right after the header |
| MacosxLibfileProperties.MachHeaderCursorBytes | wheel/macosx_libfile.py:300-341 | `read_mach_header` leaves the cursor at the end of the file when the magic number or the header is cut short, and otherwise where the load-command loop after the header leaves it |
| MacosxLibfileProperties.FatArchListBytes | wheel/macosx_libfile.py:266 | the `fat_arch` list is read exactly when all `20 * nfat_arch` bytes are present, and entry `i` is bytes `pos + 20i .. pos + 20i + 20` |
| MacosxLibfileProperties.SliceVersionsMembers | wheel/macosx_libfile.py:271-278 | a version is in `versions_list` if and only if some slice's header yields it |
| MacosxLibfileProperties.CollectedMembers | wheel/macosx_libfile.py:271-278 | a version is collected if and only if some outcome is that version |
| MacosxLibfileProperties.RaisesIff | wheel/macosx_libfile.py:246-290 | a `ValueError` escapes if and only if the file is shorter than 4 bytes, or is `FAT_MAGIC` with its `fat_header` or `fat_arch` table cut short |
| MacosxLibfileProperties.UnrecognizedMagicIsNone | wheel/macosx_libfile.py:249-250 | a file whose normalised magic number is not one of the four magic numbers gives `None` |
| MacosxLibfileProperties.ThinFileIsOneHeader | wheel/macosx_libfile.py:252 | `MH_MAGIC`, `MH_MAGIC_64` and `FAT_MAGIC_64` files are read as one header at offset 0, with `ValueError` turned into `None` |
| MacosxLibfileProperties.FatArchTableOffsets | wheel/macosx_libfile.py:266-274 | slice `i` is read at the `offset` field stored at byte `16 + 20i` |
| MacosxLibfileProperties.FatResultCollects | wheel/macosx_libfile.py:256-283 | a complete fat file gives the `max` of the versions its slices yield, or `None` when there are none |
| MacosxLibfileProperties.MaxOfCollected | wheel/macosx_libfile.py:280-283 | the collected list is empty if and only if no outcome is a version; otherwise its `max` is some outcome's version and no outcome's version exceeds it |
| MacosxLibfileProperties.FatResultIsMax | wheel/macosx_libfile.py:252-283 | a complete fat file never raises. It gives `None` if and only if no slice yields a version, and otherwise the greatest version some slice yields |
| MacosxLibfileProperties.ThinVersionMinDecodes | wheel/macosx_libfile.py:285-290 | a little-endian `MH_MAGIC` library whose first load command is `LC_VERSION_MIN_MACOSX` reports `parse_version` of that command's `version` field |
| MacosxLibfileProperties.ThinTenThirteenDecodes | wheel/macosx_libfile.py:345-350 | a concrete 44-byte thin library built for macOS 10.13 is reported as `(10, 13, 256)` |

## Left out

- Opening and closing the file (`open(path, "rb")` and the `with` block): the model starts from the file's contents.
- Errors from the operating system (a missing file, a failed read): these are not modelled.
- ctypes' dynamic `Structure` subclasses: each is replaced by its byte layout and field readers in `MachO`.
- `sys.byteorder`: the host is fixed to little-endian, so `ctypes.Structure` reads little-endian and the swapped class reads big-endian.
- The `segment_command` and `segment_command_64` layouts: the source declares these classes but never reads them.
- The `fat_arch_64` layout: the branch that would use it is unreachable (see `ThinFileIsOneHeader`).
- Fields the decoder never reads (`cputype`, `cpusubtype`, `filetype`, `sizeofcmds`, `flags`, `reserved`, `size`, `align`, `sdk`, `platform`, `ntools`): these appear in the field lists and sizes only.
- The signedness of the `c_int` fields: it does not affect any field the decoder reads.
- MacosxLibfile.ReadFatVersion: where it leaves the cursor is not stated, because the file is closed as soon as the `with` block returns (line 247); the cursor after each step inside it is stated by `ReadData`, `ReadFatArchList` and `CollectSliceVersions`.
