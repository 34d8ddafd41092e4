/** What the decoder of `wheel/macosx_libfile.py` computes, stated in terms of the bytes of the
    file: where each structure is read, which load command decides a header's version, when a
    `ValueError` escapes and what the fat path returns. */
module MacosxLibfileProperties {
  import opened Results
  import opened BinaryFile
  import opened MachO
  import opened Versions
  import opened MacosxLibfile

  // ---------------------------------------------------------------------------------------------
  // One load command

  /** One pass of the load-command loop at `q`: the `cmd` field at `q` picks the command; a
      version-min command needs 16 bytes and yields the `version` field at `q + 8`, a build-version
      command needs 24 bytes and yields the `minos` field at `q + 12`; any other command moves on
      by the `cmdsize` field at `q + 4`; fewer than 8 bytes raise. */
  lemma CommandAtBytes(data: seq<u8>, order: ByteOrder, q: nat)
    ensures q + 8 > |data| ==> CommandAt(data, order, q) == Found(ValueError)
    ensures q + 8 <= |data| && U32At(data, q, order) == LC_VERSION_MIN_MACOSX ==>
              CommandAt(data, order, q)
              == if q + 16 <= |data| then Found(Ok(Some(ParseVersion(U32At(data, q + 8, order)))))
                 else Found(ValueError)
    ensures q + 8 <= |data| && U32At(data, q, order) == LC_BUILD_VERSION ==>
              CommandAt(data, order, q)
              == if q + 24 <= |data| then Found(Ok(Some(ParseVersion(U32At(data, q + 12, order)))))
                 else Found(ValueError)
    ensures q + 8 <= |data| && U32At(data, q, order) != LC_VERSION_MIN_MACOSX
            && U32At(data, q, order) != LC_BUILD_VERSION ==>
              CommandAt(data, order, q) == Skip(q + U32At(data, q + 4, order))
  {
    if q + 8 <= |data| {
      var cmd := U32At(data, q, order);
      if cmd == LC_VERSION_MIN_MACOSX {
        VersionMinCommandAt(data, order, q);
      } else if cmd == LC_BUILD_VERSION {
        BuildVersionCommandAt(data, order, q);
      } else {
        OtherCommandAt(data, order, q);
      }
    }
  }

  /** The `segment_base` peek at `q`, field by field. */
  lemma SegmentBaseAt(data: seq<u8>, order: ByteOrder, q: nat)
    requires q + 8 <= |data|
    ensures StructAt(data, q, SegmentBase) == Ok(data[q..q + 8])
    ensures CmdOf(data[q..q + 8], order) == U32At(data, q, order)
    ensures CmdSizeOf(data[q..q + 8], order) == U32At(data, q + 4, order)
  {
    FieldAtSlice(data, q, 8, 0, order);
    FieldAtSlice(data, q, 8, 4, order);
  }

  lemma VersionMinCommandAt(data: seq<u8>, order: ByteOrder, q: nat)
    requires q + 8 <= |data| && U32At(data, q, order) == LC_VERSION_MIN_MACOSX
    ensures CommandAt(data, order, q)
            == if q + 16 <= |data| then Found(Ok(Some(ParseVersion(U32At(data, q + 8, order)))))
               else Found(ValueError)
  {
    SegmentBaseAt(data, order, q);
    if q + 16 <= |data| {
      assert StructAt(data, q, VersionMinCommand) == Ok(data[q..q + 16]);
      FieldAtSlice(data, q, 16, 8, order);
    }
  }

  lemma BuildVersionCommandAt(data: seq<u8>, order: ByteOrder, q: nat)
    requires q + 8 <= |data| && U32At(data, q, order) == LC_BUILD_VERSION
    ensures CommandAt(data, order, q)
            == if q + 24 <= |data| then Found(Ok(Some(ParseVersion(U32At(data, q + 12, order)))))
               else Found(ValueError)
  {
    SegmentBaseAt(data, order, q);
    if q + 24 <= |data| {
      assert StructAt(data, q, BuildVersionCommand) == Ok(data[q..q + 24]);
      FieldAtSlice(data, q, 24, 12, order);
    }
  }

  lemma OtherCommandAt(data: seq<u8>, order: ByteOrder, q: nat)
    requires q + 8 <= |data|
    requires U32At(data, q, order) != LC_VERSION_MIN_MACOSX && U32At(data, q, order) != LC_BUILD_VERSION
    ensures CommandAt(data, order, q) == Skip(q + U32At(data, q + 4, order))
  {
    SegmentBaseAt(data, order, q);
  }

  /** Where one pass of the load-command loop at `q` leaves the cursor: at the end of the file
      after a short read, 16 or 24 bytes on after a version command, `cmdsize` bytes on after any
      other command. */
  lemma CommandCursorBytes(data: seq<u8>, order: ByteOrder, q: nat)
    ensures q + 8 > |data| ==> CommandCursor(data, order, q) == ShortReadEnd(data, q)
    ensures q + 8 <= |data| && U32At(data, q, order) == LC_VERSION_MIN_MACOSX ==>
              CommandCursor(data, order, q) == if q + 16 <= |data| then q + 16 else |data|
    ensures q + 8 <= |data| && U32At(data, q, order) == LC_BUILD_VERSION ==>
              CommandCursor(data, order, q) == if q + 24 <= |data| then q + 24 else |data|
    ensures q + 8 <= |data| && U32At(data, q, order) != LC_VERSION_MIN_MACOSX
            && U32At(data, q, order) != LC_BUILD_VERSION ==>
              CommandCursor(data, order, q) == q + U32At(data, q + 4, order)
  {
    if q + 8 <= |data| {
      SegmentBaseAt(data, order, q);
    } else {
      assert StructAt(data, q, SegmentBase) == ValueError;
    }
  }

  /** A field read from a structure's bytes is the same field read from the file. */
  lemma FieldAtSlice(data: seq<u8>, q: nat, n: nat, off: nat, order: ByteOrder)
    requires off + 4 <= n && q + n <= |data|
    ensures U32At(data[q..q + n], off, order) == U32At(data, q + off, order)
  {
    var rec := data[q..q + n];
    assert rec[off] == data[q + off] && rec[off + 1] == data[q + off + 1];
    assert rec[off + 2] == data[q + off + 2] && rec[off + 3] == data[q + off + 3];
  }

  // ---------------------------------------------------------------------------------------------
  // The load-command loop

  /** Where the `k`-th load command from `pos` starts, when the `k` commands before it are all
      skipped; `None` when one of them ends the loop. */
  function CommandOffset(data: seq<u8>, order: ByteOrder, pos: nat, k: nat): Option<nat>
    decreases k
  {
    if k == 0 then Some(pos)
    else
      match CommandAt(data, order, pos)
      case Found(_) => None
      case Skip(next) => CommandOffset(data, order, next, k - 1)
  }

  /** The loop ends with no version exactly when all `ncmds` commands are skipped; it never
      yields `Ok(None)` any other way. */
  lemma {:induction false} ScanNoneIffAllSkipped(data: seq<u8>, order: ByteOrder, pos: nat, ncmds: nat)
    ensures ScanLoadCommands(data, order, pos, ncmds) == Ok(None)
            <==> CommandOffset(data, order, pos, ncmds).Some?
    decreases ncmds
  {
    if ncmds > 0 {
      match CommandAt(data, order, pos)
      case Found(result) =>
        assert result == ValueError || (result.Ok? && result.value.Some?) by {
          FoundIsNotNone(data, order, pos);
        }
      case Skip(next) =>
        ScanNoneIffAllSkipped(data, order, next, ncmds - 1);
    }
  }

  /** A pass that ends the loop either raises or has found a version. */
  lemma FoundIsNotNone(data: seq<u8>, order: ByteOrder, q: nat)
    ensures CommandAt(data, order, q).Found? ==>
              CommandAt(data, order, q).result == ValueError
              || (CommandAt(data, order, q).result.Ok? && CommandAt(data, order, q).result.value.Some?)
  {
  }

  /** The first command that ends the loop decides its result: when the `k` commands before the
      one at `q` are skipped and `k < ncmds`, the loop's result is that command's, and the cursor
      is where that pass leaves it. */
  lemma {:induction false} ScanStopsAtFirstFound(data: seq<u8>, order: ByteOrder, pos: nat, ncmds: nat, k: nat, q: nat)
    requires k < ncmds
    requires CommandOffset(data, order, pos, k) == Some(q)
    requires CommandAt(data, order, q).Found?
    ensures ScanLoadCommands(data, order, pos, ncmds) == CommandAt(data, order, q).result
    ensures ScanCursor(data, order, pos, ncmds) == CommandCursor(data, order, q)
    decreases k
  {
    if k > 0 {
      var next := CommandAt(data, order, pos).next;
      ScanStopsAtFirstFound(data, order, next, ncmds - 1, k - 1, q);
    }
  }

  /** Commands past the `ncmds`-th are never looked at: the loop's result depends only on the first
      `ncmds` passes, and when they are all skipped it is `None` whatever follows, with the cursor
      at the start of the command after the last one skipped. */
  lemma {:induction false} ScanIgnoresLaterCommands(data: seq<u8>, order: ByteOrder, pos: nat, ncmds: nat, more: nat)
    requires CommandOffset(data, order, pos, ncmds).Some?
    ensures ScanLoadCommands(data, order, pos, ncmds) == Ok(None)
    ensures ScanCursor(data, order, pos, ncmds) == CommandOffset(data, order, pos, ncmds).value
    ensures ScanLoadCommands(data, order, pos, ncmds + more)
            == ScanLoadCommands(data, order, CommandOffset(data, order, pos, ncmds).value, more)
    decreases ncmds
  {
    if ncmds > 0 {
      var next := CommandAt(data, order, pos).next;
      ScanIgnoresLaterCommands(data, order, next, ncmds - 1, more);
    }
  }

  // ---------------------------------------------------------------------------------------------
  // The magic number and the Mach-O header

  /** `get_base_class_and_magic_number` at `start` reads the 4 bytes there in host order; a
      reversed magic number selects the swapped base class and is swapped back, anything else
      is kept as read with the native base class. Fewer than 4 bytes raise. */
  lemma MagicAtBytes(data: seq<u8>, start: nat)
    ensures start + 4 > |data| ==> MagicAt(data, start) == ValueError
    ensures start + 4 <= |data| ==>
              var raw := U32LE(data, start);
              MagicAt(data, start)
              == if IsCigam(raw) then Ok((Swapped, Swap32(raw))) else Ok((Native, raw))
  {
    if start + 4 <= |data| {
      var chunk := Window(data, start, 4);
      assert chunk == data[start..start + 4];
      assert U32LE(chunk, 0) == U32LE(data, start);
    }
  }

  /** A header written in the opposite byte order (its first bytes `FE ED FA CE`) is read with the
      swapped base class and recognised as `MH_MAGIC`. */
  lemma BigEndianHeaderIsSwapped(data: seq<u8>)
    requires |data| >= 4 && data[..4] == [0xFE, 0xED, 0xFA, 0xCE]
    ensures MagicAt(data, 0) == Ok((Swapped, MH_MAGIC))
  {
    assert data[0] == 0xFE && data[1] == 0xED && data[2] == 0xFA && data[3] == 0xCE;
    MagicAtBytes(data, 0);
    MagicSwaps(U32LE(data, 0));
  }

  /** `read_mach_header` at `start`: after the magic number, a 28-byte `mach_header` when the
      magic is `MH_MAGIC` and a 32-byte `mach_header_64` for every other value; the load commands
      follow it, `ncmds` (the field at `start + 16`) of them. A header cut short raises. */
  lemma MachHeaderAtBytes(data: seq<u8>, start: nat)
    ensures start + 4 > |data| ==> MachHeaderAt(data, start) == ValueError
    ensures start + 4 <= |data| ==>
              var order, magic := MagicAt(data, start).value.0, MagicAt(data, start).value.1;
              var width := if magic == MH_MAGIC then 28 else 32;
              MachHeaderAt(data, start)
              == if start + width <= |data|
                 then ScanLoadCommands(data, order, start + width, U32At(data, start + 16, order))
                 else ValueError
  {
    if start + 4 <= |data| {
      var order, magic := MagicAt(data, start).value.0, MagicAt(data, start).value.1;
      var width := if magic == MH_MAGIC then 28 else 32;
      if start + width <= |data| {
        assert StructAt(data, start, MachHeaderClass(magic)) == Ok(data[start..start + width]);
        FieldAtSlice(data, start, width, 16, order);
      }
    }
  }

  /** Where `read_mach_header` at `start` leaves the cursor: at the end of the file when the
      magic number or the header is cut short, otherwise where the load-command loop leaves it. */
  lemma MachHeaderCursorBytes(data: seq<u8>, start: nat)
    ensures start + 4 > |data| ==> MachHeaderCursor(data, start) == ShortReadEnd(data, start)
    ensures start + 4 <= |data| ==>
              var order, magic := MagicAt(data, start).value.0, MagicAt(data, start).value.1;
              var width := if magic == MH_MAGIC then 28 else 32;
              MachHeaderCursor(data, start)
              == if start + width <= |data|
                 then ScanCursor(data, order, start + width, U32At(data, start + 16, order))
                 else |data|
  {
    if start + 4 <= |data| {
      var order, magic := MagicAt(data, start).value.0, MagicAt(data, start).value.1;
      var width := if magic == MH_MAGIC then 28 else 32;
      if start + width <= |data| {
        assert StructAt(data, start, MachHeaderClass(magic)) == Ok(data[start..start + width]);
        FieldAtSlice(data, start, width, 16, order);
      }
    }
  }

  // ---------------------------------------------------------------------------------------------
  // The fat path

  /** `fat_arch_list`: the `nfat` records are read back to back from `pos`, 20 bytes each; the
      list is read in full exactly when all of it is in the file (an empty list always is). */
  lemma {:induction false} FatArchListBytes(data: seq<u8>, pos: nat, nfat: nat)
    ensures FatArchList(data, pos, nfat).Ok? <==> nfat == 0 || pos + 20 * nfat <= |data|
    ensures FatArchList(data, pos, nfat).Ok? ==>
              forall i :: 0 <= i < nfat ==>
                FatArchList(data, pos, nfat).value[i] == data[pos + 20 * i..pos + 20 * i + 20]
    decreases nfat
  {
    if nfat > 0 {
      FatArchListBytes(data, pos + 20, nfat - 1);
      if pos + 20 <= |data| {
        assert StructAt(data, pos, FatArch) == Ok(data[pos..pos + 20]);
        var r := FatArchList(data, pos, nfat);
        assert r == Prepend([data[pos..pos + 20]], FatArchList(data, pos + 20, nfat - 1));
        if r.Ok? {
          var rest := FatArchList(data, pos + 20, nfat - 1).value;
          assert r.value == [data[pos..pos + 20]] + rest;
          forall i | 0 <= i < nfat
            ensures r.value[i] == data[pos + 20 * i..pos + 20 * i + 20]
          {
            if i > 0 {
              assert r.value[i] == rest[i - 1];
            }
          }
        }
      } else {
        assert StructAt(data, pos, FatArch) == ValueError;
      }
    }
  }

  /** The outcome of `read_mach_header` for each slice, in order. */
  function HeaderResults(data: seq<u8>, order: ByteOrder, archs: seq<FatArchBytes>): (rs: seq<Result<Option<Version>>>)
    ensures |rs| == |archs|
    ensures forall i :: 0 <= i < |archs| ==> rs[i] == MachHeaderAt(data, ArchOffsetOf(archs[i], order))
  {
    seq(|archs|, i requires 0 <= i < |archs| => MachHeaderAt(data, ArchOffsetOf(archs[i], order)))
  }

  /** The versions among a sequence of `read_mach_header` outcomes, in order. */
  function Collected(rs: seq<Result<Option<Version>>>): seq<Version> {
    if rs == [] then [] else Collected(rs[..|rs| - 1]) + Appended(rs[|rs| - 1])
  }

  /** `versions_list` collects the versions among the slices' outcomes. */
  lemma {:induction false} SliceVersionsCollects(data: seq<u8>, order: ByteOrder, archs: seq<FatArchBytes>)
    ensures SliceVersions(data, order, archs) == Collected(HeaderResults(data, order, archs))
    decreases |archs|
  {
    if archs != [] {
      var init := archs[..|archs| - 1];
      SliceVersionsCollects(data, order, init);
      var rs := HeaderResults(data, order, archs);
      assert rs[..|rs| - 1] == HeaderResults(data, order, init);
    }
  }

  /** A version is among the collected ones exactly when some outcome yields it. */
  lemma {:induction false} CollectedMembers(rs: seq<Result<Option<Version>>>, v: Version)
    ensures v in Collected(rs) <==> exists i :: 0 <= i < |rs| && rs[i] == Ok(Some(v))
    decreases |rs|
  {
    if rs != [] {
      var init := rs[..|rs| - 1];
      CollectedMembers(init, v);
      if exists i :: 0 <= i < |rs| && rs[i] == Ok(Some(v)) {
        var i :| 0 <= i < |rs| && rs[i] == Ok(Some(v));
        if i < |rs| - 1 {
          assert init[i] == rs[i];
        }
      }
      if exists i :: 0 <= i < |init| && init[i] == Ok(Some(v)) {
        var i :| 0 <= i < |init| && init[i] == Ok(Some(v));
        assert rs[i] == init[i];
      }
    }
  }

  /** A version is in `versions_list` exactly when some slice's header yields it. */
  lemma SliceVersionsMembers(data: seq<u8>, order: ByteOrder, archs: seq<FatArchBytes>, v: Version)
    ensures v in SliceVersions(data, order, archs)
            <==> exists i :: 0 <= i < |archs| && HeaderResults(data, order, archs)[i] == Ok(Some(v))
  {
    SliceVersionsCollects(data, order, archs);
    CollectedMembers(HeaderResults(data, order, archs), v);
  }

  // ---------------------------------------------------------------------------------------------
  // `extract_macosx_min_system_version`

  /** The byte order and the magic number the top level reads at the start of the file. */
  function OrderAt0(data: seq<u8>): ByteOrder
    requires |data| >= 4
  {
    MagicAt(data, 0).value.0
  }

  function MagicAt0(data: seq<u8>): u32
    requires |data| >= 4
  {
    MagicAt(data, 0).value.1
  }

  /** The outcome of `read_mach_header` at the `offset` of each of the `nfat` `fat_arch` records
      that follow the 8-byte `fat_header`. */
  function SliceResults(data: seq<u8>, order: ByteOrder, nfat: nat): (rs: seq<Result<Option<Version>>>)
    requires 8 + 20 * nfat <= |data|
    ensures |rs| == nfat
    ensures forall i :: 0 <= i < nfat ==> rs[i] == MachHeaderAt(data, U32At(data, 16 + 20 * i, order))
  {
    seq(nfat, i requires 0 <= i < nfat => MachHeaderAt(data, U32At(data, 16 + 20 * i, order)))
  }

  /** A `ValueError` escapes the top level exactly when the file is shorter than its magic
      number, or it is a fat file whose `fat_header` or `fat_arch` table is cut short. A Mach-O
      header that fails to read, in a thin file or in any slice, never raises. */
  lemma RaisesIff(data: seq<u8>)
    ensures MinSystemVersion(data) == ValueError
            <==> |data| < 4
                 || (MagicAt0(data) == FAT_MAGIC
                     && (|data| < 8 || 8 + 20 * U32At(data, 4, OrderAt0(data)) > |data|))
  {
    if |data| >= 4 && MagicAt0(data) == FAT_MAGIC {
      if |data| >= 8 {
        var order := OrderAt0(data);
        assert StructAt(data, 0, FatHeader) == Ok(data[..8]);
        FieldAtSlice(data, 0, 8, 4, order);
        FatArchListBytes(data, 8, U32At(data, 4, order));
      } else {
        assert StructAt(data, 0, FatHeader) == ValueError;
      }
    }
  }

  /** A file whose magic number (after the byte-order check) is not one of the four magic
      numbers has no version. */
  lemma UnrecognizedMagicIsNone(data: seq<u8>)
    requires |data| >= 4 && !IsMagic(MagicAt0(data))
    ensures MinSystemVersion(data) == Ok(None)
  {
  }

  /** A file that starts with `MH_MAGIC`, `MH_MAGIC_64` or `FAT_MAGIC_64` is read as one Mach-O
      header at offset 0 (a `FAT_MAGIC_64` file too: the fat branch tests `FAT_CIGAM_64`, which a
      normalised magic number never is); a `ValueError` from it becomes `None`. */
  lemma ThinFileIsOneHeader(data: seq<u8>)
    requires |data| >= 4
    requires MagicAt0(data) == MH_MAGIC || MagicAt0(data) == MH_MAGIC_64 || MagicAt0(data) == FAT_MAGIC_64
    ensures MinSystemVersion(data) == if MachHeaderAt(data, 0).Ok? then MachHeaderAt(data, 0) else Ok(None)
  {
  }

  /** The slices the `fat_arch` table after the `fat_header` points at are the ones whose
      outcomes `SliceResults` lists. */
  lemma FatArchTableOffsets(data: seq<u8>, order: ByteOrder, nfat: nat)
    requires 8 + 20 * nfat <= |data|
    ensures FatArchList(data, 8, nfat).Ok?
    ensures HeaderResults(data, order, FatArchList(data, 8, nfat).value) == SliceResults(data, order, nfat)
  {
    FatArchListBytes(data, 8, nfat);
    var archs := FatArchList(data, 8, nfat).value;
    forall i | 0 <= i < nfat
      ensures ArchOffsetOf(archs[i], order) == U32At(data, 16 + 20 * i, order)
    {
      FieldAtSlice(data, 8 + 20 * i, 20, 8, order);
    }
  }

  /** On a fat file whose tables are all there, the top level takes the `max` of the versions
      the slices yield, or `None` when there are none. */
  lemma FatResultCollects(data: seq<u8>)
    requires |data| >= 8 && MagicAt0(data) == FAT_MAGIC
    requires 8 + 20 * U32At(data, 4, OrderAt0(data)) <= |data|
    ensures var vs := Collected(SliceResults(data, OrderAt0(data), U32At(data, 4, OrderAt0(data))));
            MinSystemVersion(data) == if |vs| > 0 then Ok(Some(Max(vs))) else Ok(None)
  {
    var order := OrderAt0(data);
    var nfat := U32At(data, 4, order);
    assert StructAt(data, 0, FatHeader) == Ok(data[..8]);
    FieldAtSlice(data, 0, 8, 4, order);
    FatArchTableOffsets(data, order, nfat);
    SliceVersionsCollects(data, order, FatArchList(data, 8, nfat).value);
  }

  /** `max` over the collected versions: `None` exactly when no outcome yields a version, and
      otherwise a version some outcome yields and no outcome exceeds. */
  lemma MaxOfCollected(rs: seq<Result<Option<Version>>>)
    ensures var vs := Collected(rs);
            && (|vs| == 0 <==> forall i :: 0 <= i < |rs| ==> !(rs[i].Ok? && rs[i].value.Some?))
            && (|vs| > 0 ==> exists i :: 0 <= i < |rs| && rs[i] == Ok(Some(Max(vs))))
            && (|vs| > 0 ==>
                  forall i :: 0 <= i < |rs| && rs[i].Ok? && rs[i].value.Some? ==> LessEq(rs[i].value.value, Max(vs)))
  {
    var vs := Collected(rs);
    forall i | 0 <= i < |rs| && rs[i].Ok? && rs[i].value.Some?
      ensures rs[i].value.value in vs
    {
      CollectedMembers(rs, rs[i].value.value);
    }
    if |vs| > 0 {
      CollectedMembers(rs, Max(vs));
    }
  }

  /** A fat file whose tables are all there: the result is `None` exactly when no slice's header
      yields a version, and otherwise the greatest version some slice yields (tuple order). */
  lemma FatResultIsMax(data: seq<u8>)
    requires |data| >= 8 && MagicAt0(data) == FAT_MAGIC
    requires 8 + 20 * U32At(data, 4, OrderAt0(data)) <= |data|
    ensures var rs := SliceResults(data, OrderAt0(data), U32At(data, 4, OrderAt0(data)));
            var r := MinSystemVersion(data);
            && r.Ok?
            && (r.value.None? <==> forall i :: 0 <= i < |rs| ==> !(rs[i].Ok? && rs[i].value.Some?))
            && (r.value.Some? ==> exists i :: 0 <= i < |rs| && rs[i] == r)
            && (r.value.Some? ==>
                  forall i :: 0 <= i < |rs| && rs[i].Ok? && rs[i].value.Some? ==> LessEq(rs[i].value.value, r.value.value))
  {
    FatResultCollects(data);
    MaxOfCollected(SliceResults(data, OrderAt0(data), U32At(data, 4, OrderAt0(data))));
  }

  /** A little-endian thin library whose first load command is `LC_VERSION_MIN_MACOSX`: its
      minimum system version is that command's `version` field as `parse_version` reads it. */
  lemma ThinVersionMinDecodes(data: seq<u8>)
    requires |data| >= 44 && U32LE(data, 0) == MH_MAGIC
    requires U32At(data, 16, Native) > 0 && U32At(data, 28, Native) == LC_VERSION_MIN_MACOSX
    ensures MinSystemVersion(data) == Ok(Some(ParseVersion(U32At(data, 36, Native))))
  {
    MagicAtBytes(data, 0);
    assert MagicAt(data, 0) == Ok((Native, MH_MAGIC));
    ThinFileIsOneHeader(data);
    MachHeaderAtBytes(data, 0);
    VersionMinCommandAt(data, Native, 28);
  }

  /** A little-endian thin library, word by word: a 28-byte `mach_header` with one load command,
      then an `LC_VERSION_MIN_MACOSX` command whose `version` field packs macOS 10.13 as
      `0x000A0D00`. */
  const THIN_TEN_THIRTEEN: seq<u8> :=
    [0xCE, 0xFA, 0xED, 0xFE] + [0x07, 0x00, 0x00, 0x01] + [0x03, 0x00, 0x00, 0x00] + [0x06, 0x00, 0x00, 0x00]
    + [0x01, 0x00, 0x00, 0x00] + [0x10, 0x00, 0x00, 0x00] + [0x00, 0x00, 0x00, 0x00]
    + [0x24, 0x00, 0x00, 0x00] + [0x10, 0x00, 0x00, 0x00] + [0x00, 0x0D, 0x0A, 0x00] + [0x00, 0x0D, 0x0A, 0x00]

  /** The decoder reports that library's minimum system version as `(10, 13, 256)`, not
      `(10, 13, 0)`: the 9-bit patch mask picks up the low bit of the minor. */
  lemma ThinTenThirteenDecodes()
    ensures MinSystemVersion(THIN_TEN_THIRTEEN) == Ok(Some(Version(10, 13, 256)))
  {
    var data := THIN_TEN_THIRTEEN;
    assert data[0] == 0xCE && data[1] == 0xFA && data[2] == 0xED && data[3] == 0xFE;
    assert U32LE(data, 0) == MH_MAGIC;
    assert data[16] == 1 && data[17] == 0 && data[18] == 0 && data[19] == 0;
    assert data[28] == 0x24 && data[29] == 0 && data[30] == 0 && data[31] == 0;
    assert data[36] == 0 && data[37] == 0x0D && data[38] == 0x0A && data[39] == 0;
    ThinVersionMinDecodes(data);
    ParseVersionTenThirteen();
  }
}
