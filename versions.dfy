/** The minimum system version: how the decoder unpacks it from a 32-bit field, how two versions
    compare (Python tuple order), and the `max` the fat path takes over its slices. */
module Versions {
  import opened BinaryFile
  import opened MachO

  /** The `(major, minor, patch)` tuple the decoder returns. */
  datatype Version = Version(major: nat, minor: nat, patch: nat)

  /** `parse_version`, as written: the patch is the low 9 bits, the minor the 9 bits starting at
      bit 8, the major everything from bit 16 up. The 9-bit masks overlap the next byte, so
      bit 8 lands in both patch and minor and bit 16 in both minor and major. */
  function ParseVersion(version: u32): (v: Version)
    ensures v.patch < 512 && v.minor < 512 && v.major < 0x1_0000
  {
    var zz := version % 512;
    var version1 := version / 256;
    var yy := version1 % 512;
    var version2 := version1 / 256;
    Version(version2, yy, zz)
  }

  /** The `xxxx.yy.zz` packing the Mach-O headers document for a version field: one byte each
      for minor and patch, the upper 16 bits for the major. */
  function PackVersion(major: nat, minor: u8, patch: u8): (version: u32)
    requires major < 0x1_0000
  {
    major * 0x1_0000 + minor * 0x100 + patch
  }

  /** The `xxxx.yy.zz` reading of a version field: the inverse of `PackVersion`. */
  function LayoutVersion(version: u32): (v: Version)
    ensures v.major < 0x1_0000 && v.minor < 0x100 && v.patch < 0x100
  {
    Version(version / 0x1_0000, (version / 0x100) % 0x100, version % 0x100)
  }

  /** Division with remainder by 2 and by the byte and 9-bit widths the decoder uses. */
  lemma DivModBy(x: nat, d: nat, q: nat, r: nat)
    requires d == 2 || d == 0x100 || d == 0x200 || d == 0x1_0000
    requires r < d && x == r + d * q
    ensures x / d == q && x % d == r
  {
  }

  /** `LayoutVersion` and `PackVersion` are inverse bijections between 32-bit fields and
      versions with a 16-bit major and 8-bit minor and patch. */
  lemma LayoutVersionRoundTrip(major: nat, minor: u8, patch: u8, version: u32)
    requires major < 0x1_0000
    ensures LayoutVersion(PackVersion(major, minor, patch)) == Version(major, minor, patch)
    ensures var v := LayoutVersion(version); PackVersion(v.major, v.minor, v.patch) == version
  {
    var x := PackVersion(major, minor, patch);
    DivModBy(x, 0x100, minor + 0x100 * major, patch);
    DivModBy(minor + 0x100 * major, 0x100, major, minor);
    DivModBy(x, 0x1_0000, major, patch + 0x100 * minor);
    var q := version / 0x100;
    DivModBy(version, 0x100, q, version % 0x100);
    DivModBy(q, 0x100, q / 0x100, q % 0x100);
    DivModBy(version, 0x1_0000, q / 0x100, version % 0x100 + 0x100 * (q % 0x100));
  }

  /** What `parse_version` makes of a packed version: the low bit of the minor leaks into the
      patch as 256 and the low bit of the major into the minor as 256. */
  lemma ParseVersionOfPacked(major: nat, minor: u8, patch: u8)
    requires major < 0x1_0000
    ensures ParseVersion(PackVersion(major, minor, patch))
            == Version(major, minor + 0x100 * (major % 2), patch + 0x100 * (minor % 2))
  {
    var x := PackVersion(major, minor, patch);
    var q := minor + 0x100 * major;
    DivModBy(x, 0x100, q, patch);
    DivModBy(x, 0x200, minor / 2 + 0x80 * major, patch + 0x100 * (minor % 2));
    DivModBy(q, 0x200, major / 2, minor + 0x100 * (major % 2));
    DivModBy(q, 0x100, major, minor);
  }

  /** When the major and minor are both even, `parse_version` does recover the packed version. */
  lemma ParseVersionOfPackedEven(major: nat, minor: u8, patch: u8)
    requires major < 0x1_0000 && major % 2 == 0 && minor % 2 == 0
    ensures ParseVersion(PackVersion(major, minor, patch)) == Version(major, minor, patch)
  {
    ParseVersionOfPacked(major, minor, patch);
  }

  /** `parse_version` agrees with the documented layout exactly when bits 8 and 16 of the field are 0. */
  lemma ParseVersionMatchesLayoutIff(version: u32)
    ensures ParseVersion(version) == LayoutVersion(version)
            <==> (version / 0x100) % 2 == 0 && (version / 0x1_0000) % 2 == 0
  {
    var v := LayoutVersion(version);
    LayoutVersionRoundTrip(v.major, v.minor, v.patch, version);
    ParseVersionOfPacked(v.major, v.minor, v.patch);
    DivModBy(version, 0x100, v.minor + 0x100 * v.major, v.patch);
    DivModBy(v.minor + 0x100 * v.major, 2, v.minor / 2 + 0x80 * v.major, v.minor % 2);
  }

  /** macOS 10.13.0 packed as `0x000A0D00` decodes to `(10, 13, 256)`. */
  lemma ParseVersionTenThirteen()
    ensures PackVersion(10, 13, 0) == 0x000A_0D00
    ensures ParseVersion(0x000A_0D00) == Version(10, 13, 256)
  {
    ParseVersionOfPacked(10, 13, 0);
  }

  // ---------------------------------------------------------------------------------------------
  // Ordering and maximum

  /** Python's `<` on `(major, minor, patch)` tuples: lexicographic. */
  predicate Less(a: Version, b: Version) {
    a.major < b.major
    || (a.major == b.major && (a.minor < b.minor || (a.minor == b.minor && a.patch < b.patch)))
  }

  predicate LessEq(a: Version, b: Version) {
    Less(a, b) || a == b
  }

  /** Tuple order is a strict total order on versions. */
  lemma LessIsStrictTotalOrder(a: Version, b: Version, c: Version)
    ensures !Less(a, a)
    ensures Less(a, b) ==> !Less(b, a)
    ensures Less(a, b) && Less(b, c) ==> Less(a, c)
    ensures Less(a, b) || a == b || Less(b, a)
  {
  }

  /** Python's `max` of a non-empty list of versions: the first item, replaced by every later item
      that is greater than the one kept so far. */
  function Max(vs: seq<Version>): (m: Version)
    requires |vs| > 0
    ensures m in vs
    ensures forall v :: v in vs ==> LessEq(v, m)
  {
    if |vs| == 1 then vs[0]
    else
      var init := vs[..|vs| - 1];
      var kept := Max(init);
      assert vs == init + [vs[|vs| - 1]];
      if Less(kept, vs[|vs| - 1]) then vs[|vs| - 1] else kept
  }

  /** A version that is in the list and not below any of them is the one `max` returns. */
  lemma MaxIsUnique(vs: seq<Version>, m: Version)
    requires m in vs && forall v :: v in vs ==> LessEq(v, m)
    ensures Max(vs) == m
  {
    var n := Max(vs);
    assert LessEq(n, m) && LessEq(m, n);
  }
}
