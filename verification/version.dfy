/**
 * The packed `since_version` of a setting, as _out_prefix_fn in
 * lib/config/config.c unpacks and prints it: bits 15-13 are the major
 * number, bits 12-9 the minor number and bits 8-0 the patch level.
 */
module Version {
  import opened Maybe
  import opened ConfigValues
  import opened Decimal

  datatype Vsn = Vsn(major: nat, minor: nat, patch: nat)

  predicate InRange(x: Vsn) {
    x.major <= 7 && x.minor <= 15 && x.patch <= 511
  }

  /**
   * The fields of a packed version.  _out_prefix_fn masks and shifts the
   * 16-bit value; on a value below 2^16 that is division and remainder by
   * powers of two (see MasksAreDivisions).
   */
  function Unpack(v: U16): (r: Vsn)
    ensures InRange(r)
  {
    Vsn(v / 0x2000, (v / 0x200) % 16, v % 0x200)
  }

  /** The masks and shifts on 16 bits agree with the division and remainder Unpack uses. */
  lemma MasksAreDivisions(b: bv16)
    ensures (b & 0xE000) >> 13 == b / 0x2000
    ensures (b & 0x1E00) >> 9 == (b / 0x200) % 16
    ensures b & 0x1FF == b % 0x200
  {
  }

  /** Packing a version into its 16 bits. */
  function Pack(x: Vsn): (v: U16)
    requires InRange(x)
  {
    x.major * 0x2000 + x.minor * 0x200 + x.patch
  }

  /** Unpacking undoes packing ... */
  lemma UnpackPack(x: Vsn)
    requires InRange(x)
    ensures Unpack(Pack(x)) == x
  {
  }

  /** ... and packing undoes unpacking, so unpacking is a bijection onto the versions in range. */
  lemma PackUnpack(v: U16)
    ensures Pack(Unpack(v)) == v
  {
  }

  /**
   * The "%u.%u.%u" text written into the 9-byte buffer; None when
   * dm_snprintf reports that it does not fit.  It always fits: the longest
   * version, 7.15.511, takes 8 characters.
   */
  function VersionText(v: U16): (r: Option<string>)
    ensures r.Some? && |r.value| <= 8
  {
    var x := Unpack(v);
    DigitsLength(x.major);
    DigitsLength(x.minor);
    DigitsLength(x.patch);
    var text := IntText(x.major) + "." + IntText(x.minor) + "." + IntText(x.patch);
    if |text| >= 9 then None else Some(text)
  }
}
