/**
 * The configuration definitions and values of lib/config/config.c: the
 * definition items of the settings table (cfg_def_item_t) and the values a
 * config node holds (struct dm_config_value, without its `next` link; a
 * value list is a sequence).
 */
module ConfigValues {
  import opened Maybe

  /** A 16-bit unsigned value (uint16_t). */
  type U16 = x: int | 0 <= x < 0x1_0000

  /** The type bits of a definition (CFG_TYPE_*). */
  datatype CfgType = Section | Array | Bool | Int | Float | String

  /** The flag bits of a definition that the modelled code reads. */
  datatype CfgFlag = AllowEmpty | Advanced | Unsupported | NameVariable | Profilable

  /**
   * One value of a config node.  A float is kept as the text it was read
   * from: converting text to a double is not modelled.
   */
  datatype Value = IntV(i: int) | FloatV(text: string) | StrV(s: string) | EmptyArray

  /** The value type (DM_CFG_*) a value carries, as a definition type bit. */
  function KindOf(v: Value): (t: CfgType)
    ensures t != Section && t != Bool
  {
    match v
    case IntV(_) => Int
    case FloatV(_) => Float
    case StrV(_) => String
    case EmptyArray => Array
  }

  /**
   * One entry of the definition table.  Its id is its index in the table;
   * `defaultArray` is the encoded default of an array setting (NULL for no
   * default); `since` is the packed version the setting first appeared in.
   */
  datatype DefItem = DefItem(
    parent: nat,
    name: string,
    types: set<CfgType>,
    flags: set<CfgFlag>,
    defaultArray: Option<string>,
    since: U16)
}
