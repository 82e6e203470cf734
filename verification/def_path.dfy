/**
 * The path of a setting in the definition table (_cfg_def_make_path in
 * lib/config/config.c): the names of its ancestors below the root and its
 * own name, joined by "/", written into a fixed-size buffer.
 */
module DefPath {
  import opened ConfigValues

  /**
   * The shape of the settings table: the root is its own parent and every
   * other item's parent comes before it, so the walk up the parents ends.
   */
  predicate ParentsPrecede(table: seq<DefItem>) {
    forall id | 0 <= id < |table| :: table[id].parent <= id
  }

  /** How an item appears in a path: "#" stands for a variable name. */
  function Segment(d: DefItem): string {
    if NameVariable in d.flags then "#" else d.name
  }

  /** Reference: the full path of an item, with no bound on its length. */
  function FullPath(table: seq<DefItem>, id: nat): string
    requires ParentsPrecede(table) && id < |table|
    decreases id
  {
    var parent := table[id].parent;
    if parent == id then ""
    else
      var prefix := FullPath(table, parent);
      if |prefix| == 0 then Segment(table[id]) else prefix + "/" + Segment(table[id])
  }

  /**
   * _cfg_def_make_path with a buffer of `size` bytes: the string left in the
   * buffer, whose length is what the call returns.  A piece that does not fit
   * (dm_snprintf needs room for it and the terminating NUL) empties the
   * buffer and the walk goes on from length 0, so a path that is too long
   * comes out as a trailing part of the full path, or as nothing.
   */
  function MakePath(table: seq<DefItem>, size: nat, id: nat): (r: string)
    requires ParentsPrecede(table) && id < |table|
    ensures |r| == 0 || |r| < size
    decreases id
  {
    var parent := table[id].parent;
    if parent == id then ""
    else
      var prefix := MakePath(table, size, parent);
      var piece := (if |prefix| > 0 then "/" else "") + Segment(table[id]);
      if |piece| >= size - |prefix| then "" else prefix + piece
  }

  /** A path that fits in the buffer is written in full. */
  lemma {:induction false} MakePathFits(table: seq<DefItem>, size: nat, id: nat)
    requires ParentsPrecede(table) && id < |table|
    requires |FullPath(table, id)| < size
    ensures MakePath(table, size, id) == FullPath(table, id)
    decreases id
  {
    var parent := table[id].parent;
    if parent != id {
      assert |FullPath(table, parent)| <= |FullPath(table, id)|;
      MakePathFits(table, size, parent);
    }
  }

  predicate IsSuffix(a: string, b: string) {
    |a| <= |b| && b[|b| - |a|..] == a
  }

  /** Whatever the buffer size, the result is a trailing part of the full path. */
  lemma {:induction false} MakePathSuffix(table: seq<DefItem>, size: nat, id: nat)
    requires ParentsPrecede(table) && id < |table|
    ensures IsSuffix(MakePath(table, size, id), FullPath(table, id))
    decreases id
  {
    var parent := table[id].parent;
    if parent != id {
      MakePathSuffix(table, size, parent);
      var prefix := MakePath(table, size, parent);
      var full := FullPath(table, parent);
      var seg := Segment(table[id]);
      var r := MakePath(table, size, id);
      var f := FullPath(table, id);
      if |r| > 0 {
        if |prefix| == 0 {
          assert r == seg;
          assert f[|f| - |seg|..] == seg;
        } else {
          assert r == prefix + "/" + seg;
          assert f == full + "/" + seg;
          assert f[|f| - |r|..] == full[|full| - |prefix|..] + "/" + seg;
        }
      }
    }
  }
}
