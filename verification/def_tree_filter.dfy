/**
 * Which definition items a generated default tree leaves out
 * (_should_skip_def_node in lib/config/config.c).
 */
module DefTreeFilter {
  import opened Maybe
  import opened ConfigValues

  /**
   * The kinds of generated tree the filter distinguishes; `OtherTree` is
   * every kind without a case of its own (current, default, full, diff, …).
   */
  datatype TreeKind = MissingTree | NewTree | ProfilableTree | OtherTree

  /**
   * The request for a generated tree.  `checkStatus` is the set of item ids
   * the last config check found in use (CFG_USED); None when no check has
   * recorded a status.
   */
  datatype TreeSpec = TreeSpec(
    kind: TreeKind,
    version: U16,
    ignoreAdvanced: bool,
    ignoreUnsupported: bool,
    checkStatus: Option<set<nat>>)

  /** The parent and the advanced/unsupported filters, which apply to every kind of tree. */
  predicate Filtered(spec: TreeSpec, sectionId: nat, def: DefItem) {
    || def.parent != sectionId
    || (spec.ignoreAdvanced && Advanced in def.flags)
    || (spec.ignoreUnsupported && Unsupported in def.flags)
  }

  /**
   * What an item that passes the filters needs in order to appear in a tree
   * of each kind: a missing-items tree wants items the last check did not
   * find in use, with a fixed name and of the tree's version or older; a new
   * tree wants items introduced in exactly its version; a profilable tree
   * wants profilable items of its version or older; any other tree wants
   * every item of its version or older.
   */
  predicate Wanted(spec: TreeSpec, id: nat, def: DefItem) {
    match spec.kind
    case MissingTree =>
      spec.checkStatus.Some? && id !in spec.checkStatus.value && NameVariable !in def.flags
      && def.since <= spec.version
    case NewTree => def.since == spec.version
    case ProfilableTree => Profilable in def.flags && def.since <= spec.version
    case OtherTree => def.since <= spec.version
  }

  /** _should_skip_def_node for the item `id`, defined by `def`, under the section `sectionId`. */
  function ShouldSkip(spec: TreeSpec, sectionId: nat, id: nat, def: DefItem): (skip: bool)
    ensures Filtered(spec, sectionId, def) ==> skip
    ensures spec.kind == NewTree && !Filtered(spec, sectionId, def) ==> (skip <==> def.since != spec.version)
    ensures spec.kind == MissingTree && spec.checkStatus.None? ==> skip
    ensures !skip && spec.kind != NewTree ==> def.since <= spec.version
    ensures !skip && spec.kind == ProfilableTree ==> Profilable in def.flags
    ensures !skip && spec.kind == MissingTree ==> id !in spec.checkStatus.value && NameVariable !in def.flags
    ensures !skip <==> !Filtered(spec, sectionId, def) && Wanted(spec, id, def)
  {
    if Filtered(spec, sectionId, def) then true
    else
      match spec.kind
      case MissingTree =>
        spec.checkStatus.None? || id in spec.checkStatus.value || NameVariable in def.flags || def.since > spec.version
      case NewTree => def.since != spec.version
      case ProfilableTree => Profilable !in def.flags || def.since > spec.version
      case OtherTree => def.since > spec.version
  }

  /** Every item a missing, new or profilable tree keeps is also kept by an ordinary tree of the same version. */
  lemma KeptByOrdinaryTree(spec: TreeSpec, sectionId: nat, id: nat, def: DefItem)
    requires !ShouldSkip(spec, sectionId, id, def)
    ensures !ShouldSkip(spec.(kind := OtherTree), sectionId, id, def)
  {
  }

  /** An item an ordinary tree keeps stays kept in trees for later versions. */
  lemma KeptAtLaterVersion(spec: TreeSpec, sectionId: nat, id: nat, def: DefItem, later: U16)
    requires spec.kind != NewTree && spec.version <= later
    requires !ShouldSkip(spec, sectionId, id, def)
    ensures !ShouldSkip(spec.(version := later), sectionId, id, def)
  {
  }
}
