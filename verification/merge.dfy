/**
 * Merging one config section into another (_merge_section and
 * _insert_config_node in lib/config/config.c), seen through lookups by key.
 *
 * A node's value list is empty exactly when the node is a section (the
 * source's NULL `v`).  Lookup by key is libdm's dm_config_find_node on a
 * single path segment, which is not part of this model: it is taken to
 * return the first child with that key.
 */
module SectionMerge {
  import opened Maybe
  import opened ConfigValues

  datatype Node = Node(key: string, values: seq<Value>, children: seq<Node>)

  /** The two ways a section is merged (CONFIG_MERGE_TYPE_RAW and _TAGS). */
  datatype MergeType = Raw | Tags

  /** The index of the first node with the given key. */
  function FindIndex(nodes: seq<Node>, key: string): (r: Option<nat>)
    ensures r.Some? ==> r.value < |nodes| && nodes[r.value].key == key
    ensures r.Some? ==> forall j | 0 <= j < r.value :: nodes[j].key != key
    ensures r.None? ==> forall j | 0 <= j < |nodes| :: nodes[j].key != key
    decreases |nodes|
  {
    if |nodes| == 0 then None
    else if nodes[0].key == key then Some(0)
    else
      match FindIndex(nodes[1..], key)
      case None => None
      case Some(k) => Some(k + 1)
  }

  /** The first node with the key is the one FindIndex returns. */
  lemma FindIndexIs(nodes: seq<Node>, key: string, i: nat)
    requires i < |nodes| && nodes[i].key == key
    requires forall j | 0 <= j < i :: nodes[j].key != key
    ensures FindIndex(nodes, key) == Some(i)
  {
  }

  /** What a lookup of `key` among the children finds: the first match's values. */
  function ValuesOf(nodes: seq<Node>, key: string): Option<seq<Value>> {
    match FindIndex(nodes, key)
    case None => None
    case Some(k) => Some(nodes[k].values)
  }

  /** The settings whose lists are joined instead of replaced when merging host tags. */
  predicate JoinsLists(section: string, key: string) {
    || (section == "activation" && key == "volume_list")
    || (section == "devices" && (key == "filter" || key == "types"))
  }

  /** _insert_config_node: into an empty list, or right after the first child. */
  function InsertAfterFirst(nodes: seq<Node>, n: Node): (r: seq<Node>)
    ensures |r| == |nodes| + 1
  {
    if |nodes| == 0 then [n] else [nodes[0], n] + nodes[1..]
  }

  /** One child of the new section merged into the children of the old one. */
  function MergeNode(section: string, nodes: seq<Node>, n: Node, mode: MergeType): (r: seq<Node>)
  {
    if mode == Tags && n.key == "tags" then nodes
    else if |n.values| == 0 then nodes
    else
      match FindIndex(nodes, n.key)
      case None => InsertAfterFirst(nodes, n)
      case Some(k) =>
        var joined := if mode == Tags && JoinsLists(section, n.key) then n.values + nodes[k].values else n.values;
        nodes[k := nodes[k].(values := joined)]
  }

  /**
   * _merge_section: the children of the new section `incoming`, in order,
   * merged into the children of the old section named `section`.
   */
  function MergeSection(section: string, nodes: seq<Node>, incoming: seq<Node>, mode: MergeType): (r: seq<Node>)
    ensures |nodes| <= |r| <= |nodes| + |incoming|
    decreases |incoming|
  {
    if |incoming| == 0 then nodes
    else MergeSection(section, MergeNode(section, nodes, incoming[0], mode), incoming[1..], mode)
  }

  // Reference: the values a lookup of one key sees, one incoming node at a time.

  /** Whether merging `n` touches `key`: a valued node with that key, not a skipped tag list. */
  predicate Touches(n: Node, key: string, mode: MergeType) {
    n.key == key && |n.values| > 0 && !(mode == Tags && key == "tags")
  }

  /** The lookup of `key` after one more node, from the lookup before it. */
  function LookupStep(section: string, before: Option<seq<Value>>, n: Node, key: string, mode: MergeType): Option<seq<Value>> {
    if !Touches(n, key, mode) then before
    else if before.Some? && mode == Tags && JoinsLists(section, key) then Some(n.values + before.value)
    else Some(n.values)
  }

  /** The lookup of `key` after all of `incoming`. */
  function LookupAfter(section: string, before: Option<seq<Value>>, incoming: seq<Node>, key: string, mode: MergeType): Option<seq<Value>>
    decreases |incoming|
  {
    if |incoming| == 0 then before
    else LookupAfter(section, LookupStep(section, before, incoming[0], key, mode), incoming[1..], key, mode)
  }

  /** Inserting a node whose key is absent makes it what a lookup of its key finds, and no other lookup changes. */
  lemma InsertFound(nodes: seq<Node>, n: Node, key: string)
    requires FindIndex(nodes, n.key).None?
    ensures ValuesOf(InsertAfterFirst(nodes, n), key) == if key == n.key then Some(n.values) else ValuesOf(nodes, key)
  {
    var r := InsertAfterFirst(nodes, n);
    if |nodes| > 0 {
      if key == n.key {
        assert nodes[0].key != key;
        FindIndexIs(r, key, 1);
      } else if FindIndex(nodes, key).Some? {
        var k := FindIndex(nodes, key).value;
        if k == 0 {
          FindIndexIs(r, key, 0);
        } else {
          assert r[k + 1] == nodes[k];
          forall j | 0 <= j < k + 1 ensures r[j].key != key {
            if j > 1 { assert r[j] == nodes[j - 1]; }
          }
          FindIndexIs(r, key, k + 1);
        }
      } else {
        assert forall j | 0 <= j < |r| :: r[j].key != key by {
          forall j | 0 <= j < |r| ensures r[j].key != key {
            if j > 1 { assert r[j] == nodes[j - 1]; }
          }
        }
      }
    }
  }

  /** Replacing the values of the first node with a key leaves every lookup but that key's alone. */
  lemma ReplaceFound(nodes: seq<Node>, k: nat, vals: seq<Value>, key: string)
    requires k < |nodes| && FindIndex(nodes, nodes[k].key) == Some(k)
    ensures ValuesOf(nodes[k := nodes[k].(values := vals)], key) == if key == nodes[k].key then Some(vals) else ValuesOf(nodes, key)
  {
    var r := nodes[k := nodes[k].(values := vals)];
    if key == nodes[k].key {
      FindIndexIs(r, key, k);
    } else if FindIndex(nodes, key).Some? {
      var i := FindIndex(nodes, key).value;
      FindIndexIs(r, key, i);
    } else {
      assert FindIndex(r, key).None?;
    }
  }

  /** One merge step, seen through a lookup. */
  lemma MergeNodeLookup(section: string, nodes: seq<Node>, n: Node, key: string, mode: MergeType)
    ensures ValuesOf(MergeNode(section, nodes, n, mode), key) == LookupStep(section, ValuesOf(nodes, key), n, key, mode)
  {
    if mode == Tags && n.key == "tags" {
    } else if |n.values| == 0 {
    } else {
      match FindIndex(nodes, n.key)
      case None =>
        InsertFound(nodes, n, key);
      case Some(k) =>
        var joined := if mode == Tags && JoinsLists(section, n.key) then n.values + nodes[k].values else n.values;
        ReplaceFound(nodes, k, joined, key);
    }
  }

  /**
   * After a merge, looking up any key finds what the reference says: keys no
   * valued incoming node mentions keep their old values; otherwise the last
   * such node's values win, except that joined settings in tag merges
   * accumulate the incoming lists, latest first, ahead of the old list.
   */
  lemma {:induction false} MergeSectionLookup(section: string, nodes: seq<Node>, incoming: seq<Node>, key: string, mode: MergeType)
    ensures ValuesOf(MergeSection(section, nodes, incoming, mode), key) ==
            LookupAfter(section, ValuesOf(nodes, key), incoming, key, mode)
    decreases |incoming|
  {
    if |incoming| > 0 {
      var next := MergeNode(section, nodes, incoming[0], mode);
      MergeNodeLookup(section, nodes, incoming[0], key, mode);
      MergeSectionLookup(section, next, incoming[1..], key, mode);
    }
  }

  /** Keys an incoming node does not touch read exactly as before the merge. */
  lemma {:induction false} UntouchedKeyKept(section: string, before: Option<seq<Value>>, incoming: seq<Node>, key: string, mode: MergeType)
    requires forall j | 0 <= j < |incoming| :: !Touches(incoming[j], key, mode)
    ensures LookupAfter(section, before, incoming, key, mode) == before
    decreases |incoming|
  {
    if |incoming| > 0 {
      assert !Touches(incoming[0], key, mode);
      UntouchedKeyKept(section, before, incoming[1..], key, mode);
    }
  }

  /** Outside the joined settings of a tag merge, the last incoming node with the key wins. */
  lemma {:induction false} LastTouchWins(section: string, before: Option<seq<Value>>, incoming: seq<Node>, key: string, mode: MergeType)
    requires |incoming| > 0 && Touches(incoming[|incoming| - 1], key, mode)
    requires !(mode == Tags && JoinsLists(section, key))
    ensures LookupAfter(section, before, incoming, key, mode) == Some(incoming[|incoming| - 1].values)
    decreases |incoming|
  {
    if |incoming| > 1 {
      LastTouchWins(section, LookupStep(section, before, incoming[0], key, mode), incoming[1..], key, mode);
    }
  }

  /** No child is ever removed: every old key can still be looked up. */
  lemma {:induction false} MergeKeepsKeys(section: string, nodes: seq<Node>, incoming: seq<Node>, key: string, mode: MergeType)
    requires ValuesOf(nodes, key).Some?
    ensures ValuesOf(MergeSection(section, nodes, incoming, mode), key).Some?
    decreases |incoming|
  {
    MergeSectionLookup(section, nodes, incoming, key, mode);
    LookupKeepsFound(section, ValuesOf(nodes, key), incoming, key, mode);
  }

  lemma {:induction false} LookupKeepsFound(section: string, before: Option<seq<Value>>, incoming: seq<Node>, key: string, mode: MergeType)
    requires before.Some?
    ensures LookupAfter(section, before, incoming, key, mode).Some?
    decreases |incoming|
  {
    if |incoming| > 0 {
      LookupKeepsFound(section, LookupStep(section, before, incoming[0], key, mode), incoming[1..], key, mode);
    }
  }
}
