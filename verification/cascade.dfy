/**
 * The cascade of config trees a command reads settings from, head first
 * (cmd->cft and the `cascade` links in lib/config/config.c), and
 * remove_config_tree_by_source, which unlinks the first tree of a given
 * source.
 *
 * The source code relinks the wrong tree when the match lies two or more
 * places down the cascade: `RemoveBySourceAsWritten` models that code,
 * `RemoveBySource` the evidently intended unlink.
 */
module Cascade {
  import opened Maybe

  /** Where a config tree came from (config_source_t). */
  datatype SourceType = Undefined | File | MergedFiles | String | Profile

  /** A config tree, by identity; `source` is None when the tree carries no source record. */
  datatype Tree = Tree(id: nat, source: Option<SourceType>)

  /** The position of the first tree of the given source. */
  function FirstOfSource(cascade: seq<Tree>, src: SourceType): (r: Option<nat>)
    ensures r.Some? ==> r.value < |cascade| && cascade[r.value].source == Some(src)
    ensures r.Some? ==> forall j | 0 <= j < r.value :: cascade[j].source != Some(src)
    ensures r.None? ==> forall j | 0 <= j < |cascade| :: cascade[j].source != Some(src)
    decreases |cascade|
  {
    if |cascade| == 0 then None
    else if cascade[0].source == Some(src) then Some(0)
    else
      match FirstOfSource(cascade[1..], src)
      case None => None
      case Some(k) => Some(k + 1)
  }

  /**
   * remove_config_tree_by_source as written: the new head is the tree just
   * before the match (`cmd->cft = previous_cft`), so every tree ahead of that
   * one falls out of the cascade.  The removed tree, detached from the rest,
   * is returned.
   */
  function RemoveBySourceAsWritten(cascade: seq<Tree>, src: SourceType): (r: (seq<Tree>, Option<Tree>))
    ensures r.1.None? <==> FirstOfSource(cascade, src).None?
    ensures r.1.None? ==> r.0 == cascade
    ensures r.1.Some? ==> r.1.value.source == Some(src)
  {
    match FirstOfSource(cascade, src)
    case None => (cascade, None)
    case Some(k) =>
      if k == 0 then (cascade[1..], Some(cascade[0]))
      else ([cascade[k - 1]] + cascade[k + 1..], Some(cascade[k]))
  }

  /** The evidently intended unlink: the first tree of the source leaves, all others stay in order. */
  function RemoveBySource(cascade: seq<Tree>, src: SourceType): (r: (seq<Tree>, Option<Tree>))
    ensures r.1.None? <==> FirstOfSource(cascade, src).None?
    ensures r.1.None? ==> r.0 == cascade
    ensures r.1.Some? ==> r.1.value.source == Some(src) && |r.0| + 1 == |cascade|
  {
    match FirstOfSource(cascade, src)
    case None => (cascade, None)
    case Some(k) => (cascade[..k] + cascade[k + 1..], Some(cascade[k]))
  }

  /** Putting the removed tree back where it was restores the cascade. */
  lemma RemoveBySourceUndone(cascade: seq<Tree>, src: SourceType)
    requires FirstOfSource(cascade, src).Some?
    ensures var k := FirstOfSource(cascade, src).value;
            var r := RemoveBySource(cascade, src);
            r.0[..k] + [r.1.value] + r.0[k..] == cascade
  {
    var k := FirstOfSource(cascade, src).value;
    var rest := RemoveBySource(cascade, src).0;
    assert rest[..k] == cascade[..k];
    assert rest[k..] == cascade[k + 1..];
    assert cascade[..k] + [cascade[k]] + cascade[k + 1..] == cascade;
  }

  /** Every tree of the cascade but the removed one is still in it, and the removed one is not. */
  lemma {:induction false} RemoveBySourceKeepsOthers(cascade: seq<Tree>, src: SourceType, t: Tree)
    requires forall i, j | 0 <= i < j < |cascade| :: cascade[i].id != cascade[j].id
    requires FirstOfSource(cascade, src).Some?
    ensures var r := RemoveBySource(cascade, src);
            t in r.0 <==> t in cascade && t != r.1.value
  {
    var k := FirstOfSource(cascade, src).value;
    var rest := RemoveBySource(cascade, src).0;
    if t in cascade && t != cascade[k] {
      var i :| 0 <= i < |cascade| && cascade[i] == t;
      if i < k {
        assert rest[i] == t;
      } else {
        assert rest[i - 1] == t;
      }
    }
    if t in rest {
      var i :| 0 <= i < |rest| && rest[i] == t;
      if i < k {
        assert cascade[i] == t;
      } else {
        assert cascade[i + 1] == t;
      }
    }
  }

  /** The intended and the written unlink agree when the match is the head or right after it. */
  lemma AsWrittenAgreesNearHead(cascade: seq<Tree>, src: SourceType)
    requires FirstOfSource(cascade, src).Some? && FirstOfSource(cascade, src).value <= 1
    ensures RemoveBySourceAsWritten(cascade, src) == RemoveBySource(cascade, src)
  {
    var k := FirstOfSource(cascade, src).value;
    if k == 0 {
      assert cascade[..0] + cascade[1..] == cascade[1..];
    } else {
      assert cascade[..1] == [cascade[0]];
    }
  }

  /**
   * The written unlink loses trees: with a string tree, a profile tree and a
   * file tree, removing the file tree leaves only the profile tree, and the
   * string tree is gone although it was never removed.
   */
  lemma AsWrittenDropsHead()
    ensures var cascade := [Tree(0, Some(String)), Tree(1, Some(Profile)), Tree(2, Some(File))];
            var r := RemoveBySourceAsWritten(cascade, File);
            && r == ([Tree(1, Some(Profile))], Some(Tree(2, Some(File))))
            && RemoveBySource(cascade, File).0 == [Tree(0, Some(String)), Tree(1, Some(Profile))]
  {
    var cascade := [Tree(0, Some(String)), Tree(1, Some(Profile)), Tree(2, Some(File))];
    assert FirstOfSource(cascade, File) == Some(2);
    assert cascade[..2] + cascade[3..] == [Tree(0, Some(String)), Tree(1, Some(Profile))];
    assert [cascade[1]] + cascade[3..] == [Tree(1, Some(Profile))];
  }
}
