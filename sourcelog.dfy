/** The digest joiner shared by every adapter (`SourceLog.to_msg`). */
module SourceLog {
  import opened Text

  /** What stands between two formatted blocks of a digest: one blank line. */
  const Separator: string := "\n\n"

  /**
   * `to_msg(l)`: the empty string for no blocks, otherwise the blocks in order
   * with exactly one separator between neighbours.
   */
  function ToMsg(blocks: seq<string>): (msg: string)
    ensures blocks == [] ==> msg == ""
    ensures |blocks| == 1 ==> msg == blocks[0]
    ensures |blocks| >= 2 ==> msg == blocks[0] + Separator + ToMsg(blocks[1..])
  {
    if blocks == [] then "" else Join(Separator, blocks)
  }

  /** The digest of two non-empty runs of blocks is their digests joined by one separator. */
  lemma {:induction false} ToMsgAppend(a: seq<string>, b: seq<string>)
    requires a != [] && b != []
    ensures ToMsg(a + b) == ToMsg(a) + Separator + ToMsg(b)
    decreases |a|
  {
    assert (a + b)[1..] == a[1..] + b;
    if |a| > 1 {
      ToMsgAppend(a[1..], b);
    }
  }

  /** Adding a block at the end adds one separator and the block. */
  lemma ToMsgSnoc(blocks: seq<string>, b: string)
    requires blocks != []
    ensures ToMsg(blocks + [b]) == ToMsg(blocks) + Separator + b
  {
    ToMsgAppend(blocks, [b]);
  }

  /** When no block is empty, the digest is empty exactly when there are no blocks. */
  lemma ToMsgEmptyIff(blocks: seq<string>)
    requires forall i :: 0 <= i < |blocks| ==> blocks[i] != ""
    ensures ToMsg(blocks) == "" <==> blocks == []
  {
    if |blocks| >= 1 {
      assert |ToMsg(blocks)| >= |blocks[0]|;
    }
  }
}
