/**
 * The review-queue adapter (`GerritLog.get`). The answer of
 * `gerrit query --format=JSON ... limit:3` comes in as the sequence of its
 * decoded objects; the rendering of a timestamp as a local date is the
 * uninterpreted function `date`.
 */
module Gerrit {
  import opened SourceLog

  /**
   * One decoded object: how many top-level fields it has, and the fields the
   * adapter reads (`owner` is `owner.name`).
   */
  datatype Change = Change(
    fieldCount: nat,
    lastUpdated: int,
    project: string,
    branch: string,
    number: string,
    id: string,
    subject: string,
    owner: string)

  /** The trailing statistics object is recognised by having exactly three fields. */
  predicate IsSummary(c: Change)
  {
    c.fieldCount == 3
  }

  /** A change the adapter reports: not a summary, updated strictly after the watermark. */
  predicate IsNew(c: Change, lastUpdated: int)
  {
    !IsSummary(c) && lastUpdated < c.lastUpdated
  }

  const BlockHeader: string := "(*) [GerritLog] branch "

  /** The block of one change on `host`. */
  function Block(host: string, c: Change, date: int -> string): (b: string)
    ensures BlockHeader <= b
  {
    var branch := c.project + "/" + c.branch;
    var url := "url: https://" + host + "/#change," + c.number;
    var gid := "id: " + c.id;
    BlockHeader + branch + ":\n" + gid + "\n" + c.subject + "(" + date(c.lastUpdated) + ") [" + c.owner + "]\n" + url
  }

  /** The changes `get(lastUpdated)` reports, in the order of the answer. */
  function Selected(changes: seq<Change>, lastUpdated: int): (s: seq<Change>)
    ensures forall c :: c in s <==> c in changes && IsNew(c, lastUpdated)
    ensures |s| <= |changes|
    decreases |changes|
  {
    if changes == [] then []
    else
      var init := changes[..|changes| - 1];
      var c := changes[|changes| - 1];
      assert changes == init + [c];
      Selected(init, lastUpdated) + (if IsNew(c, lastUpdated) then [c] else [])
  }

  /** One block per change, in order. */
  function Blocks(host: string, changes: seq<Change>, date: int -> string): (bs: seq<string>)
    ensures |bs| == |changes|
    ensures forall i :: 0 <= i < |changes| ==> bs[i] == Block(host, changes[i], date)
    decreases |changes|
  {
    if changes == [] then []
    else Blocks(host, changes[..|changes| - 1], date) + [Block(host, changes[|changes| - 1], date)]
  }

  /** `get(lastUpdated)`: the digest of the blocks of the selected changes. */
  function Report(host: string, changes: seq<Change>, lastUpdated: int, date: int -> string): string
  {
    ToMsg(Blocks(host, Selected(changes, lastUpdated), date))
  }

  /** Selection keeps input order: selecting from two runs is selecting from each. */
  lemma {:induction false} SelectedAppend(a: seq<Change>, b: seq<Change>, lastUpdated: int)
    ensures Selected(a + b, lastUpdated) == Selected(a, lastUpdated) + Selected(b, lastUpdated)
    decreases |b|
  {
    if b == [] {
      assert a + b == a;
    } else {
      var init := b[..|b| - 1];
      assert (a + b)[..|a + b| - 1] == a + init;
      assert (a + b)[|a + b| - 1] == b[|b| - 1];
      SelectedAppend(a, init, lastUpdated);
    }
  }

  /**
   * A later watermark reports a part of what an earlier one reports: selecting
   * at `w2` from what `w1` selected is selecting at `w2`.
   */
  lemma {:induction false} SelectedMonotone(changes: seq<Change>, w1: int, w2: int)
    requires w1 <= w2
    ensures Selected(Selected(changes, w1), w2) == Selected(changes, w2)
    decreases |changes|
  {
    if changes != [] {
      var init := changes[..|changes| - 1];
      var c := changes[|changes| - 1];
      SelectedMonotone(init, w1, w2);
      SelectedAppend(Selected(init, w1), if IsNew(c, w1) then [c] else [], w2);
      assert Selected([c], w2) == (if IsNew(c, w2) then [c] else []) by {
        assert [c][..0] == [];
      }
      assert Selected([], w2) == [];
    }
  }

  /** The digest is empty exactly when no change is new. */
  lemma ReportEmptyIff(host: string, changes: seq<Change>, lastUpdated: int, date: int -> string)
    ensures Report(host, changes, lastUpdated, date) == "" <==>
              forall c :: c in changes ==> !IsNew(c, lastUpdated)
  {
    var s := Selected(changes, lastUpdated);
    var bs := Blocks(host, s, date);
    forall i | 0 <= i < |bs| ensures bs[i] != "" {
      assert BlockHeader <= bs[i];
    }
    ToMsgEmptyIff(bs);
    if s != [] {
      assert s[0] in s;
    }
  }

  /** An answer made only of summary objects yields the empty digest. */
  lemma OnlySummaries(host: string, changes: seq<Change>, lastUpdated: int, date: int -> string)
    requires forall c :: c in changes ==> IsSummary(c)
    ensures Report(host, changes, lastUpdated, date) == ""
  {
    ReportEmptyIff(host, changes, lastUpdated, date);
  }

  /**
   * `GerritLog.get(last_updated)`: skips the summary object, keeps the changes
   * updated after the watermark, and joins their blocks.
   */
  method Get(host: string, changes: seq<Change>, lastUpdated: int, date: int -> string) returns (msg: string)
    ensures msg == Report(host, changes, lastUpdated, date)
  {
    var msglist: seq<string> := [];
    ghost var kept: seq<Change> := [];
    for i := 0 to |changes|
      invariant kept == Selected(changes[..i], lastUpdated)
      invariant msglist == Blocks(host, kept, date)
    {
      var c := changes[i];
      assert changes[..i + 1][..i] == changes[..i];
      if c.fieldCount == 3 {
        continue;
      }
      if lastUpdated < c.lastUpdated {
        msglist := msglist + [Block(host, c, date)];
        assert (kept + [c])[..|kept|] == kept;
        kept := kept + [c];
      }
    }
    assert changes[..|changes|] == changes;
    msg := ToMsg(msglist);
  }
}
