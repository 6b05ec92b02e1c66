/** Worked polls of each adapter: a Subversion poll, a fetch of one branch, a review-queue poll. */
module Scenarios {
  import opened Wrappers
  import opened Text
  import opened Svn
  import Git
  import Gerrit

  /** Watermark 100, HEAD 102, revisions 101 and 102: two blocks in log order, final revision 102. */
  lemma TwoRevisionPoll(e1: LogEntry, e2: LogEntry)
    requires e1 == LogEntry("101", "alice", Some("fix bug"), [PathChange("M", "/trunk/a.c")])
    requires e2 == LogEntry("102", "bob", Some(""), [PathChange("A", "/trunk/b.c")])
    ensures Report(100, SvnInfo("trunk", "102"), [e1, e2]) == Ok(Block("trunk", e1) + "\n\n" + Block("trunk", e2))
    ensures NewRevisions(100, SvnInfo("trunk", "102"), [e1, e2]) == ["101", "102"]
    ensures FinalRev(["101", "102"]) == Some("102")
  {
    assert ParseInt("102") == Some(102) by {
      ParseIntToString(102);
      assert IntToString(102) == "102";
    }
    assert Blocks("trunk", [e1, e2]) == [Block("trunk", e1), Block("trunk", e2)];
    assert [Block("trunk", e1), Block("trunk", e2)][1..] == [Block("trunk", e2)];
    assert MaxRev(["101", "102"]) == "102" by {
      StrLtPrefix("10", '1', '2');
      assert ["101", "102"][..1] == ["101"];
    }
  }

  /**
   * A From line, then a line with a fetched range: one block, labelled with the
   * remote the From line named and the range line's branch, embedding the log
   * of the range.
   */
  lemma FetchOneBranch(fromLine: string, rangeLine: string, gitLog: string -> string)
    requires '\n' !in fromLine && '\n' !in rangeLine
    requires Git.IsFromLine(fromLine)
    requires !Git.IsFromLine(rangeLine) && Git.HasRange(rangeLine) && |Words(rangeLine)| >= 2
    ensures var from := Words(fromLine);
            var items := Words(rangeLine);
            && from != []
            && Git.Report(fromLine + "\n" + rangeLine, gitLog)
               == Ok(Git.CommitBlock(Git.LastSegment(from[|from| - 1]), items[1], gitLog(items[0])))
  {
    ContainsGivesWord(fromLine, "From ");
    var from := Words(fromLine);
    var items := Words(rangeLine);
    var remote := Git.LastSegment(from[|from| - 1]);
    var blk := Git.CommitBlock(remote, items[1], gitLog(items[0]));
    var lines := [fromLine, rangeLine];
    assert SplitOn(fromLine + "\n" + rangeLine, '\n') == lines by {
      SplitOnFirst(fromLine, rangeLine, '\n');
      SplitOnNone(rangeLine, '\n');
      assert fromLine + "\n" + rangeLine == fromLine + ['\n'] + rangeLine;
    }
    assert Git.ClassifyLine(fromLine, "", gitLog) == Git.SetRemote(remote);
    assert Git.ClassifyLine(rangeLine, remote, gitLog) == Git.Emit(blk);
    assert Git.Scan([rangeLine], remote, gitLog) == Ok([blk]) by {
      assert [rangeLine][1..] == [];
      assert [blk] + [] == [blk];
    }
    assert Git.Scan(lines, "", gitLog) == Ok([blk]) by {
      assert lines[1..] == [rangeLine];
    }
  }

  /**
   * Watermark 1000; the answer holds a change updated at 1500, one updated at
   * 900 and the trailing summary: the digest is the one block of the first.
   */
  lemma ReviewQueuePoll(host: string, c1: Gerrit.Change, c2: Gerrit.Change, stats: Gerrit.Change, date: int -> string)
    requires c1.fieldCount != 3 && c1.lastUpdated == 1500
    requires c2.fieldCount != 3 && c2.lastUpdated == 900
    requires stats.fieldCount == 3
    ensures Gerrit.Selected([c1, c2, stats], 1000) == [c1]
    ensures Gerrit.Report(host, [c1, c2, stats], 1000, date) == Gerrit.Block(host, c1, date)
  {
    var cs := [c1, c2, stats];
    assert cs[..2] == [c1, c2] && [c1, c2][..1] == [c1] && [c1][..0] == [];
    assert Gerrit.Selected([c1], 1000) == [c1];
    assert Gerrit.Selected([c1, c2], 1000) == [c1];
    assert Gerrit.Blocks(host, [c1], date) == [Gerrit.Block(host, c1, date)];
  }
}
