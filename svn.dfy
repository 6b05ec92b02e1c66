/**
 * The Subversion adapter (`SvnLog`). The answers of `svn info --xml -r HEAD`
 * and `svn log --xml -v` come in already parsed; revisions stay the text of
 * the XML attribute, as they do in the adapter's `_revlist`.
 */
module Svn {
  import opened Wrappers
  import opened Text
  import opened SourceLog

  /** The `entry` of `svn info`: the repository path and the HEAD revision. */
  datatype SvnInfo = SvnInfo(path: string, revision: string)

  /** One `path` element of a verbose log entry. */
  datatype PathChange = PathChange(action: string, path: string)

  /** One `logentry`; `msg` is None when the message element has no text. */
  datatype LogEntry = LogEntry(revision: string, author: string, msg: Option<string>, paths: seq<PathChange>)

  const BlockHeader: string := "(*) [SvnLog] "

  // ---------------------------------------------------------------------------
  // formatting
  // ---------------------------------------------------------------------------

  /** The sub-line of one changed path. */
  function FileLine(p: PathChange): string
  {
    "  [" + p.action + "] " + p.path + "\n"
  }

  /** The sub-lines of all changed paths, in order. */
  function FilesText(paths: seq<PathChange>): string
    decreases |paths|
  {
    if paths == [] then "" else FilesText(paths[..|paths| - 1]) + FileLine(paths[|paths| - 1])
  }

  /** The file list of two runs of paths is the first's followed by the second's. */
  lemma {:induction false} FilesTextAppend(a: seq<PathChange>, b: seq<PathChange>)
    ensures FilesText(a + b) == FilesText(a) + FilesText(b)
    decreases |b|
  {
    if b != [] {
      assert (a + b)[..|a + b| - 1] == a + b[..|b| - 1];
      FilesTextAppend(a, b[..|b| - 1]);
    } else {
      assert a + b == a;
    }
  }

  /** The message text: an absent message is rendered as the empty string. */
  function Subject(msg: Option<string>): string
  {
    match msg
    case None => ""
    case Some(m) => m
  }

  /** The block layout, given the path, the revision, the author, the message and the file list. */
  function Layout(name: string, rev: string, author: string, subject: string, files: string): (b: string)
    ensures BlockHeader <= b
  {
    BlockHeader + name + "  Rev: " + rev + " / Author: " + author + "\n" + subject + "\n" + files
  }

  /** The block of one log entry. */
  function Block(name: string, e: LogEntry): (b: string)
    ensures BlockHeader <= b
  {
    Layout(name, e.revision, e.author, Subject(e.msg), FilesText(e.paths))
  }

  /** One block per entry, in the order of the log. */
  function Blocks(name: string, entries: seq<LogEntry>): (bs: seq<string>)
    ensures |bs| == |entries|
    ensures forall i :: 0 <= i < |entries| ==> bs[i] == Block(name, entries[i])
    decreases |entries|
  {
    if entries == [] then []
    else Blocks(name, entries[..|entries| - 1]) + [Block(name, entries[|entries| - 1])]
  }

  /** The revisions of the entries, in the order of the log. */
  function Revisions(entries: seq<LogEntry>): (revs: seq<string>)
    ensures |revs| == |entries|
    ensures forall i :: 0 <= i < |entries| ==> revs[i] == entries[i].revision
    decreases |entries|
  {
    if entries == [] then []
    else Revisions(entries[..|entries| - 1]) + [entries[|entries| - 1].revision]
  }

  // ---------------------------------------------------------------------------
  // what one call of get reports
  // ---------------------------------------------------------------------------

  /**
   * The message `get(lastRev)` returns, given the answers of the two queries:
   * ValueError when HEAD is not a number, nothing when `lastRev` is at or past
   * HEAD, otherwise the digest of the log entries.
   */
  function Report(lastRev: int, info: SvnInfo, entries: seq<LogEntry>): Result<string>
  {
    match ParseInt(info.revision)
    case None => Err(ValueError)
    case Some(head) => if lastRev < head then Ok(ToMsg(Blocks(info.path, entries))) else Ok("")
  }

  /** The revisions `get(lastRev)` appends to `_revlist`. */
  function NewRevisions(lastRev: int, info: SvnInfo, entries: seq<LogEntry>): seq<string>
  {
    match ParseInt(info.revision)
    case None => []
    case Some(head) => if lastRev < head then Revisions(entries) else []
  }

  /** Below HEAD, the report is empty exactly when the log has no entries. */
  lemma ReportEmptyIff(lastRev: int, info: SvnInfo, entries: seq<LogEntry>, head: int)
    requires ParseInt(info.revision) == Some(head) && lastRev < head
    ensures Report(lastRev, info, entries) == Ok("") <==> entries == []
    ensures NewRevisions(lastRev, info, entries) == [] <==> entries == []
  {
    var bs := Blocks(info.path, entries);
    forall i | 0 <= i < |bs| ensures bs[i] != "" {
      assert BlockHeader <= bs[i];
    }
    ToMsgEmptyIff(bs);
  }

  // ---------------------------------------------------------------------------
  // get_final_rev: the largest revision under string ordering
  // ---------------------------------------------------------------------------

  /** Python's `max(revs)` on strings: scans left to right, keeps the first largest. */
  function MaxRev(revs: seq<string>): (m: string)
    requires revs != []
    ensures m in revs
    ensures forall x :: x in revs ==> !StrLt(m, x)
    decreases |revs|
  {
    if |revs| == 1 then
      StrLtIrreflexive(revs[0]);
      assert revs == [revs[0]];
      revs[0]
    else
      var init := revs[..|revs| - 1];
      var last := revs[|revs| - 1];
      var m := MaxRev(init);
      assert revs == init + [last];
      if StrLt(m, last) then
        assert forall x :: x in init ==> !StrLt(last, x) by {
          forall x | x in init ensures !StrLt(last, x) {
            if StrLt(last, x) { StrLtTransitive(m, last, x); }
          }
        }
        StrLtIrreflexive(last);
        last
      else
        m
  }

  /** `get_final_rev()`: None for an empty list, otherwise a revision no other exceeds. */
  function FinalRev(revs: seq<string>): (r: Option<string>)
    ensures r.None? <==> revs == []
    ensures r.Some? ==> r.value in revs && forall x :: x in revs ==> !StrLt(r.value, x)
  {
    if revs == [] then None else Some(MaxRev(revs))
  }

  /** Two revisions that no element of the list exceeds are the same revision. */
  lemma FinalRevUnique(revs: seq<string>, a: string, b: string)
    requires a in revs && forall x :: x in revs ==> !StrLt(a, x)
    requires b in revs && forall x :: x in revs ==> !StrLt(b, x)
    ensures a == b
  {
    if a != b {
      StrLtTotal(a, b);
    }
  }

  // ---------------------------------------------------------------------------
  // the adapter
  // ---------------------------------------------------------------------------

  class SvnLog {
    /** `_name`: the repository path of the last `svn info` */
    var name: string
    /** `_latest_rev`: the HEAD revision of the last `svn info`, as text */
    var latestRev: string
    /** `_revlist`: every revision reported so far; never cleared */
    var revList: seq<string>

    constructor ()
      ensures revList == []
    {
      name, latestRev, revList := "", "", [];
    }

    /** `set_info()`: records the path and HEAD revision that `svn info` answered. */
    method SetInfo(info: SvnInfo)
      modifies this`name, this`latestRev
      ensures name == info.path && latestRev == info.revision
    {
      name := info.path;
      latestRev := info.revision;
    }

    /** `get_latest_rev()` */
    method GetLatestRev() returns (r: string)
      ensures r == latestRev
    {
      r := latestRev;
    }

    /** `get_final_rev()`: the largest reported revision in string order, None before any. */
    method GetFinalRev() returns (r: Option<string>)
      ensures r.None? <==> revList == []
      ensures r.Some? ==> r.value in revList && forall x :: x in revList ==> !StrLt(r.value, x)
      ensures r == FinalRev(revList)
    {
      if |revList| > 0 {
        r := Some(MaxRev(revList));
      } else {
        r := None;
      }
    }

    /** The sub-lines of the changed paths of one entry. */
    static method FormatFiles(paths: seq<PathChange>) returns (files: string)
      ensures files == FilesText(paths)
    {
      files := "";
      for i := 0 to |paths|
        invariant files == FilesText(paths[..i])
      {
        assert paths[..i + 1][..i] == paths[..i];
        files := files + FileLine(paths[i]);
      }
      assert paths[..|paths|] == paths;
    }

    /**
     * `get(last_rev)`: queries HEAD, and when `lastRev` is below it formats one
     * block per log entry and appends each entry's revision to `_revlist`.
     */
    method Get(lastRev: int, info: SvnInfo, entries: seq<LogEntry>) returns (r: Result<string>)
      modifies this
      ensures name == info.path && latestRev == info.revision
      ensures r == Report(lastRev, info, entries)
      ensures revList == old(revList) + NewRevisions(lastRev, info, entries)
      ensures ParseInt(info.revision).None? ==> r == Err(ValueError) && revList == old(revList)
      ensures ParseInt(info.revision).Some? && lastRev >= ParseInt(info.revision).value ==>
                r == Ok("") && revList == old(revList)
    {
      SetInfo(info);
      var msglist: seq<string> := [];
      var head := ParseInt(latestRev);
      if head.None? {
        return Err(ValueError);
      }
      if lastRev < head.value {
        var i := 0;
        while i < |entries|
          invariant 0 <= i <= |entries|
          invariant name == info.path && latestRev == info.revision
          invariant msglist == Blocks(name, entries[..i])
          invariant revList == old(revList) + Revisions(entries[..i])
        {
          var e := entries[i];
          var files := FormatFiles(e.paths);
          var msg := Layout(name, e.revision, e.author, Subject(e.msg), files);
          assert entries[..i + 1][..i] == entries[..i];
          msglist := msglist + [msg];
          revList := revList + [e.revision];
          i := i + 1;
        }
        assert entries[..i] == entries;
      }
      r := Ok(ToMsg(msglist));
    }
  }

  // ---------------------------------------------------------------------------
  // what string ordering does to the watermark
  // ---------------------------------------------------------------------------

  /**
   * As written: `max` of the revision strings. Once "9" is in `_revlist`, the
   * revisions 10, 11 and 12 never exceed it, so the stored watermark stays 9
   * and the next poll against HEAD 12 reports the same entries again.
   */
  lemma StringMaxWatermarkLags(path: string, entries: seq<LogEntry>)
    requires entries != []
    ensures FinalRev(["9", "10", "11", "12"]) == Some("9")
    ensures ParseInt("9") == Some(9)
    ensures Report(9, SvnInfo(path, "12"), entries) != Ok("")
  {
    var revs := ["9", "10", "11", "12"];
    assert !StrLt("9", "10") && !StrLt("9", "11") && !StrLt("9", "12");
    assert MaxRev(revs[..1]) == "9" by { assert revs[..1] == ["9"]; }
    assert MaxRev(revs[..2]) == "9" by { assert revs[..2][..1] == revs[..1]; }
    assert MaxRev(revs[..3]) == "9" by { assert revs[..3][..2] == revs[..2]; }
    assert revs[..4][..3] == revs[..3] && revs[..4] == revs;
    ParseIntToString(9);
    assert IntToString(9) == "9";
    ParseIntToString(12);
    assert IntToString(12) == "12";
    ReportEmptyIff(9, SvnInfo(path, "12"), entries, 12);
  }

  /** Corrected: the largest revision by number. */
  function MaxRevNumber(revs: seq<int>): (m: int)
    requires revs != []
    ensures m in revs
    ensures forall x :: x in revs ==> x <= m
    decreases |revs|
  {
    if |revs| == 1 then
      assert revs == [revs[0]];
      revs[0]
    else
      var init := revs[..|revs| - 1];
      var m := MaxRevNumber(init);
      assert revs == init + [revs[|revs| - 1]];
      if m < revs[|revs| - 1] then revs[|revs| - 1] else m
  }

  /**
   * With revisions compared as numbers the watermark reaches HEAD: once HEAD is
   * among the reported revisions, none of which exceeds it, the maximum is HEAD
   * and the next poll against the same HEAD reports nothing.
   */
  lemma NumericMaxWatermarkReachesHead(revs: seq<int>, head: nat, path: string, entries: seq<LogEntry>)
    requires head in revs && forall x :: x in revs ==> x <= head
    ensures MaxRevNumber(revs) == head
    ensures Report(MaxRevNumber(revs), SvnInfo(path, NatToString(head)), entries) == Ok("")
  {
    ParseIntToString(head);
  }

  /** After revisions 9 to 12, the numeric watermark is 12 and a poll against HEAD 12 is empty. */
  lemma NumericMaxAfterNineToTwelve(path: string, entries: seq<LogEntry>)
    ensures MaxRevNumber([9, 10, 11, 12]) == 12
    ensures Report(MaxRevNumber([9, 10, 11, 12]), SvnInfo(path, "12"), entries) == Ok("")
  {
    NumericMaxWatermarkReachesHead([9, 10, 11, 12], 12, path, entries);
    assert NatToString(12) == "12";
  }

}
