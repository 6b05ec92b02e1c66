/**
 * The `Observer`: the per-mode state files, the watermark kept in the `.last`
 * file, the seeding done by `init`, and one pass of the polling loop of `start`.
 * The chat (or the console) is an outbox the loop appends messages to; the
 * current time is a parameter.
 */
module Poll {
  import opened Wrappers
  import opened Text
  import Svn
  import Git
  import Gerrit

  /** The modes `init` and `start` accept. */
  datatype Mode = SvnMode | GitMode | GerritMode

  // ---------------------------------------------------------------------------
  // state files
  // ---------------------------------------------------------------------------

  /** The lock, watermark and configuration files of one mode. */
  datatype ModeFiles = ModeFiles(lock: string, last: string, ini: string)

  /** `set_modefile(mode)` under the state directory `path`. */
  function SetModefile(path: string, mode: string): (f: ModeFiles)
    ensures f.lock != f.last && f.lock != f.ini && f.last != f.ini
    ensures path + "/" <= f.lock && path + "/" <= f.last && path + "/" <= f.ini
  {
    var f := ModeFiles(path + "/." + mode + ".lock", path + "/." + mode + ".last", path + "/" + mode + ".ini");
    assert f.lock[|f.lock| - 1] == 'k' && f.last[|f.last| - 1] == 't';
    assert |f.ini| < |f.lock| && |f.ini| < |f.last|;
    f
  }

  /** Two different modes never share a lock file or a watermark file. */
  lemma ModeFilesApart(path: string, m1: string, m2: string)
    requires m1 != m2
    ensures SetModefile(path, m1).lock != SetModefile(path, m2).lock
    ensures SetModefile(path, m1).last != SetModefile(path, m2).last
  {
    var n := |path| + 2;
    var f1, f2 := SetModefile(path, m1), SetModefile(path, m2);
    if |m1| == |m2| {
      assert f1.lock[n..n + |m1|] == m1 && f2.lock[n..n + |m2|] == m2;
      assert f1.last[n..n + |m1|] == m1 && f2.last[n..n + |m2|] == m2;
    } else {
      assert |f1.lock| != |f2.lock| && |f1.last| != |f2.last|;
    }
  }

  // ---------------------------------------------------------------------------
  // the watermark
  // ---------------------------------------------------------------------------

  /**
   * `get_last_updated()` on the file's content: IOError when the file does
   * not exist, ValueError when it does not hold an integer.
   */
  function ReadWatermark(file: Option<string>): (r: Result<int>)
    ensures file.None? ==> r == Err(IOError)
    ensures r.Ok? <==> file.Some? && ParseInt(file.value).Some?
    ensures r.Ok? ==> ParseInt(file.value) == Some(r.value)
    ensures file.Some? && ParseInt(file.value).None? ==> r == Err(ValueError)
  {
    match file
    case None => Err(IOError)
    case Some(text) =>
      match ParseInt(text)
      case None => Err(ValueError)
      case Some(n) => Ok(n)
  }

  /** A time written by `save_last_updated` is read back unchanged. */
  lemma ReadBackTime(now: int)
    ensures ReadWatermark(Some(IntToString(now))) == Ok(now)
  {
    ParseIntToString(now);
  }

  // ---------------------------------------------------------------------------
  // one pass of the loop
  // ---------------------------------------------------------------------------

  /** The configured adapter and what its tools answer during this pass. */
  datatype Source =
    | SvnSource(adapter: Svn.SvnLog, info: Svn.SvnInfo, entries: seq<Svn.LogEntry>)
    | GitSource(fetch: string, gitLog: string -> string)
    | GerritSource(host: string, changes: seq<Gerrit.Change>, date: int -> string)

  /** `slog.get(watermark)` for the adapter of the source. */
  function Fetch(src: Source, watermark: int): Result<string>
  {
    match src
    case SvnSource(_, info, entries) => Svn.Report(watermark, info, entries)
    case GitSource(fetch, gitLog) => Git.Report(fetch, gitLog)
    case GerritSource(host, changes, date) => Ok(Gerrit.Report(host, changes, watermark, date))
  }

  /** Right after seeding, a Subversion poll against the same HEAD reports nothing. */
  lemma SeededSvnPollIsEmpty(head: nat, path: string, entries: seq<Svn.LogEntry>, a: Svn.SvnLog)
    ensures ReadWatermark(Some(NatToString(head))) == Ok(head)
    ensures Fetch(SvnSource(a, Svn.SvnInfo(path, NatToString(head)), entries), head) == Ok("")
    ensures Svn.NewRevisions(head, Svn.SvnInfo(path, NatToString(head)), entries) == []
  {
    ReadBackTime(head);
  }

  /** Right after seeding, a review-queue poll reports nothing that was last updated before the seed. */
  lemma SeededGerritPollIsEmpty(now: int, host: string, changes: seq<Gerrit.Change>, date: int -> string)
    requires forall c :: c in changes ==> c.lastUpdated <= now
    ensures ReadWatermark(Some(IntToString(now))) == Ok(now)
    ensures Fetch(GerritSource(host, changes, date), now) == Ok("")
  {
    ReadBackTime(now);
    Gerrit.ReportEmptyIff(host, changes, now, date);
  }

  class Observer {
    /** The content of the `.last` file; None before anything is written. */
    var last: Option<string>
    /** The messages handed to the chat (or printed), oldest first. */
    var outbox: seq<string>

    constructor ()
      ensures last == None && outbox == []
    {
      last, outbox := None, [];
    }

    /** `get_last_updated()` */
    method GetLastUpdated() returns (r: Result<int>)
      ensures r == ReadWatermark(last)
      ensures last.None? ==> r == Err(IOError)
    {
      match last {
        case None =>
          r := Err(IOError);
        case Some(text) =>
          var n := ParseInt(text);
          r := if n.Some? then Ok(n.value) else Err(ValueError);
      }
    }

    /** `save_last_updated()`, with the current time `now` in whole seconds. */
    method SaveLastUpdated(now: int)
      modifies this`last
      ensures last == Some(IntToString(now))
      ensures ReadWatermark(last) == Ok(now)
    {
      last := Some(IntToString(now));
      ReadBackTime(now);
    }

    /** `save_last_rev(value)`: writes the revision, and writes nothing for None. */
    method SaveLastRev(value: Option<string>)
      modifies this`last
      ensures value.Some? ==> last == Some(value.value)
      ensures value.None? ==> last == old(last)
    {
      if value.Some? {
        last := Some(value.value);
      }
    }

    /** The seeding at the end of `init`: HEAD for Subversion, the current time otherwise. */
    method Init(mode: Mode, head: Svn.SvnInfo, now: int)
      modifies this`last
      ensures mode == SvnMode ==> last == Some(head.revision)
      ensures mode != SvnMode ==> last == Some(IntToString(now))
    {
      if mode == SvnMode {
        var slog := new Svn.SvnLog();
        slog.SetInfo(head);
        var rev := slog.GetLatestRev();
        SaveLastRev(Some(rev));
      } else {
        SaveLastUpdated(now);
      }
    }

    /**
     * One pass of the loop in `start`: reads the watermark, asks the adapter
     * for news since it, writes the new watermark (Subversion: the final
     * revision, or nothing before any; otherwise `now`), and hands the message
     * to the chat when it is not empty. An exception ends the pass where it is
     * raised.
     */
    method Step(src: Source, now: int) returns (r: Result<string>)
      modifies this`last, this`outbox, if src.SvnSource? then {src.adapter} else {}
      ensures ReadWatermark(old(last)).Err? ==>
                && r == Err(ReadWatermark(old(last)).error)
                && (src.SvnSource? ==> unchanged(src.adapter))
      ensures ReadWatermark(old(last)).Ok? ==> r == Fetch(src, ReadWatermark(old(last)).value)
      ensures src.SvnSource? && ReadWatermark(old(last)).Ok? ==>
                && src.adapter.name == src.info.path
                && src.adapter.latestRev == src.info.revision
                && src.adapter.revList == old(src.adapter.revList)
                     + Svn.NewRevisions(ReadWatermark(old(last)).value, src.info, src.entries)
      ensures r.Err? ==> last == old(last) && outbox == old(outbox)
      ensures r.Ok? && src.SvnSource? ==>
                last == match Svn.FinalRev(src.adapter.revList)
                        case None => old(last)
                        case Some(rev) => Some(rev)
      ensures r.Ok? && !src.SvnSource? ==> last == Some(IntToString(now))
      ensures r.Ok? ==> outbox == old(outbox) + (if r.value == "" then [] else [r.value])
    {
      var w := GetLastUpdated();
      if w.Err? {
        return Err(w.error);
      }
      var msg: Result<string>;
      match src {
        case SvnSource(adapter, info, entries) =>
          msg := adapter.Get(w.value, info, entries);
        case GitSource(fetch, gitLog) =>
          msg := Git.Get(fetch, w.value, gitLog);
        case GerritSource(host, changes, date) =>
          var text := Gerrit.Get(host, changes, w.value, date);
          msg := Ok(text);
      }
      if msg.Err? {
        return msg;
      }
      if src.SvnSource? {
        var rev := src.adapter.GetFinalRev();
        SaveLastRev(rev);
      } else {
        SaveLastUpdated(now);
      }
      if msg.value != "" {
        outbox := outbox + [msg.value];
      }
      r := msg;
    }
  }
}
