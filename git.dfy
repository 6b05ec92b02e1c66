/**
 * The Git adapter (`GitLog.get`): a scan of the text `git fetch` printed, one
 * line at a time, carrying the name of the current remote from line to line.
 * The commit list of a fetched range (`git log <range> --pretty=...`) is the
 * uninterpreted function `gitLog` from the range token to its output.
 */
module Git {
  import opened Wrappers
  import opened Text
  import opened SourceLog

  // ---------------------------------------------------------------------------
  // the four line shapes, as the regular expressions search for them
  // ---------------------------------------------------------------------------

  /** `\w` without the UNICODE flag: an ASCII letter, digit or underscore. */
  predicate IsWordChar(ch: char)
  {
    'a' <= ch <= 'z' || 'A' <= ch <= 'Z' || '0' <= ch <= '9' || ch == '_'
  }

  /** `From (.*)` finds a match. */
  predicate IsFromLine(line: string)
  {
    Contains(line, "From ")
  }

  /** `\w+\.\.\w(.*)` finds a match: a word character, two dots, a word character. */
  predicate HasRange(line: string)
    decreases |line|
  {
    |line| >= 4
    && ((IsWordChar(line[0]) && line[1] == '.' && line[2] == '.' && IsWordChar(line[3]))
        || HasRange(line[1..]))
  }

  /** `\* \[new branch(.*)` finds a match. */
  predicate IsNewBranchLine(line: string)
  {
    Contains(line, "* [new branch")
  }

  /** `\* \[new tag(.*)` finds a match. */
  predicate IsNewTagLine(line: string)
  {
    Contains(line, "* [new tag")
  }

  /** A line that asks for a block: not a From line, and one of the other three shapes. */
  predicate IsReportLine(line: string)
  {
    !IsFromLine(line) && (HasRange(line) || IsNewBranchLine(line) || IsNewTagLine(line))
  }

  // ---------------------------------------------------------------------------
  // one line
  // ---------------------------------------------------------------------------

  /** What one line does to the scan. */
  datatype LineEffect =
    | SetRemote(remote: string)  // a From line: the remote for the lines after it
    | Emit(block: string)        // a block for the digest
    | Ignore                     // any other line
    | Fail(error: Error)         // the exception the line raises

  /** `token.split('/')[-1]`: what follows the last slash, or the whole token. */
  function LastSegment(token: string): (seg: string)
    ensures '/' !in seg
  {
    var parts := SplitOn(token, '/');
    parts[|parts| - 1]
  }

  /** The block of a fetched range: the remote, the branch, and the range's commit list. */
  function CommitBlock(pname: string, branch: string, log: string): (b: string)
    ensures "(*) [GitLog] " <= b
  {
    "(*) [GitLog] Commit branch " + pname + "/" + branch + ":\n" + log
  }

  /** The block of a new branch on the remote. */
  function BranchBlock(pname: string, name: string): (b: string)
    ensures "\\o/ [GitLog] " <= b
  {
    "\\o/ [GitLog] Branch " + pname + "/" + name
  }

  /** The block of a new tag on the remote. */
  function TagBlock(pname: string, name: string): (b: string)
    ensures "(d) [GitLog] " <= b
  {
    "(d) [GitLog] Tag " + pname + "/" + name
  }

  /**
   * The loop body of `get` for one line, given the current remote `pname`;
   * the shapes are tried in order From, range, new branch, new tag. Reading a
   * token the line does not have raises IndexError.
   */
  function ClassifyLine(line: string, pname: string, gitLog: string -> string): (e: LineEffect)
    ensures IsFromLine(line) <==> e.SetRemote?
    ensures e.Emit? || e.Fail? <==> IsReportLine(line)
    ensures e.Ignore? <==> !IsFromLine(line) && !IsReportLine(line)
    ensures e.Fail? <==> IsReportLine(line) && |Words(line)| < (if HasRange(line) then 2 else 4)
    ensures e.Fail? ==> e.error == IndexError
  {
    var items := Words(line);
    if IsFromLine(line) then
      // `items[-1]` cannot fail: "From " starts with a non-space character
      ContainsGivesWord(line, "From ");
      SetRemote(LastSegment(items[|items| - 1]))
    else if HasRange(line) then
      if |items| < 2 then Fail(IndexError)
      else Emit(CommitBlock(pname, items[1], gitLog(items[0])))
    else if IsNewBranchLine(line) then
      if |items| < 4 then Fail(IndexError)
      else Emit(BranchBlock(pname, items[3]))
    else if IsNewTagLine(line) then
      if |items| < 4 then Fail(IndexError)
      else Emit(TagBlock(pname, items[3]))
    else
      Ignore
  }

  /** A range line with two tokens yields the commit block of its range, before any other shape. */
  lemma RangeLineBlock(line: string, pname: string, gitLog: string -> string)
    requires !IsFromLine(line) && HasRange(line) && |Words(line)| >= 2
    ensures ClassifyLine(line, pname, gitLog) == Emit(CommitBlock(pname, Words(line)[1], gitLog(Words(line)[0])))
  {
  }

  /** A new-branch line without a range, with four tokens, yields the branch block of its fourth token. */
  lemma NewBranchLineBlock(line: string, pname: string, gitLog: string -> string)
    requires !IsFromLine(line) && !HasRange(line) && IsNewBranchLine(line) && |Words(line)| >= 4
    ensures ClassifyLine(line, pname, gitLog) == Emit(BranchBlock(pname, Words(line)[3]))
  {
  }

  /** A new-tag line that is neither a range nor a new-branch line, with four tokens, yields the tag block. */
  lemma NewTagLineBlock(line: string, pname: string, gitLog: string -> string)
    requires !IsFromLine(line) && !HasRange(line) && !IsNewBranchLine(line) && IsNewTagLine(line)
    requires |Words(line)| >= 4
    ensures ClassifyLine(line, pname, gitLog) == Emit(TagBlock(pname, Words(line)[3]))
  {
  }

  // ---------------------------------------------------------------------------
  // the whole fetch output
  // ---------------------------------------------------------------------------

  function Prepend(blocks: seq<string>, r: Result<seq<string>>): Result<seq<string>>
  {
    match r
    case Ok(rest) => Ok(blocks + rest)
    case Err(e) => Err(e)
  }

  /** The blocks of the lines, in line order, starting with remote `pname`; the first exception stops the scan. */
  function Scan(lines: seq<string>, pname: string, gitLog: string -> string): Result<seq<string>>
    decreases |lines|
  {
    if lines == [] then Ok([])
    else
      match ClassifyLine(lines[0], pname, gitLog)
      case SetRemote(p) => Scan(lines[1..], p, gitLog)
      case Emit(b) => Prepend([b], Scan(lines[1..], pname, gitLog))
      case Ignore => Scan(lines[1..], pname, gitLog)
      case Fail(e) => Err(e)
  }

  /** The remote in force after the lines, starting from `pname`. */
  function RemoteAfter(lines: seq<string>, pname: string, gitLog: string -> string): string
    decreases |lines|
  {
    if lines == [] then pname
    else
      match ClassifyLine(lines[0], pname, gitLog)
      case SetRemote(p) => RemoteAfter(lines[1..], p, gitLog)
      case _ => RemoteAfter(lines[1..], pname, gitLog)
  }

  /** How many of the lines ask for a block. */
  function CountReportLines(lines: seq<string>): (n: nat)
    ensures n <= |lines|
    decreases |lines|
  {
    if lines == [] then 0
    else (if IsReportLine(lines[0]) then 1 else 0) + CountReportLines(lines[1..])
  }

  /** `get(last_updated)`: the digest of the blocks of the fetch output's lines. */
  function Report(fetch: string, gitLog: string -> string): Result<string>
  {
    match Scan(SplitOn(fetch, '\n'), "", gitLog)
    case Ok(blocks) => Ok(ToMsg(blocks))
    case Err(e) => Err(e)
  }

  /** A scan that succeeds yields exactly one block per report line, whatever the remotes. */
  lemma {:induction false} ScanCount(lines: seq<string>, pname: string, gitLog: string -> string)
    requires Scan(lines, pname, gitLog).Ok?
    ensures |Scan(lines, pname, gitLog).value| == CountReportLines(lines)
    decreases |lines|
  {
    if lines != [] {
      match ClassifyLine(lines[0], pname, gitLog) {
        case SetRemote(p) => ScanCount(lines[1..], p, gitLog);
        case Emit(b) => ScanCount(lines[1..], pname, gitLog);
        case Ignore => ScanCount(lines[1..], pname, gitLog);
      }
    }
  }

  /**
   * Scanning two runs of lines is scanning the first, then the second with the
   * remote the first left in force: blocks come out in line order.
   */
  lemma {:induction false} ScanAppend(a: seq<string>, b: seq<string>, pname: string, gitLog: string -> string)
    ensures Scan(a + b, pname, gitLog) ==
              match Scan(a, pname, gitLog)
              case Err(e) => Err(e)
              case Ok(first) => Prepend(first, Scan(b, RemoteAfter(a, pname, gitLog), gitLog))
    decreases |a|
  {
    if a == [] {
      assert a + b == b;
      match Scan(b, pname, gitLog) {
        case Ok(rest) => assert [] + rest == rest;
        case Err(_) =>
      }
    } else {
      assert (a + b)[0] == a[0] && (a + b)[1..] == a[1..] + b;
      match ClassifyLine(a[0], pname, gitLog) {
        case SetRemote(p) => ScanAppend(a[1..], b, p, gitLog);
        case Emit(blk) =>
          ScanAppend(a[1..], b, pname, gitLog);
          match Scan(a[1..], pname, gitLog) {
            case Err(_) =>
            case Ok(first) =>
              match Scan(b, RemoteAfter(a[1..], pname, gitLog), gitLog) {
                case Err(_) =>
                case Ok(rest) => assert [blk] + (first + rest) == ([blk] + first) + rest;
              }
          }
        case Ignore => ScanAppend(a[1..], b, pname, gitLog);
        case Fail(_) =>
      }
    }
  }

  /** A From line never yields a block: it only changes the remote of the lines after it. */
  lemma FromLineSetsRemote(line: string, rest: seq<string>, pname: string, gitLog: string -> string)
    requires IsFromLine(line)
    ensures var items := Words(line);
            && items != []
            && Scan([line] + rest, pname, gitLog) == Scan(rest, LastSegment(items[|items| - 1]), gitLog)
  {
    ContainsGivesWord(line, "From ");
    assert ([line] + rest)[1..] == rest;
  }

  // ---------------------------------------------------------------------------
  // the adapter
  // ---------------------------------------------------------------------------

  /**
   * `GitLog.get(last_updated)`: scans the fetch output line by line and joins
   * the blocks. `lastUpdated` is accepted and never read.
   */
  method Get(fetch: string, lastUpdated: int, gitLog: string -> string) returns (r: Result<string>)
    ensures r == Report(fetch, gitLog)
    ensures r.Ok? ==> (r.value == "" <==> CountReportLines(SplitOn(fetch, '\n')) == 0)
  {
    var lines := SplitOn(fetch, '\n');
    var pname := "";
    var msglist: seq<string> := [];
    var i := 0;
    assert lines[i..] == lines;
    match Scan(lines, pname, gitLog) {
      case Ok(all) => assert msglist + all == all;
      case Err(_) =>
    }
    while i < |lines|
      invariant 0 <= i <= |lines|
      invariant Scan(lines, "", gitLog) == Prepend(msglist, Scan(lines[i..], pname, gitLog))
    {
      assert lines[i..][1..] == lines[i + 1..];
      match ClassifyLine(lines[i], pname, gitLog) {
        case SetRemote(p) =>
          pname := p;
        case Emit(b) =>
          match Scan(lines[i + 1..], pname, gitLog) {
            case Ok(rest) => assert msglist + ([b] + rest) == (msglist + [b]) + rest;
            case Err(_) =>
          }
          msglist := msglist + [b];
        case Ignore =>
        case Fail(e) =>
          return Err(e);
      }
      i := i + 1;
    }
    assert msglist + [] == msglist;
    r := Ok(ToMsg(msglist));
    NonEmptyBlocks(lines, gitLog);
    ScanCount(lines, "", gitLog);
    ToMsgEmptyIff(msglist);
  }

  /** No block is the empty string. */
  lemma {:induction false} NonEmptyBlocks(lines: seq<string>, gitLog: string -> string)
    ensures forall pname :: Scan(lines, pname, gitLog).Ok? ==>
              forall i :: 0 <= i < |Scan(lines, pname, gitLog).value| ==> Scan(lines, pname, gitLog).value[i] != ""
    decreases |lines|
  {
    if lines != [] {
      NonEmptyBlocks(lines[1..], gitLog);
    }
  }
}
