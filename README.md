# cinotifier in Dafny

cinotifier is a small daemon. It polls a source repository: Subversion, Git, or
a Gerrit review queue. It remembers how far it has reported in a watermark file,
and it posts a text digest of everything new to a Skype chat, or prints it.
This project models the daemon's reporting engine and proves properties of it:

- `SourceLog` — the digest joiner `to_msg`: blocks separated by one blank line.
- `Svn` — the class `SvnLog`. It records HEAD, formats one block per log entry
  above the watermark, and keeps the list of reported revisions `_revlist`.
  From that list comes the next watermark, the largest revision in *string*
  order, exactly as the program computes it.
- `Git` — the line scanner of `GitLog.get` over the output of `git fetch`.
  It carries the current remote from line to line. Each line is classified as
  From, commit range, new branch, new tag or other, in that priority order.
- `Gerrit` — the filter and formatter of `GerritLog.get`. It skips the trailing
  statistics object and keeps the changes updated strictly after the watermark,
  in answer order.
- `Poll` — the class `Observer`. It names the per-mode state files, reads and
  writes the watermark file, seeds it in `init`, and runs one pass of the
  polling loop of `start`.
- `Text` — the Python string operations the program relies on: `'\n\n'.join`,
  `split('\n')`, `split()`, `re.search` as substring tests, `int()`, `str()`,
  and string comparison.
- `Wrappers` — Option, Result and the exceptions that can be raised
  (IOError, ValueError, IndexError).
- `Scenarios` — worked polls of each adapter.

External tools are inputs, not calls:

- The answers of `svn info`/`svn log` come in as parsed records.
- The answer of `gerrit query` comes in as decoded objects.
- The output of `git fetch` comes in as text.
- The commit list of a fetched range is an uninterpreted function `gitLog`.
- The local-time rendering of a timestamp is an uninterpreted function `date`.
- The current time is the parameter `now`.
- The `.last` file is the field `Observer.last`, where None means the file does
  not exist.
- Delivery to the chat is an append to `Observer.outbox`.

## Model

| member | source | states |
|---|---|---|
| SourceLog.ToMsg | cinotifier.py:167-171 | no blocks give ""; one block gives that block unchanged; otherwise the first block, one "\n\n", then the digest of the rest |
| SourceLog.ToMsgAppend | cinotifier.py:167-171 | the digest of two non-empty runs of blocks is their two digests joined by exactly one separator |
| SourceLog.ToMsgSnoc | cinotifier.py:167-171 | appending a block appends one separator and the block |
| SourceLog.ToMsgEmptyIff | cinotifier.py:167-171 | when no block is empty, the digest is empty exactly when there are no blocks |
| Text.JoinSplitOn | cinotifier.py:232 | splitting on a character and joining with it again gives back the text |
| Text.SplitOn | cinotifier.py:232 | `split('\n')` gives at least one piece and no piece holds the separator |
| Text.Words | cinotifier.py:233 | `split()` gives non-empty tokens without whitespace |
| Text.WordsOfWord | cinotifier.py:233 | a non-empty run without whitespace splits into itself alone |
| Text.WordsSplitAtSpace | cinotifier.py:233 | the tokens around a whitespace character are the tokens of the left side followed by those of the right side |
| Text.WordsEmptyIff | cinotifier.py:233 | a line has no tokens exactly when it is all whitespace |
| Text.ContainsGivesWord | cinotifier.py:235-236 | a line containing a text that starts with a non-space character has at least one token, so `items[-1]` exists |
| Text.ParseIntToString | cinotifier.py:140-146 | `int(str(n)) == n` for every integer n |
| Text.StrLtTransitive | cinotifier.py:200 | string order is transitive |
| Text.StrLtTotal | cinotifier.py:200 | of two different strings one is smaller in string order |
| Svn.Block | cinotifier.py:218-219 | every block starts with "(*) [SvnLog] " |
| Svn.FilesTextAppend | cinotifier.py:215-217 | the file list of two runs of paths is the first run's lines followed by the second's |
| Svn.Blocks | cinotifier.py:210-220 | one block per log entry, at the same index |
| Svn.Revisions | cinotifier.py:210-221 | one revision per log entry, at the same index |
| Svn.ReportEmptyIff | cinotifier.py:206-223 | below HEAD, the message is empty and nothing is appended to `_revlist` exactly when the log has no entries |
| Svn.MaxRev | cinotifier.py:200 | `max` of the revisions is one of them, and none is larger in string order |
| Svn.FinalRev | cinotifier.py:198-200 | None exactly for an empty list; otherwise a member no member exceeds in string order |
| Svn.FinalRevUnique | cinotifier.py:198-200 | two members that no member exceeds are equal, so the final revision is determined |
| Svn.SvnLog.constructor | cinotifier.py:184-185 | `_revlist` starts empty |
| Svn.SvnLog.SetInfo | cinotifier.py:187-193 | `_name` and `_latest_rev` become the path and HEAD revision `svn info` answered |
| Svn.SvnLog.GetLatestRev | cinotifier.py:195-196 | returns `_latest_rev` |
| Svn.SvnLog.GetFinalRev | cinotifier.py:198-200 | None exactly when `_revlist` is empty; otherwise a member of `_revlist` that no member exceeds in string order |
| Svn.SvnLog.FormatFiles | cinotifier.py:215-217 | the file list is one "  [action] path\n" line per changed path, in order |
| Svn.SvnLog.Get | cinotifier.py:202-223 | records HEAD; ValueError when HEAD is not a number; "" with `_revlist` unchanged when the watermark is at or past HEAD; otherwise the digest of one block per entry in log order, with the entries' revisions appended to `_revlist` and nothing removed |
| Svn.StringMaxWatermarkLags | cinotifier.py:198-200 | after revisions 9 to 12 the final revision is "9", and a poll from 9 against HEAD 12 reports the entries again |
| Svn.MaxRevNumber | cinotifier.py:198-200 | (corrected) the numeric maximum is a member and at least every member |
| Svn.NumericMaxWatermarkReachesHead | cinotifier.py:198-200 | (corrected) whenever HEAD is among the reported revisions and none exceeds it, the numeric maximum is HEAD and the next poll against HEAD reports nothing |
| Svn.NumericMaxAfterNineToTwelve | cinotifier.py:198-200 | (corrected) after revisions 9 to 12 the watermark is 12, and a poll against HEAD 12 reports nothing |
| Git.LastSegment | cinotifier.py:236 | the remote name holds no '/' |
| Git.CommitBlock | cinotifier.py:245 | the block of a fetched range starts with "(*) [GitLog] " and names the remote and branch before the commit list |
| Git.BranchBlock | cinotifier.py:249 | the block of a new branch starts with `\o/ [GitLog] ` |
| Git.TagBlock | cinotifier.py:253 | the block of a new tag starts with "(d) [GitLog] " |
| Git.ClassifyLine | cinotifier.py:233-253 | a From line sets the remote and never yields a block, even when it also holds a range; a non-From line with a range, new-branch or new-tag shape yields a block, and raises IndexError exactly when it has fewer tokens than it reads (2 for a range line, 4 otherwise); every other line is ignored |
| Git.RangeLineBlock | cinotifier.py:240-245 | a range line with two tokens yields "(*) [GitLog] Commit branch <remote>/<second token>:\n" and the log of its first token, whatever other shape it also has |
| Git.NewBranchLineBlock | cinotifier.py:247-249 | a new-branch line without a range, with four tokens, yields `\o/ [GitLog] Branch <remote>/<fourth token>`, even when it also looks like a new-tag line |
| Git.NewTagLineBlock | cinotifier.py:251-253 | a new-tag line that is neither a range nor a new-branch line, with four tokens, yields "(d) [GitLog] Tag <remote>/<fourth token>" |
| Git.ScanAppend | cinotifier.py:230-253 | scanning two runs of lines is scanning the first, then the second with the remote the first left in force; blocks come out in line order |
| Git.ScanCount | cinotifier.py:240-253 | a scan that completes yields exactly one block per report line |
| Git.FromLineSetsRemote | cinotifier.py:235-238 | a From line contributes no block and sets the remote to the last '/'-segment of its last token |
| Git.NonEmptyBlocks | cinotifier.py:245-253 | no block is empty |
| Git.Get | cinotifier.py:227-255 | the loop, starting with remote "", returns the scan's digest or the first IndexError; the result does not depend on `last_updated`; a completed result is empty exactly when no line asks for a block |
| Gerrit.Block | cinotifier.py:277-283 | every block starts with "(*) [GerritLog] branch " |
| Gerrit.Selected | cinotifier.py:272-276 | a change is kept exactly when it is in the answer, has other than 3 fields, and was updated strictly after the watermark |
| Gerrit.Blocks | cinotifier.py:277-283 | one block per kept change, at the same index |
| Gerrit.SelectedAppend | cinotifier.py:272-276 | selection keeps answer order |
| Gerrit.SelectedMonotone | cinotifier.py:276 | with a later watermark, the changes reported are those the earlier watermark reports, filtered again |
| Gerrit.ReportEmptyIff | cinotifier.py:271-285 | the digest is empty exactly when no change is new; a change updated at the watermark itself is not new |
| Gerrit.OnlySummaries | cinotifier.py:274 | an answer made only of summary objects gives "" |
| Gerrit.Get | cinotifier.py:267-285 | the loop skips summary objects and returns the digest of the blocks of the selected changes, in answer order |
| Poll.SetModefile | cinotifier.py:55-59 | the lock, watermark and configuration files are three different paths under the state directory |
| Poll.ModeFilesApart | cinotifier.py:55-59 | different modes never share a lock file or a watermark file |
| Poll.ReadWatermark | cinotifier.py:140-142 | a missing file raises IOError; text that is not an integer raises ValueError; the read succeeds exactly when the file holds an integer, and then gives that integer |
| Poll.ReadBackTime | cinotifier.py:140-146 | a time written by `save_last_updated` reads back as the same number |
| Poll.SeededSvnPollIsEmpty | cinotifier.py:86-91 | after seeding with HEAD, a poll against the same HEAD reports nothing and appends no revision |
| Poll.SeededGerritPollIsEmpty | cinotifier.py:86-91 | after seeding with the current time, a poll reports nothing updated at or before that time |
| Poll.Observer.GetLastUpdated | cinotifier.py:140-142 | reads the watermark file as an integer, with IOError for a missing file |
| Poll.Observer.SaveLastUpdated | cinotifier.py:144-146 | the watermark file holds the decimal text of `now`, which reads back as `now` |
| Poll.Observer.SaveLastRev | cinotifier.py:148-151 | a revision is written; None leaves the watermark file unchanged |
| Poll.Observer.Init | cinotifier.py:86-91 | Subversion seeds the watermark with the HEAD revision; other modes seed it with the current time |
| Poll.Observer.Step | cinotifier.py:115-126 | passes the stored watermark to the adapter; Subversion then writes the final revision (nothing when there is none) and other modes write `now`; the message goes to the outbox exactly when it is non-empty; an exception leaves the watermark and the outbox unchanged |
| Scenarios.TwoRevisionPoll | cinotifier.py:202-223 | watermark 100, HEAD 102, revisions 101 and 102: two blocks in log order; the final revision is "102" |
| Scenarios.FetchOneBranch | cinotifier.py:227-255 | a From line followed by a range line gives one block, labelled with the From line's remote and the range line's branch, that embeds the log of the range |
| Scenarios.ReviewQueuePoll | cinotifier.py:267-285 | watermark 1000, changes updated at 1500 and 900, then the summary: the digest is the first change's block alone |

## Left out

- Shell commands and the templating of their command strings are not modelled. The tools' answers are parameters, and the commit list of a range is the function `gitLog`.
- XML parsing of the `svn` answers and JSON decoding of the `gerrit` answer are left out. So are the exceptions raised when an element, attribute or key is missing, when a path's text is absent, or when a line is not JSON. The records come in parsed and complete.
- Local-time rendering of a timestamp depends on the time zone and locale. It is the function `date`. The UTF-8 `encode` calls are identity on the modelled strings.
- The Skype connection and `SendMessage` are a foreign library. Delivery is an append to `Observer.outbox`, and printing when no chat is attached is the same append.
- The endless loop, `time.sleep` and the configured interval are left out: `Poll.Observer.Step` is one pass. `time.time()` is the parameter `now`, taken as already truncated to whole seconds.
- The lock file, the PID written to it, `stop` and SIGKILL are process lifecycle and are left out. So is the `isfile` check on the configuration file.
- The setup prompts, ConfigParser reads and writes, the command line, the 32-bit check, and the creation of the state directory are left out. `Poll.SetModefile` takes the state directory as a parameter.
- Dispatch by class name through `globals()` becomes the closed datatype `Poll.Source`.
- Poll.Observer.Step: picks the watermark rule by the adapter's kind. The program picks it by the command-line mode, and the adapter by the configured mode. The two agree unless the configuration file was edited to another mode.
- Poll.Observer.Step: an exception ends the pass with the watermark and outbox untouched. In the program it ends `start` altogether.
- Svn.SvnLog.constructor: `_name` and `_latest_rev` start as "". In the program they do not exist until `set_info`, which every reader of them calls first.
- Text.ParseInt: `int()` of a text is modelled as ASCII whitespace stripped around an optional sign and at least one decimal digit. Other forms Python also accepts are not modelled.

## Findings

| source | as written | input that shows it | evidently intended | confidence | as-written member | corrected member |
|---|---|---|---|---|---|---|
| cinotifier.py:198-200 | `max(self._revlist)` over the revision attribute strings, so the comparison is by characters | `_revlist` holding "9", "10", "11", "12": `max` is "9", the stored watermark stays 9, and every poll against HEAD 12 reports revisions 10 to 12 again | the largest revision by number, so the watermark reaches HEAD | not executed | Svn.StringMaxWatermarkLags | Svn.NumericMaxWatermarkReachesHead |

`Svn.SvnLog.GetFinalRev` and `Poll.Observer.Step` keep the behaviour as written: string order, through `Svn.FinalRev`. `Svn.MaxRevNumber` is the corrected maximum, and `Svn.NumericMaxWatermarkReachesHead` proves the intended property about it.
