# Commit history collector: the log parser and the repository registry

The collector clones a GitHub repository and runs
`git log --all --pretty=format:'%H | %an | %ad | %s' --numstat`. It then
walks the output line by line and builds one record per changed file. Each
record carries the fields of the commit that changed the file: hash, author,
date, message, file name, added and deleted lines. Before all of this, it checks
a hand-kept list of already processed repositories and skips the repository
when an entry names the same owner and repository.

This project models those two pieces:

- `log_lines.dfy` (module `LogLines`) covers the two line shapes the parser
  recognises, the commit header `^([0-9a-fA-F]{40}) \| (.*?) \| (.+?) \| (.*)$`
  and the numstat line `^(\d+|-)\s+(\d+|-)\s+(.+)$`. Each shape is stated twice:
  - as the set of all ways a line can be cut into the pattern's pieces
    (`HeaderMatch`, `NumstatMatch`);
  - as a scanner that returns the groups Python's backtracking matcher returns
    (`ParseHeader`, `ParseNumstat`).

  Lemmas prove that the scanner succeeds exactly when some cut exists, and that
  it picks the cut the lazy and greedy quantifiers select.
- `commit_history.dfy` (module `CommitHistory`) covers the parsing loop of
  `collect_commits`. `CollectCommits` is the loop, with its body in
  `CollectLine`. It is proved equal to `Collect`, a left fold of `Step` over the
  lines.
  - A second description states the outcome line by line, without any running
    state: `LastHeaderIndex`, `RoleOf`, `RecordAt` and `Positions`.
  - `CollectFollowsRoles` proves the fold and that description equal.
  - The properties of the collected records are derived from that equality.
- `repo_registry.dfy` (module `RepoRegistry`) covers `repo_already_existing`
  and the list of processed repositories.
- `wrappers.dfy` holds `Option`.

The loop's `current_hash`, `current_author`, `current_date` and
`current_message` are `None` together until the first header, and every header
assigns all four at once. They are therefore one `Option<Commit>`. The lines the
loop prints as "Unexpected format" are returned as the sequence `unexpected`,
in order.

## Model

| member | source | states |
|---|---|---|
| LogLines.FindSep | commit-history-collector.py:101 | The result is the first position at or after `from` where the field separator (space, bar, space) starts; `None` means there is no separator at or after `from`. |
| LogLines.ParseHeaderSound | commit-history-collector.py:101 | Whatever the header scanner returns joins back into the line as hash, author, date and message with separators between them, with a 40-hex-digit hash and a non-empty date. |
| LogLines.ParseHeaderIsFirstMatch | commit-history-collector.py:101 | The scanner fails exactly when the line has no header reading. Otherwise it returns the reading with the shortest author and, for that author, the shortest date, which is the choice of the lazy `(.*?)` and `(.+?)`. The message may itself contain the separator. |
| LogLines.HeaderMatchCuts | commit-history-collector.py:101 | Any header reading puts separators right after the hash, after the author and after the date, and each group is the slice between them. |
| LogLines.CountEnd | commit-history-collector.py:103 | A non-empty span from `from` to the result is a count field: `-` or a run of digits. |
| LogLines.ParseNumstatSound | commit-history-collector.py:103 | Whatever the numstat scanner returns is a reading of the line: count, whitespace, count, whitespace, non-empty file name. |
| LogLines.ParseNumstatIsFirstMatch | commit-history-collector.py:103 | The scanner fails exactly when the line has no numstat reading. All readings share the two counts, and the file name returned is the shortest of them, because the whitespace before `(.+)` is greedy. The counts stay text. |
| LogLines.NumstatReadingIsForced | commit-history-collector.py:103 | Any single numstat reading of a line makes the scanner succeed with that reading's counts and a file name no longer than that reading's. |
| LogLines.HeaderAndNumstatDisjoint | commit-history-collector.py:113-120 | No line matches both patterns, so the order of the two tests never changes the outcome. |
| CommitHistory.AuthorOrDefault | commit-history-collector.py:119 | The stored author is never empty. It is the captured author when that is non-empty and "Unknown Author" otherwise. |
| CommitHistory.Run | commit-history-collector.py:112-134 | After `p` lines the records plus the reported lines number at most `p`. |
| CommitHistory.Collect | commit-history-collector.py:112-134 | After all lines, records plus reports are at most as many as the lines. |
| CommitHistory.LastHeaderIndex | commit-history-collector.py:115-117 | The result is the position of the nearest header strictly before `p`, with no header between it and `p`; `None` means there is no header before `p`. |
| CommitHistory.Positions | commit-history-collector.py:112-134 | The positions before `p` whose line plays the given role, all of them, in increasing order. |
| CommitHistory.CurrentIsNearestHeader | commit-history-collector.py:115-119 | After any prefix of the lines, the current commit is built from the nearest header so far, or is absent when no header has been seen. |
| CommitHistory.StepByRole | commit-history-collector.py:115-134 | One line adds a record exactly when it is a numstat line under a header, and the record is built from that header. It adds a report exactly when it is a numstat line with no header before it, or is not blank and matches neither pattern. |
| CommitHistory.ChangesFollowEmits | commit-history-collector.py:120-131 | After any prefix, the k-th record is the record of the k-th numstat line that has a header before it. |
| CommitHistory.ReportsFollowRoles | commit-history-collector.py:132-134 | After any prefix, the k-th reported line is the k-th line that is reported. |
| CommitHistory.CollectFollowsRoles | commit-history-collector.py:112-134 | The fold equals the line-by-line description: current commit, every record in order, and every reported line in order. |
| CommitHistory.RecordsCarryNearestHeader | commit-history-collector.py:115-131 | Every record comes from a numstat line `p` and the nearest header `q` above it, with no header in between. It has `q`'s hash, date and message, the author or "Unknown Author" when that is empty, and `p`'s file name and counts. |
| CommitHistory.RecordsInLineOrder | commit-history-collector.py:123 | There is one record per numstat line under a header, and the k-th record is built from the k-th such line, so records keep the order of those lines. |
| CommitHistory.NoRecordBeforeFirstHeader | commit-history-collector.py:120 | While no header has been seen, no record is produced and there is no current commit. |
| CommitHistory.HeaderLineIsNotBlank | commit-history-collector.py:132 | A header line is never blank. |
| CommitHistory.NumstatLineIsNotBlank | commit-history-collector.py:132 | A numstat line is never blank. |
| CommitHistory.BlankLineIsSkipped | commit-history-collector.py:132-134 | A blank or whitespace-only line is classified as blank and leaves the state unchanged, with nothing reported. |
| CommitHistory.StepFollowsTests | commit-history-collector.py:113-134 | One iteration in the loop's own terms. A header replaces the current commit. Failing that, a numstat line under a commit appends its record. Failing that, a non-blank line is reported. Otherwise nothing changes. |
| CommitHistory.CollectLine | commit-history-collector.py:113-134 | Running the loop body on line `i` turns the state after `i` lines into the state after `i + 1` lines. |
| CommitHistory.CollectCommits | commit-history-collector.py:97-137 | The loop returns exactly the records and reported lines of `Collect`, with no more records than lines. |
| RepoRegistry.RepoAlreadyExisting | commit-history-collector.py:60-67 | The result is true exactly when some entry matches both the owner and the repository name. A match on the name alone, or an empty list, gives false. |
| RepoRegistry.ProcessedReposLookups | commit-history-collector.py:144-159 | In the processed list, `microsoft/vscode` and `home-assistant/core` are found and another owner's `core` is not. |

## Left out

- Cloning (`clone_repo`), the `git log` subprocess and the splitting of its output at `'\n'` are not modelled. `CollectCommits` takes the list of lines as input.
- `get_commit_history_as_csv` is not modelled, nor are the timing, the DataFrame/CSV export and the removal of the temporary directory. These are I/O around the modelled core.
- Loading the token from the environment, the top-level calls and the repository list as a global are not modelled. The list is passed in as data (`ProcessedRepos`).
- The console messages are not modelled: "Project name already exists" in `repo_already_existing`, and the final count of file changes. The "Unexpected format" lines are kept, as the `unexpected` output.
- A repository entry without an `owner` or `repo_name` key, which raises `KeyError` in the source, is not modelled. `Repo` always has both fields.
- LogLines.ParseHeader: it agrees with the header pattern only on lines without `'\n'`, where `.` may match every character and `$` means the end of the line. Lines from `split('\n')` never contain one.
- LogLines.ParseNumstat: it agrees with the numstat pattern only on lines without `'\n'`, for the same reason. `\d` is taken as the ASCII digits 0-9, whereas Python's `\d` also accepts other Unicode decimal digits.
- The ownership analysis and charts built on the collected data are not part of this model.
