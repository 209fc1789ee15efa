/**
 * The parsing loop of the commit collector: it walks the lines of
 * `git log --pretty=format:'%H | %an | %ad | %s' --numstat`, remembers the
 * most recent commit header, and turns every numstat line that follows a header
 * into one file-change record carrying that commit's fields. Lines of neither
 * shape are reported on the console unless they are blank.
 *
 * `Collect` is the loop's meaning as a left fold of `Step`; `CollectCommits`
 * is the loop itself. `LastHeaderIndex`, `RoleOf` and `Positions` describe the
 * same outcome line by line, without any running state, and
 * `CollectFollowsRoles` proves the two descriptions equal.
 */
module CommitHistory {
  import opened Wrappers
  import opened LogLines

  /** Author recorded when `%an` is empty. */
  const UnknownAuthor: string := "Unknown Author"

  /** The author of a recognised header as the collector stores it: the
      captured name if it has one, the placeholder otherwise. */
  function AuthorOrDefault(author: string): (r: string)
    ensures r != ""
    ensures author != "" ==> r == author
    ensures author == "" ==> r == UnknownAuthor
  {
    if author != "" then author else UnknownAuthor
  }

  /** The commit the collector is currently inside. */
  datatype Commit = Commit(hash: string, author: string, date: string, message: string)

  function CommitOf(h: Header): Commit
  {
    Commit(h.hash, AuthorOrDefault(h.author), h.date, h.message)
  }

  /** One row of the collected history: a commit's fields and one file it
      touched. The counts stay text (`-` marks a binary file). */
  datatype FileChange = FileChange(
    hash: string, author: string, date: string, message: string,
    file: string, additions: string, deletions: string)

  function Record(c: Commit, n: Numstat): FileChange
  {
    FileChange(c.hash, c.author, c.date, c.message, n.file, n.additions, n.deletions)
  }

  // ---------------------------------------------------------------------------
  // The loop as a fold

  /** How the loop classifies a line. The header test is made first; the two
      shapes cannot both match (`HeaderAndNumstatDisjoint`). */
  datatype LineKind = HeaderKind(header: Header) | NumstatKind(numstat: Numstat) | BlankKind | OtherKind

  function KindOf(line: string): LineKind
  {
    match ParseHeader(line)
    case Some(h) => HeaderKind(h)
    case None =>
      match ParseNumstat(line)
      case Some(n) => NumstatKind(n)
      case None => if IsBlank(line) then BlankKind else OtherKind
  }

  /** The loop's state: the current commit (`None` before the first header),
      the records appended so far, and the lines reported as unexpected. */
  datatype Parse = Parse(current: Option<Commit>, changes: seq<FileChange>, unexpected: seq<string>)

  const Start: Parse := Parse(None, [], [])

  /** One iteration on `line`, of kind `kind`. A header replaces the current
      commit; a numstat line emits a record only under a header and is
      reported otherwise; a blank line is skipped; any other line is reported. */
  function Step(st: Parse, kind: LineKind, line: string): Parse
  {
    match kind
    case HeaderKind(h) => st.(current := Some(CommitOf(h)))
    case NumstatKind(n) =>
      if st.current.Some? then st.(changes := st.changes + [Record(st.current.value, n)])
      else st.(unexpected := st.unexpected + [line])
    case BlankKind => st
    case OtherKind => st.(unexpected := st.unexpected + [line])
  }

  /** The state after the first `p` lines, of the given kinds. Every line adds
      at most one record or one report. */
  function Run(kinds: seq<LineKind>, lines: seq<string>, p: nat): (r: Parse)
    requires p <= |kinds| == |lines|
    ensures |r.changes| + |r.unexpected| <= p
  {
    if p == 0 then Start
    else Step(Run(kinds, lines, p - 1), kinds[p - 1], lines[p - 1])
  }

  /** The kind of every line. */
  function Kinds(lines: seq<string>): (kinds: seq<LineKind>)
    ensures |kinds| == |lines|
    ensures forall i :: 0 <= i < |lines| ==> kinds[i] == KindOf(lines[i])
  {
    seq(|lines|, i requires 0 <= i < |lines| => KindOf(lines[i]))
  }

  /** What the loop leaves behind after consuming all of `lines`. */
  function Collect(lines: seq<string>): (r: Parse)
    ensures |r.changes| + |r.unexpected| <= |lines|
  {
    Run(Kinds(lines), lines, |lines|)
  }

  // ---------------------------------------------------------------------------
  // The same outcome, line by line

  /** The position of the nearest header strictly before position `p`. */
  function LastHeaderIndex(kinds: seq<LineKind>, p: nat): (r: Option<nat>)
    requires p <= |kinds|
    ensures r.Some? ==> r.value < p && kinds[r.value].HeaderKind?
    ensures r.Some? ==> forall q :: r.value < q < p ==> !kinds[q].HeaderKind?
    ensures r.None? ==> forall q :: 0 <= q < p ==> !kinds[q].HeaderKind?
  {
    if p == 0 then None
    else if kinds[p - 1].HeaderKind? then Some(p - 1)
    else LastHeaderIndex(kinds, p - 1)
  }

  /** The commit of the nearest header before position `p`. */
  function CommitBefore(kinds: seq<LineKind>, p: nat): Option<Commit>
    requires p <= |kinds|
  {
    match LastHeaderIndex(kinds, p)
    case None => None
    case Some(q) => Some(CommitOf(kinds[q].header))
  }

  /** What a line does: opens a commit, emits a record, is reported, or is
      skipped. */
  datatype Role = Opens | Emits | Reports | Skips

  function RoleOf(kinds: seq<LineKind>, p: nat): Role
    requires p < |kinds|
  {
    match kinds[p]
    case HeaderKind(_) => Opens
    case NumstatKind(_) => if LastHeaderIndex(kinds, p).Some? then Emits else Reports
    case BlankKind => Skips
    case OtherKind => Reports
  }

  /** The record an emitting line contributes. */
  function RecordAt(kinds: seq<LineKind>, p: nat): FileChange
    requires p < |kinds| && RoleOf(kinds, p) == Emits
  {
    Record(CommitBefore(kinds, p).value, kinds[p].numstat)
  }

  /** The positions before `p` whose line plays `role`, in increasing order. */
  function Positions(kinds: seq<LineKind>, p: nat, role: Role): (r: seq<nat>)
    requires p <= |kinds|
    ensures forall k :: 0 <= k < |r| ==> r[k] < p && RoleOf(kinds, r[k]) == role
    ensures forall k, l :: 0 <= k < l < |r| ==> r[k] < r[l]
    ensures forall q :: 0 <= q < p && RoleOf(kinds, q) == role ==> q in r
  {
    if p == 0 then []
    else Positions(kinds, p - 1, role) + (if RoleOf(kinds, p - 1) == role then [p - 1] else [])
  }

  /** After `p` lines the current commit is that of the nearest header so far. */
  lemma {:induction false} CurrentIsNearestHeader(kinds: seq<LineKind>, lines: seq<string>, p: nat)
    requires p <= |kinds| == |lines|
    ensures Run(kinds, lines, p).current == CommitBefore(kinds, p)
  {
    if p > 0 {
      CurrentIsNearestHeader(kinds, lines, p - 1);
    }
  }

  /** Line `p` adds a record exactly when it emits, and that record is
      `RecordAt`; it adds a report exactly when it is reported. */
  lemma StepByRole(kinds: seq<LineKind>, lines: seq<string>, p: nat)
    requires p < |kinds| == |lines|
    ensures var prev, next := Run(kinds, lines, p), Run(kinds, lines, p + 1);
      && next.changes == prev.changes + (if RoleOf(kinds, p) == Emits then [RecordAt(kinds, p)] else [])
      && next.unexpected == prev.unexpected + (if RoleOf(kinds, p) == Reports then [lines[p]] else [])
  {
    CurrentIsNearestHeader(kinds, lines, p);
  }

  /** After `p` lines the k-th record comes from the k-th emitting line. */
  lemma {:induction false} ChangesFollowEmits(kinds: seq<LineKind>, lines: seq<string>, p: nat)
    requires p <= |kinds| == |lines|
    ensures var st, emits := Run(kinds, lines, p), Positions(kinds, p, Emits);
      && |st.changes| == |emits|
      && forall k :: 0 <= k < |emits| ==> st.changes[k] == RecordAt(kinds, emits[k])
  {
    if p > 0 {
      ChangesFollowEmits(kinds, lines, p - 1);
      var before := Positions(kinds, p - 1, Emits);
      StepByRole(kinds, lines, p - 1);
      if RoleOf(kinds, p - 1) == Emits {
        assert Positions(kinds, p, Emits) == before + [p - 1];
      } else {
        assert Positions(kinds, p, Emits) == before;
      }
    }
  }

  /** After `p` lines the k-th report is the k-th reported line. */
  lemma {:induction false} ReportsFollowRoles(kinds: seq<LineKind>, lines: seq<string>, p: nat)
    requires p <= |kinds| == |lines|
    ensures var st, reports := Run(kinds, lines, p), Positions(kinds, p, Reports);
      && |st.unexpected| == |reports|
      && forall k :: 0 <= k < |reports| ==> st.unexpected[k] == lines[reports[k]]
  {
    if p > 0 {
      ReportsFollowRoles(kinds, lines, p - 1);
      var before := Positions(kinds, p - 1, Reports);
      StepByRole(kinds, lines, p - 1);
      if RoleOf(kinds, p - 1) == Reports {
        assert Positions(kinds, p, Reports) == before + [p - 1];
      } else {
        assert Positions(kinds, p, Reports) == before;
      }
    }
  }

  /** The fold and the line-by-line description agree: the current commit is
      that of the last header, the k-th record comes from the k-th emitting
      line, and the k-th report is the k-th reported line. */
  lemma CollectFollowsRoles(lines: seq<string>)
    ensures var st, kinds := Collect(lines), Kinds(lines);
      var emits := Positions(kinds, |lines|, Emits);
      var reports := Positions(kinds, |lines|, Reports);
      && st.current == CommitBefore(kinds, |lines|)
      && |st.changes| == |emits|
      && (forall k :: 0 <= k < |emits| ==> st.changes[k] == RecordAt(kinds, emits[k]))
      && |st.unexpected| == |reports|
      && (forall k :: 0 <= k < |reports| ==> st.unexpected[k] == lines[reports[k]])
  {
    var kinds := Kinds(lines);
    CurrentIsNearestHeader(kinds, lines, |lines|);
    ChangesFollowEmits(kinds, lines, |lines|);
    ReportsFollowRoles(kinds, lines, |lines|);
  }

  /** `r` is the record built from header `h` and numstat groups `n`: the
      header's hash, date and message, its author or the placeholder when that
      is empty, and the numstat line's file name and counts. */
  predicate RecordFrom(r: FileChange, h: Header, n: Numstat)
  {
    && r.hash == h.hash && r.date == h.date && r.message == h.message
    && r.author == (if h.author == "" then UnknownAuthor else h.author)
    && r.file == n.file && r.additions == n.additions && r.deletions == n.deletions
  }

  /** Each record comes from a numstat line `p` and carries the fields of the
      nearest header `q` above it. */
  lemma RecordsCarryNearestHeader(lines: seq<string>, k: nat)
    requires k < |Collect(lines).changes|
    ensures var kinds := Kinds(lines);
      exists q, p ::
        && 0 <= q < p < |lines|
        && kinds[q].HeaderKind? && kinds[p].NumstatKind?
        && (forall m :: q < m < p ==> !kinds[m].HeaderKind?)
        && RecordFrom(Collect(lines).changes[k], kinds[q].header, kinds[p].numstat)
  {
    var kinds := Kinds(lines);
    CollectFollowsRoles(lines);
    var p := Positions(kinds, |lines|, Emits)[k];
    assert RoleOf(kinds, p) == Emits;
    var q := LastHeaderIndex(kinds, p).value;
    assert RecordFrom(Collect(lines).changes[k], kinds[q].header, kinds[p].numstat);
  }

  /** Records keep the order of their numstat lines, one record per numstat
      line under a header: the k-th record is built from the k-th such line. */
  lemma RecordsInLineOrder(lines: seq<string>)
    ensures var kinds := Kinds(lines);
      var emits := Positions(kinds, |lines|, Emits);
      && |Collect(lines).changes| == |emits|
      && (forall k, l :: 0 <= k < l < |emits| ==> emits[k] < emits[l])
      && (forall k :: 0 <= k < |emits| ==> Collect(lines).changes[k] == RecordAt(kinds, emits[k]))
  {
    CollectFollowsRoles(lines);
  }

  /** Until the first header no record is emitted and there is no current
      commit: a numstat line before it is reported instead. */
  lemma {:induction false} NoRecordBeforeFirstHeader(kinds: seq<LineKind>, lines: seq<string>, p: nat)
    requires p <= |kinds| == |lines|
    requires forall i :: 0 <= i < p ==> !kinds[i].HeaderKind?
    ensures Run(kinds, lines, p).changes == [] && Run(kinds, lines, p).current == None
  {
    if p > 0 {
      NoRecordBeforeFirstHeader(kinds, lines, p - 1);
    }
  }

  /** A header line is never blank: it holds a `|`. */
  lemma HeaderLineIsNotBlank(line: string)
    ensures ParseHeader(line).Some? ==> !IsBlank(line)
  {
    if ParseHeader(line).Some? {
      assert SepAt(line, 40);
      assert line[41] == '|';
    }
  }

  /** A numstat line is never blank: it starts with a digit or `-`. */
  lemma NumstatLineIsNotBlank(line: string)
    ensures ParseNumstat(line).Some? ==> !IsBlank(line)
  {
    if ParseNumstat(line).Some? {
      assert CountEnd(line, 0) > 0;
      assert IsDigit(line[0]) || line[0] == '-';
    }
  }

  /** A blank line changes nothing and is not reported. */
  lemma BlankLineIsSkipped(st: Parse, line: string)
    requires IsBlank(line)
    ensures KindOf(line) == BlankKind
    ensures Step(st, KindOf(line), line) == st
  {
    HeaderLineIsNotBlank(line);
    NumstatLineIsNotBlank(line);
  }

  /** One iteration in the loop's own terms: the header test decides first;
      otherwise a numstat line under a commit adds its record; otherwise a
      non-blank line is reported and the state is otherwise unchanged. */
  lemma StepFollowsTests(st: Parse, line: string)
    ensures var next := Step(st, KindOf(line), line);
      match ParseHeader(line)
      case Some(h) => next == st.(current := Some(CommitOf(h)))
      case None =>
        if ParseNumstat(line).Some? && st.current.Some? then
          next == st.(changes := st.changes + [Record(st.current.value, ParseNumstat(line).value)])
        else if !IsBlank(line) then
          next == st.(unexpected := st.unexpected + [line])
        else
          next == st
  {
    NumstatLineIsNotBlank(line);
  }

  // ---------------------------------------------------------------------------
  // The loop

  /** One pass of the loop body. `current` stands for the four `current_*`
      variables, which are `None` together until the first header and are
      assigned together by every header. */
  method CollectLine(lines: seq<string>, i: nat,
                     current: Option<Commit>, fileChanges: seq<FileChange>, unexpected: seq<string>)
    returns (current': Option<Commit>, fileChanges': seq<FileChange>, unexpected': seq<string>)
    requires i < |lines|
    requires Parse(current, fileChanges, unexpected) == Run(Kinds(lines), lines, i)
    ensures Parse(current', fileChanges', unexpected') == Run(Kinds(lines), lines, i + 1)
  {
    var line := lines[i];
    StepFollowsTests(Parse(current, fileChanges, unexpected), line);
    current', fileChanges', unexpected' := current, fileChanges, unexpected;
    var commitMatch := ParseHeader(line);
    var numstatMatch := ParseNumstat(line);
    if commitMatch.Some? {
      var h := commitMatch.value;
      current' := Some(Commit(h.hash, AuthorOrDefault(h.author), h.date, h.message));
    } else if numstatMatch.Some? && current.Some? {
      var c, n := current.value, numstatMatch.value;
      fileChanges' := fileChanges + [FileChange(c.hash, c.author, c.date, c.message, n.file, n.additions, n.deletions)];
    } else if !IsBlank(line) {
      unexpected' := unexpected + [line];
    }
  }

  /** `collect_commits` after the `git log` call: the records in order, and the
      lines it prints as having an unexpected format. */
  method CollectCommits(logOutput: seq<string>) returns (fileChanges: seq<FileChange>, unexpected: seq<string>)
    ensures fileChanges == Collect(logOutput).changes
    ensures unexpected == Collect(logOutput).unexpected
    ensures |fileChanges| <= |logOutput|
  {
    ghost var kinds := Kinds(logOutput);
    fileChanges := [];
    unexpected := [];
    var current: Option<Commit> := None;
    for i := 0 to |logOutput|
      invariant Parse(current, fileChanges, unexpected) == Run(kinds, logOutput, i)
    {
      current, fileChanges, unexpected := CollectLine(logOutput, i, current, fileChanges, unexpected);
    }
  }
}
