/**
 * Recognisers for the two line shapes of `git log --pretty=format:'%H | %an | %ad | %s' --numstat`
 * output that the commit collector understands:
 *
 *   commit header   ^([0-9a-fA-F]{40}) \| (.*?) \| (.+?) \| (.*)$
 *   numstat line    ^(\d+|-)\s+(\d+|-)\s+(.+)$
 *
 * Each pattern is given twice: once as the set of all ways the line can be cut
 * into the pattern's pieces (`HeaderMatch`, `NumstatMatch`, the regex's meaning
 * without its choice among alternatives), and once as a scanner that picks the
 * cut Python's backtracking matcher returns (`ParseHeader`, `ParseNumstat`).
 * The lemmas connect the two.
 */
module LogLines {
  import opened Wrappers

  // ---------------------------------------------------------------------------
  // Character classes

  /** A character of the class `\s` in a Python `str` pattern; also exactly the
      characters `str.strip()` removes. */
  predicate IsSpace(c: char)
  {
    var n := c as int;
    (0x09 <= n <= 0x0D) || (0x1C <= n <= 0x20) || n == 0x85 || n == 0xA0 || n == 0x1680
    || (0x2000 <= n <= 0x200A) || n == 0x2028 || n == 0x2029 || n == 0x202F
    || n == 0x205F || n == 0x3000
  }

  /** A character of the class `\d` (ASCII decimal digits). */
  predicate IsDigit(c: char)
  {
    '0' <= c <= '9'
  }

  /** A character of the class `[0-9a-fA-F]`. */
  predicate IsHexDigit(c: char)
  {
    '0' <= c <= '9' || 'a' <= c <= 'f' || 'A' <= c <= 'F'
  }

  /** `line.strip()` is the empty string. */
  predicate IsBlank(line: string)
  {
    forall i :: 0 <= i < |line| ==> IsSpace(line[i])
  }

  // ---------------------------------------------------------------------------
  // Commit header lines

  /** The literal ` | ` that the pretty format puts between the fields. */
  const Sep: string := " | "

  /** A separator starts at position `k` of `s`. */
  predicate SepAt(s: string, k: nat)
  {
    k + 3 <= |s| && s[k] == ' ' && s[k + 1] == '|' && s[k + 2] == ' '
  }

  lemma SepAtSlice(s: string, k: nat)
    requires k + 3 <= |s|
    ensures SepAt(s, k) <==> s[k..k + 3] == Sep
  {
    if s[k..k + 3] == Sep {
      assert s[k..k + 3][0] == ' ' && s[k..k + 3][1] == '|' && s[k..k + 3][2] == ' ';
    }
  }

  /** `[0-9a-fA-F]{40}`. */
  predicate IsHash(s: string)
  {
    |s| == 40 && forall i :: 0 <= i < |s| ==> IsHexDigit(s[i])
  }

  /** The four groups of a header match. */
  datatype Header = Header(hash: string, author: string, date: string, message: string)

  /** `x` and `y` with a separator between them. */
  function Joined(x: string, y: string): string
  {
    x + Sep + y
  }

  /** The line the pretty format prints for these fields. */
  function HeaderLine(h: Header): string
  {
    Joined(h.hash, Joined(h.author, Joined(h.date, h.message)))
  }

  /** `h` is one way of reading `line` as a header: 40 hex digits, then three
      separators around an author (possibly empty), a non-empty date and a
      message (possibly empty, possibly containing ` | `). */
  ghost predicate HeaderMatch(line: string, h: Header)
  {
    line == HeaderLine(h) && IsHash(h.hash) && |h.date| > 0
  }

  /** The reading the matcher returns: `(.*?)` and `(.+?)` are lazy, so the
      shortest author wins, and among those the shortest date. */
  ghost predicate FirstHeaderMatch(line: string, h: Header)
  {
    && HeaderMatch(line, h)
    && forall h': Header :: HeaderMatch(line, h') ==>
         |h.author| < |h'.author| || (|h.author| == |h'.author| && |h.date| <= |h'.date|)
  }

  /** The first position at or after `from` where a separator starts. */
  function FindSep(s: string, from: nat): (r: Option<nat>)
    decreases |s| - from
    ensures r.Some? ==> from <= r.value && SepAt(s, r.value)
    ensures r.Some? ==> forall k :: from <= k < r.value ==> !SepAt(s, k)
    ensures r.None? ==> forall k :: from <= k ==> !SepAt(s, k)
  {
    if |s| < from + 3 then None
    else if SepAt(s, from) then Some(from)
    else FindSep(s, from + 1)
  }

  /** `commit_pattern.match(line)`, its groups when it matches. */
  function ParseHeader(line: string): Option<Header>
  {
    if |line| < 43 || !IsHash(line[..40]) || !SepAt(line, 40) then None
    else HeaderFields(line[..40], line[43..])
  }

  /** The lazy part of the header pattern on what follows `hash | `: the author
      runs to the first separator, the date to the first separator at least
      one character later, and the message is the rest. */
  function HeaderFields(hash: string, rest: string): Option<Header>
  {
    match FindSep(rest, 0)
    case None => None
    case Some(i) =>
      match FindSep(rest, i + 4)
      case None => None
      case Some(j) => Some(Header(hash, rest[..i], rest[i + 3..j], rest[j + 3..]))
  }

  /** A separator at `k` splits `s` into what comes before and after it. */
  lemma SplitAtSep(s: string, k: nat)
    requires SepAt(s, k)
    ensures s == Joined(s[..k], s[k + 3..])
  {
    SepAtSlice(s, k);
    assert s == s[..k] + s[k..k + 3] + s[k + 3..];
  }

  /** Cutting `Joined(x, y)` after `x`. */
  lemma CutAtSep(s: string, x: string, y: string)
    requires s == Joined(x, y)
    ensures s[..|x|] == x && SepAt(s, |x|) && s[|x| + 3..] == y
  {
    assert s[|x|..|x| + 3] == Sep;
    SepAtSlice(s, |x|);
  }

  /** What `HeaderFields` returns joins back into `rest`. */
  lemma HeaderFieldsSound(hash: string, rest: string)
    ensures HeaderFields(hash, rest).Some? ==> var h := HeaderFields(hash, rest).value;
      h.hash == hash && |h.date| > 0 && rest == Joined(h.author, Joined(h.date, h.message))
  {
    if HeaderFields(hash, rest).Some? {
      var i := FindSep(rest, 0).value;
      JoinAtSeps(rest, i, FindSep(rest, i + 4).value);
    }
  }

  /** Two separators split `rest` into three fields. */
  lemma JoinAtSeps(rest: string, i: nat, j: nat)
    requires SepAt(rest, i) && SepAt(rest, j) && i + 3 <= j
    ensures rest == Joined(rest[..i], Joined(rest[i + 3..j], rest[j + 3..]))
  {
    var tail := rest[i + 3..];
    var d := j - (i + 3);
    assert SepAt(tail, d) by {
      assert tail[d] == rest[j] && tail[d + 1] == rest[j + 1] && tail[d + 2] == rest[j + 2];
    }
    SplitAtSep(tail, d);
    assert tail[..d] == rest[i + 3..j] && tail[d + 3..] == rest[j + 3..];
    SplitAtSep(rest, i);
  }

  /** What `ParseHeader` returns is a header reading of the line. */
  lemma ParseHeaderSound(line: string)
    ensures ParseHeader(line).Some? ==> HeaderMatch(line, ParseHeader(line).value)
  {
    if ParseHeader(line).Some? {
      SplitAtSep(line, 40);
      HeaderFieldsSound(line[..40], line[43..]);
    }
  }

  /** Any separators at `i'` and `j'`, at least four apart, make `HeaderFields`
      succeed with an author no longer than `i'`, and a date ending no later
      than `j'` when the author ends at `i'`. */
  lemma HeaderFieldsFirst(hash: string, rest: string, i': nat, j': nat)
    requires SepAt(rest, i') && SepAt(rest, j') && i' + 4 <= j'
    ensures HeaderFields(hash, rest).Some?
    ensures var h := HeaderFields(hash, rest).value;
      |h.author| < i' || (|h.author| == i' && |h.author| + 3 + |h.date| <= j')
  {
    var i := FindSep(rest, 0).value;
    assert i <= i';
    var fj := FindSep(rest, i + 4);
    assert fj.Some? && (i == i' ==> fj.value <= j');
  }

  /** Cutting a header reading into its fields: the author ends at a separator
      and the date ends at another, at least four characters later. */
  lemma HeaderMatchCuts(line: string, h: Header)
    requires HeaderMatch(line, h)
    ensures |line| >= 43 && IsHash(line[..40]) && SepAt(line, 40)
    ensures h.hash == line[..40]
    ensures var rest := line[43..];
      && SepAt(rest, |h.author|)
      && SepAt(rest, |h.author| + 3 + |h.date|)
      && h.author == rest[..|h.author|]
      && h.date == rest[|h.author| + 3..|h.author| + 3 + |h.date|]
      && h.message == rest[|h.author| + 3 + |h.date| + 3..]
  {
    var tail := Joined(h.date, h.message);
    var rest := Joined(h.author, tail);
    CutAtSep(line, h.hash, rest);
    CutAtSep(rest, h.author, tail);
    CutAtSep(tail, h.date, h.message);
    var i := |h.author| + 3;
    var d := |h.date|;
    assert rest[i..] == tail;
    assert rest[i..i + d] == tail[..d];
    assert rest[i + d + 3..] == tail[d + 3..];
    assert rest[i + d] == tail[d] && rest[i + d + 1] == tail[d + 1] && rest[i + d + 2] == tail[d + 2];
  }

  /** The scanner and the regex agree: a header is recognised exactly when the
      line has some header reading, and then the groups are those of the
      reading with the shortest author and, after it, the shortest date. */
  lemma {:induction false} ParseHeaderIsFirstMatch(line: string)
    ensures ParseHeader(line).Some? ==> FirstHeaderMatch(line, ParseHeader(line).value)
    ensures ParseHeader(line).None? <==> forall h: Header :: !HeaderMatch(line, h)
  {
    ParseHeaderSound(line);
    forall h': Header | HeaderMatch(line, h')
      ensures ParseHeader(line).Some?
      ensures ParseHeader(line).Some? ==> var h := ParseHeader(line).value;
        |h.author| < |h'.author| || (|h.author| == |h'.author| && |h.date| <= |h'.date|)
    {
      HeaderMatchCuts(line, h');
      HeaderFieldsFirst(line[..40], line[43..], |h'.author|, |h'.author| + 3 + |h'.date|);
    }
  }

  // ---------------------------------------------------------------------------
  // Numstat lines

  /** `\d+|-`: lines added or deleted, or `-` for a binary file. */
  predicate IsCount(s: string)
  {
    s == "-" || (|s| > 0 && forall i :: 0 <= i < |s| ==> IsDigit(s[i]))
  }

  /** `\s+`. */
  predicate IsSpaceRun(s: string)
  {
    |s| > 0 && forall i :: 0 <= i < |s| ==> IsSpace(s[i])
  }

  /** The three groups of a numstat match, kept as text. */
  datatype Numstat = Numstat(additions: string, deletions: string, file: string)

  /** `n`, with the whitespace runs `w1` and `w2`, is one way of reading `line`
      as a numstat line. */
  ghost predicate NumstatShape(line: string, n: Numstat, w1: string, w2: string)
  {
    && line == n.additions + w1 + n.deletions + w2 + n.file
    && IsCount(n.additions) && IsSpaceRun(w1) && IsCount(n.deletions) && IsSpaceRun(w2)
    && |n.file| > 0
  }

  ghost predicate NumstatMatch(line: string, n: Numstat)
  {
    exists w1: string, w2: string :: NumstatShape(line, n, w1, w2)
  }

  /** The end of the longest run of digits starting at `from`. */
  function DigitRunEnd(s: string, from: nat): (e: nat)
    requires from <= |s|
    decreases |s| - from
    ensures from <= e <= |s|
    ensures forall k :: from <= k < e ==> IsDigit(s[k])
    ensures e == |s| || !IsDigit(s[e])
  {
    if from < |s| && IsDigit(s[from]) then DigitRunEnd(s, from + 1) else from
  }

  /** The end of the longest run of whitespace starting at `from`. */
  function SpaceRunEnd(s: string, from: nat): (e: nat)
    requires from <= |s|
    decreases |s| - from
    ensures from <= e <= |s|
    ensures forall k :: from <= k < e ==> IsSpace(s[k])
    ensures e == |s| || !IsSpace(s[e])
  {
    if from < |s| && IsSpace(s[from]) then SpaceRunEnd(s, from + 1) else from
  }

  /** The end of the `(\d+|-)` group starting at `from`, or `from` itself when
      there is none. */
  function CountEnd(s: string, from: nat): (e: nat)
    requires from <= |s|
    ensures from <= e <= |s|
    ensures e > from ==> IsCount(s[from..e])
  {
    if from < |s| && IsDigit(s[from]) then DigitRunEnd(s, from)
    else if from < |s| && s[from] == '-' then from + 1
    else from
  }

  /** Where `(.+)` starts after the second count, which ends at `c`: after all
      the whitespace, or at the last character when nothing else is left. */
  function FileStart(line: string, c: nat): int
    requires c <= |line|
  {
    var k := SpaceRunEnd(line, c);
    if k < |line| then k else |line| - 1
  }

  /** `numstat_pattern.match(line)`, its groups when it matches. The second
      `\s+` is greedy but must leave at least one character to `(.+)`: when the
      line ends in whitespace, the file name is its last character. */
  function ParseNumstat(line: string): Option<Numstat>
  {
    var a := CountEnd(line, 0);
    var b := SpaceRunEnd(line, a);
    var c := CountEnd(line, b);
    var e := FileStart(line, c);
    if a == 0 || b == a || c == b || e <= c then None
    else Some(Numstat(line[..a], line[b..c], line[e..]))
  }

  /** What `ParseNumstat` returns is a numstat reading of the line. */
  lemma ParseNumstatSound(line: string)
    ensures ParseNumstat(line).Some? ==> NumstatMatch(line, ParseNumstat(line).value)
  {
    if ParseNumstat(line).Some? {
      var a := CountEnd(line, 0);
      var b := SpaceRunEnd(line, a);
      var c := CountEnd(line, b);
      var e := FileStart(line, c);
      NumstatPieces(line, a, b, c, e);
      assert NumstatShape(line, ParseNumstat(line).value, line[a..b], line[c..e]);
    }
  }

  /** The pieces `ParseNumstat` cuts form a numstat reading. */
  lemma NumstatPieces(line: string, a: nat, b: nat, c: nat, e: nat)
    requires 0 < a < b < c < e < |line|
    requires IsCount(line[0..a]) && IsCount(line[b..c])
    requires forall i :: a <= i < b ==> IsSpace(line[i])
    requires forall i :: c <= i < e ==> IsSpace(line[i])
    ensures line == line[..a] + line[a..b] + line[b..c] + line[c..e] + line[e..]
    ensures IsCount(line[..a]) && IsSpaceRun(line[a..b]) && IsSpaceRun(line[c..e])
  {
    assert line[..a] == line[0..a];
    assert forall i :: 0 <= i < b - a ==> line[a..b][i] == line[a + i];
    assert forall i :: 0 <= i < e - c ==> line[c..e][i] == line[c + i];
  }

  /** A count field followed by whitespace ends where `CountEnd` says. */
  lemma CountEndOf(s: string, from: nat, x: string)
    requires from + |x| < |s| && s[from..from + |x|] == x
    requires IsCount(x) && IsSpace(s[from + |x|])
    ensures CountEnd(s, from) == from + |x|
  {
    if x != "-" {
      assert forall k :: from <= k < from + |x| ==> s[k] == x[k - from];
      assert !IsDigit(s[from + |x|]);
    }
  }

  /** A whitespace run followed by a count field ends where `SpaceRunEnd` says. */
  lemma SpaceRunEndOf(s: string, from: nat, w: string)
    requires from + |w| < |s| && s[from..from + |w|] == w
    requires IsSpaceRun(w) && (IsDigit(s[from + |w|]) || s[from + |w|] == '-')
    ensures SpaceRunEnd(s, from) == from + |w|
  {
  }

  /** The scanner and the regex agree: a numstat line is recognised exactly when
      it has some numstat reading; every reading has the same two counts; the
      one returned has the shortest file name, because the `\s+` before it is
      greedy. */
  lemma {:induction false} ParseNumstatIsFirstMatch(line: string)
    ensures ParseNumstat(line).Some? ==> NumstatMatch(line, ParseNumstat(line).value)
    ensures ParseNumstat(line).None? <==> forall n: Numstat :: !NumstatMatch(line, n)
    ensures ParseNumstat(line).Some? ==> forall n': Numstat :: NumstatMatch(line, n') ==>
      var n := ParseNumstat(line).value;
      n'.additions == n.additions && n'.deletions == n.deletions && |n.file| <= |n'.file|
  {
    ParseNumstatSound(line);
    forall n': Numstat | NumstatMatch(line, n')
      ensures ParseNumstat(line).Some?
      ensures var n := ParseNumstat(line).value;
        n'.additions == n.additions && n'.deletions == n.deletions && |n.file| <= |n'.file|
    {
      var w1, w2 :| NumstatShape(line, n', w1, w2);
      NumstatReadingIsForced(line, n', w1, w2);
    }
  }

  /** Any one numstat reading pins down what `ParseNumstat` returns. */
  lemma NumstatReadingIsForced(line: string, n': Numstat, w1: string, w2: string)
    requires NumstatShape(line, n', w1, w2)
    ensures ParseNumstat(line).Some?
    ensures var n := ParseNumstat(line).value;
      n'.additions == n.additions && n'.deletions == n.deletions && |n.file| <= |n'.file|
  {
    var p1 := |n'.additions|;
    var p2 := p1 + |w1|;
    var p3 := p2 + |n'.deletions|;
    var p4 := p3 + |w2|;
    NumstatOffsets(line, n', w1, w2);
    CountEndOf(line, 0, n'.additions);
    SpaceRunEndOf(line, p1, w1);
    CountEndOf(line, p2, n'.deletions);
    ParseNumstatFrom(line, p1, p2, p3, p4);
    assert line[..p1] == line[0..p1];
  }

  /** Once the two counts and the whitespace between them are found, and more
      whitespace follows up to `p4`, the file name starts at `p4` or later. */
  lemma ParseNumstatFrom(line: string, a: nat, b: nat, c: nat, p4: nat)
    requires CountEnd(line, 0) == a && SpaceRunEnd(line, a) == b && CountEnd(line, b) == c
    requires 0 < a < b < c < p4 < |line|
    requires forall i :: c <= i < p4 ==> IsSpace(line[i])
    ensures p4 <= FileStart(line, c)
    ensures ParseNumstat(line) == Some(Numstat(line[..a], line[b..c], line[FileStart(line, c)..]))
  {
  }

  /** Where the pieces of a numstat reading sit in the line. */
  lemma NumstatOffsets(line: string, n': Numstat, w1: string, w2: string)
    requires NumstatShape(line, n', w1, w2)
    ensures var p1 := |n'.additions|;
      var p2 := p1 + |w1|;
      var p3 := p2 + |n'.deletions|;
      var p4 := p3 + |w2|;
      && p4 < |line|
      && line[0..p1] == n'.additions && line[p1..p2] == w1 && line[p2..p3] == n'.deletions
      && line[p3..p4] == w2 && line[p4..] == n'.file
      && line[p1] == w1[0] && line[p2] == n'.deletions[0] && line[p3] == w2[0]
      && forall i :: p3 <= i < p4 ==> IsSpace(line[i])
  {
    var p1 := |n'.additions|;
    var p2 := p1 + |w1|;
    var p3 := p2 + |n'.deletions|;
    var p4 := p3 + |w2|;
    assert line == n'.additions + w1 + n'.deletions + w2 + n'.file;
    assert line[0..p1] == n'.additions;
    assert line[p1..p2] == w1;
    assert line[p2..p3] == n'.deletions;
    assert line[p3..p4] == w2;
    assert line[p4..] == n'.file;
    assert forall i :: p3 <= i < p4 ==> line[i] == w2[i - p3];
  }

  /** A line can never be both: after the hash of a header comes ` | `, and
      `|` is neither a digit nor `-`. The order of the two tests in the
      collector therefore never matters. */
  lemma HeaderAndNumstatDisjoint(line: string)
    ensures ParseHeader(line).Some? ==> ParseNumstat(line).None?
  {
    if ParseHeader(line).Some? {
      assert SepAt(line, 40);
      assert forall i :: 0 <= i < 40 ==> IsHexDigit(line[i]) by {
        assert forall i :: 0 <= i < 40 ==> line[..40][i] == line[i];
      }
      var a := CountEnd(line, 0);
      assert a <= 40;
      var b := SpaceRunEnd(line, a);
      assert a < 40 ==> b == a;
      assert a == 40 ==> b == 41;
    }
  }
}
