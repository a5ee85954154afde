/** Which lines a grep reports, and what each match carries, said of the lines alone. */
module GrepMatches {
  import opened Ordering
  import opened GrepScan
  import opened GrepPage
  import opened GrepPaging
  import opened GrepContext

  /** The context lines from line a up to line b of a file, numbered from one. */
  ghost predicate Shows(ls: seq<Line>, a: nat, b: nat, shown: seq<ContextLine>) {
    a <= b <= |ls| && |shown| == b - a && forall j :: 0 <= j < |shown| ==> shown[j].line == a + j + 1 && shown[j].text == ls[a + j].text
  }

  /** The match of line i: its file, number and text, its occurrences, and up to c lines on either side. */
  ghost predicate MatchOf(c: nat, f: SourceFile, i: nat, m: Match) {
    && i < |f.lines| && m.path == f.path && m.fingerprint == f.fingerprint
    && m.line == i + 1 && m.text == f.lines[i].text && m.occurrences == f.lines[i].hits
    && Shows(f.lines, if i >= c then i - c else 0, i, m.before)
    && Shows(f.lines, i + 1, if i + 1 + c <= |f.lines| then i + 1 + c else |f.lines|, m.after)
  }

  lemma ReportedIsMatch(q: Query, f: SourceFile, i: nat)
    requires i < |f.lines|
    ensures MatchOf(q.contextLines, f, i, Reported(q, f, i))
  {
    WindowIsClipped(q, f, i);
  }

  lemma ShownAlike(ls: seq<Line>, a: nat, b: nat, x: seq<ContextLine>, y: seq<ContextLine>)
    requires Shows(ls, a, b, x) && Shows(ls, a, b, y)
    ensures x == y
  {
  }

  /** A line has one match. */
  lemma OneMatch(c: nat, f: SourceFile, i: nat, m: Match, n: Match)
    requires MatchOf(c, f, i, m) && MatchOf(c, f, i, n)
    ensures m == n
  {
    ShownAlike(f.lines, if i >= c then i - c else 0, i, m.before, n.before);
    ShownAlike(f.lines, i + 1, if i + 1 + c <= |f.lines| then i + 1 + c else |f.lines|, m.after, n.after);
  }

  /** Some match has this line number. */
  ghost predicate HasLine(ms: seq<Match>, n: nat) {
    exists k :: 0 <= k < |ms| && ms[k].line == n
  }

  /** The match is that of its line, which the pattern occurs in. */
  ghost predicate Right(c: nat, f: SourceFile, m: Match) {
    0 < m.line <= |f.lines| && f.lines[m.line - 1].hits > 0 && MatchOf(c, f, m.line - 1, m)
  }

  ghost predicate Rising(ms: seq<Match>) {
    forall j, k :: 0 <= j < k < |ms| ==> ms[j].line < ms[k].line
  }

  lemma HasLineBehind(m: Match, rest: seq<Match>, n: nat)
    ensures HasLine([m] + rest, n) <==> m.line == n || HasLine(rest, n)
  {
    var ms := [m] + rest;
    if k :| 0 <= k < |rest| && rest[k].line == n {
      assert ms[k + 1].line == n;
    }
    if m.line == n {
      assert ms[0].line == n;
    }
  }

  lemma FirstLine(q: Query, f: SourceFile, a: nat, b: nat)
    requires a < b <= |f.lines|
    ensures FileMatches(q, f, a, b) == if f.lines[a].hits > 0 then [Reported(q, f, a)] + FileMatches(q, f, a + 1, b) else FileMatches(q, f, a + 1, b)
  {
  }

  lemma RightReported(q: Query, f: SourceFile, i: nat)
    requires i < |f.lines| && f.lines[i].hits > 0
    ensures Right(q.contextLines, f, Reported(q, f, i)) && Reported(q, f, i).line == i + 1
  {
    ReportedIsMatch(q, f, i);
  }

  /** The matches of a stretch of lines are right and in the order of the lines. */
  lemma {:induction false} StretchIsRight(q: Query, f: SourceFile, a: nat, b: nat)
    requires b <= |f.lines|
    ensures var ms := FileMatches(q, f, a, b);
            Rising(ms) && forall k :: 0 <= k < |ms| ==> ms[k].line > a && Right(q.contextLines, f, ms[k])
    decreases b - a
  {
    hide Right, Reported, FileMatches;
    if a < b {
      StretchIsRight(q, f, a + 1, b);
      FirstLine(q, f, a, b);
      if f.lines[a].hits > 0 {
        RightReported(q, f, a);
        var rest, ms := FileMatches(q, f, a + 1, b), FileMatches(q, f, a, b);
        assert forall k :: 0 < k < |ms| ==> ms[k] == rest[k - 1];
      }
    } else {
      NoStretch(q, f, a, b);
    }
  }

  lemma NoStretch(q: Query, f: SourceFile, a: nat, b: nat)
    requires b <= |f.lines| && a >= b
    ensures FileMatches(q, f, a, b) == []
  {
  }

  /** A line of a stretch is reported if and only if the pattern occurs in it. */
  lemma {:induction false} StretchIsWhole(q: Query, f: SourceFile, a: nat, b: nat, i: nat)
    requires a <= i < b <= |f.lines|
    ensures HasLine(FileMatches(q, f, a, b), i + 1) <==> f.lines[i].hits > 0
    decreases b - a
  {
    hide Right, Reported, FileMatches, HasLine;
    FirstLine(q, f, a, b);
    var rest := FileMatches(q, f, a + 1, b);
    if f.lines[a].hits > 0 {
      RightReported(q, f, a);
      HasLineBehind(Reported(q, f, a), rest, i + 1);
    }
    if i > a {
      StretchIsWhole(q, f, a + 1, b, i);
    } else {
      StretchIsRight(q, f, a + 1, b);
      NotAhead(rest, a + 1);
    }
  }

  lemma NotAhead(ms: seq<Match>, n: nat)
    requires forall k :: 0 <= k < |ms| ==> ms[k].line > n
    ensures !HasLine(ms, n)
  {
  }

  /** The matches of a file: one for each line the pattern occurs in, in the order of the lines, and no other. */
  lemma FileMatchesAre(q: Query, f: SourceFile)
    ensures var ms := FileMatches(q, f, 0, |f.lines|);
            && Rising(ms) && (forall k :: 0 <= k < |ms| ==> Right(q.contextLines, f, ms[k]))
            && forall i: nat :: i < |f.lines| ==> (f.lines[i].hits > 0 <==> HasLine(ms, i + 1))
  {
    hide Right, FileMatches, HasLine;
    StretchIsRight(q, f, 0, |f.lines|);
    forall i: nat | i < |f.lines| ensures f.lines[i].hits > 0 <==> HasLine(FileMatches(q, f, 0, |f.lines|), i + 1) {
      StretchIsWhole(q, f, 0, |f.lines|, i);
    }
  }

  /** The match of some line of the file that the pattern occurs in. */
  ghost predicate MatchIn(c: nat, f: SourceFile, m: Match) {
    exists i: nat :: i < |f.lines| && f.lines[i].hits > 0 && MatchOf(c, f, i, m)
  }

  lemma FileHolds(q: Query, f: SourceFile, m: Match)
    ensures m in FileMatches(q, f, 0, |f.lines|) <==> MatchIn(q.contextLines, f, m)
  {
    var ms := FileMatches(q, f, 0, |f.lines|);
    FileMatchesAre(q, f);
    hide FileMatches, MatchOf;
    if m in ms {
      var k :| 0 <= k < |ms| && ms[k] == m;
      assert Right(q.contextLines, f, m);
      assert f.lines[m.line - 1].hits > 0 && MatchOf(q.contextLines, f, m.line - 1, m);
    }
    if i: nat :| i < |f.lines| && f.lines[i].hits > 0 && MatchOf(q.contextLines, f, i, m) {
      var k :| 0 <= k < |ms| && ms[k].line == i + 1;
      assert Right(q.contextLines, f, ms[k]);
      OneMatch(q.contextLines, f, i, m, ms[k]);
    }
  }

  /**
   * The matches of a tree are exactly those of the lines the pattern occurs in: each with its path, number, text,
   * occurrence count, fingerprint and context window.
   */
  lemma {:induction false} TreeMatches(q: Query, fs: seq<SourceFile>, k0: nat, m: Match)
    ensures m in MatchesFrom(q, fs, k0, 0) <==> exists k: nat :: k0 <= k < |fs| && MatchIn(q.contextLines, fs[k], m)
    decreases |fs| - k0
  {
    hide MatchIn, FileMatches;
    if k0 < |fs| {
      TreeMatches(q, fs, k0 + 1, m);
      FileHolds(q, fs[k0], m);
    }
  }

  // ---- why a page stops -------------------------------------------------------------------------

  /** What a run says of its stop: a full page has as many matches as asked for, a page its response filled has some. */
  ghost predicate StopsForReason(q: Query, run: Run) {
    && |run.matches| == |run.states|
    && (run.stop.None? ==> |run.matches| < q.limit)
    && (run.stop.Some? ==>
          && (run.stop.value.reason.ResultLimit? <==> |run.matches| == q.limit)
          && (run.stop.value.reason.ResultLimit? || run.stop.value.reason.ResponseLimit? ==>
                |run.matches| > 0 && run.stop.value.state == run.states[|run.states| - 1])
          && |run.matches| <= q.limit)
  }

  lemma ReduceStopsForReason(env: Env, q: Query, resume: Option<Cursor>, run: Run, head: Head, item: AnyItem, event: Event)
    requires q.limit >= 1 && run.stop.None? && StopsForReason(q, run)
    ensures var (next, head', outcome) := Reduce(env, q, resume, run, head, item, event);
            && (!outcome.Failed? ==> StopsForReason(q, next)) && (outcome.More? ==> next.stop.None?)
            && (outcome.Failed? && outcome.error == ResponseTooLarge && !(event.ErrorEvent? && event.error == ResponseTooLarge) ==> run.matches == [])
  {
  }

  lemma {:induction false} StreamStopsForReason(env: Env, q: Query, resume: Option<Cursor>, run: Run, head: Head, item: AnyItem, events: seq<Event>)
    requires q.limit >= 1 && run.stop.None? && StopsForReason(q, run)
    ensures var (next, outcome) := ReduceStream(env, q, resume, run, head, item, events); !outcome.Failed? ==> StopsForReason(q, next)
    decreases |events|
  {
    hide Reduce, StopsForReason;
    if events != [] {
      var (next, head', outcome) := Reduce(env, q, resume, run, head, item, events[0]);
      ReduceStopsForReason(env, q, resume, run, head, item, events[0]);
      if outcome.More? {
        StreamStopsForReason(env, q, resume, next, head', item, events[1..]);
      }
    }
  }

  lemma {:induction false} ScanStopsForReason(env: Env, q: Query, resume: Option<Cursor>, fs: seq<SourceFile>, k: nat, partial: Option<Partial>,
                                              run: Run, files: nat, bytes: nat, failed: bool)
    requires q.limit >= 1 && k <= |fs| && run.stop.None? && StopsForReason(q, run)
    ensures var ending := ScanFrom(env, q, resume, fs, k, partial, run, files, bytes, failed); ending.Ended? ==> StopsForReason(q, ending.run)
    decreases |fs| - k, if failed then 0 else 1
  {
    hide Admit, EmptyAhead, ReduceStream, Stream;
    if k < |fs| {
      if !failed && EmptyAhead(env, q, fs, k, partial, files, bytes, WORKER_CEILING - 1) {
        if run.lastFull.None? {
          ScanStopsForReason(env, q, resume, fs, k, partial, run, files, bytes, true);
        }
      } else {
        var a := Admit(env, q, fs[k], partial, files, bytes);
        if a.Admitted? {
          var (next, outcome) := ReduceStream(env, q, resume, run, FRESH, a.item, Stream(env, q, a.item));
          StreamStopsForReason(env, q, resume, run, FRESH, a.item, Stream(env, q, a.item));
          if !outcome.Failed? && next.stop.None? {
            ScanStopsForReason(env, q, resume, fs, k + 1, None, next, files + 1, bytes + a.cost, failed);
          }
        }
      }
    }
  }

  lemma {:induction false} EnterStarts(env: Env, from: Cursor, fs: seq<SourceFile>, k: nat, run: Run)
    requires k <= |fs| && run.matches == [] && run.states == [] && run.stop.None?
    ensures var entry := Enter(env, from, fs, k, run);
            entry.Entry? ==> entry.run.matches == [] && entry.run.states == [] && entry.run.stop.None?
                             && entry.k >= k && entry.run.work.files == run.work.files && entry.run.work.bytes == run.work.bytes
                             && entry.run.work.validated == run.work.validated + (entry.k - k) + (if entry.partial.Some? then 1 else 0)
    decreases |fs| - k
  {
    if k < |fs| {
      var seen := run.(work := run.work.(validated := run.work.validated + 1));
      EnterStarts(env, from, fs, k + 1, seen.(prefix := seen.prefix + [(fs[k].position, fs[k].fingerprint)]));
    }
  }

  /**
   * Why a page stops: for its result limit if and only if it has that many matches, at the last of them; for its
   * response only behind a match that fitted, so never with nothing.
   */
  lemma PageStopsForReason(env: Env, q: Query, fs: seq<SourceFile>, resume: Option<Cursor>)
    requires q.limit >= 1
    ensures var ending := Walk(env, q, fs, resume); ending.Ended? ==> StopsForReason(q, ending.run)
  {
    var entry := EnterPage(env, fs, resume);
    if resume.Some? {
      EnterStarts(env, resume.value, fs, 0, NEW_RUN);
    }
    if entry.Entry? {
      ScanStopsForReason(env, q, resume, fs, entry.k, entry.partial, entry.run, 0, 0, false);
    }
  }
}
