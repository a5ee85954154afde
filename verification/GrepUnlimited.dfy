/** One sequential scan that no limit, budget or response capacity cuts: it completes with every match of the tree. */
module GrepUnlimited {
  import opened Ordering
  import opened GrepScan
  import opened GrepPage
  import opened GrepPaging
  import opened GrepContext

  function TotalBytes(fs: seq<SourceFile>, k: nat): nat
    requires k <= |fs|
  {
    if k == 0 then 0 else TotalBytes(fs, k - 1) + Start(fs[k - 1].lines, |fs[k - 1].lines|)
  }

  /** Nothing in the environment refuses anything. */
  ghost predicate Unrefusing(env: Env) {
    && (forall ms, reason, state, work :: env.fits(ms, reason, state, work)) && (forall ms, work :: env.fitsComplete(ms, work))
    && (forall p :: env.opens(p).None?)
  }

  ghost predicate Roomy(q: Query, fs: seq<SourceFile>) {
    q.maxFiles >= |fs| && q.maxBytes >= TotalBytes(fs, |fs|) && q.limit > |MatchesFrom(q, fs, 0, 0)|
  }

  /** The counters take note of a job once, and of the bytes that are new. */
  predicate Counted(run: Run, head: Head, next: Run, head2: Head) {
    && next.work.files + (if head.started then 1 else 0) == run.work.files + (if head2.started then 1 else 0)
    && next.work.bytes + head.accepted == run.work.bytes + head2.accepted && next.work.validated == run.work.validated
  }

  lemma CandidatePasses(env: Env, q: Query, f: SourceFile, e: nat, i: nat, run: Run, head: Head)
    requires Unrefusing(env) && i < |f.lines| && run.stop.None? && |run.matches| + 1 < q.limit
    requires head.accepted <= UpTo(env, WholeJob(f), Min(i + q.contextLines, e))
    ensures var event := CandidateEventAt(q, WholeJob(f), ReadsOf(env, WholeJob(f)), e, i);
            var (next, head2, outcome) := Reduce(env, q, None, run, head, ScanItem(WholeJob(f)), event);
            outcome.More? && next.stop.None? && next.matches == run.matches + [Reported(q, f, i)] && Counted(run, head, next, head2)
            && head2.accepted == UpTo(env, WholeJob(f), Min(i + q.contextLines, e))
  {
  }

  /** All candidates of a stretch of lines pass the reducer. */
  lemma {:induction false} CandidatesPass(env: Env, q: Query, f: SourceFile, e: nat, a: nat, b: nat, run: Run, head: Head, last: Event)
    returns (run2: Run, head2: Head)
    requires Unrefusing(env) && a <= b <= |f.lines| && b <= e && run.stop.None? && |run.matches| + |FileMatches(q, f, a, b)| < q.limit
    requires head.accepted <= UpTo(env, WholeJob(f), Min(a + q.contextLines, e))
    ensures var job := WholeJob(f);
            ReduceStream(env, q, None, run, head, ScanItem(job), CandidateEvents(q, job, ReadsOf(env, job), e, a, b) + [last])
            == ReduceStream(env, q, None, run2, head2, ScanItem(job), [last])
    ensures run2.stop.None? && run2.matches == run.matches + FileMatches(q, f, a, b)
    ensures head2.accepted <= UpTo(env, WholeJob(f), Min(b + q.contextLines, e)) && Counted(run, head, run2, head2)
    decreases b - a
  {
    hide Reduce, Readable, Reported, ReduceStream, CandidateEventAt;
    var job := WholeJob(f);
    var upto := ReadsOf(env, job);
    if a == b {
      assert CandidateEvents(q, job, upto, e, a, b) + [last] == [last];
      return run, head;
    }
    CandidatesSplit(q, job, upto, e, a, b);
    var rest := CandidateEvents(q, job, upto, e, a + 1, b);
    UpToGrows(env, job, Min(a + q.contextLines, e), Min(a + 1 + q.contextLines, e));
    if !Hit(f.lines, a) {
      assert CandidateEvents(q, job, upto, e, a, b) == rest;
      run2, head2 := CandidatesPass(env, q, f, e, a + 1, b, run, head, last);
    } else {
      var event := CandidateEventAt(q, job, upto, e, a);
      assert CandidateEvents(q, job, upto, e, a, b) + [last] == [event] + (rest + [last]);
      ReduceFirst(env, q, None, run, head, ScanItem(job), event, rest + [last]);
      CandidatePasses(env, q, f, e, a, run, head);
      var (next, head', outcome) := Reduce(env, q, None, run, head, ScanItem(job), event);
      run2, head2 := CandidatesPass(env, q, f, e, a + 1, b, next, head', last);
      assert FileMatches(q, f, a, b) == [Reported(q, f, a)] + FileMatches(q, f, a + 1, b);
    }
  }

  /** A whole readable file adds its matches to the run and ends its job. */
  lemma FilePasses(env: Env, q: Query, f: SourceFile, run: Run)
    requires Unrefusing(env) && Readable(q, f) && run.stop.None? && |run.matches| + |FileMatches(q, f, 0, |f.lines|)| < q.limit
    ensures var (next, outcome) := ReduceStream(env, q, None, run, FRESH, ScanItem(WholeJob(f)), Events(q, WholeJob(f), ReadsOf(env, WholeJob(f))));
            outcome.JobDone? && next.stop.None? && next.matches == run.matches + FileMatches(q, f, 0, |f.lines|) && next.lastFull == Some(f.position)
            && next.work == Work(run.work.files + 1, run.work.bytes + UpTo(env, WholeJob(f), |f.lines|), run.work.validated)
  {
    hide ReduceStream, Events, FileMatches, CandidateEvents, Readable, Reduce, Unrefusing, UpTo;
    var job, n := WholeJob(f), |f.lines|;
    EventsOfWhole(env, q, f);
    var last := FullEvent(UpTo(env, job, n));
    var run2, head2 := CandidatesPass(env, q, f, n, 0, n, run, FRESH, last);
    LastPasses(env, q, f, run2, head2);
  }

  lemma EventsOfWhole(env: Env, q: Query, f: SourceFile)
    requires Readable(q, f)
    ensures var job, n := WholeJob(f), |f.lines|;
            Events(q, job, ReadsOf(env, job)) == CandidateEvents(q, job, ReadsOf(env, job), n, 0, n) + [FullEvent(UpTo(env, job, n))]
  {
    WholeScanReaches(q, f, 0);
    hide CandidateEvents;
  }

  lemma LastPasses(env: Env, q: Query, f: SourceFile, run: Run, head: Head)
    requires run.stop.None? && head.accepted <= UpTo(env, WholeJob(f), |f.lines|)
    ensures var (next, outcome) := ReduceStream(env, q, None, run, head, ScanItem(WholeJob(f)), [FullEvent(UpTo(env, WholeJob(f), |f.lines|))]);
            outcome.JobDone? && next.stop.None? && next.matches == run.matches && next.lastFull == Some(f.position)
            && next.work.files == run.work.files + (if head.started then 0 else 1) && next.work.validated == run.work.validated
            && next.work.bytes + head.accepted == run.work.bytes + UpTo(env, WholeJob(f), |f.lines|)
  {
    var last := FullEvent(UpTo(env, WholeJob(f), |f.lines|));
    assert [last] == [last] + [];
    hide UpTo, ReduceStream;
    ReduceFirst(env, q, None, run, head, ScanItem(WholeJob(f)), last, []);
  }

  lemma {:induction false} TotalGrows(fs: seq<SourceFile>, i: nat, j: nat)
    requires i <= j <= |fs|
    ensures TotalBytes(fs, i) <= TotalBytes(fs, j)
  {
    if i < j {
      TotalGrows(fs, i, j - 1);
    }
  }

  lemma NextAdmitted(env: Env, q: Query, fs: seq<SourceFile>, k: nat)
    requires Unrefusing(env) && k < |fs| && Solid(fs[k].lines) && |fs[k].lines| > 0 && q.maxFiles > k && q.maxBytes >= TotalBytes(fs, k + 1)
    ensures Admit(env, q, fs[k], None, k, TotalBytes(fs, k)) == Admitted(ScanItem(WholeJob(fs[k])), TotalBytes(fs, k + 1) - TotalBytes(fs, k))
  {
    StartIncreases(fs[k].lines, 0, |fs[k].lines|);
  }

  /** A file that passes leaves the scan at the next one. */
  lemma ScanOne(env: Env, q: Query, fs: seq<SourceFile>, k: nat, run: Run, failed: bool) returns (next: Run)
    requires Unrefusing(env) && k < |fs| && Readable(q, fs[k]) && |fs[k].lines| > 0 && q.maxFiles > k && q.maxBytes >= TotalBytes(fs, k + 1)
    requires failed || !EmptyAhead(env, q, fs, k, None, k, TotalBytes(fs, k), WORKER_CEILING - 1)
    requires run.stop.None? && |run.matches| + |FileMatches(q, fs[k], 0, |fs[k].lines|)| < q.limit
    ensures next.stop.None? && next.matches == run.matches + FileMatches(q, fs[k], 0, |fs[k].lines|) && next.lastFull == Some(fs[k].position)
    ensures next.work == Work(run.work.files + 1, run.work.bytes + UpTo(env, WholeJob(fs[k]), |fs[k].lines|), run.work.validated)
    ensures ScanFrom(env, q, None, fs, k, None, run, k, TotalBytes(fs, k), failed)
         == ScanFrom(env, q, None, fs, k + 1, None, next, k + 1, TotalBytes(fs, k + 1), failed)
  {
    hide ReduceStream, Events, Admit, Unrefusing, FileMatches, TotalBytes, Start, MatchesFrom, EmptyAhead;
    NextAdmitted(env, q, fs, k);
    FilePasses(env, q, fs[k], run);
    hide Readable, Solid;
    next := ReduceStream(env, q, None, run, FRESH, ScanItem(WholeJob(fs[k])), Stream(env, q, ScanItem(WholeJob(fs[k])))).0;
    TotalGrows(fs, k, k + 1);
  }

  lemma {:induction false} ScanAll(env: Env, q: Query, fs: seq<SourceFile>, k: nat, run: Run)
    requires Unrefusing(env) && NoneEmpty(fs) && (forall i :: 0 <= i < |fs| ==> Readable(q, fs[i])) && k <= |fs|
    requires q.maxFiles >= |fs| && q.maxBytes >= TotalBytes(fs, |fs|) && run.stop.None? && |run.matches| + |MatchesFrom(q, fs, k, 0)| < q.limit
    ensures var ending := ScanFrom(env, q, None, fs, k, None, run, k, TotalBytes(fs, k), false);
            ending.Ended? && ending.run.stop.None? && ending.run.matches == run.matches + MatchesFrom(q, fs, k, 0)
            && ending.run.work == Work(run.work.files + |fs| - k, run.work.bytes + TotalRead(env, fs, k), run.work.validated)
    decreases |fs| - k
  {
    hide *;
    ReadableIsSolid(q, fs);
    if k == |fs| {
      ScanEnds(env, q, fs, run);
    } else {
      MatchesUnfold(q, fs, k, run.matches);
      NoEmptyAhead(env, q, fs, k, None, k, TotalBytes(fs, k), WORKER_CEILING - 1);
      TotalGrows(fs, k + 1, |fs|);
      HasLines(fs, k);
      var next := ScanOne(env, q, fs, k, run, false);
      ReadUnfold(env, fs, k);
      ScanAll(env, q, fs, k + 1, next);
    }
  }

  lemma ReadableIsSolid(q: Query, fs: seq<SourceFile>)
    requires forall i :: 0 <= i < |fs| ==> Readable(q, fs[i])
    ensures forall i :: 0 <= i < |fs| ==> Solid(fs[i].lines)
  {
  }

  /** Bytes read of whole files from file k on. */
  function TotalRead(env: Env, fs: seq<SourceFile>, k: nat): nat
    decreases |fs| - k
  {
    if k >= |fs| then 0 else UpTo(env, WholeJob(fs[k]), |fs[k].lines|) + TotalRead(env, fs, k + 1)
  }

  lemma ReadUnfold(env: Env, fs: seq<SourceFile>, k: nat)
    requires k < |fs|
    ensures TotalRead(env, fs, k) == UpTo(env, WholeJob(fs[k]), |fs[k].lines|) + TotalRead(env, fs, k + 1)
  {
  }

  lemma HasLines(fs: seq<SourceFile>, k: nat)
    requires NoneEmpty(fs) && k < |fs|
    ensures |fs[k].lines| > 0
  {
  }

  lemma ScanEnds(env: Env, q: Query, fs: seq<SourceFile>, run: Run)
    ensures ScanFrom(env, q, None, fs, |fs|, None, run, |fs|, TotalBytes(fs, |fs|), false) == Ended(run)
    ensures run.matches + MatchesFrom(q, fs, |fs|, 0) == run.matches && TotalRead(env, fs, |fs|) == 0
  {
    hide Admit, EmptyAhead, ReduceStream;
  }

  lemma MatchesUnfold(q: Query, fs: seq<SourceFile>, k: nat, ms: seq<Match>)
    requires k < |fs|
    ensures ms + MatchesFrom(q, fs, k, 0) == ms + FileMatches(q, fs[k], 0, |fs[k].lines|) + MatchesFrom(q, fs, k + 1, 0)
    ensures |MatchesFrom(q, fs, k, 0)| == |FileMatches(q, fs[k], 0, |fs[k].lines|)| + |MatchesFrom(q, fs, k + 1, 0)|
  {
  }

  /** The unlimited scan: one complete page with every match. */
  lemma UnlimitedScan(env: Env, q: Query, fs: seq<SourceFile>)
    requires Unrefusing(env) && Tree(fs) && NoneEmpty(fs) && (forall i :: 0 <= i < |fs| ==> Readable(q, fs[i])) && Roomy(q, fs)
    ensures PageOf(env, q, fs, None) == Page(MatchesFrom(q, fs, 0, 0), None)
    ensures var ending := Walk(env, q, fs, None); ending.Ended? && ending.run.work == Work(|fs|, TotalRead(env, fs, 0), 0)
  {
    ScanAll(env, q, fs, 0, NEW_RUN);
    assert [] + MatchesFrom(q, fs, 0, 0) == MatchesFrom(q, fs, 0, 0);
  }

  /** The query without its limits and budgets. */
  function Unlimited(q: Query, limit: nat, maxFiles: nat, maxBytes: nat): Query {
    q.(limit := limit, maxFiles := maxFiles, maxBytes := maxBytes)
  }

  lemma {:induction false} MatchesIgnoreLimits(q: Query, r: Query, f: SourceFile, a: nat, b: nat)
    requires r == Unlimited(q, r.limit, r.maxFiles, r.maxBytes) && b <= |f.lines|
    ensures FileMatches(q, f, a, b) == FileMatches(r, f, a, b)
    decreases b - a
  {
    if a < b {
      MatchesIgnoreLimits(q, r, f, a + 1, b);
    }
  }

  lemma {:induction false} AllMatchesIgnoreLimits(q: Query, r: Query, fs: seq<SourceFile>, k: nat)
    requires r == Unlimited(q, r.limit, r.maxFiles, r.maxBytes)
    ensures MatchesFrom(q, fs, k, 0) == MatchesFrom(r, fs, k, 0)
    decreases |fs| - k
  {
    if k < |fs| {
      MatchesIgnoreLimits(q, r, fs[k], 0, |fs[k].lines|);
      AllMatchesIgnoreLimits(q, r, fs, k + 1);
    }
  }

  /** The paging theorem in the caller's terms: followed to the end, the pages together are the page of the unlimited scan. */
  lemma PagesMakeTheUnlimitedScan(envs: nat -> Env, q: Query, fs: seq<SourceFile>, n: nat, free: Env, unlimited: Query)
    requires Tree(fs) && NoneEmpty(fs) && ValidQuery(q) && Follow(envs, q, fs, n).Complete?
    requires unlimited == Unlimited(q, unlimited.limit, unlimited.maxFiles, unlimited.maxBytes) && Roomy(unlimited, fs)
    requires Unrefusing(free) && forall i :: 0 <= i < |fs| ==> Readable(q, fs[i])
    ensures PageOf(free, unlimited, fs, None) == Page(Follow(envs, q, fs, n).reported, None)
  {
    PagingEquivalence(envs, q, fs, n);
    AllMatchesIgnoreLimits(q, unlimited, fs, 0);
    UnlimitedScan(free, unlimited, fs);
  }

  // ---- what an empty file does to a fresh page --------------------------------------------------

  /** The first empty file, with every file before it readable and the budgets and limit not reached there. */
  ghost predicate FirstEmpty(q: Query, fs: seq<SourceFile>, z: nat) {
    && z < |fs| && |fs[z].lines| == 0 && (forall i :: 0 <= i < z ==> Readable(q, fs[i]) && |fs[i].lines| > 0)
    && q.maxFiles > z && q.maxBytes > TotalBytes(fs, z) && q.limit > |MatchesFrom(q, fs[..z], 0, 0)|
  }

  lemma {:induction false} EmptyIsAhead(env: Env, q: Query, fs: seq<SourceFile>, z: nat, k: nat, room: int)
    requires Unrefusing(env) && FirstEmpty(q, fs, z) && k <= z
    ensures EmptyAhead(env, q, fs, k, None, k, TotalBytes(fs, k), room) <==> z - k <= room
    decreases z - k
  {
    hide Admit, Unrefusing, Readable;
    if k == z {
      EmptyMet(env, q, fs, z);
    } else {
      FileBefore(q, fs, z, k);
      NextAdmitted(env, q, fs, k);
      TotalGrows(fs, k, k + 1);
      EmptyIsAhead(env, q, fs, z, k + 1, room - 1);
    }
  }

  lemma EmptyMet(env: Env, q: Query, fs: seq<SourceFile>, z: nat)
    requires Unrefusing(env) && FirstEmpty(q, fs, z)
    ensures Admit(env, q, fs[z], None, z, TotalBytes(fs, z)).EmptyFile?
  {
  }

  lemma FileBefore(q: Query, fs: seq<SourceFile>, z: nat, k: nat)
    requires FirstEmpty(q, fs, z) && k < z
    ensures Readable(q, fs[k]) && Solid(fs[k].lines) && |fs[k].lines| > 0 && q.maxFiles > k && q.maxBytes >= TotalBytes(fs, k + 1)
  {
    TotalGrows(fs, k + 1, z);
  }

  lemma {:induction false} MatchesOfFront(q: Query, fs: seq<SourceFile>, z: nat, k: nat)
    requires k <= z <= |fs|
    ensures MatchesFrom(q, fs, k, 0) == MatchesFrom(q, fs[..z], k, 0) + MatchesFrom(q, fs, z, 0)
    decreases z - k
  {
    if k < z {
      MatchesOfFront(q, fs, z, k + 1);
    }
  }

  /** The walk has failed at the empty file: the jobs before it are reduced, and then the failure is the answer. */
  lemma {:induction false} FailedScan(env: Env, q: Query, fs: seq<SourceFile>, z: nat, k: nat, run: Run)
    requires Unrefusing(env) && z < |fs| && FirstEmpty(q, fs, z) && k <= z && run.stop.None? && |run.matches| + |MatchesFrom(q, fs[..z], k, 0)| < q.limit
    ensures ScanFrom(env, q, None, fs, k, None, run, k, TotalBytes(fs, k), true) == Broken(LimitExceeded)
    decreases z - k
  {
    hide *;
    if k == z {
      FailsAtEmpty(env, q, fs, z, run);
    } else {
      FileBefore(q, fs, z, k);
      MatchesUnfold(q, fs[..z], k, run.matches);
      var next := ScanOne(env, q, fs, k, run, true);
      FailedScan(env, q, fs, z, k + 1, next);
    }
  }

  lemma FailsAtEmpty(env: Env, q: Query, fs: seq<SourceFile>, z: nat, run: Run)
    requires Unrefusing(env) && FirstEmpty(q, fs, z)
    ensures ScanFrom(env, q, None, fs, z, None, run, z, TotalBytes(fs, z), true) == Broken(LimitExceeded)
  {
    EmptyMet(env, q, fs, z);
    hide Admit, EmptyAhead, ReduceStream, Unrefusing, FirstEmpty;
  }

  /** An empty file among the first sixteen: a fresh page is refused, whatever it could have reported. */
  lemma FreshPageRefused(env: Env, q: Query, fs: seq<SourceFile>, z: nat)
    requires Unrefusing(env) && FirstEmpty(q, fs, z) && z < WORKER_CEILING
    ensures PageOf(env, q, fs, None) == PageError(LimitExceeded)
  {
    EmptyIsAhead(env, q, fs, z, 0, WORKER_CEILING - 1);
    FailedScan(env, q, fs, z, 0, NEW_RUN);
    hide FirstEmpty, Unrefusing, EmptyAhead, Admit, ReduceStream;
  }

  lemma FarBehind(z: nat, k: nat)
    requires k < z + 1 - WORKER_CEILING
    ensures k < z
  {
  }

  lemma {:induction false} ScanUpTo(env: Env, q: Query, fs: seq<SourceFile>, z: nat, k: nat, run: Run) returns (last: Run)
    requires Unrefusing(env) && z < |fs| && FirstEmpty(q, fs, z) && k < z + 1 - WORKER_CEILING
    requires run.stop.None? && |run.matches| + |MatchesFrom(q, fs[..z], k, 0)| < q.limit
    ensures var n := z + 1 - WORKER_CEILING;
            && ScanFrom(env, q, None, fs, k, None, run, k, TotalBytes(fs, k), false) == ScanFrom(env, q, None, fs, n, None, last, n, TotalBytes(fs, n), false)
            && last.lastFull == Some(fs[n - 1].position) && last.matches + MatchesFrom(q, fs, n, 0) == run.matches + MatchesFrom(q, fs, k, 0)
    decreases z - k
  {
    hide *;
    FarBehind(z, k);
    FileBefore(q, fs, z, k);
    MatchesUnfold(q, fs[..z], k, run.matches);
    MatchesUnfold(q, fs, k, run.matches);
    EmptyIsAhead(env, q, fs, z, k, WORKER_CEILING - 1);
    last := ScanOne(env, q, fs, k, run, false);
    if k + 1 < z + 1 - WORKER_CEILING {
      last := ScanUpTo(env, q, fs, z, k + 1, last);
    }
  }

  /** An empty file behind more of them: a fresh page stops sixteen files before it, having reported all up to there. */
  lemma FreshPageStops(env: Env, q: Query, fs: seq<SourceFile>, z: nat)
    requires Unrefusing(env) && FirstEmpty(q, fs, z) && z >= WORKER_CEILING
    ensures var page, n := PageOf(env, q, fs, None), z + 1 - WORKER_CEILING;
            && page.Page? && page.next.Some? && page.next.value.boundary == fs[n - 1].position && page.next.value.partial.None?
            && page.matches + MatchesFrom(q, fs, n, 0) == MatchesFrom(q, fs, 0, 0)
  {
    hide FirstEmpty, EmptyAhead, MatchesFrom, ScanFrom, Unrefusing;
    var n := z + 1 - WORKER_CEILING;
    EmptyParts(q, fs, z);
    assert [] + MatchesFrom(q, fs, 0, 0) == MatchesFrom(q, fs, 0, 0);
    var last := ScanUpTo(env, q, fs, z, 0, NEW_RUN);
    EmptyIsAhead(env, q, fs, z, n, WORKER_CEILING - 1);
    StopsThere(env, q, fs, n, last);
    StopFits(env, q, fs, n, last);
  }

  lemma EmptyParts(q: Query, fs: seq<SourceFile>, z: nat)
    requires FirstEmpty(q, fs, z)
    ensures z < |fs| && |MatchesFrom(q, fs[..z], 0, 0)| < q.limit && TotalBytes(fs, 0) == 0
  {
  }

  lemma StopsThere(env: Env, q: Query, fs: seq<SourceFile>, n: nat, last: Run)
    requires n < |fs| && last.lastFull.Some? && EmptyAhead(env, q, fs, n, None, n, TotalBytes(fs, n), WORKER_CEILING - 1)
    ensures ScanFrom(env, q, None, fs, n, None, last, n, TotalBytes(fs, n), false) == LimitStop(last, ByteLimit)
  {
    hide EmptyAhead, Admit, ReduceStream, Stream, TotalBytes;
  }

  lemma StopFits(env: Env, q: Query, fs: seq<SourceFile>, n: nat, last: Run)
    requires Unrefusing(env) && last.lastFull.Some? && ScanFrom(env, q, None, fs, 0, None, NEW_RUN, 0, 0, false) == LimitStop(last, ByteLimit)
    ensures PageOf(env, q, fs, None) == Page(last.matches, Some(FullState(last, last.lastFull.value)))
  {
    hide ScanFrom;
  }

  // ---- what a spent budget does to a fresh page -------------------------------------------------

  /** The budget for files or for bytes ends with the first n files, all of them readable and none empty. */
  ghost predicate BudgetEndsAt(q: Query, fs: seq<SourceFile>, n: nat) {
    && 0 < n < |fs| && NoneEmpty(fs) && (forall i :: 0 <= i < |fs| ==> Readable(q, fs[i]))
    && q.maxFiles >= n && q.maxBytes >= TotalBytes(fs, n) && (q.maxFiles == n || q.maxBytes == TotalBytes(fs, n))
    && q.limit > |MatchesFrom(q, fs[..n], 0, 0)|
  }

  lemma BudgetParts(q: Query, fs: seq<SourceFile>, n: nat, k: nat)
    requires BudgetEndsAt(q, fs, n) && k <= n
    ensures 0 < n < |fs| && NoneEmpty(fs) && |MatchesFrom(q, fs[..n], 0, 0)| < q.limit && forall i :: 0 <= i < |fs| ==> Solid(fs[i].lines)
    ensures k < n ==> Readable(q, fs[k]) && |fs[k].lines| > 0 && q.maxFiles > k && q.maxBytes >= TotalBytes(fs, k + 1)
  {
    if k < n {
      TotalGrows(fs, k + 1, n);
    }
  }

  lemma {:induction false} ScanInBudget(env: Env, q: Query, fs: seq<SourceFile>, n: nat, k: nat, run: Run) returns (last: Run)
    requires Unrefusing(env) && BudgetEndsAt(q, fs, n) && k <= n < |fs|
    requires run.stop.None? && |run.matches| + |MatchesFrom(q, fs[..n], k, 0)| < q.limit && (k > 0 ==> run.lastFull == Some(fs[k - 1].position))
    ensures ScanFrom(env, q, None, fs, k, None, run, k, TotalBytes(fs, k), false) == ScanFrom(env, q, None, fs, n, None, last, n, TotalBytes(fs, n), false)
    ensures last.matches == run.matches + MatchesFrom(q, fs[..n], k, 0) && (n > 0 ==> last.lastFull == Some(fs[n - 1].position))
    decreases n - k
  {
    hide *;
    BudgetParts(q, fs, n, k);
    if k == n {
      last := run;
      NothingLeft(q, fs[..n], run.matches);
    } else {
      NoEmptyAhead(env, q, fs, k, None, k, TotalBytes(fs, k), WORKER_CEILING - 1);
      MatchesUnfold(q, fs[..n], k, run.matches);
      var next := ScanOne(env, q, fs, k, run, false);
      last := ScanInBudget(env, q, fs, n, k + 1, next);
    }
  }

  lemma NothingLeft(q: Query, fs: seq<SourceFile>, ms: seq<Match>)
    ensures ms == ms + MatchesFrom(q, fs, |fs|, 0)
  {
  }

  lemma StopsAtBudget(env: Env, q: Query, fs: seq<SourceFile>, n: nat, last: Run)
    requires BudgetEndsAt(q, fs, n) && last.lastFull.Some?
    ensures ScanFrom(env, q, None, fs, n, None, last, n, TotalBytes(fs, n), false) == LimitStop(last, if q.maxFiles == n then FileLimit else ByteLimit)
  {
    BudgetParts(q, fs, n, n);
    NoEmptyAhead(env, q, fs, n, None, n, TotalBytes(fs, n), WORKER_CEILING - 1);
    hide EmptyAhead, ReduceStream, Readable, TotalBytes;
  }

  /**
   * A page whose budget ends with the first n files reports exactly their matches, stops behind the n-th, and names the
   * budget that is spent.
   */
  lemma BudgetStopsPage(env: Env, q: Query, fs: seq<SourceFile>, n: nat)
    requires Unrefusing(env) && BudgetEndsAt(q, fs, n)
    ensures var ending := Walk(env, q, fs, None);
            && ending.Ended? && ending.run.matches == MatchesFrom(q, fs[..n], 0, 0) && ending.run.stop.Some?
            && ending.run.stop.value.reason == (if q.maxFiles == n then FileLimit else ByteLimit)
            && ending.run.stop.value.state.boundary == fs[n - 1].position && ending.run.stop.value.state.partial.None?
  {
    hide BudgetEndsAt, MatchesFrom, ScanFrom, Unrefusing;
    BudgetParts(q, fs, n, 0);
    assert [] + MatchesFrom(q, fs[..n], 0, 0) == MatchesFrom(q, fs[..n], 0, 0);
    var last := ScanInBudget(env, q, fs, n, 0, NEW_RUN);
    StopsAtBudget(env, q, fs, n, last);
  }
}
