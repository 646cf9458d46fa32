/**
 Running one child with bounded output: two pipes are drained under a deadline, the leader
 is waited for without reaping, its group is killed, and only then is it reaped.  Every
 system call may fail or time out as the environment decides.
 */
module BoundedProcess {

  type Fd = nat
  type Bytes = seq<nat>

  const STDOUT: Fd := 0
  const STDERR: Fd := 1
  const STDOUT_WRITE: Fd := 2
  const STDERR_WRITE: Fd := 3
  const CHUNK: nat := 64 * 1024

  /** The places of a run where a call may fail; `final` marks the group's end in the last clean-up. */
  datatype Site =
    | OpenPipe
    | Select
    | Read(fd: Fd)
    | DrainClose(fd: Fd)
    | AwaitLeader
    | Kill(final: bool)
    | Reap(final: bool)
    | AwaitGroup(final: bool)
    | Close(fd: Fd)

  /** One call that was made, and whether it succeeded. */
  datatype Attempt = Attempt(site: Site, ok: bool)

  datatype Spawn = Started | OsError | OtherError

  datatype ReadResult = More | EndOfFile | ReadFailed

  datatype Result = Returned(stdout: Bytes, stderr: Bytes) | Raised(cause: Cause)

  datatype Cause = Configuration | FirstPipe | SecondPipe | SpawnFailed(handled: bool) | Child | Cleanup

  // ---------------------------------------------------------------- call histories

  predicate Closes(a: Attempt, fd: Fd) {
    a.ok && (a.site == DrainClose(fd) || a.site == Close(fd))
  }

  /** How often a descriptor was closed. */
  ghost function CloseCount(history: seq<Attempt>, fd: Fd): nat {
    if history == [] then 0
    else CloseCount(history[..|history| - 1], fd) + if Closes(history[|history| - 1], fd) then 1 else 0
  }

  ghost predicate ReapedIn(history: seq<Attempt>) {
    exists k :: 0 <= k < |history| && history[k].site.Reap? && history[k].ok
  }

  ghost predicate KilledIn(history: seq<Attempt>) {
    exists k :: 0 <= k < |history| && history[k].site.Kill?
  }

  predicate AllOk(history: seq<Attempt>) {
    forall k | 0 <= k < |history| :: history[k].ok
  }

  /** The group is never signalled once its leader has been reaped. */
  ghost predicate KillsPrecedeReap(history: seq<Attempt>) {
    forall i, j | 0 <= i < j < |history| :: !(history[i].site.Reap? && history[i].ok && history[j].site.Kill?)
  }

  lemma OneMore(history: seq<Attempt>, a: Attempt)
    requires KillsPrecedeReap(history) && (a.site.Kill? ==> !ReapedIn(history))
    ensures KillsPrecedeReap(history + [a])
    ensures ReapedIn(history + [a]) <==> ReapedIn(history) || (a.site.Reap? && a.ok)
    ensures KilledIn(history + [a]) <==> KilledIn(history) || a.site.Kill?
    ensures forall fd :: CloseCount(history + [a], fd) == CloseCount(history, fd) + if Closes(a, fd) then 1 else 0
  {
    var all := history + [a];
    assert all[|history|] == a && all[..|history|] == history;
    if ReapedIn(history) {
      var k :| 0 <= k < |history| && history[k].site.Reap? && history[k].ok;
      assert all[k].site.Reap? && all[k].ok;
    }
    if KilledIn(history) {
      var k :| 0 <= k < |history| && history[k].site.Kill?;
      assert all[k].site.Kill?;
    }
  }

  /** Every call is there with its outcome, and the closes and the reap are those accounted for. */
  ghost predicate Record(fails: nat -> bool, calls: nat, history: seq<Attempt>, closed: multiset<Fd>, reaped: bool) {
    && Outcomes(fails, calls, history)
    && (forall fd :: closed[fd] == CloseCount(history, fd))
    && KillsPrecedeReap(history)
    && (reaped <==> ReapedIn(history)) && (reaped ==> KilledIn(history))
  }

  ghost predicate Outcomes(fails: nat -> bool, calls: nat, history: seq<Attempt>) {
    |history| <= calls && forall k | 0 <= k < |history| :: history[k].ok == !fails(calls - |history| + k)
  }

  lemma OutcomesGrow(fails: nat -> bool, calls: nat, history: seq<Attempt>, site: Site)
    requires Outcomes(fails, calls, history)
    ensures Outcomes(fails, calls + 1, history + [Attempt(site, !fails(calls))])
  {
  }

  /** What closing adds to the account. */
  function NowClosed(a: Attempt): multiset<Fd> {
    if a.ok && (a.site.DrainClose? || a.site.Close?) then multiset{a.site.fd} else multiset{}
  }

  lemma RecordGrows(fails: nat -> bool, calls: nat, history: seq<Attempt>, closed: multiset<Fd>, reaped: bool,
                    a: Attempt)
    requires Record(fails, calls, history, closed, reaped) && a.ok == !fails(calls)
    requires (a.site.Kill? ==> !reaped) && (a.site.Reap? ==> !reaped && KilledIn(history))
    ensures Record(fails, calls + 1, history + [a], closed + NowClosed(a), reaped || (a.site.Reap? && a.ok))
  {
    OneMore(history, a);
    OutcomesGrow(fails, calls, history, a.site);
    hide Outcomes;
    hide CloseCount;
    hide KillsPrecedeReap;
    hide ReapedIn;
    hide KilledIn;
    forall fd ensures (closed + NowClosed(a))[fd] == CloseCount(history + [a], fd) { }
  }

  /** The calls made between two points. */
  ghost predicate Made(before: seq<Attempt>, after: seq<Attempt>, part: seq<Attempt>) {
    after == before + part
  }

  lemma MadeNothing(h: seq<Attempt>)
    ensures Made(h, h, [])
  {
  }

  lemma MadeOne(h0: seq<Attempt>, h1: seq<Attempt>, a: Attempt)
    requires h1 == h0 + [a]
    ensures Made(h0, h1, [a])
  {
  }

  lemma MadeFromNothing(h: seq<Attempt>, part: seq<Attempt>)
    requires Made([], h, part)
    ensures h == part
  {
  }

  lemma MadeThen(h0: seq<Attempt>, h1: seq<Attempt>, h2: seq<Attempt>, a: seq<Attempt>, b: seq<Attempt>)
    requires Made(h0, h1, a) && Made(h1, h2, b)
    ensures Made(h0, h2, a + b) && |a + b| == |a| + |b|
  {
  }

  lemma MadeKeepsKill(before: seq<Attempt>, after: seq<Attempt>, part: seq<Attempt>)
    requires Made(before, after, part)
    ensures KilledIn(before) || KilledIn(part) ==> KilledIn(after)
  {
    if KilledIn(before) {
      var k :| 0 <= k < |before| && before[k].site.Kill?;
      assert after[k].site.Kill?;
    } else if KilledIn(part) {
      var k :| 0 <= k < |part| && part[k].site.Kill?;
      assert after[|before| + k].site.Kill?;
    }
  }

  /** The calls of a plan that stops at its first failure, from call `c` on. */
  function Executed(fails: nat -> bool, c: nat, plan: seq<Site>): seq<Attempt>
    decreases |plan|
  {
    if plan == [] then []
    else if fails(c) then [Attempt(plan[0], false)]
    else [Attempt(plan[0], true)] + Executed(fails, c + 1, plan[1..])
  }

  /** Kill, reap and wait. */
  function EndSites(final: bool): seq<Site> {
    [Kill(final), Reap(final), AwaitGroup(final)]
  }

  /** The wait for the leader, then the end of its group. */
  function FinishSites(): seq<Site> {
    [AwaitLeader] + EndSites(false)
  }

  lemma FirstExecuted(fails: nat -> bool, c: nat, site: Site, rest: seq<Site>)
    ensures Executed(fails, c, [site] + rest)
            == if fails(c) then [Attempt(site, false)] else [Attempt(site, true)] + Executed(fails, c + 1, rest)
  {
    assert ([site] + rest)[1..] == rest;
  }

  lemma OneExecuted(fails: nat -> bool, c: nat, site: Site)
    ensures Executed(fails, c, [site]) == [Attempt(site, !fails(c))]
  {
    assert [site] + [] == [site];
    FirstExecuted(fails, c, site, []);
  }

  lemma Prepended(a: Attempt, rest: seq<Attempt>)
    ensures ReapedIn([a] + rest) <==> (a.site.Reap? && a.ok) || ReapedIn(rest)
    ensures KilledIn([a] + rest) <==> a.site.Kill? || KilledIn(rest)
    ensures AllOk([a] + rest) <==> a.ok && AllOk(rest)
  {
    var all := [a] + rest;
    assert all[0] == a && forall k | 0 <= k < |rest| :: all[k + 1] == rest[k];
    if ReapedIn(rest) {
      var k :| 0 <= k < |rest| && rest[k].site.Reap? && rest[k].ok;
      assert all[k + 1].site.Reap?;
    }
    if KilledIn(rest) {
      var k :| 0 <= k < |rest| && rest[k].site.Kill?;
      assert all[k + 1].site.Kill?;
    }
    if AllOk(all) {
      forall k | 0 <= k < |rest| ensures rest[k].ok { assert all[k + 1].ok; }
    }
  }

  lemma Single(a: Attempt)
    ensures ReapedIn([a]) <==> a.site.Reap? && a.ok
    ensures KilledIn([a]) <==> a.site.Kill?
    ensures AllOk([a]) <==> a.ok
  {
    assert [a][0] == a;
  }

  lemma EndExecuted(fails: nat -> bool, c: nat, final: bool)
    ensures var h := Executed(fails, c, EndSites(final));
            && h == (if fails(c) then [Attempt(Kill(final), false)]
                     else [Attempt(Kill(final), true)]
                          + if fails(c + 1) then [Attempt(Reap(final), false)]
                            else [Attempt(Reap(final), true)] + [Attempt(AwaitGroup(final), !fails(c + 2))])
            && (ReapedIn(h) <==> !fails(c) && !fails(c + 1)) && KilledIn(h)
            && (AllOk(h) <==> !fails(c) && !fails(c + 1) && !fails(c + 2))
  {
    assert EndSites(final) == [Kill(final)] + ([Reap(final)] + [AwaitGroup(final)]);
    FirstExecuted(fails, c, Kill(final), [Reap(final)] + [AwaitGroup(final)]);
    FirstExecuted(fails, c + 1, Reap(final), [AwaitGroup(final)]);
    OneExecuted(fails, c + 2, AwaitGroup(final));
    hide Executed;
    hide EndSites;
    hide ReapedIn;
    hide KilledIn;
    hide AllOk;
    var last := Attempt(AwaitGroup(final), !fails(c + 2));
    Single(last);
    Single(Attempt(Kill(final), false));
    Single(Attempt(Reap(final), false));
    Prepended(Attempt(Kill(final), true), [Attempt(Reap(final), false)]);
    Prepended(Attempt(Reap(final), true), [last]);
    Prepended(Attempt(Kill(final), true), [Attempt(Reap(final), true)] + [last]);
  }

  lemma FinishExecuted(fails: nat -> bool, c: nat)
    ensures var h, tail := Executed(fails, c, FinishSites()), Executed(fails, c + 1, EndSites(false));
            && h == (if fails(c) then [Attempt(AwaitLeader, false)] else [Attempt(AwaitLeader, true)] + tail)
            && (ReapedIn(h) <==> !fails(c) && ReapedIn(tail)) && (ReapedIn(h) ==> KilledIn(h))
            && (AllOk(h) <==> !fails(c) && AllOk(tail))
  {
    FirstExecuted(fails, c, AwaitLeader, EndSites(false));
    EndExecuted(fails, c + 1, false);
    hide Executed;
    hide EndSites;
    hide ReapedIn;
    hide KilledIn;
    hide AllOk;
    Single(Attempt(AwaitLeader, false));
    Prepended(Attempt(AwaitLeader, true), Executed(fails, c + 1, EndSites(false)));
  }

  lemma SmoothFinish(fails: nat -> bool, c: nat)
    ensures (forall n :: !fails(n)) ==> AllOk(Executed(fails, c, FinishSites()))
  {
    FinishExecuted(fails, c);
    EndExecuted(fails, c + 1, false);
  }

  /** One close per descriptor; a failing one does not stop the others. */
  function CloseAttempts(fails: nat -> bool, c: nat, fds: seq<Fd>): (h: seq<Attempt>)
    ensures |h| == |fds|
    ensures forall k | 0 <= k < |fds| :: h[k] == Attempt(Close(fds[k]), !fails(c + k))
  {
    seq(|fds|, k requires 0 <= k < |fds| => Attempt(Close(fds[k]), !fails(c + k)))
  }

  predicate DrainSite(site: Site) {
    site.Select? || site.Read? || site.DrainClose?
  }

  /** Only calls of the drain loop were made, and all succeeded. */
  ghost predicate Drains(before: seq<Attempt>, after: seq<Attempt>) {
    && before <= after
    && (forall k | |before| <= k < |after| :: DrainSite(after[k].site) && after[k].ok)
  }

  /** The last call is the drain loop's last. */
  ghost predicate DrainStops(before: seq<Attempt>, after: seq<Attempt>) {
    && |before| < |after| && DrainSite(after[|after| - 1].site)
    && Drains(before, after[..|after| - 1])
  }

  lemma DrainsOn(before: seq<Attempt>, after: seq<Attempt>, a: Attempt)
    requires Drains(before, after) && DrainSite(a.site)
    ensures DrainStops(before, after + [a]) && (a.ok ==> Drains(before, after + [a]))
  {
    assert (after + [a])[..|after|] == after;
  }

  lemma PipesExecuted(fails: nat -> bool, c: nat)
    ensures Executed(fails, c, [OpenPipe, OpenPipe])
            == if fails(c) then [Attempt(OpenPipe, false)]
               else [Attempt(OpenPipe, true), Attempt(OpenPipe, !fails(c + 1))]
  {
    assert [OpenPipe, OpenPipe][1..] == [OpenPipe] && [OpenPipe][1..] == [];
    assert Executed(fails, c + 1, [OpenPipe]) == [Attempt(OpenPipe, !fails(c + 1))];
  }

  lemma DrainPart(before: seq<Attempt>, after: seq<Attempt>)
    ensures Drains(before, after) ==>
              |before| <= |after| && before + after[|before|..] == after && Drains([], after[|before|..])
    ensures DrainStops(before, after) ==>
              && |before| < |after| && before + after[|before|..] == after && DrainStops([], after[|before|..])
              && after[|before|..][|after| - |before| - 1] == after[|after| - 1]
  {
    if Drains(before, after) {
      var part := after[|before|..];
      assert forall k | 0 <= k < |part| :: part[k] == after[|before| + k];
    }
    if DrainStops(before, after) {
      var part, front := after[|before|..], after[..|after| - 1];
      var init := part[..|part| - 1];
      assert forall k | 0 <= k < |init| :: init[k] == front[|before| + k];
      assert forall k | 0 <= k < |before| :: before[k] == front[k] == after[k];
    }
  }

  lemma NothingReaped()
    ensures !ReapedIn([]) && AllOk([])
  {
  }

  lemma Assembled(p: Phases)
    ensures p.drain + p.finish + (p.clean + p.last) == p.All()
    ensures |p.All()| == |p.drain| + |p.finish| + |p.clean| + |p.last|
  {
  }

  /** An orderly end that succeeds has reaped the leader. */
  lemma FinishedIsReaped(fails: nat -> bool, c: nat)
    ensures AllOk(Executed(fails, c, FinishSites())) ==> ReapedIn(Executed(fails, c, FinishSites()))
  {
    FinishExecuted(fails, c);
    EndExecuted(fails, c + 1, false);
  }

  // ------------------------------------------------------------- a supervised child

  /** The calls after the write ends are closed, phase by phase. */
  datatype Phases = Phases(drain: seq<Attempt>, drained: bool, finish: seq<Attempt>, clean: seq<Attempt>,
                           last: seq<Attempt>)
  {
    function All(): seq<Attempt> { drain + finish + clean + last }
  }

  /**
   The calls a supervised run makes from call `c` on: the drain loop until it stops; if it drained
   both pipes, the orderly end of the group until that stops; if the leader was not reaped by it,
   the clean-up's kill, reap and wait until they stop; and unless one of these failed, a close of
   every pipe still open.
   */
  ghost predicate Follows(fails: nat -> bool, c: nat, p: Phases, open': set<Fd>) {
    && (if p.drained then Drains([], p.drain) else DrainStops([], p.drain))
    && p.finish == (if p.drained then Executed(fails, c + |p.drain|, FinishSites()) else [])
    && p.clean == (if ReapedIn(p.finish) then []
                   else Executed(fails, c + |p.drain| + |p.finish|, EndSites(true)))
    && p.last == (if AllOk(p.clean)
                  then CloseAttempts(fails, c + |p.drain| + |p.finish| + |p.clean|, Remaining(open')) else [])
  }

  /** Whatever fails, the group is signalled before the run is over. */
  lemma GroupIsKilled(fails: nat -> bool, c: nat, p: Phases, open': set<Fd>)
    requires Follows(fails, c, p, open')
    ensures KilledIn(p.finish) || KilledIn(p.clean)
  {
    hide Executed;
    hide Drains;
    hide DrainStops;
    hide CloseAttempts;
    FinishExecuted(fails, c + |p.drain|);
    EndExecuted(fails, c + |p.drain| + |p.finish|, true);
  }

  /** The clean-up fails exactly if it found the leader unreaped and its kill, reap or wait failed. */
  lemma CleanupFailsExactly(fails: nat -> bool, c: nat, p: Phases, open': set<Fd>)
    requires Follows(fails, c, p, open')
    ensures var t := c + |p.drain| + |p.finish|;
            !AllOk(p.clean) <==> !ReapedIn(p.finish) && (fails(t) || fails(t + 1) || fails(t + 2))
  {
    hide Executed;
    hide Drains;
    hide DrainStops;
    hide CloseAttempts;
    EndExecuted(fails, c + |p.drain| + |p.finish|, true);
  }

  predicate Distinct(fds: seq<Fd>) {
    forall i, j | 0 <= i < j < |fds| :: fds[i] != fds[j]
  }

  /** The four pipe ends, in the order in which they are closed when the child cannot be started. */
  function BothPipes(): (fds: seq<Fd>)
    ensures Distinct(fds)
  {
    [STDOUT, STDOUT_WRITE, STDERR, STDERR_WRITE]
  }

  function Ends(): set<Fd> {
    {STDOUT, STDOUT_WRITE, STDERR, STDERR_WRITE}
  }

  function WriteEnds(): (fds: seq<Fd>)
    ensures Distinct(fds)
  {
    [STDOUT_WRITE, STDERR_WRITE]
  }

  /** The descriptors still in the dictionary, in its order. */
  function Remaining(states: set<Fd>): (fds: seq<Fd>)
    ensures |fds| <= 2 && Distinct(fds)
    ensures forall fd :: fd in fds <==> fd in states && fd in {STDOUT, STDERR}
  {
    (if STDOUT in states then [STDOUT] else []) + (if STDERR in states then [STDERR] else [])
  }

  /** Which of the descriptors closed from call `first` on, one call each, stay open. */
  ghost function Unclosed(fails: nat -> bool, fds: seq<Fd>, first: int): set<Fd> {
    set j | 0 <= j < |fds| && first + j >= 0 && fails(first + j) :: fds[j]
  }

  /** What these attempts close. */
  ghost function ClosedBy(h: seq<Attempt>): multiset<Fd> {
    if h == [] then multiset{} else ClosedBy(h[..|h| - 1]) + NowClosed(h[|h| - 1])
  }

  lemma ClosedNothing()
    ensures ClosedBy([]) == multiset{}
  {
  }

  lemma ClosedStep(h: seq<Attempt>, i: nat)
    requires i < |h|
    ensures h[..i + 1] == h[..i] + [h[i]] && ClosedBy(h[..i + 1]) == ClosedBy(h[..i]) + NowClosed(h[i])
  {
    assert h[..i + 1][..i] == h[..i];
  }

  lemma {:induction false} OthersStayOpen(fails: nat -> bool, c: nat, fds: seq<Fd>, i: nat, fd: Fd)
    requires i <= |fds| && forall j | 0 <= j < i :: fds[j] != fd
    ensures ClosedBy(CloseAttempts(fails, c, fds)[..i])[fd] == 0
  {
    if i > 0 {
      OthersStayOpen(fails, c, fds, i - 1, fd);
      ClosedStep(CloseAttempts(fails, c, fds), i - 1);
      hide ClosedBy;
    }
  }

  lemma {:induction false} ClosedAt(fails: nat -> bool, c: nat, fds: seq<Fd>, i: nat, j: nat)
    requires Distinct(fds) && j < i <= |fds|
    ensures ClosedBy(CloseAttempts(fails, c, fds)[..i])[fds[j]] == if fails(c + j) then 0 else 1
  {
    ClosedStep(CloseAttempts(fails, c, fds), i - 1);
    if j == i - 1 { OthersStayOpen(fails, c, fds, j, fds[j]); } else { ClosedAt(fails, c, fds, i - 1, j); }
    hide ClosedBy;
  }

  /** Each descriptor is closed once unless its own close fails. */
  lemma ClosedExactly(fails: nat -> bool, c: nat, fds: seq<Fd>, before: multiset<Fd>)
    requires Distinct(fds)
    ensures ClosedOnce(before, before + ClosedBy(CloseAttempts(fails, c, fds)), fds, Unclosed(fails, fds, c))
  {
    var done := CloseAttempts(fails, c, fds);
    assert done[..|fds|] == done;
    hide ClosedBy;
    hide CloseAttempts;
    forall fd ensures ClosedBy(done)[fd] == if fd in fds && fd !in Unclosed(fails, fds, c) then 1 else 0 {
      if fd in fds {
        var j :| 0 <= j < |fds| && fds[j] == fd;
        ClosedAt(fails, c, fds, |fds|, j);
        assert fd in Unclosed(fails, fds, c) <==> fails(c + j);
      } else {
        OthersStayOpen(fails, c, fds, |fds|, fd);
      }
    }
  }

  /** How many bytes a read returns: at most a chunk, what is asked for and what is there, and none only at the end. */
  function Portion(available: nat, room: nat, short: nat): (n: nat)
    requires room > 0
    ensures n <= available && n <= room && n <= CHUNK && (n == 0 <==> available == 0)
  {
    var want := if CHUNK < room then CHUNK else room;
    var most := if want < available then want else available;
    if most == 0 then 0 else 1 + short % most
  }

  ghost predicate Fits(buffers: map<Fd, Bytes>, streams: map<Fd, Bytes>, limits: map<Fd, nat>) {
    && buffers.Keys == streams.Keys == limits.Keys == {STDOUT, STDERR}
    && (forall fd | fd in buffers :: buffers[fd] <= streams[fd] && |buffers[fd]| <= limits[fd] + 1)
  }

  lemma FitsOn(buffers: map<Fd, Bytes>, streams: map<Fd, Bytes>, limits: map<Fd, nat>, fd: Fd, n: nat)
    requires Fits(buffers, streams, limits) && fd in buffers
    requires n <= |streams[fd]| && n <= limits[fd] + 1
    ensures Fits(buffers[fd := streams[fd][..n]], streams, limits)
  {
  }

  /** Each listed descriptor has been closed once more, except the lost ones. */
  ghost predicate ClosedOnce(before: multiset<Fd>, after: multiset<Fd>, fds: seq<Fd>, lost: set<Fd>) {
    forall fd :: after[fd] == before[fd] + if fd in fds && fd !in lost then 1 else 0
  }

  lemma UnclosedAreListed(fails: nat -> bool, fds: seq<Fd>, first: int)
    ensures forall fd | fd in Unclosed(fails, fds, first) :: fd in fds
  {
  }

  class BoundedRun {
    const fails: nat -> bool                   // whether the n-th call raises or times out
    const ready: (nat, set<Fd>) -> set<Fd>     // which of the pipes asked for `select` reports at the n-th call
    const short: nat -> nat                    // how far the n-th read falls short
    const streams: map<Fd, Bytes>              // all the child and its descendants write to each pipe
    var calls: nat
    const limits: map<Fd, nat>                 // the byte ceiling of each pipe
    var buffers: map<Fd, Bytes>                // the buffer of each pipe
    var states: set<Fd>                        // the keys of the dictionary of pipes still open
    var reaped: bool                           // the leader's return code has been collected
    var groupGone: bool
    ghost var history: seq<Attempt>            // every call made, in order
    ghost var closed: multiset<Fd>

    constructor (fails: nat -> bool, ready: (nat, set<Fd>) -> set<Fd>, short: nat -> nat, streams: map<Fd, Bytes>,
                 limits: map<Fd, nat>)
      requires streams.Keys == limits.Keys == {STDOUT, STDERR}
      ensures Valid() && history == [] && closed == multiset{} && !reaped && states == {}
      ensures this.fails == fails && this.ready == ready && this.streams == streams && this.limits == limits
      ensures buffers == map[STDOUT := [], STDERR := []]
    {
      this.fails, this.ready, this.short, this.streams, this.limits := fails, ready, short, streams, limits;
      calls, states, reaped, groupGone, history, closed := 0, {}, false, false, [], multiset{};
      buffers := map[STDOUT := [], STDERR := []];
    }

    ghost predicate Recorded() reads `calls, `reaped, `history, `closed {
      Record(fails, calls, history, closed, reaped)
    }

    /** Buffers are what the child wrote so far and never hold more than one byte over the limit. */
    ghost predicate Buffered() reads `buffers, `states {
      states <= {STDOUT, STDERR} && Fits(buffers, streams, limits)
    }

    ghost predicate Valid() reads `buffers, `states, `calls, `reaped, `history, `closed {
      Buffered() && Recorded()
    }

    /** No call fails, `select` always reports some open pipe, and the output fits. */
    ghost predicate Undisturbed() {
      && (forall n :: !fails(n))
      && (forall n, open': set<Fd> | open' != {} :: ready(n, open') * open' != {})
      && (forall fd | fd in streams && fd in limits :: |streams[fd]| <= limits[fd])
    }

    lemma UndisturbedCall(n: nat)
      ensures Undisturbed() ==> !fails(n)
    {
    }

    ghost predicate Drained(fd: Fd) reads `buffers {
      fd in buffers && fd in streams && fd in limits && buffers[fd] == streams[fd] && |buffers[fd]| <= limits[fd]
    }

    /** Every read end no longer in the dictionary was closed exactly once, the others not at all. */
    ghost predicate Settled() reads `states, `closed {
      && closed[STDOUT] == (if STDOUT in states then 0 else 1)
      && closed[STDERR] == (if STDERR in states then 0 else 1)
    }

    twostate predicate WritesKept() reads `closed {
      closed[STDOUT_WRITE] == old(closed)[STDOUT_WRITE] && closed[STDERR_WRITE] == old(closed)[STDERR_WRITE]
    }

    function Capacity(fd: Fd): nat
      reads `states, `buffers
      requires fd in states ==> fd in buffers && fd in limits && |buffers[fd]| <= limits[fd] + 1
    {
      if fd in states then limits[fd] + 2 - |buffers[fd]| else 0
    }

    /** A call that closes nothing and reaps nobody; the group is signalled only while its leader is unreaped. */
    method Call(site: Site) returns (ok: bool)
      requires Recorded() && !site.Reap? && !site.DrainClose? && !site.Close? && (site.Kill? ==> !reaped)
      modifies this`calls, this`history
      ensures Recorded() && ok == !fails(old(calls)) && calls == old(calls) + 1
      ensures history == old(history) + [Attempt(site, ok)]
    {
      ok := !fails(calls);
      RecordGrows(fails, calls, history, closed, reaped, Attempt(site, ok));
      hide Record;
      assert closed + NowClosed(Attempt(site, ok)) == closed;
      calls, history := calls + 1, history + [Attempt(site, ok)];
    }

    method CloseNow(site: Site, fd: Fd) returns (ok: bool)
      requires Recorded() && (site == DrainClose(fd) || site == Close(fd))
      modifies this`calls, this`history, this`closed
      ensures Recorded() && ok == !fails(old(calls)) && calls == old(calls) + 1
      ensures history == old(history) + [Attempt(site, ok)]
      ensures closed == old(closed) + NowClosed(Attempt(site, ok))
    {
      ok := !fails(calls);
      RecordGrows(fails, calls, history, closed, reaped, Attempt(site, ok));
      hide Record;
      calls, history := calls + 1, history + [Attempt(site, ok)];
      closed := closed + NowClosed(Attempt(site, ok));
    }

    method ReapLeaderNow(final: bool) returns (ok: bool)
      requires Recorded() && !reaped && KilledIn(history)
      modifies this`calls, this`history, this`reaped
      ensures Recorded() && ok == reaped == !fails(old(calls)) && calls == old(calls) + 1
      ensures history == old(history) + [Attempt(Reap(final), ok)]
    {
      ok := !fails(calls);
      RecordGrows(fails, calls, history, closed, reaped, Attempt(Reap(final), ok));
      hide Record;
      assert closed + NowClosed(Attempt(Reap(final), ok)) == closed;
      calls, history, reaped := calls + 1, history + [Attempt(Reap(final), ok)], ok;
    }

    method WaitForGroupExit(final: bool) returns (ok: bool)
      requires Recorded()
      modifies this`calls, this`history, this`groupGone
      ensures Recorded() && (ok ==> groupGone) && ok == !fails(old(calls)) && calls == old(calls) + 1
      ensures history == old(history) + [Attempt(AwaitGroup(final), ok)]
    {
      ok := Call(AwaitGroup(final));
      if ok { groupGone := true; }
    }

    lemma ReapedWasKilled()
      requires Recorded()
      ensures reaped ==> KilledIn(history)
    {
    }

    /** Kill, reap and wait: three calls, of which the first to fail raises. */
    method EndGroup(final: bool) returns (ok: bool)
      requires Recorded() && !reaped
      modifies this`calls, this`history, this`reaped, this`groupGone
      ensures Recorded() && (ok ==> reaped && groupGone) && KilledIn(history)
      ensures Made(old(history), history, Executed(fails, old(calls), EndSites(final)))
      ensures calls == old(calls) + |Executed(fails, old(calls), EndSites(final))|
      ensures ok <==> AllOk(Executed(fails, old(calls), EndSites(final)))
      ensures reaped <==> ReapedIn(Executed(fails, old(calls), EndSites(final)))
    {
      EndExecuted(fails, calls, final);
      Single(Attempt(Kill(final), true));
      hide Executed;
      hide AllOk;
      hide ReapedIn;
      hide Recorded;
      hide EndSites;
      hide KilledIn;
      ghost var h0, done := history, Executed(fails, calls, EndSites(final));
      ok := Call(Kill(final));
      if !ok { MadeKeepsKill(h0, history, done); return; }
      MadeKeepsKill(h0, history, [Attempt(Kill(final), true)]);
      ok := ReapLeaderNow(final);
      if !ok { MadeKeepsKill(h0, history, done); return; }
      ok := WaitForGroupExit(final);
      MadeKeepsKill(h0, history, done);
    }

    /** The cleanup used after an error; it refuses to run once the leader is reaped. */
    method KillProcessGroup() returns (ok: bool)
      requires Recorded()
      modifies this`calls, this`history, this`reaped, this`groupGone
      ensures Recorded() && (ok ==> reaped && groupGone && !old(reaped)) && KilledIn(history)
      ensures old(reaped) ==> !ok && history == old(history) && calls == old(calls)
      ensures !old(reaped) ==>
                && Made(old(history), history, Executed(fails, old(calls), EndSites(true)))
                && calls == old(calls) + |Executed(fails, old(calls), EndSites(true))|
                && (ok <==> AllOk(Executed(fails, old(calls), EndSites(true))))
    {
      hide Recorded;
      ReapedWasKilled();
      hide Made;
      if reaped { return false; }
      ok := EndGroup(true);
    }

    /** Waits without reaping, kills the rest of the group, then reaps. */
    method FinishProcessGroup() returns (ok: bool)
      requires Recorded() && !reaped
      modifies this`calls, this`history, this`reaped, this`groupGone
      ensures Recorded() && (ok ==> reaped && groupGone)
      ensures Made(old(history), history, Executed(fails, old(calls), FinishSites()))
      ensures calls == old(calls) + |Executed(fails, old(calls), FinishSites())|
      ensures ok <==> AllOk(Executed(fails, old(calls), FinishSites()))
      ensures reaped <==> ReapedIn(Executed(fails, old(calls), FinishSites()))
      ensures Undisturbed() ==> ok
    {
      FinishExecuted(fails, calls);
      SmoothFinish(fails, calls);
      hide Executed;
      hide FinishSites;
      hide EndSites;
      hide ReapedIn;
      hide KilledIn;
      hide AllOk;
      hide Recorded;
      ok := Call(AwaitLeader);
      if !ok { return; }
      ok := EndGroup(false);
    }

    /** Reads at most one byte over the limit; a buffer over the limit raises. */
    method ReadPipe(fd: Fd) returns (r: ReadResult)
      requires Valid() && fd in states && |buffers[fd]| <= limits[fd]
      modifies this`calls, this`history, this`buffers
      ensures Valid() && (forall g | g in buffers && g != fd :: buffers[g] == old(buffers)[g])
      ensures calls == old(calls) + 1 && history == old(history) + [Attempt(Read(fd), !fails(old(calls)))]
      ensures r == More ==> |old(buffers)[fd]| < |buffers[fd]| <= limits[fd]
      ensures r == EndOfFile ==> buffers == old(buffers) && Drained(fd)
      ensures r == ReadFailed <==> fails(old(calls)) || |buffers[fd]| > limits[fd]
      ensures |streams[fd]| <= limits[fd] ==> |buffers[fd]| <= limits[fd]
    {
      hide Recorded;
      var used := |buffers[fd]|;
      var n := Portion(|streams[fd]| - used, limits[fd] - used + 1, short(calls));
      var ok := Call(Read(fd));
      if !ok { return ReadFailed; }
      if n == 0 { return EndOfFile; }
      FitsOn(buffers, streams, limits, fd, used + n);
      hide Fits;
      buffers := buffers[fd := streams[fd][..used + n]];
      return if used + n > limits[fd] then ReadFailed else More;
    }

    /** What holds between two reads of the drain loop. */
    ghost predicate Draining() reads `buffers, `states, `calls, `reaped, `history, `closed {
      && Valid() && Settled() && !reaped
      && (if STDOUT in states then |buffers[STDOUT]| <= limits[STDOUT] else Drained(STDOUT))
      && (if STDERR in states then |buffers[STDERR]| <= limits[STDERR] else Drained(STDERR))
    }

    ghost function Room(): nat
      reads `buffers, `states
      requires Buffered()
    {
      Capacity(STDOUT) + Capacity(STDERR)
    }

    /** Why the drain loop gave up: its last call failed, reported nothing to read, or read too much. */
    ghost predicate GaveUp(a: Attempt, c: nat) reads `buffers, `states {
      || !a.ok
      || (a.site.Select? && states != {} && ready(c, states) * states == {})
      || (a.site.Read? && a.site.fd in buffers && a.site.fd in limits && |buffers[a.site.fd]| > limits[a.site.fd])
    }

    /** The loop made its calls, and either goes on or gave up at the last one. */
    ghost predicate Progress(before: seq<Attempt>, ok: bool) reads `buffers, `states, `calls, `history {
      if ok then Drains(before, history)
      else DrainStops(before, history) && calls > 0 && GaveUp(history[|history| - 1], calls - 1)
    }

    /** Closes a drained pipe and drops it from the dictionary. */
    method ClosePipe(fd: Fd) returns (ok: bool)
      requires Draining() && fd in states && Drained(fd)
      modifies this`calls, this`history, this`states, this`closed
      ensures Valid() && Settled() && !reaped && WritesKept()
      ensures ok ==> Draining() && states == old(states) - {fd}
      ensures ok == !fails(old(calls)) && calls == old(calls) + 1
      ensures history == old(history) + [Attempt(DrainClose(fd), ok)]
    {
      hide Recorded;
      ok := CloseNow(DrainClose(fd), fd);
      if ok { states := states - {fd}; }
    }

    /** Reads one readable descriptor; at end of file closes it and drops its state. */
    method ServeReadable(fd: Fd, ghost before: seq<Attempt>) returns (ok: bool)
      requires Draining() && fd in states && Drains(before, history)
      modifies this`calls, this`history, this`buffers, this`states, this`closed
      ensures Valid() && Settled() && !reaped && WritesKept() && Progress(before, ok)
      ensures calls - |history| == old(calls) - |old(history)|
      ensures ok ==> Draining() && old(states) - {fd} <= states <= old(states) && Room() < old(Room())
      ensures Undisturbed() ==> ok
    {
      hide Recorded;
      hide Drains;
      hide DrainStops;
      DrainsOn(before, history, Attempt(Read(fd), !fails(calls)));
      var r := ReadPipe(fd);
      if r == ReadFailed { return false; }
      ok := true;
      if r == EndOfFile {
        DrainsOn(before, history, Attempt(DrainClose(fd), !fails(calls)));
        ok := ClosePipe(fd);
      }
    }

    method ServeAll(readable: seq<Fd>, ghost before: seq<Attempt>) returns (ok: bool)
      requires Draining() && readable != [] && (forall fd | fd in readable :: fd in states) && Distinct(readable)
      requires Drains(before, history)
      modifies this`calls, this`history, this`buffers, this`states, this`closed
      ensures Valid() && Settled() && !reaped && WritesKept() && Progress(before, ok)
      ensures calls - |history| == old(calls) - |old(history)|
      ensures ok ==> Draining() && Room() < old(Room())
      ensures Undisturbed() ==> ok
    {
      hide Recorded;
      hide Drains;
      hide DrainStops;
      hide GaveUp;
      var i := 0;
      while i < |readable|
        invariant i <= |readable| && Draining() && WritesKept() && Drains(before, history)
        invariant calls - |history| == old(calls) - |old(history)|
        invariant forall j | i <= j < |readable| :: readable[j] in states
        invariant if i == 0 then Room() == old(Room()) else Room() < old(Room())
      {
        ok := ServeReadable(readable[i], before);
        if !ok { return; }
        i := i + 1;
      }
      ok := true;
    }

    /** Ends because every round either fills a buffer further or closes a pipe. */
    method DrainProcessPipes() returns (ok: bool)
      requires Draining()
      modifies this`calls, this`history, this`buffers, this`states, this`closed
      ensures Valid() && Settled() && !reaped && WritesKept() && Progress(old(history), ok)
      ensures calls - |history| == old(calls) - |old(history)|
      ensures ok ==> Draining() && states == {}
      ensures Undisturbed() ==> ok
    {
      hide Recorded;
      ghost var before := history;
      assert Drains(before, history);
      hide Drains;
      hide DrainStops;
      while states != {}
        invariant Draining() && WritesKept() && Drains(before, history)
        invariant calls - |history| == old(calls) - |old(history)|
        decreases Room()
      {
        var readable := Remaining(ready(calls, states) * states);
        DrainsOn(before, history, Attempt(Select, !fails(calls)));
        ok := Call(Select);  // the remaining time and `select`
        if !ok || readable == [] {
          assert ok ==> ready(calls - 1, states) * states == {};
          return false;
        }
        ok := ServeAll(readable, before);
        if !ok { return; }
      }
      ok := true;
    }

    /** Closes each descriptor in turn; a close that raises is skipped. */
    method CloseDescriptors(fds: seq<Fd>)
      requires Recorded() && Distinct(fds)
      modifies this`calls, this`history, this`closed
      ensures Recorded() && calls == old(calls) + |fds|
      ensures Made(old(history), history, CloseAttempts(fails, old(calls), fds))
      ensures ClosedOnce(old(closed), closed, fds, Unclosed(fails, fds, old(calls)))
    {
      hide Recorded;
      ghost var done := CloseAttempts(fails, calls, fds);
      var i := 0;
      assert done[..0] == [];
      hide CloseAttempts;
      hide NowClosed;
      hide Distinct;
      hide Unclosed;
      hide ClosedBy;
      hide ClosedOnce;
      hide Made;
      MadeNothing(history);
      ClosedNothing();
      ghost var c0, closed0 := calls, closed;
      ghost var h0 := history;
      while i < |fds|
        invariant i <= |fds| == |done| && calls == c0 + i && Recorded()
        invariant Made(h0, history, done[..i])
        invariant closed == closed0 + ClosedBy(done[..i])
      {
        ClosedStep(done, i);
        ghost var h1 := history;
        var ok := CloseNow(Close(fds[i]), fds[i]);
        assert Attempt(Close(fds[i]), ok) == done[i];
        MadeOne(h1, history, done[i]);
        MadeThen(h0, h1, history, done[..i], [done[i]]);
        i := i + 1;
      }
      assert done[..i] == done;
      ClosedExactly(fails, c0, fds, closed0);
    }

    /** The read descriptors that a supervised run never closes, from the calls that fail. */
    ghost function LostAfterStart(cleanup: bool): set<Fd> reads `states, `calls {
      if cleanup then states else Unclosed(fails, Remaining(states), calls - |Remaining(states)|)
    }

    /** Every read end was closed exactly once, except the lost ones. */
    ghost predicate ReadsAccounted(cleanup: bool) reads `states, `calls, `closed {
      forall fd | fd in {STDOUT, STDERR} :: closed[fd] == if fd in LostAfterStart(cleanup) then 0 else 1
    }

    lemma SettledAtCleanup()
      ensures Settled() ==> ReadsAccounted(true)
    {
    }

    /** The last closes: whatever is still in the dictionary. */
    method CloseRemaining()
      requires Recorded() && states <= {STDOUT, STDERR} && Settled()
      modifies this`calls, this`history, this`closed
      ensures Recorded() && calls == old(calls) + |Remaining(states)| && WritesKept()
      ensures Made(old(history), history, CloseAttempts(fails, old(calls), Remaining(states)))
      ensures ReadsAccounted(false)
    {
      hide Recorded;
      hide Unclosed;
      hide Remaining;
      ghost var first := calls;
      UnclosedAreListed(fails, Remaining(states), first);
      CloseDescriptors(Remaining(states));
      assert calls - |Remaining(states)| == first;
    }

    /**
     The clean-up that runs on every path after a spawn.  If its kill, reap or wait raises, what is
     still in the dictionary is never closed; otherwise its last calls are the closes.
     */
    method CleanUp() returns (cleaned: bool, ghost clean: seq<Attempt>, ghost last: seq<Attempt>)
      requires Recorded() && states <= {STDOUT, STDERR} && Settled()
      modifies this`calls, this`history, this`reaped, this`groupGone, this`closed
      ensures Recorded() && WritesKept() && (cleaned ==> reaped) && KilledIn(history)
      ensures old(reaped) ==> groupGone == old(groupGone)
      ensures clean == if old(reaped) then [] else Executed(fails, old(calls), EndSites(true))
      ensures cleaned <==> AllOk(clean)
      ensures last == if cleaned then CloseAttempts(fails, old(calls) + |clean|, Remaining(states)) else []
      ensures Made(old(history), history, clean + last) && calls == old(calls) + |clean| + |last|
      ensures ReadsAccounted(!cleaned)
    {
      hide Recorded;
      hide Executed;
      hide EndSites;
      hide KilledIn;
      hide Remaining;
      hide Unclosed;
      hide AllOk;
      hide CloseAttempts;
      hide Made;
      hide Settled;
      hide ReadsAccounted;
      ReapedWasKilled();
      NothingReaped();
      MadeNothing(history);
      ghost var h0 := history;
      cleaned, clean, last := true, [], [];
      if !reaped {
        clean := Executed(fails, calls, EndSites(true));
        cleaned := KillProcessGroup();
      }
      ghost var h1 := history;
      MadeNothing(h1);
      SettledAtCleanup();
      if cleaned {
        last := CloseAttempts(fails, calls, Remaining(states));
        CloseRemaining();
      }
      MadeThen(h0, h1, history, clean, last);
      MadeKeepsKill(h1, history, last);
    }

    /** The body of the `try`: draining both pipes, then the orderly end of the group. */
    method DrainAndFinish()
      returns (ok: bool, ghost drained: bool, ghost drain: seq<Attempt>, ghost finish: seq<Attempt>)
      requires Draining() && states == {STDOUT, STDERR}
      modifies this`calls, this`history, this`buffers, this`states, this`reaped, this`groupGone, this`closed
      ensures Valid() && Settled() && WritesKept() && states <= {STDOUT, STDERR}
      ensures Made(old(history), history, drain + finish) && calls == old(calls) + |drain| + |finish|
      ensures if drained then Drains([], drain) else DrainStops([], drain)
      ensures if drained then Drained(STDOUT) && Drained(STDERR) && states == {}
              else drain != [] && GaveUp(drain[|drain| - 1], old(calls) + |drain| - 1)
      ensures finish == if drained then Executed(fails, old(calls) + |drain|, FinishSites()) else []
      ensures (ok <==> drained && AllOk(finish)) && (reaped <==> ReapedIn(finish)) && (ok ==> reaped && groupGone)
      ensures Undisturbed() ==> ok
    {
      hide Recorded;
      hide Undisturbed;
      hide Executed;
      hide FinishSites;
      hide AllOk;
      hide ReapedIn;
      hide Drains;
      hide DrainStops;
      hide GaveUp;
      ghost var c0, h0 := calls, history;
      ok := DrainProcessPipes();
      DrainPart(h0, history);
      drained, drain, finish := ok, history[|h0|..], [];
      assert Made(h0, history, drain);
      hide Made;
      NothingReaped();
      hide Progress;
      ghost var h1 := history;
      MadeNothing(h1);
      if ok {
        finish := Executed(fails, calls, FinishSites());
        FinishedIsReaped(fails, calls);
        ok := FinishProcessGroup();
      }
      MadeThen(h0, h1, history, drain, finish);
    }

    /** Everything after a successful spawn. */
    method Supervise() returns (ok: bool, cleaned: bool, ghost p: Phases)
      requires Draining() && states == {STDOUT, STDERR}
      modifies this
      ensures Valid() && WritesKept() && (ok ==> cleaned) && (cleaned ==> reaped) && KilledIn(history)
      ensures Made(old(history), history, p.All()) && calls == old(calls) + |p.All()|
      ensures Follows(fails, old(calls), p, states)
      ensures if p.drained then Drained(STDOUT) && Drained(STDERR) && states == {}
              else p.drain != [] && GaveUp(p.drain[|p.drain| - 1], old(calls) + |p.drain| - 1)
      ensures ok <==> p.drained && AllOk(p.finish)
      ensures cleaned <==> AllOk(p.clean)
      ensures ReadsAccounted(!cleaned)
      ensures ok ==> groupGone
      ensures Undisturbed() ==> ok
    {
      hide Recorded;
      hide Unclosed;
      hide Undisturbed;
      hide Remaining;
      hide ReadsAccounted;
      hide Settled;
      hide Executed;
      hide FinishSites;
      hide EndSites;
      hide CloseAttempts;
      hide Drains;
      hide DrainStops;
      hide Drained;
      hide Buffered;
      hide AllOk;
      hide ReapedIn;
      hide KilledIn;
      hide GaveUp;
      NothingReaped();
      ghost var drained, drain, finish, clean, last;
      ghost var c0, h0 := calls, history;
      hide Made;
      ok, drained, drain, finish := DrainAndFinish();
      ghost var h1 := history;
      cleaned, clean, last := CleanUp();
      p := Phases(drain, drained, finish, clean, last);
      MadeThen(h0, h1, history, drain + finish, clean + last);
      Assembled(p);
      hide Phases.All;
    }

    lemma LostAreReadEnds(cleanup: bool)
      requires states <= {STDOUT, STDERR}
      ensures LostAfterStart(cleanup) <= {STDOUT, STDERR}
    {
      UnclosedAreListed(fails, Remaining(states), calls - |Remaining(states)|);
    }

    method CloseWriteEnds() returns (ghost lost: set<Fd>)
      requires Recorded() && closed == multiset{}
      modifies this`calls, this`history, this`closed
      ensures Recorded() && calls == old(calls) + |WriteEnds()|
      ensures Made(old(history), history, CloseAttempts(fails, old(calls), WriteEnds()))
      ensures lost == Unclosed(fails, WriteEnds(), old(calls)) <= {STDOUT_WRITE, STDERR_WRITE}
      ensures forall fd :: closed[fd] == if fd in {STDOUT_WRITE, STDERR_WRITE} - lost then 1 else 0
    {
      hide Recorded;
      var fds := WriteEnds();
      lost := Unclosed(fails, fds, calls);
      CloseDescriptors(fds);
    }

    /** The run after a successful spawn: the parent closes its write ends and supervises the child. */
    method RunStarted() returns (ok: bool, cleaned: bool, ghost lost: set<Fd>, ghost p: Phases)
      requires Valid() && closed == multiset{} && !reaped && states == {}
      requires buffers == map[STDOUT := [], STDERR := []]
      modifies this
      ensures Valid() && lost <= Ends() && (ok ==> cleaned) && (cleaned ==> reaped) && KilledIn(history)
      ensures forall fd | fd in Ends() :: closed[fd] == if fd in lost then 0 else 1
      ensures lost == Unclosed(fails, WriteEnds(), old(calls)) + LostAfterStart(!cleaned)
      ensures Made(old(history), history, CloseAttempts(fails, old(calls), WriteEnds()) + p.All())
      ensures calls == old(calls) + 2 + |p.All()| && Follows(fails, old(calls) + 2, p, states)
      ensures if p.drained then Drained(STDOUT) && Drained(STDERR) && states == {}
              else p.drain != [] && GaveUp(p.drain[|p.drain| - 1], old(calls) + 1 + |p.drain|)
      ensures ok <==> p.drained && AllOk(p.finish)
      ensures cleaned <==> AllOk(p.clean)
      ensures ok ==> groupGone
      ensures Undisturbed() ==> ok
    {
      hide Recorded;
      hide Unclosed;
      hide Remaining;
      hide Undisturbed;
      hide Follows;
      hide AllOk;
      hide GaveUp;
      hide Made;
      hide KilledIn;
      hide CloseAttempts;
      hide Phases.All;
      ghost var h0, done := history, CloseAttempts(fails, calls, WriteEnds());
      ghost var writes := CloseWriteEnds();
      states := {STDOUT, STDERR};
      ghost var h1 := history;
      ok, cleaned, p := Supervise();
      MadeThen(h0, h1, history, done, p.All());
      LostAreReadEnds(!cleaned);
      hide LostAfterStart;
      hide Buffered;
      lost := writes + LostAfterStart(!cleaned);
    }

    predicate Piped(configured: bool, c: nat) {
      configured && !fails(c) && !fails(c + 1)
    }

    /** The checks and the two pipes; the result says what was raised, unless both pipes exist. */
    method OpenPipes(configured: bool) returns (piped: bool, r: Result, ghost created: set<Fd>)
      requires Recorded()
      modifies this`calls, this`history
      ensures Recorded() && piped == Piped(configured, old(calls)) && (piped ==> calls == old(calls) + 2)
      ensures calls - |history| == old(calls) - |old(history)| && r.Raised?
      ensures Made(old(history), history, if configured then Executed(fails, old(calls), [OpenPipe, OpenPipe]) else [])
      ensures !piped ==>
                r == Raised(if !configured then Configuration else if fails(old(calls)) then FirstPipe else SecondPipe)
      ensures created == if !configured || fails(old(calls)) then {}
                         else if fails(old(calls) + 1) then {STDOUT, STDOUT_WRITE} else Ends()
    {
      hide Recorded;
      created := {};
      if !configured { return false, Raised(Configuration), created; }
      PipesExecuted(fails, calls);
      hide Executed;
      piped := Call(OpenPipe);
      if !piped { return false, Raised(FirstPipe), created; }
      created := {STDOUT, STDOUT_WRITE};
      piped := Call(OpenPipe);
      if piped { created := Ends(); }
      r := Raised(SecondPipe);
    }

    /** After an OSError from the spawn all four ends are closed. */
    method CloseBothPipes() returns (ghost lost: set<Fd>)
      requires Recorded() && closed == multiset{}
      modifies this`calls, this`history, this`closed
      ensures Recorded() && calls == old(calls) + |BothPipes()|
      ensures Made(old(history), history, CloseAttempts(fails, old(calls), BothPipes()))
      ensures lost == Unclosed(fails, BothPipes(), old(calls)) <= Ends()
      ensures forall fd | fd in Ends() :: closed[fd] == if fd in lost then 0 else 1
    {
      hide Recorded;
      var fds := BothPipes();
      lost := Unclosed(fails, fds, calls);
      CloseDescriptors(fds);
    }

    /** The calls once both pipes exist, from call `c` on; `p` are those of a supervised child. */
    ghost function PipedCalls(spawn: Spawn, c: nat, p: Phases): seq<Attempt> {
      match spawn
      case OtherError => []
      case OsError => CloseAttempts(fails, c, BothPipes())
      case Started => CloseAttempts(fails, c, WriteEnds()) + p.All()
    }

    /** The phases of a started child, and where the drain loop left the pipes. */
    ghost predicate RanPhases(c: nat, p: Phases) reads `buffers, `states, `history {
      && Follows(fails, c, p, states) && KilledIn(history)
      && (if p.drained then Drained(STDOUT) && Drained(STDERR) && states == {}
          else p.drain != [] && GaveUp(p.drain[|p.drain| - 1], c + |p.drain| - 1))
    }

    /** The opened descriptors that are never closed, once both pipes exist. */
    ghost function PipedLost(spawn: Spawn, c: nat, p: Phases): set<Fd> reads `states, `calls {
      match spawn
      case OtherError => Ends()
      case OsError => Unclosed(fails, BothPipes(), c)
      case Started => Unclosed(fails, WriteEnds(), c) + LostAfterStart(!AllOk(p.clean))
    }

    ghost predicate Accounted(created: set<Fd>, lost: set<Fd>) reads `closed {
      && lost <= created
      && forall fd | fd in Ends() :: closed[fd] == if fd in created && fd !in lost then 1 else 0
    }

    ghost predicate CompleteOutput(r: Result) reads `groupGone {
      r.Returned? ==>
        && groupGone && STDOUT in streams && STDERR in streams && STDOUT in limits && STDERR in limits
        && r.stdout == streams[STDOUT] && |r.stdout| <= limits[STDOUT]
        && r.stderr == streams[STDERR] && |r.stderr| <= limits[STDERR]
    }

    /** The run once both pipes exist. */
    method RunPiped(spawn: Spawn) returns (r: Result, ghost lost: set<Fd>, ghost p: Phases)
      requires Valid() && closed == multiset{} && !reaped && states == {}
      requires buffers == map[STDOUT := [], STDERR := []]
      modifies this
      ensures Valid() && Made(old(history), history, PipedCalls(spawn, old(calls), p))
      ensures calls == old(calls) + |PipedCalls(spawn, old(calls), p)|
      ensures spawn == Started ==> RanPhases(old(calls) + 2, p)
      ensures r == Raised(SpawnFailed(false)) <==> spawn == OtherError
      ensures r == Raised(SpawnFailed(true)) <==> spawn == OsError
      ensures r == Raised(Cleanup) <==> spawn == Started && !AllOk(p.clean)
      ensures r.Returned? <==> spawn == Started && p.drained && AllOk(p.finish)
      ensures r.Returned? || r.cause.SpawnFailed? || r.cause.Child? || r.cause.Cleanup?
      ensures r.Returned? || r == Raised(Child) ==> reaped
      ensures lost == PipedLost(spawn, old(calls), p) && Accounted(Ends(), lost) && CompleteOutput(r)
      ensures spawn == Started && Undisturbed() ==> r.Returned?
    {
      hide Recorded;
      hide Remaining;
      hide Undisturbed;
      hide Follows;
      hide AllOk;
      hide GaveUp;
      hide LostAfterStart;
      hide Unclosed;
      hide Made;
      hide KilledIn;
      hide CloseAttempts;
      hide Phases.All;
      p := Phases([], false, [], [], []);
      match spawn
      case OtherError =>
        lost := Ends();
        MadeNothing(history);
        r := Raised(SpawnFailed(false));
      case OsError =>
        lost := CloseBothPipes();
        r := Raised(SpawnFailed(true));
      case Started =>
        var ok, cleaned;
        ok, cleaned, lost, p := RunStarted();
        r := if ok then Returned(buffers[STDOUT], buffers[STDERR]) else Raised(if cleaned then Child else Cleanup);
    }

    /**
     The history has every call of the run.  For a started child `p` are its phases: what they are
     follows from the calls that fail, and the result from the phases.  `lost` are the opened
     descriptors that are never closed: all opened so far when the second `pipe2` fails or the spawn
     raises something other than OSError, those whose own close fails when it raises OSError, and
     for a started child the ends whose own close fails, or all still open ones when the clean-up's
     kill, reap or wait fails.  Every other opened descriptor is closed exactly once.
     */
    method Run(configured: bool, spawn: Spawn)
      returns (r: Result, ghost created: set<Fd>, ghost lost: set<Fd>, ghost p: Phases)
      requires Valid() && history == [] && closed == multiset{} && !reaped && states == {}
      requires buffers == map[STDOUT := [], STDERR := []]
      modifies this
      ensures Valid() && calls == old(calls) + |history|
      ensures history == (if configured then Executed(fails, old(calls), [OpenPipe, OpenPipe]) else [])
                         + (if Piped(configured, old(calls)) then PipedCalls(spawn, old(calls) + 2, p) else [])
      ensures Piped(configured, old(calls)) && spawn == Started ==> RanPhases(old(calls) + 4, p)
      ensures r == Raised(Configuration) <==> !configured
      ensures r == Raised(FirstPipe) <==> configured && fails(old(calls))
      ensures r == Raised(SecondPipe) <==> configured && !fails(old(calls)) && fails(old(calls) + 1)
      ensures r == Raised(SpawnFailed(false)) <==> Piped(configured, old(calls)) && spawn == OtherError
      ensures r == Raised(SpawnFailed(true)) <==> Piped(configured, old(calls)) && spawn == OsError
      ensures r == Raised(Cleanup) <==> Piped(configured, old(calls)) && spawn == Started && !AllOk(p.clean)
      ensures r.Returned? <==> Piped(configured, old(calls)) && spawn == Started && p.drained && AllOk(p.finish)
      ensures r.Returned? || r == Raised(Child) ==> reaped
      ensures created == if !configured || fails(old(calls)) then {}
                         else if fails(old(calls) + 1) then {STDOUT, STDOUT_WRITE} else Ends()
      ensures lost == (if Piped(configured, old(calls)) then PipedLost(spawn, old(calls) + 2, p) else created)
      ensures Accounted(created, lost) && CompleteOutput(r)
      ensures configured && spawn == Started && Undisturbed() ==> r.Returned?
    {
      hide Recorded;
      hide Buffered;
      hide Undisturbed;
      hide AllOk;
      hide Executed;
      hide Made;
      hide PipedCalls;
      hide PipedLost;
      hide RanPhases;
      hide CompleteOutput;
      UndisturbedCall(calls);
      UndisturbedCall(calls + 1);
      p := Phases([], false, [], [], []);
      var piped;
      piped, r, created := OpenPipes(configured);
      lost := created;
      NothingReturned(r);
      ghost var pipes, done := if configured then Executed(fails, old(calls), [OpenPipe, OpenPipe]) else [], [];
      ghost var h1 := history;
      MadeNothing(h1);
      if piped {
        r, lost, p := RunPiped(spawn);
        done := PipedCalls(spawn, old(calls) + 2, p);
      }
      MadeFromNothing(h1, pipes);
      MadeThen([], h1, history, pipes, done);
      MadeFromNothing(history, pipes + done);
    }

    lemma NothingReturned(r: Result)
      requires r.Raised?
      ensures CompleteOutput(r)
    {
    }
  }
}
