/**
 Progress of the pair publication: from any reachable state in which the lock and its own names are
 free, a publisher that runs alone and meets no failure completes, however short its writes are.
 */
module PairProgress {
  import opened Options
  import opened PairPublication

  /** The five names of a request are different. */
  predicate Apart(r: Request) {
    && r.Acceptable() && r.temporaries.0 != r.temporaries.1
    && {r.temporaries.0, r.temporaries.1} !! {r.targets.0, r.targets.1}
    && LOCK_NAME !in {r.targets.0, r.targets.1, r.temporaries.0, r.temporaries.1}
  }

  /** The names the publisher has yet to create are free. */
  ghost predicate Clear(r: Request, dir: map<Name, Ino>, l: Publisher) {
    && (l.pc.Start? ==> LOCK_NAME !in dir)
    && (forall k | |l.staged| <= k < 2 :: r.Temporary(k) !in dir)
    && (forall k | |l.published| <= k < 2 :: r.Target(k) !in dir)
  }

  /**
   A choice that is no failure: a new inode is free, a write accepts some of the bytes that are left, and
   a close names an open descriptor.
   */
  ghost predicate Cooperative(r: Request, s: State, l: Publisher, c: Choice) {
    && c.Go?
    && (l.pc.Start? || l.pc.OpenTemporary? ==> Free(s, c.ino))
    && (l.pc.WriteTemporary? && l.pc.written < |r.Body(l.pc.k)| ==> 0 < c.count <= |r.Body(l.pc.k)| - l.pc.written)
    && (l.pc.Close? && l.descriptors != {} ==> c.ino in l.descriptors)
  }

  /** The most steps that are left at a point, with one per unwritten byte and one per descriptor to be opened. */
  function Left(r: Request, pc: Pc): nat {
    var first, second := |r.bodies.0|, |r.bodies.1|;
    match pc
    case Start => 24 + first + second
    case SyncLock => 22 + first + second
    case OpenTemporary(k) => if k == 0 then 21 + first + second else 16 + second
    case WriteTemporary(k, w) =>
      (if k == 0 then 19 + second else 14) + if w < |r.Body(k)| then |r.Body(k)| - w else 0
    case SyncTemporary(k) => if k == 0 then 18 + second else 13
    case CheckTemporary(k) => if k == 0 then 17 + second else 12
    case LinkTarget(k) => if k == 0 then 11 else 10
    case SyncLinks => 9
    case StatTemporary(k) => if k == 0 then 8 else 6
    case UnlinkTemporary(k) => if k == 0 then 7 else 5
    case StatLock => 4
    case UnlinkLock => 3
    case SyncUnlock => 2
    case Close(_) => 1
    case _ => 0
  }

  ghost function StepsLeft(r: Request, l: Publisher): nat {
    Left(r, l.pc) + |l.descriptors|
  }

  /** A publisher that has not failed, with a clear way ahead. */
  ghost predicate OnCourse(r: Request, s: State, l: Publisher) {
    Forward(l) && !l.pc.CloseRaised? && Apart(r) && Clear(r, s.dir, l)
  }

  ghost predicate UnderWay(r: Request, s: State, l: Publisher) {
    OnCourse(r, s, l) && !l.pc.Done?
  }

  ghost predicate Advances(r: Request, s: State, l: Publisher, p: Pid, step: (Effect, Publisher)) {
    var (e, l') := step;
    OnCourse(r, Apply(s, p, e, l'), l') && StepsLeft(r, l') < StepsLeft(r, l)
  }

  lemma Opened(descriptors: set<Ino>, i: Ino)
    ensures |descriptors + {i}| <= |descriptors| + 1
  {
    if i in descriptors { assert descriptors + {i} == descriptors; }
  }

  lemma LockAdvances(r: Request, s: State, l: Publisher, p: Pid, c: Choice)
    requires UnderWay(r, s, l) && Local(r, l) && Cooperative(r, s, l, c) && (l.pc.Start? || l.pc.SyncLock?)
    ensures Advances(r, s, l, p, Act(r, s, l, c))
  {
    assert |l.staged| == 0 && |l.published| == 0;
    hide Local;
    hide Free;
    Opened(l.descriptors, c.ino);
  }

  lemma OpenAdvances(r: Request, s: State, l: Publisher, p: Pid, c: Choice)
    requires UnderWay(r, s, l) && Local(r, l) && Cooperative(r, s, l, c) && l.pc.OpenTemporary?
    ensures Advances(r, s, l, p, Act(r, s, l, c))
  {
    GrowingPoint(r, l);
    assert |l.staged| == l.pc.k < 2 && |l.published| == 0;
    hide Local;
    hide Free;
    Opened(l.descriptors, c.ino);
  }

  lemma LinkAdvances(r: Request, s: State, l: Publisher, p: Pid, c: Choice)
    requires UnderWay(r, s, l) && Local(r, l) && Backed(s, l) && Cooperative(r, s, l, c) && l.pc.LinkTarget?
    ensures Advances(r, s, l, p, Act(r, s, l, c))
  {
    hide Local;
    LinkSource(r, l, l.pc.k);
    assert r.Temporary(l.pc.k) in s.dir;
    hide Backed;
  }

  lemma RemoveAdvances(r: Request, s: State, l: Publisher, p: Pid, c: Choice)
    requires UnderWay(r, s, l) && Local(r, l) && Backed(s, l) && Cooperative(r, s, l, c)
    requires l.pc.StatTemporary? || l.pc.UnlinkTemporary? || l.pc.StatLock? || l.pc.UnlinkLock?
    ensures Advances(r, s, l, p, Act(r, s, l, c))
  {
    hide Cleaning;
    hide Apart;
    var a := NextToGo(l);
    RemovingPoint(r, l);
    CleaningPoint(r, l, Gone(l.pc), l.pc);
    CleaningCounts(r, l, Gone(l.pc));
    assert Holds(l.held, a);
    assert Matches(s, a.name, a.ino);
    hide Local;
    hide Backed;
    hide Holds;
    RemovalGoes(r, s, l, c);
    var (e, l') := Act(r, s, l, c);
    hide Act;
    hide Matches;
  }

  /** The entry that the checked removal is at. */
  function NextToGo(l: Publisher): Artifact {
    match l.pc
    case StatTemporary(k) => StagedAt(l, k)
    case UnlinkTemporary(k) => StagedAt(l, k)
    case _ => LockArtifact(l)
  }

  lemma RemovalGoes(r: Request, s: State, l: Publisher, c: Choice)
    requires c.Go? && Removing(l.pc) && Matches(s, NextToGo(l).name, NextToGo(l).ino)
    ensures var (e, l') := Act(r, s, l, c);
            && (Removing(l'.pc) || l'.pc.SyncUnlock?) && Left(r, l'.pc) < Left(r, l.pc)
            && l'.staged == l.staged && l'.published == l.published && l'.descriptors == l.descriptors
  {
  }

  lemma CleaningCounts(r: Request, l: Publisher, removed: nat)
    requires Cleaning(r, l, removed, false)
    ensures |l.staged| == 2 && |l.published| == 2
  {
  }

  lemma QuietAdvances(r: Request, s: State, l: Publisher, p: Pid, c: Choice)
    requires UnderWay(r, s, l) && Cooperative(r, s, l, c) && (l.pc.SyncLinks? || l.pc.SyncUnlock? || l.pc.Close?)
    ensures Advances(r, s, l, p, Act(r, s, l, c))
  {
    hide Free;
  }

  lemma OneEntry(staged: seq<Artifact>, lock: Ino, k: nat, a: Artifact)
    requires DistinctInodes(staged, Some(lock)) && k < |staged| && a.ino == staged[k].ino
    requires a in staged + [Artifact(LOCK_NAME, lock)]
    ensures a == staged[k]
  {
    var j :| 0 <= j < |staged| + 1 && (staged + [Artifact(LOCK_NAME, lock)])[j] == a;
  }

  /** Before any target is linked the rollback list is the staged entries and the lock. */
  lemma OwnEntry(r: Request, l: Publisher, k: nat, n: Name)
    requires Local(r, l) && l.pc.CheckTemporary? && k < |l.staged|
    ensures Holds(l.held, l.staged[k])
    ensures n in l.held && l.held[n] == l.staged[k].ino ==> n == l.staged[k].name
  {
    hide Pinned;
    hide DistinctNames;
    hide DistinctInodes;
    var u := UndoList(l);
    assert l.lock == Some(l.lock.value);
    assert l.published == [] && u == l.staged + [Artifact(LOCK_NAME, l.lock.value)];
    assert u[k] == l.staged[k];
    if n in l.held && l.held[n] == l.staged[k].ino { OneEntry(l.staged, l.lock.value, k, Artifact(n, l.held[n])); }
  }

  /** Before any target is linked, a staged inode has its temporary name only. */
  lemma StagedIsSingleLink(r: Request, s: State, p: Pid, k: nat)
    requires Partitioned(s) && p in s.publishers && Local(r, s.publishers[p])
    requires s.publishers[p].pc.CheckTemporary? && k < |s.publishers[p].staged|
    ensures LinkCount(s.dir, s.publishers[p].staged[k].ino) == 1
  {
    hide Local;
    hide LinkCount;
    var l := s.publishers[p];
    var a := l.staged[k];
    assert Binds(s, p);
    OwnEntry(r, l, k, a.name);
    forall n | n in s.dir && s.dir[n] == a.ino ensures n == a.name {
      assert Claimed(s, n);
      OwnEntry(r, l, k, n);
    }
    OnlyName(s.dir, a.name);
  }

  lemma FillAdvances(r: Request, s: State, p: Pid, c: Choice)
    requires Partitioned(s) && p in s.publishers
    requires var l := s.publishers[p];
             && UnderWay(r, s, l) && Local(r, l) && Contents(r, l, s.inodes) && Cooperative(r, s, l, c)
             && (l.pc.WriteTemporary? || l.pc.SyncTemporary? || l.pc.CheckTemporary?)
    ensures Advances(r, s, s.publishers[p], p, Act(r, s, s.publishers[p], c))
  {
    var l := s.publishers[p];
    var k := l.pc.k;
    GrowingPoint(r, l);
    assert |l.staged| == k + 1 <= 2 && |l.published| == 0;
    assert l.staged[k].ino in s.inodes && s.inodes[l.staged[k].ino].data == Written(r, l, k);
    if l.pc.CheckTemporary? { StagedIsSingleLink(r, s, p, k); }
    hide Partitioned;
    hide Local;
    hide LinkCount;
    hide Free;
  }

  /** Every step that is no failure leaves the publisher on course and nearer its end. */
  lemma StepAdvances(requests: map<Pid, Request>, s: State, p: Pid, c: Choice)
    requires Invariant(requests, s) && p in requests && UnderWay(requests[p], s, s.publishers[p])
    requires Cooperative(requests[p], s, s.publishers[p], c)
    ensures var r, l := requests[p], s.publishers[p]; Advances(r, s, l, p, Act(r, s, l, c))
  {
    var r, l := requests[p], s.publishers[p];
    assert Consistent(r, l, s.inodes) && Binds(s, p);
    assert Backed(s, l);
    hide Partitioned;
    hide Local;
    hide Contents;
    hide Advances;
    hide Backed;
    hide Cooperative;
    hide Clear;
    hide Apart;
    if l.pc.Start? || l.pc.SyncLock? { LockAdvances(r, s, l, p, c); }
    else if l.pc.OpenTemporary? { OpenAdvances(r, s, l, p, c); }
    else if l.pc.LinkTarget? { LinkAdvances(r, s, l, p, c); }
    else if l.pc.WriteTemporary? || l.pc.SyncTemporary? || l.pc.CheckTemporary? { FillAdvances(r, s, p, c); }
    else if l.pc.SyncLinks? || l.pc.SyncUnlock? || l.pc.Close? { QuietAdvances(r, s, l, p, c); }
    else { RemoveAdvances(r, s, l, p, c); }
  }

  lemma GoesOn(requests: map<Pid, Request>, s: State, p: Pid, c: Choice)
    requires Invariant(requests, s) && p in requests && UnderWay(requests[p], s, s.publishers[p])
    requires Cooperative(requests[p], s, s.publishers[p], c)
    ensures p in s.publishers
    ensures var s' := Step(requests, s, Move(p, c));
            && Invariant(requests, s') && p in s'.publishers && OnCourse(requests[p], s', s'.publishers[p])
            && StepsLeft(requests[p], s'.publishers[p]) < StepsLeft(requests[p], s.publishers[p])
  {
    assert p in s.publishers;
    hide Invariant;
    hide Act;
    hide Apply;
    hide Cooperative;
    hide OnCourse;
    hide StepsLeft;
    var r, l := requests[p], s.publishers[p];
    var (e, l') := Act(r, s, l, c);
    StepAdvances(requests, s, p, c);
    StepKeepsInvariant(requests, s, Move(p, c));
    ApplySetsPublisher(s, p, e, l');
  }

  lemma ApplySetsPublisher(s: State, p: Pid, e: Effect, l: Publisher)
    ensures p in Apply(s, p, e, l).publishers && Apply(s, p, e, l).publishers[p] == l
  {
  }

  // ---------------------------------------------------------- a free inode exists

  lemma {:induction false} Above(used: set<Ino>) returns (bound: Ino)
    ensures forall i | i in used :: i < bound
  {
    if used == {} {
      bound := 0;
    } else {
      var i :| i in used;
      bound := Above(used - {i});
      assert forall j | j in used :: j == i || j in used - {i};
      if bound <= i { bound := i + 1; }
    }
  }

  ghost function Used(s: State): set<Ino> {
    (set n | n in s.dir :: s.dir[n]) + (set p, i | p in s.publishers && i in s.publishers[p].descriptors :: i)
  }

  lemma FreeInode(s: State) returns (free: Ino)
    ensures Free(s, free)
  {
    free := Above(Used(s));
    forall n | n in s.dir ensures s.dir[n] != free { assert s.dir[n] in Used(s); }
    forall p, i | p in s.publishers && i in s.publishers[p].descriptors ensures i != free { assert i in Used(s); }
  }

  /** Some choice is always no failure, so a solo run can always go on. */
  lemma CooperationIsPossible(r: Request, s: State, l: Publisher) returns (c: Choice)
    ensures Cooperative(r, s, l, c)
  {
    var free := FreeInode(s);
    if l.pc.Close? && l.descriptors != {} {
      var i :| i in l.descriptors;
      c := Go(i, 0);
    } else if l.pc.WriteTemporary? && l.pc.written < |r.Body(l.pc.k)| {
      c := Go(free, 1);
    } else {
      c := Go(free, 0);
    }
  }

  // ------------------------------------------------------------- whole solo runs

  /** A run in which only `p` moves and no call fails. */
  ghost predicate Solo(requests: map<Pid, Request>, p: Pid, run: seq<State>, moves: seq<Move>) {
    && p in requests && |run| == |moves| + 1
    && (forall t | 0 <= t < |moves| ::
          && moves[t].pid == p && p in run[t].publishers && run[t + 1] == Step(requests, run[t], moves[t])
          && Cooperative(requests[p], run[t], run[t].publishers[p], moves[t].choice))
  }

  lemma DoneStays(requests: map<Pid, Request>, s: State, p: Pid, c: Choice)
    requires p in requests && p in s.publishers && s.publishers[p].pc.Done?
    ensures Step(requests, s, Move(p, c)) == s
  {
    assert s.publishers[p := s.publishers[p]] == s.publishers;
  }

  lemma DoneIsSuccess(r: Request, s: State, l: Publisher)
    requires OnCourse(r, s, l)
    ensures l.pc.Done? ==> l.pc == Done(true)
  {
  }

  lemma SoloStep(requests: map<Pid, Request>, s: State, p: Pid, c: Choice)
    requires Invariant(requests, s) && p in requests && p in s.publishers && OnCourse(requests[p], s, s.publishers[p])
    requires Cooperative(requests[p], s, s.publishers[p], c)
    ensures var s' := Step(requests, s, Move(p, c));
            && Invariant(requests, s') && p in s'.publishers && OnCourse(requests[p], s', s'.publishers[p])
            && if s.publishers[p].pc.Done? then s'.publishers[p].pc == Done(true)
               else StepsLeft(requests[p], s'.publishers[p]) < StepsLeft(requests[p], s.publishers[p])
  {
    hide Invariant;
    hide Step;
    hide Cooperative;
    hide StepsLeft;
    hide Clear;
    hide Apart;
    DoneIsSuccess(requests[p], s, s.publishers[p]);
    if s.publishers[p].pc.Done? { DoneStays(requests, s, p, c); } else { GoesOn(requests, s, p, c); }
  }

  /**
   In every solo run from every state that keeps the invariant, so from every reachable one, a
   publisher that has not failed and whose remaining names are free never fails; after `t` steps it
   has succeeded or come at least `t` steps nearer its end.
   */
  lemma {:induction false} SoloRunStaysOnCourse(requests: map<Pid, Request>, run: seq<State>, moves: seq<Move>, p: Pid,
                                                t: nat)
    requires Solo(requests, p, run, moves) && t < |run|
    requires Invariant(requests, run[0]) && p in run[0].publishers
             && OnCourse(requests[p], run[0], run[0].publishers[p])
    ensures Invariant(requests, run[t]) && p in run[t].publishers && OnCourse(requests[p], run[t], run[t].publishers[p])
    ensures run[t].publishers[p].pc == Done(true)
            || StepsLeft(requests[p], run[t].publishers[p]) + t <= StepsLeft(requests[p], run[0].publishers[p])
  {
    hide Invariant;
    hide OnCourse;
    hide Step;
    hide Cooperative;
    hide StepsLeft;
    if t > 0 {
      SoloRunStaysOnCourse(requests, run, moves, p, t - 1);
      SoloStep(requests, run[t - 1], p, moves[t - 1].choice);
      assert moves[t - 1] == Move(p, moves[t - 1].choice) && run[t] == Step(requests, run[t - 1], moves[t - 1]);
    }
  }

  /** Every solo run that is long enough ends in success; the bound counts the calls and the bytes left. */
  lemma UndisturbedPublisherSucceeds(requests: map<Pid, Request>, run: seq<State>, moves: seq<Move>, p: Pid)
    requires Solo(requests, p, run, moves)
    requires Invariant(requests, run[0]) && p in run[0].publishers
             && OnCourse(requests[p], run[0], run[0].publishers[p])
    requires |moves| >= StepsLeft(requests[p], run[0].publishers[p])
    ensures p in run[|moves|].publishers && run[|moves|].publishers[p].pc == Done(true)
  {
    SoloRunStaysOnCourse(requests, run, moves, p, |moves|);
    hide *;
    NoStepsLeft(requests[p], run[|moves|], run[|moves|].publishers[p]);
  }

  lemma NoStepsLeft(r: Request, s: State, l: Publisher)
    requires OnCourse(r, s, l)
    ensures StepsLeft(r, l) == 0 ==> l.pc == Done(true)
  {
  }

  // -------------------------------------------------------- no step is left out

  /** The steps of a publication, numbered in the order in which they must come. */
  function Stage(pc: Pc): nat {
    match pc
    case Start => 0
    case SyncLock => 1
    case OpenTemporary(k) => if k == 0 then 2 else 6
    case WriteTemporary(k, _) => if k == 0 then 3 else 7
    case SyncTemporary(k) => if k == 0 then 4 else 8
    case CheckTemporary(k) => if k == 0 then 5 else 9
    case LinkTarget(k) => if k == 0 then 10 else 11
    case SyncLinks => 12
    case StatTemporary(k) => if k == 0 then 13 else 15
    case UnlinkTemporary(k) => if k == 0 then 14 else 16
    case StatLock => 17
    case UnlinkLock => 18
    case SyncUnlock => 19
    case Close(_) => 20
    case _ => 21
  }

  /** The step makes a call of the `try` body, which raises when it fails. */
  predicate MakesCall(r: Request, pc: Pc) {
    match pc
    case WriteTemporary(k, written) => written < |r.Body(k)|
    case CheckTemporary(_) => false
    case Undo(_, _) => false
    case SyncUndo => false
    case Close(_) => false
    case CloseRaised(_) => false
    case Done(_) => false
    case _ => true
  }

  /** A step that does not fail made no failing call, and goes one stage on at most. */
  ghost predicate Orderly(r: Request, l: Publisher, c: Choice, l': Publisher) {
    Forward(l') ==>
      && Forward(l) && Stage(l.pc) <= Stage(l'.pc) <= Stage(l.pc) + 1
      && (MakesCall(r, l.pc) ==> c.Go?)
  }

  lemma FillIsOrderly(r: Request, s: State, l: Publisher, c: Choice)
    requires (l.pc.WriteTemporary? || l.pc.SyncTemporary? || l.pc.CheckTemporary?) && l.pc.k < 2
    ensures Orderly(r, l, c, FillStep(r, s, l, c, l.pc.k).1)
  {
    hide LinkCount;
  }

  lemma RemoveIsOrderly(r: Request, s: State, l: Publisher, c: Choice)
    requires Removing(l.pc)
    ensures Orderly(r, l, c, Act(r, s, l, c).1)
  {
  }

  lemma OpenIsOrderly(r: Request, s: State, l: Publisher, c: Choice)
    requires l.pc.Start? || l.pc.SyncLock? || (l.pc.OpenTemporary? && l.pc.k < 2)
    ensures Orderly(r, l, c, Act(r, s, l, c).1)
  {
    hide Free;
  }

  lemma RestIsOrderly(r: Request, s: State, l: Publisher, c: Choice)
    requires (l.pc.LinkTarget? && l.pc.k < 2) || l.pc.SyncLinks? || l.pc.SyncUnlock? || !Forward(l) || Closing(l.pc)
    ensures Orderly(r, l, c, Act(r, s, l, c).1)
  {
    hide UndoOf;
  }

  /** A publication that is still on its way made no failing call, and took one step at most. */
  lemma ForwardStep(r: Request, s: State, l: Publisher, c: Choice)
    requires AtPoint(r, l)
    ensures Orderly(r, l, c, Act(r, s, l, c).1)
  {
    hide AtPoint;
    hide Orderly;
    GrowingPoint(r, l);
    RemovingPoint(r, l);
    hide Building;
    hide Cleaning;
    if l.pc.WriteTemporary? || l.pc.SyncTemporary? || l.pc.CheckTemporary? { FillIsOrderly(r, s, l, c); }
    else if l.pc.Start? || l.pc.SyncLock? || l.pc.OpenTemporary? { OpenIsOrderly(r, s, l, c); }
    else if Removing(l.pc) { RemoveIsOrderly(r, s, l, c); }
    else { RestIsOrderly(r, s, l, c); }
  }

  lemma ForwardBefore(requests: map<Pid, Request>, run: seq<State>, moves: seq<Move>, p: Pid, t: nat)
    requires Execution(requests, run, moves) && 0 < t < |run| && p in requests && p in run[t].publishers
    requires Forward(run[t].publishers[p])
    ensures p in run[t - 1].publishers
    ensures var l, l', m := run[t - 1].publishers[p], run[t].publishers[p], moves[t - 1];
            && Forward(l)
            && (if m.pid == p then
                  Stage(l.pc) <= Stage(l'.pc) <= Stage(l.pc) + 1 && (MakesCall(requests[p], l.pc) ==> m.choice.Go?)
                else l' == l)
  {
    ExecutionKeepsInvariant(requests, run, moves, t - 1);
    var s, m := run[t - 1], moves[t - 1];
    assert Consistent(requests[p], s.publishers[p], s.inodes);
    StepSetsMover(requests, s, m, p);
    if m.pid == p { ForwardStep(requests[p], s, s.publishers[p], m.choice); }
  }

  /** No call of a publication that has not failed has failed. */
  lemma {:induction false} SuccessMeansNoFault(requests: map<Pid, Request>, run: seq<State>, moves: seq<Move>, p: Pid,
                                               t: nat, u: nat)
    requires Execution(requests, run, moves) && u < t < |run| && p in requests && p in run[t].publishers
    requires Forward(run[t].publishers[p]) && moves[u].pid == p
    ensures p in run[u].publishers && (MakesCall(requests[p], run[u].publishers[p].pc) ==> moves[u].choice.Go?)
  {
    ForwardBefore(requests, run, moves, p, t);
    if u < t - 1 { SuccessMeansNoFault(requests, run, moves, p, t - 1, u); }
  }

  /** The moment at which `p` leaves stage `i`. */
  ghost predicate Leaves(run: seq<State>, moves: seq<Move>, p: Pid, u: nat, i: nat)
    requires u < |moves| && |run| == |moves| + 1
  {
    && moves[u].pid == p && p in run[u].publishers && p in run[u + 1].publishers
    && Stage(run[u].publishers[p].pc) == i && Stage(run[u + 1].publishers[p].pc) == i + 1
  }

  /**
   A publication that has got to a stage left every earlier one, by a move of its own: no write,
   no sync, no check, no link and no removal is skipped.
   */
  lemma {:induction false} EveryStageIsLeft(requests: map<Pid, Request>, run: seq<State>, moves: seq<Move>, p: Pid,
                                            t: nat, i: nat)
    returns (u: nat)
    requires Execution(requests, run, moves) && t < |run| && p in requests && p in run[t].publishers
    requires Forward(run[t].publishers[p]) && i < Stage(run[t].publishers[p].pc)
    ensures u < t && Leaves(run, moves, p, u, i)
  {
    if t == 0 {
      assert false;
    } else {
      ForwardBefore(requests, run, moves, p, t);
      if i < Stage(run[t - 1].publishers[p].pc) {
        u := EveryStageIsLeft(requests, run, moves, p, t - 1, i);
      } else {
        u := t - 1;
      }
    }
  }

  // ---------------------------------------------------------------- rollbacks end

  /** Rolling back, or closing the descriptors after it. */
  predicate RollingBack(pc: Pc) {
    pc.Undo? || pc.SyncUndo? || pc == Close(false)
  }

  /** The most steps a rollback has left, whatever fails. */
  ghost function UndoLeft(l: Publisher): nat {
    |l.descriptors| +
    match l.pc
    case Undo(j, matched) =>
      if j < |UndoList(l)| then 2 * (|UndoList(l)| - j) + 3 - (if matched then 1 else 0) else 3
    case SyncUndo => 2
    case Close(_) => 1
    case _ => 0
  }

  /** A close that does not fail names an open descriptor. */
  ghost predicate NamesOpen(l: Publisher, c: Choice) {
    l.pc.Close? && l.descriptors != {} && c.Go? ==> c.ino in l.descriptors
  }

  /** Every call of a rollback, failed or not, brings it nearer its end, and nothing else turns it round. */
  lemma RollbackAdvances(r: Request, s: State, l: Publisher, c: Choice)
    requires RollingBack(l.pc) && NamesOpen(l, c)
    ensures var l' := Act(r, s, l, c).1;
            && (RollingBack(l'.pc) || Settled(l'.pc, false))
            && (RollingBack(l'.pc) ==> UndoLeft(l') < UndoLeft(l))
  {
    hide UndoOf;
  }

  /** How many of the moves are `p`'s. */
  function OwnMoves(moves: seq<Move>, p: Pid): nat {
    if moves == [] then 0 else OwnMoves(moves[..|moves| - 1], p) + if moves[|moves| - 1].pid == p then 1 else 0
  }

  /**
   In every execution, whatever the others do and whatever calls fail, a publisher that is rolling
   back goes on rolling back until its call is over, which is after at most `UndoLeft` moves of its own.
   */
  lemma {:induction false} RollbackEnds(requests: map<Pid, Request>, run: seq<State>, moves: seq<Move>, p: Pid, t0: nat,
                                        t: nat)
    requires Execution(requests, run, moves) && t0 <= t < |run| && p in requests
    requires p in run[t0].publishers && RollingBack(run[t0].publishers[p].pc)
    requires forall u | t0 <= u < t && moves[u].pid == p && p in run[u].publishers ::
               NamesOpen(run[u].publishers[p], moves[u].choice)
    ensures p in run[t].publishers
    ensures var l := run[t].publishers[p];
            || Settled(l.pc, false)
            || (RollingBack(l.pc) && UndoLeft(l) + OwnMoves(moves[t0..t], p) <= UndoLeft(run[t0].publishers[p]))
    decreases t - t0
  {
    if t == t0 {
      assert moves[t0..t] == [];
    } else {
      hide Act;
      hide Apply;
      hide UndoLeft;
      hide UndoOf;
      RollbackEnds(requests, run, moves, p, t0, t - 1);
      var s, m := run[t - 1], moves[t - 1];
      var l := s.publishers[p];
      StepSetsMover(requests, s, m, p);
      assert moves[t0..t] == moves[t0..t - 1] + [m] && moves[t0..t][..t - 1 - t0] == moves[t0..t - 1];
      if m.pid == p && RollingBack(l.pc) { RollbackAdvances(requests[p], s, l, m.choice); }
      if m.pid == p && Settled(l.pc, false) { SettledStays(requests[p], s, l, m.choice); }
    }
  }

  lemma SettledStays(r: Request, s: State, l: Publisher, c: Choice)
    requires l.pc.Done? || l.pc.CloseRaised?
    ensures Act(r, s, l, c).1 == l
  {
  }
}
