/**
 Exclusive publication of an artifact pair: any number of publishers share one
 directory, take a lock file, stage two private inodes, hard-link them into
 place, and clean up by inode identity.  Each publisher moves one system call at
 a time, every call may fail, and inode numbers are reused as soon as nothing
 names or holds them open.
 */
module PairPublication {
  import opened Options

  type Name = string
  type Ino = nat
  type Pid = nat
  type Bytes = seq<nat>

  const LOCK_NAME: Name := ".asvs-fetch.lock"

  /** One call of the publisher; the temporary names come from a random token. */
  datatype Request = Request(targets: (Name, Name), temporaries: (Name, Name), bodies: (Bytes, Bytes)) {
    function Target(k: nat): Name { if k == 0 then targets.0 else targets.1 }
    function Temporary(k: nat): Name { if k == 0 then temporaries.0 else temporaries.1 }
    function Body(k: nat): Bytes { if k == 0 then bodies.0 else bodies.1 }

    predicate Acceptable() {
      targets.0 != targets.1 && {targets.0, targets.1} !! {"", ".", ".."}
    }
  }

  datatype Pc =
    | Start
    | SyncLock
    | OpenTemporary(k: nat)
    | WriteTemporary(k: nat, written: nat)
    | SyncTemporary(k: nat)
    | CheckTemporary(k: nat)
    | LinkTarget(k: nat)
    | SyncLinks
    | StatTemporary(k: nat)
    | UnlinkTemporary(k: nat)
    | StatLock
    | UnlinkLock
    | SyncUnlock
    | Undo(next: nat, matched: bool)
    | SyncUndo
    | Close(ok: bool)
    | CloseRaised(ok: bool)
    | Done(ok: bool)

  /** The cleanup of descriptors has begun. */
  predicate Closing(pc: Pc) {
    pc.Close? || pc.CloseRaised? || pc.Done?
  }

  /** The call is over: it returned or raised after a whole publication (`ok`), or after a whole rollback. */
  predicate Settled(pc: Pc, ok: bool) {
    pc == Done(ok) || pc == CloseRaised(ok)
  }

  /** A directory entry a publisher created: the name and the inode it recorded. */
  datatype Artifact = Artifact(name: Name, ino: Ino)

  /**
   The variables of one publisher.  `held` and `leaked` are history: the entries it
   created and has not removed, and the names whose rollback call failed.
   */
  datatype Publisher = Publisher(
    pc: Pc,
    lock: Option<Ino>,
    staged: seq<Artifact>,
    published: seq<Artifact>,
    descriptors: set<Ino>,
    held: map<Name, Ino>,
    leaked: set<Name>)

  /** `creator` is None for a file that was there before any publisher ran. */
  datatype Inode = Inode(creator: Option<Pid>, data: Bytes)

  datatype State = State(dir: map<Name, Ino>, inodes: map<Ino, Inode>, publishers: map<Pid, Publisher>)

  /** What one system call did to the shared directory. */
  datatype Effect =
    | Nothing
    | Create(name: Name, ino: Ino)
    | Write(ino: Ino, chunk: Bytes)
    | Link(name: Name, ino: Ino)
    | Unlink(name: Name)

  /** What the environment decides at a step: a failure, or the inode and byte count it supplies. */
  datatype Choice = Fail | Go(ino: Ino, count: nat)

  datatype Move = Move(pid: Pid, choice: Choice)

  // ---------------------------------------------------------------- the steps

  predicate Free(s: State, i: Ino) {
    && (forall n | n in s.dir :: s.dir[n] != i)
    && (forall p | p in s.publishers :: i !in s.publishers[p].descriptors)
  }

  function LinkCount(dir: map<Name, Ino>, i: Ino): nat {
    |set n | n in dir && dir[n] == i|
  }

  /** The unlink calls of a rollback, in order: targets, temporaries, lock. */
  function UndoOf(published: seq<Artifact>, staged: seq<Artifact>, lock: Option<Ino>): seq<Artifact> {
    published + staged + (if lock.Some? then [Artifact(LOCK_NAME, lock.value)] else [])
  }

  function UndoList(l: Publisher): seq<Artifact> {
    UndoOf(l.published, l.staged, l.lock)
  }

  function Abort(l: Publisher): Publisher {
    l.(pc := Undo(0, false))
  }

  /** `open` with O_CREAT and O_EXCL, then `fstat` on the new descriptor. */
  predicate CanCreate(s: State, name: Name, c: Choice) {
    c.Go? && name !in s.dir && Free(s, c.ino)
  }

  function Created(l: Publisher, name: Name, i: Ino, pc: Pc): Publisher {
    l.(pc := pc, descriptors := l.descriptors + {i}, held := l.held[name := i])
  }

  /** The checked removal raises on a missing or foreign entry. */
  predicate Matches(s: State, name: Name, i: Ino) {
    name in s.dir && s.dir[name] == i
  }

  function Removed(l: Publisher, name: Name, pc: Pc): Publisher {
    l.(pc := pc, held := l.held - {name})
  }

  /** Taking the lock. */
  function LockStep(r: Request, s: State, l: Publisher, c: Choice): (Effect, Publisher) {
    if l.pc.SyncLock? then (Nothing, if c.Fail? then Abort(l) else l.(pc := OpenTemporary(0)))
    else if !r.Acceptable() then (Nothing, l.(pc := Done(false)))
    else if !CanCreate(s, LOCK_NAME, c) then (Nothing, Abort(l))
    else (Create(LOCK_NAME, c.ino), Created(l, LOCK_NAME, c.ino, SyncLock).(lock := Some(c.ino)))
  }

  function OpenStep(r: Request, s: State, l: Publisher, c: Choice, k: nat): (Effect, Publisher) {
    var name := r.Temporary(k);
    if !CanCreate(s, name, c) then (Nothing, Abort(l))
    else (Create(name, c.ino),
          Created(l, name, c.ino, WriteTemporary(k, 0)).(staged := l.staged + [Artifact(name, c.ino)]))
  }

  /** Writing (possibly short), syncing and re-validating one staged inode. */
  function FillStep(r: Request, s: State, l: Publisher, c: Choice, k: nat): (Effect, Publisher) {
    if |l.staged| <= k || l.staged[k].ino !in s.inodes then (Nothing, Abort(l))
    else
      var i, body := l.staged[k].ino, r.Body(k);
      match l.pc
      case WriteTemporary(_, written) =>
        if |body| <= written then (Nothing, l.(pc := SyncTemporary(k)))
        else if c.Fail? || c.count == 0 || |body| < written + c.count then (Nothing, Abort(l))
        else (Write(i, body[written..written + c.count]), l.(pc := WriteTemporary(k, written + c.count)))
      case SyncTemporary(_) =>
        (Nothing, if c.Fail? then Abort(l) else l.(pc := CheckTemporary(k)))
      case _ =>
        if LinkCount(s.dir, i) != 1 || |s.inodes[i].data| != |body| then (Nothing, Abort(l))
        else (Nothing, l.(pc := if k == 0 then OpenTemporary(1) else LinkTarget(0)))
  }

  function LinkStep(r: Request, s: State, l: Publisher, c: Choice, k: nat): (Effect, Publisher) {
    var source, target := r.Temporary(k), r.Target(k);
    if c.Fail? || source !in s.dir || target in s.dir || |l.staged| <= k then (Nothing, Abort(l))
    else
      var i := l.staged[k].ino;
      (Link(target, s.dir[source]),
       l.(pc := if k == 0 then LinkTarget(1) else SyncLinks,
          published := l.published + [Artifact(target, i)],
          held := l.held[target := i]))
  }

  /** The checked removal of an entry: `stat` and compare, then `unlink` by name. */
  function RemoveStep(s: State, l: Publisher, c: Choice, a: Artifact, checked: bool, next: Pc): (Effect, Publisher) {
    if c.Fail? || (if checked then a.name !in s.dir else !Matches(s, a.name, a.ino)) then (Nothing, Abort(l))
    else if checked then (Unlink(a.name), Removed(l, a.name, next))
    else (Nothing, l.(pc := next))
  }

  /** Rollback swallows every failure and goes on with the next entry. */
  function UndoStep(s: State, l: Publisher, c: Choice, j: nat, matched: bool): (Effect, Publisher) {
    if |UndoList(l)| <= j then (Nothing, l.(pc := SyncUndo))
    else
      var a := UndoList(l)[j];
      if c.Fail? then (Nothing, l.(pc := Undo(j + 1, false), leaked := l.leaked + {a.name}))
      else if !matched then
        (Nothing, l.(pc := if Matches(s, a.name, a.ino) then Undo(j, true) else Undo(j + 1, false)))
      else if a.name !in s.dir then (Nothing, l.(pc := Undo(j + 1, false)))
      else (Unlink(a.name), Removed(l, a.name, Undo(j + 1, false)))
  }

  /** A raising `os.close` ends the call and leaves the remaining descriptors open. */
  function CloseStep(l: Publisher, c: Choice, ok: bool): (Effect, Publisher) {
    if l.descriptors == {} then (Nothing, l.(pc := Done(ok)))
    else if c.Fail? then (Nothing, l.(pc := CloseRaised(ok)))
    else (Nothing, l.(descriptors := l.descriptors - {c.ino}))
  }

  function StagedAt(l: Publisher, k: nat): Artifact {
    if k < |l.staged| then l.staged[k] else Artifact("", 0)
  }

  function LockArtifact(l: Publisher): Artifact {
    Artifact(LOCK_NAME, if l.lock.Some? then l.lock.value else 0)
  }

  function Act(r: Request, s: State, l: Publisher, c: Choice): (Effect, Publisher) {
    match l.pc
    case Start => LockStep(r, s, l, c)
    case SyncLock => LockStep(r, s, l, c)
    case OpenTemporary(k) => OpenStep(r, s, l, c, k)
    case WriteTemporary(k, _) => FillStep(r, s, l, c, k)
    case SyncTemporary(k) => FillStep(r, s, l, c, k)
    case CheckTemporary(k) => FillStep(r, s, l, c, k)
    case LinkTarget(k) => LinkStep(r, s, l, c, k)
    case SyncLinks => (Nothing, if c.Fail? then Abort(l) else l.(pc := StatTemporary(0)))
    case StatTemporary(k) => RemoveStep(s, l, c, StagedAt(l, k), false, UnlinkTemporary(k))
    case UnlinkTemporary(k) =>
      RemoveStep(s, l, c, StagedAt(l, k), true, if k == 0 then StatTemporary(1) else StatLock)
    case StatLock => RemoveStep(s, l, c, LockArtifact(l), false, UnlinkLock)
    case UnlinkLock => RemoveStep(s, l, c, LockArtifact(l), true, SyncUnlock)
    case SyncUnlock => (Nothing, if c.Fail? then Abort(l) else l.(pc := Close(true)))
    case Undo(j, matched) => UndoStep(s, l, c, j, matched)
    case SyncUndo => (Nothing, l.(pc := Close(false)))
    case Close(ok) => CloseStep(l, c, ok)
    case CloseRaised(_) => (Nothing, l)
    case Done(_) => (Nothing, l)
  }

  function Apply(s: State, p: Pid, e: Effect, l: Publisher): State {
    var t := s.(publishers := s.publishers[p := l]);
    match e
    case Nothing => t
    case Create(n, i) => t.(dir := s.dir[n := i], inodes := s.inodes[i := Inode(Some(p), [])])
    case Write(i, chunk) =>
      if i in s.inodes then t.(inodes := s.inodes[i := s.inodes[i].(data := s.inodes[i].data + chunk)]) else t
    case Link(n, i) => t.(dir := s.dir[n := i])
    case Unlink(n) => t.(dir := s.dir - {n})
  }

  function Step(requests: map<Pid, Request>, s: State, m: Move): State
    requires m.pid in requests && m.pid in s.publishers
  {
    var (e, l) := Act(requests[m.pid], s, s.publishers[m.pid], m.choice);
    Apply(s, m.pid, e, l)
  }

  /** Any directory made of earlier files, and publishers that have not started. */
  predicate Init(requests: map<Pid, Request>, s: State) {
    && s.publishers.Keys == requests.Keys
    && (forall p | p in s.publishers :: s.publishers[p] == Publisher(Start, None, [], [], {}, map[], {}))
    && (forall n | n in s.dir :: s.dir[n] in s.inodes && s.inodes[s.dir[n]].creator == None)
  }

  predicate Execution(requests: map<Pid, Request>, run: seq<State>, moves: seq<Move>) {
    && |run| == |moves| + 1
    && Init(requests, run[0])
    && (forall t | 0 <= t < |moves| ::
          && moves[t].pid in requests && moves[t].pid in run[t].publishers
          && run[t + 1] == Step(requests, run[t], moves[t]))
  }

  // ------------------------------------------------- what one publisher knows

  ghost predicate Holds(held: map<Name, Ino>, a: Artifact) {
    a.name in held && held[a.name] == a.ino
  }

  ghost predicate HoldsAll(held: map<Name, Ino>, list: seq<Artifact>) {
    forall j | 0 <= j < |list| :: Holds(held, list[j])
  }

  ghost predicate DistinctNames(list: seq<Artifact>) {
    forall i, j | 0 <= i < j < |list| :: list[i].name != list[j].name
  }

  /** How many temporaries are staged and how many targets linked. */
  ghost predicate Counts(r: Request, staged: seq<Artifact>, published: seq<Artifact>, s: nat, t: nat) {
    && |staged| == s <= 2
    && |published| == t <= s
    && (forall k | 0 <= k < s :: staged[k].name == r.Temporary(k))
    && (forall k | 0 <= k < t :: published[k] == Artifact(r.Target(k), staged[k].ino))
  }

  /** Before any removal: `s` temporaries staged, `t` targets linked, all entries in place. */
  ghost predicate Building(r: Request, l: Publisher, s: nat, t: nat) {
    l.lock.Some? && Counts(r, l.staged, l.published, s, t) && HoldsAll(l.held, UndoList(l))
  }

  /** After `removed` temporaries (and, if `unlocked`, the lock) have been unlinked. */
  ghost predicate Cleaning(r: Request, l: Publisher, removed: nat, unlocked: bool) {
    && l.lock.Some?
    && Counts(r, l.staged, l.published, 2, 2)
    && Holds(l.held, l.published[0]) && Holds(l.held, l.published[1])
    && (if 0 < removed then l.staged[0].name !in l.held else Holds(l.held, l.staged[0]))
    && (if 1 < removed then l.staged[1].name !in l.held else Holds(l.held, l.staged[1]))
    && (if unlocked then LOCK_NAME !in l.held else Holds(l.held, Artifact(LOCK_NAME, l.lock.value)))
  }

  /** The first `done` entries of a rollback are gone, except where a call failed. */
  ghost predicate Undone(undo: seq<Artifact>, held: map<Name, Ino>, leaked: set<Name>, done: nat) {
    && done <= |undo|
    && (forall i | 0 <= i < done :: Holds(held, undo[i]) ==> undo[i].name in leaked)
  }

  ghost predicate AtPoint(r: Request, l: Publisher) {
    match l.pc
    case Start => l.lock.None? && l.staged == [] && l.published == [] && l.held == map[] && l.descriptors == {}
    case SyncLock => Building(r, l, 0, 0)
    case OpenTemporary(k) => k < 2 && Building(r, l, k, 0)
    case WriteTemporary(k, w) => k < 2 && w <= |r.Body(k)| && Building(r, l, k + 1, 0)
    case SyncTemporary(k) => k < 2 && Building(r, l, k + 1, 0)
    case CheckTemporary(k) => k < 2 && Building(r, l, k + 1, 0)
    case LinkTarget(k) => k < 2 && Building(r, l, 2, k)
    case SyncLinks => Building(r, l, 2, 2)
    case StatTemporary(k) => k < 2 && Cleaning(r, l, k, false)
    case UnlinkTemporary(k) => k < 2 && Cleaning(r, l, k, false)
    case StatLock => Cleaning(r, l, 2, false)
    case UnlinkLock => Cleaning(r, l, 2, false)
    case SyncUnlock => Cleaning(r, l, 2, true)
    case Undo(j, matched) =>
      && Undone(UndoList(l), l.held, l.leaked, j)
      && (matched ==> j < |UndoList(l)| && Holds(l.held, UndoList(l)[j]))
    case SyncUndo => l.held.Keys <= l.leaked
    case Close(ok) => if ok then Cleaning(r, l, 2, true) else l.held.Keys <= l.leaked
    case CloseRaised(ok) => if ok then Cleaning(r, l, 2, true) else l.held.Keys <= l.leaked
    case Done(ok) => if ok then Cleaning(r, l, 2, true) else l.held.Keys <= l.leaked
  }

  /** Everything held is on the rollback list, under one name each. */
  ghost predicate Listed(undo: seq<Artifact>, held: map<Name, Ino>) {
    && DistinctNames(undo)
    && (forall n | n in held :: Artifact(n, held[n]) in undo)
  }

  ghost predicate Pinned(undo: seq<Artifact>, descriptors: set<Ino>) {
    forall j | 0 <= j < |undo| :: undo[j].ino in descriptors
  }

  /** The lock and the staged files are different inodes. */
  ghost predicate DistinctInodes(staged: seq<Artifact>, lock: Option<Ino>) {
    && (forall i, j | 0 <= i < j < |staged| :: staged[i].ino != staged[j].ino)
    && (lock.Some? ==> forall i | 0 <= i < |staged| :: staged[i].ino != lock.value)
  }

  /** The descriptors pin every listed inode until closing begins. */
  ghost predicate Recorded(l: Publisher) {
    && Listed(UndoList(l), l.held)
    && DistinctInodes(l.staged, l.lock)
    && (!Closing(l.pc) ==> Pinned(UndoList(l), l.descriptors))
    && (l.pc.Done? ==> l.descriptors == {})
  }

  ghost predicate Local(r: Request, l: Publisher) {
    Recorded(l) && AtPoint(r, l)
  }

  ghost predicate Forward(l: Publisher) {
    match l.pc
    case Undo(_, _) => false
    case SyncUndo => false
    case Close(ok) => ok
    case CloseRaised(ok) => ok
    case Done(ok) => ok
    case _ => true
  }

  ghost function Written(r: Request, l: Publisher, k: nat): Bytes {
    if l.pc.WriteTemporary? && l.pc.k == k && l.pc.written <= |r.Body(k)|
    then r.Body(k)[..l.pc.written] else r.Body(k)
  }

  /** While a publication has not failed its staged inodes carry its own bytes. */
  ghost predicate Contents(r: Request, l: Publisher, inodes: map<Ino, Inode>) {
    Forward(l) ==>
      forall k | 0 <= k < |l.staged| ::
        l.staged[k].ino in inodes && inodes[l.staged[k].ino].data == Written(r, l, k)
  }

  // ------------------------------------------------------ the shared invariant

  ghost predicate Owned(s: State, p: Pid, i: Ino) {
    i in s.inodes && s.inodes[i].creator == Some(p)
  }

  ghost predicate Pins(s: State, p: Pid) requires p in s.publishers {
    forall i | i in s.publishers[p].descriptors :: Owned(s, p, i)
  }

  ghost predicate Binds(s: State, p: Pid) requires p in s.publishers {
    var held := s.publishers[p].held;
    forall n | n in held :: n in s.dir && s.dir[n] == held[n] && Owned(s, p, held[n])
  }

  ghost predicate Claimed(s: State, n: Name) requires n in s.dir {
    && s.dir[n] in s.inodes
    && var creator := s.inodes[s.dir[n]].creator;
       creator.Some? ==> creator.value in s.publishers && n in s.publishers[creator.value].held
  }

  /** The entries whose inode `p` created are exactly the entries `p` holds. */
  ghost predicate Partitioned(s: State) {
    && (forall p | p in s.publishers :: Pins(s, p))
    && (forall p | p in s.publishers :: Binds(s, p))
    && (forall n | n in s.dir :: Claimed(s, n))
  }

  ghost predicate Consistent(r: Request, l: Publisher, inodes: map<Ino, Inode>) {
    Local(r, l) && Contents(r, l, inodes)
  }

  ghost predicate Invariant(requests: map<Pid, Request>, s: State) {
    && s.publishers.Keys == requests.Keys
    && Partitioned(s)
    && (forall p | p in requests :: Consistent(requests[p], s.publishers[p], s.inodes))
  }

  /** The guarantee every step gives: it only adds free names and free inodes, and only removes what it holds. */
  ghost predicate Legal(s: State, l: Publisher, e: Effect, l': Publisher) {
    match e
    case Nothing => l'.held == l.held && l'.descriptors <= l.descriptors
    case Create(n, i) =>
      n !in s.dir && Free(s, i) && l'.held == l.held[n := i] && l'.descriptors == l.descriptors + {i}
    case Write(i, _) => i in l.descriptors && l'.held == l.held && l'.descriptors == l.descriptors
    case Link(n, i) =>
      n !in s.dir && i in l.descriptors && l'.held == l.held[n := i] && l'.descriptors == l.descriptors
    case Unlink(n) => n in l.held && l'.held == l.held - {n} && l'.descriptors == l.descriptors
  }

  lemma LegalKeepsPins(s: State, p: Pid, e: Effect, l': Publisher, q: Pid)
    requires Partitioned(s) && p in s.publishers && Legal(s, s.publishers[p], e, l') && q in s.publishers
    ensures Pins(Apply(s, p, e, l'), q)
  {
    assert Pins(s, q) && Pins(s, p) && Binds(s, p);
  }

  lemma LegalKeepsBinds(s: State, p: Pid, e: Effect, l': Publisher, q: Pid)
    requires Partitioned(s) && p in s.publishers && Legal(s, s.publishers[p], e, l') && q in s.publishers
    ensures Binds(Apply(s, p, e, l'), q)
  {
    assert Pins(s, p) && Binds(s, q) && Binds(s, p);
    var t, held := Apply(s, p, e, l'), Apply(s, p, e, l').publishers[q].held;
    forall n | n in held ensures n in t.dir && t.dir[n] == held[n] && Owned(t, q, held[n]) { }
  }

  lemma LegalKeepsClaims(s: State, p: Pid, e: Effect, l': Publisher, n: Name)
    requires Partitioned(s) && p in s.publishers && Legal(s, s.publishers[p], e, l')
    requires n in Apply(s, p, e, l').dir
    ensures Claimed(Apply(s, p, e, l'), n)
  {
    assert Pins(s, p) && Binds(s, p);
    if n in s.dir { assert Claimed(s, n); }
  }

  lemma LegalKeepsPartition(s: State, p: Pid, e: Effect, l': Publisher)
    requires Partitioned(s) && p in s.publishers && Legal(s, s.publishers[p], e, l')
    ensures Partitioned(Apply(s, p, e, l'))
  {
    var t := Apply(s, p, e, l');
    forall q | q in t.publishers ensures Pins(t, q) && Binds(t, q) {
      LegalKeepsPins(s, p, e, l', q);
      LegalKeepsBinds(s, p, e, l', q);
    }
    forall n | n in t.dir ensures Claimed(t, n) {
      LegalKeepsClaims(s, p, e, l', n);
    }
  }

  lemma AppendKeepsDistinct(before: seq<Artifact>, a: Artifact, after: seq<Artifact>)
    requires DistinctNames(before + after)
    requires forall j | 0 <= j < |before + after| :: (before + after)[j].name != a.name
    ensures DistinctNames(before + [a] + after)
  {
    var was, now := before + after, before + [a] + after;
    forall i, j | 0 <= i < j < |now| ensures now[i].name != now[j].name {
      var b := |before|;
      if i == b { assert now[j] == was[j - 1]; }
      else if j == b { assert now[i] == was[i]; }
      else {
        assert now[i] == was[if i < b then i else i - 1];
        assert now[j] == was[if j < b then j else j - 1];
      }
    }
  }

  lemma UndoParts(published: seq<Artifact>, staged: seq<Artifact>, lock: Ino)
    ensures UndoOf(published, staged, Some(lock)) == published + (staged + [Artifact(LOCK_NAME, lock)])
  {
  }

  /** A fresh entry joins the rollback list and what was held stays held. */
  lemma RecordEntry(undo: seq<Artifact>, held: map<Name, Ino>, descriptors: set<Ino>,
                    before: seq<Artifact>, a: Artifact, after: seq<Artifact>)
    requires undo == before + after && Listed(undo, held) && HoldsAll(held, undo) && Pinned(undo, descriptors)
    requires a.name !in held
    ensures var undo', held' := before + [a] + after, held[a.name := a.ino];
            Listed(undo', held') && HoldsAll(held', undo') && Pinned(undo', descriptors + {a.ino})
  {
    var undo', held', b := before + [a] + after, held[a.name := a.ino], |before|;
    forall j | 0 <= j < |undo| ensures undo[j].name != a.name { assert Holds(held, undo[j]); }
    AppendKeepsDistinct(before, a, after);
    forall j | 0 <= j < |undo'| ensures Holds(held', undo'[j]) && undo'[j].ino in descriptors + {a.ino} {
      if j < b { assert undo'[j] == undo[j]; } else if j > b { assert undo'[j] == undo[j - 1]; }
    }
    forall n | n in held' ensures Artifact(n, held'[n]) in undo' {
      if n == a.name { assert undo'[b] == a; }
      else {
        var j :| 0 <= j < |undo| && undo[j] == Artifact(n, held[n]);
        assert undo'[if j < b then j else j + 1] == undo[j];
      }
    }
  }

  // --------------------------------------- what each step does for its publisher

  ghost predicate Backed(s: State, l: Publisher) {
    forall n | n in l.held :: n in s.dir && s.dir[n] == l.held[n]
  }

  /** No one else can have bound a name to an inode this publisher keeps open. */
  ghost predicate Exclusive(s: State, l: Publisher) {
    forall n | n in s.dir && s.dir[n] in l.descriptors :: n in l.held
  }

  ghost predicate Sound(r: Request, s: State, l: Publisher, step: (Effect, Publisher)) {
    Legal(s, l, step.0, step.1) && Local(r, step.1)
  }

  lemma AbortIsSound(r: Request, s: State, l: Publisher)
    requires Recorded(l) && !Closing(l.pc)
    ensures Sound(r, s, l, (Nothing, Abort(l)))
  {
  }

  lemma LockIsSound(r: Request, s: State, l: Publisher, c: Choice)
    requires Local(r, l) && (l.pc.Start? || l.pc.SyncLock?)
    ensures Sound(r, s, l, LockStep(r, s, l, c))
  {
    var l' := LockStep(r, s, l, c).1;
    if l'.pc.Undo? {
      AbortIsSound(r, s, l);
    } else if l'.pc.SyncLock? {
      RecordEntry([], l.held, l.descriptors, [], LockArtifact(l'), []);
      assert UndoList(l') == [] + [LockArtifact(l')] + [];
    }
  }

  lemma FreshInodeIsDistinct(s: State, l: Publisher, a: Artifact)
    requires Backed(s, l) && HoldsAll(l.held, UndoList(l)) && Free(s, a.ino) && DistinctInodes(l.staged, l.lock)
    ensures DistinctInodes(l.staged + [a], l.lock)
  {
    if l.lock.Some? {
      assert UndoList(l)[|l.published| + |l.staged|] == LockArtifact(l);
      assert Holds(l.held, LockArtifact(l));
    }
    forall j | 0 <= j < |l.staged| ensures l.staged[j].ino != a.ino {
      assert UndoList(l)[|l.published| + j] == l.staged[j];
      assert Holds(l.held, l.staged[j]);
    }
  }

  /** The points between taking the lock and the first removal. */
  predicate Growing(pc: Pc) {
    match pc
    case SyncLock => true
    case OpenTemporary(k) => k < 2
    case WriteTemporary(k, _) => k < 2
    case SyncTemporary(k) => k < 2
    case CheckTemporary(k) => k < 2
    case LinkTarget(k) => k < 2
    case SyncLinks => true
    case _ => false
  }

  function StagedBy(pc: Pc): nat {
    match pc
    case OpenTemporary(k) => k
    case WriteTemporary(k, _) => k + 1
    case SyncTemporary(k) => k + 1
    case CheckTemporary(k) => k + 1
    case LinkTarget(_) => 2
    case SyncLinks => 2
    case _ => 0
  }

  function LinkedBy(pc: Pc): nat {
    match pc
    case LinkTarget(k) => k
    case SyncLinks => 2
    case _ => 0
  }

  lemma GrowingPoint(r: Request, l: Publisher)
    ensures AtPoint(r, l) && (l.pc.OpenTemporary? || l.pc.LinkTarget?) ==> Growing(l.pc)
    ensures AtPoint(r, l) && (l.pc.WriteTemporary? || l.pc.SyncTemporary? || l.pc.CheckTemporary?) ==> Growing(l.pc)
    ensures Growing(l.pc) ==> (AtPoint(r, l) <==>
                                 && Building(r, l, StagedBy(l.pc), LinkedBy(l.pc))
                                 && (l.pc.WriteTemporary? ==> l.pc.written <= |r.Body(l.pc.k)|))
  {
    hide Building;
  }

  lemma OpenIsSound(r: Request, s: State, l: Publisher, c: Choice)
    requires Local(r, l) && Backed(s, l) && l.pc.OpenTemporary?
    ensures Sound(r, s, l, OpenStep(r, s, l, c, l.pc.k))
  {
    if CanCreate(s, r.Temporary(l.pc.k), c) {
      OpenedIsLocal(r, s, l, c, l.pc.k);
      hide Local;
    } else {
      AbortIsSound(r, s, l);
    }
  }

  /** A new temporary joins the rollback list before the lock. */
  lemma OpenedEntries(l: Publisher, a: Artifact)
    requires l.lock.Some? && l.published == [] && a.name !in l.held
    requires Listed(UndoList(l), l.held) && HoldsAll(l.held, UndoList(l)) && Pinned(UndoList(l), l.descriptors)
    ensures var undo, held := UndoOf([], l.staged + [a], l.lock), l.held[a.name := a.ino];
            Listed(undo, held) && HoldsAll(held, undo) && Pinned(undo, l.descriptors + {a.ino})
  {
    hide Listed;
    hide HoldsAll;
    hide Pinned;
    var lock := [LockArtifact(l)];
    assert UndoList(l) == l.staged + lock && UndoOf([], l.staged + [a], l.lock) == l.staged + [a] + lock;
    RecordEntry(UndoList(l), l.held, l.descriptors, l.staged, a, lock);
  }

  lemma OpenedIsLocal(r: Request, s: State, l: Publisher, c: Choice, k: nat)
    requires Local(r, l) && Backed(s, l) && l.pc == OpenTemporary(k) && CanCreate(s, r.Temporary(k), c)
    ensures Local(r, OpenStep(r, s, l, c, k).1)
  {
    hide AtPoint;
    hide Listed;
    hide HoldsAll;
    hide Pinned;
    hide DistinctInodes;
    hide UndoOf;
    var a, l' := Artifact(r.Temporary(k), c.ino), OpenStep(r, s, l, c, k).1;
    GrowingPoint(r, l);
    assert a.name !in l.held;
    assert l.published == [] && Counts(r, l.staged, l.published, k, 0);
    hide Counts;
    FreshInodeIsDistinct(s, l, a);
    hide Free;
    hide Backed;
    OpenedEntries(l, a);
    OpenedCounts(r, l, a, k);
    GrowingPoint(r, l');
  }

  lemma OpenedCounts(r: Request, l: Publisher, a: Artifact, k: nat)
    requires k < 2 && Counts(r, l.staged, l.published, k, 0) && a.name == r.Temporary(k)
    ensures Counts(r, l.staged + [a], l.published, k + 1, 0)
  {
  }

  lemma FillIsSound(r: Request, s: State, l: Publisher, c: Choice)
    requires Local(r, l) && (l.pc.WriteTemporary? || l.pc.SyncTemporary? || l.pc.CheckTemporary?)
    ensures Sound(r, s, l, FillStep(r, s, l, c, l.pc.k))
  {
    hide LinkCount;
    hide Listed;
    hide HoldsAll;
    var k := l.pc.k;
    assert UndoList(l)[k] == l.staged[k];
    var l' := FillStep(r, s, l, c, k).1;
    if l'.pc.Undo? { AbortIsSound(r, s, l); }
  }

  /** The temporary about to be linked is held and kept open. */
  lemma LinkSource(r: Request, l: Publisher, k: nat)
    requires Local(r, l) && l.pc == LinkTarget(k)
    ensures k < 2 == |l.staged| && |l.published| == k && l.staged[k].name == r.Temporary(k)
    ensures Holds(l.held, l.staged[k]) && l.staged[k].ino in l.descriptors
  {
    hide AtPoint;
    hide Listed;
    hide DistinctInodes;
    GrowingPoint(r, l);
    assert UndoList(l)[k + k] == l.staged[k];
  }

  lemma LinkIsSound(r: Request, s: State, l: Publisher, c: Choice)
    requires Local(r, l) && Backed(s, l) && l.pc.LinkTarget?
    ensures Sound(r, s, l, LinkStep(r, s, l, c, l.pc.k))
  {
    hide AtPoint;
    var k := l.pc.k;
    assert k < |l.staged| && |l.published| == k && l.staged[k].name == r.Temporary(k)
           && Holds(l.held, l.staged[k]) && l.staged[k].ino in l.descriptors by { LinkSource(r, l, k); }
    hide Recorded;
    hide UndoOf;
    if c.Fail? || r.Temporary(k) !in s.dir || r.Target(k) in s.dir {
      AbortIsSound(r, s, l);
    } else {
      LinkedIsLocal(r, s, l, c, k);
      hide Local;
    }
  }

  /** A new target joins the rollback list before the temporaries; its inode is already pinned. */
  lemma LinkedEntries(l: Publisher, a: Artifact, k: nat)
    requires l.lock.Some? && |l.published| == k < |l.staged| && a.name !in l.held && a.ino == l.staged[k].ino
    requires Listed(UndoList(l), l.held) && HoldsAll(l.held, UndoList(l)) && Pinned(UndoList(l), l.descriptors)
    ensures var undo, held := UndoOf(l.published + [a], l.staged, l.lock), l.held[a.name := a.ino];
            Listed(undo, held) && HoldsAll(held, undo) && Pinned(undo, l.descriptors)
  {
    hide Listed;
    hide HoldsAll;
    var rest := l.staged + [LockArtifact(l)];
    UndoParts(l.published, l.staged, l.lock.value);
    UndoParts(l.published + [a], l.staged, l.lock.value);
    hide UndoOf;
    assert UndoList(l)[k + k] == l.staged[k];
    assert l.descriptors + {a.ino} == l.descriptors;
    hide Pinned;
    RecordEntry(UndoList(l), l.held, l.descriptors, l.published, a, rest);
  }

  lemma LinkedIsLocal(r: Request, s: State, l: Publisher, c: Choice, k: nat)
    requires Local(r, l) && Backed(s, l) && l.pc == LinkTarget(k)
    requires c.Go? && r.Temporary(k) in s.dir && r.Target(k) !in s.dir
    ensures Local(r, LinkStep(r, s, l, c, k).1)
  {
    hide AtPoint;
    hide Listed;
    hide HoldsAll;
    hide Pinned;
    hide DistinctInodes;
    hide UndoOf;
    GrowingPoint(r, l);
    assert k < |l.staged| == 2 && |l.published| == k && Counts(r, l.staged, l.published, 2, k);
    hide Counts;
    var a, l' := Artifact(r.Target(k), l.staged[k].ino), LinkStep(r, s, l, c, k).1;
    assert a.name !in l.held;
    hide Backed;
    LinkedEntries(l, a, k);
    LinkedCounts(r, l, a, k);
    GrowingPoint(r, l');
  }

  lemma LinkedCounts(r: Request, l: Publisher, a: Artifact, k: nat)
    requires k < 2 && Counts(r, l.staged, l.published, 2, k) && a == Artifact(r.Target(k), l.staged[k].ino)
    ensures Counts(r, l.staged, l.published + [a], 2, k + 1)
  {
  }

  /** The five entries of a linked pair have five different names. */
  lemma PairNames(r: Request, l: Publisher)
    requires l.lock.Some? && Counts(r, l.staged, l.published, 2, 2) && DistinctNames(UndoList(l))
    ensures var p0, p1, s0, s1 := l.published[0].name, l.published[1].name, l.staged[0].name, l.staged[1].name;
            && p0 != p1 && p0 != s0 && p0 != s1 && p1 != s0 && p1 != s1 && s0 != s1
            && LOCK_NAME !in {p0, p1, s0, s1}
  {
    var u := UndoList(l);
    assert u[0] == l.published[0] && u[1] == l.published[1];
    assert u[2] == l.staged[0] && u[3] == l.staged[1] && u[4] == LockArtifact(l);
  }

  lemma SyncLinksIsSound(r: Request, s: State, l: Publisher)
    requires Local(r, l) && l.pc.SyncLinks?
    ensures Sound(r, s, l, (Nothing, l.(pc := StatTemporary(0))))
  {
    var u := UndoList(l);
    assert u[0] == l.published[0] && u[1] == l.published[1];
    assert u[2] == l.staged[0] && u[3] == l.staged[1] && u[4] == LockArtifact(l);
    assert Holds(l.held, u[0]) && Holds(l.held, u[1]) && Holds(l.held, u[2]) && Holds(l.held, u[3])
           && Holds(l.held, u[4]);
  }

  lemma RemoveIsSound(r: Request, s: State, l: Publisher, c: Choice, a: Artifact, checked: bool, next: Pc)
    requires Recorded(l) && !Closing(l.pc) && !Closing(next) && !next.Undo?
    requires Holds(l.held, a)
    requires AtPoint(r, if checked then Removed(l, a.name, next) else l.(pc := next))
    ensures Sound(r, s, l, RemoveStep(s, l, c, a, checked, next))
  {
    var l' := RemoveStep(s, l, c, a, checked, next).1;
    if l'.pc.Undo? { AbortIsSound(r, s, l); }
  }

  /** Unlinking one temporary, or the lock, leaves the other entries of the pair as they were. */
  lemma CleaningAdvances(r: Request, l: Publisher, removed: nat, pc: Pc)
    requires removed <= 2 && Cleaning(r, l, removed, false) && DistinctNames(UndoList(l))
    ensures removed < 2 ==> Cleaning(r, Removed(l, l.staged[removed].name, pc), removed + 1, false)
    ensures removed == 2 ==> Cleaning(r, Removed(l, LOCK_NAME, pc), 2, true)
  {
    PairNames(r, l);
  }

  /** How many temporaries are gone at a point of the cleaning, before the lock is unlinked. */
  function Gone(pc: Pc): nat {
    match pc
    case StatTemporary(k) => k
    case UnlinkTemporary(k) => k
    case _ => 2
  }

  predicate Removing(pc: Pc) {
    ((pc.StatTemporary? || pc.UnlinkTemporary?) && pc.k < 2) || pc.StatLock? || pc.UnlinkLock?
  }

  lemma RemovingPoint(r: Request, l: Publisher)
    ensures Removing(l.pc) ==> (AtPoint(r, l) <==> Cleaning(r, l, Gone(l.pc), false)) && Gone(l.pc) <= 2
    ensures l.pc.SyncUnlock? ==> (AtPoint(r, l) <==> Cleaning(r, l, 2, true))
    ensures AtPoint(r, l) && (l.pc.StatTemporary? || l.pc.UnlinkTemporary?) ==> l.pc.k < 2
  {
    hide Cleaning;
  }

  /** The temporary or lock that is next to go is still held. */
  lemma CleaningPoint(r: Request, l: Publisher, removed: nat, pc: Pc)
    requires removed <= 2 && Cleaning(r, l, removed, false)
    ensures removed < 2 ==>
              |l.staged| == 2 && StagedAt(l, removed) == l.staged[removed] && Holds(l.held, l.staged[removed])
    ensures removed == 2 ==> Holds(l.held, LockArtifact(l))
    ensures Cleaning(r, l.(pc := pc), removed, false)
  {
  }

  lemma RecordedNames(l: Publisher)
    requires Recorded(l)
    ensures DistinctNames(UndoList(l))
  {
  }

  lemma RemoveTemporaryIsSound(r: Request, s: State, l: Publisher, c: Choice, k: nat)
    requires Recorded(l) && AtPoint(r, l) && (l.pc == StatTemporary(k) || l.pc == UnlinkTemporary(k))
    ensures Sound(r, s, l, Act(r, s, l, c))
  {
    hide AtPoint;
    hide Sound;
    hide Recorded;
    hide Cleaning;
    hide UndoOf;
    hide RemoveStep;
    hide Holds;
    hide DistinctNames;
    RemovingPoint(r, l);
    RecordedNames(l);
    var next := if l.pc.StatTemporary? then UnlinkTemporary(k) else if k == 0 then StatTemporary(1) else StatLock;
    CleaningPoint(r, l, k, next);
    if l.pc.StatTemporary? {
      RemovingPoint(r, l.(pc := next));
      RemoveIsSound(r, s, l, c, StagedAt(l, k), false, next);
    } else {
      CleaningAdvances(r, l, k, next);
      RemovingPoint(r, Removed(l, l.staged[k].name, next));
      RemoveIsSound(r, s, l, c, StagedAt(l, k), true, next);
    }
  }

  lemma RemoveLockIsSound(r: Request, s: State, l: Publisher, c: Choice)
    requires Recorded(l) && AtPoint(r, l) && (l.pc.StatLock? || l.pc.UnlinkLock?)
    ensures Sound(r, s, l, Act(r, s, l, c))
  {
    hide AtPoint;
    hide Sound;
    hide Recorded;
    hide Cleaning;
    hide UndoOf;
    hide RemoveStep;
    hide Holds;
    hide DistinctNames;
    RemovingPoint(r, l);
    RecordedNames(l);
    CleaningPoint(r, l, 2, UnlinkLock);
    if l.pc.StatLock? {
      RemovingPoint(r, l.(pc := UnlinkLock));
      RemoveIsSound(r, s, l, c, LockArtifact(l), false, UnlinkLock);
    } else {
      CleaningAdvances(r, l, 2, SyncUnlock);
      RemovingPoint(r, Removed(l, LOCK_NAME, SyncUnlock));
      RemoveIsSound(r, s, l, c, LockArtifact(l), true, SyncUnlock);
    }
  }

  /** A rollback call on entry `j` either removes it, finds it gone, or leaks it. */
  lemma UndoAdvances(undo: seq<Artifact>, held: map<Name, Ino>, leaked: set<Name>, j: nat)
    requires Undone(undo, held, leaked, j) && j < |undo|
    ensures Undone(undo, held, leaked + {undo[j].name}, j + 1)
    ensures !Holds(held, undo[j]) ==> Undone(undo, held, leaked, j + 1)
    ensures Undone(undo, held - {undo[j].name}, leaked, j + 1)
  {
  }

  lemma UndoEntryIsSound(r: Request, s: State, l: Publisher, c: Choice, j: nat, matched: bool)
    requires Recorded(l) && Backed(s, l) && Exclusive(s, l) && l.pc == Undo(j, matched) && j < |UndoList(l)|
    requires Undone(UndoList(l), l.held, l.leaked, j) && (matched ==> Holds(l.held, UndoList(l)[j]))
    ensures Sound(r, s, l, UndoStep(s, l, c, j, matched))
  {
    var u := UndoList(l);
    UndoAdvances(u, l.held, l.leaked, j);
    assert u[j].ino in l.descriptors;
    if !matched && Matches(s, u[j].name, u[j].ino) { assert Holds(l.held, u[j]); }
  }

  lemma UndoIsSound(r: Request, s: State, l: Publisher, c: Choice)
    requires Local(r, l) && Backed(s, l) && Exclusive(s, l) && l.pc.Undo?
    ensures Sound(r, s, l, UndoStep(s, l, c, l.pc.next, l.pc.matched))
  {
    var j, u := l.pc.next, UndoList(l);
    if j < |u| {
      UndoEntryIsSound(r, s, l, c, j, l.pc.matched);
    } else {
      forall n | n in l.held ensures n in l.leaked {
        var i :| 0 <= i < |u| && u[i] == Artifact(n, l.held[n]);
        assert Holds(l.held, u[i]);
      }
    }
  }

  lemma FinishIsSound(r: Request, s: State, l: Publisher, c: Choice)
    requires Local(r, l) && (l.pc.SyncUnlock? || l.pc.SyncUndo? || Closing(l.pc))
    ensures Sound(r, s, l, Act(r, s, l, c))
  {
    hide Cleaning;
    hide Listed;
    hide DistinctInodes;
    hide UndoOf;
    if l.pc.SyncUnlock? { AbortIsSound(r, s, l); SyncUnlockIsSound(r, s, l); }
    else if l.pc.Close? { CloseIsSound(r, s, l, c); }
  }

  lemma SyncUnlockIsSound(r: Request, s: State, l: Publisher)
    requires Local(r, l) && l.pc.SyncUnlock?
    ensures Sound(r, s, l, (Nothing, l.(pc := Close(true))))
  {
    hide Listed;
    hide DistinctInodes;
    hide UndoOf;
    hide Counts;
    hide Pinned;
  }

  lemma CloseIsSound(r: Request, s: State, l: Publisher, c: Choice)
    requires Local(r, l) && l.pc.Close?
    ensures Sound(r, s, l, CloseStep(l, c, l.pc.ok))
  {
    hide Listed;
    hide Counts;
    hide DistinctInodes;
    hide UndoOf;
  }

  lemma StagingIsSound(r: Request, s: State, l: Publisher, c: Choice)
    requires Local(r, l) && Backed(s, l)
    requires l.pc.Start? || l.pc.SyncLock? || l.pc.OpenTemporary? || l.pc.WriteTemporary? || l.pc.SyncTemporary?
             || l.pc.CheckTemporary?
    ensures Sound(r, s, l, Act(r, s, l, c))
  {
    if l.pc.Start? || l.pc.SyncLock? { LockIsSound(r, s, l, c); }
    else if l.pc.OpenTemporary? { OpenIsSound(r, s, l, c); }
    else { FillIsSound(r, s, l, c); }
  }

  lemma ActIsSound(r: Request, s: State, l: Publisher, c: Choice)
    requires Local(r, l) && Backed(s, l) && Exclusive(s, l)
    ensures Sound(r, s, l, Act(r, s, l, c))
  {
    hide Sound;
    hide Recorded;
    if l.pc.LinkTarget? { LinkIsSound(r, s, l, c); }
    else if l.pc.SyncLinks? { SyncLinksIsSound(r, s, l); AbortIsSound(r, s, l); }
    else if l.pc.StatTemporary? || l.pc.UnlinkTemporary? { RemoveTemporaryIsSound(r, s, l, c, l.pc.k); }
    else if l.pc.StatLock? || l.pc.UnlinkLock? { RemoveLockIsSound(r, s, l, c); }
    else if l.pc.Undo? { UndoIsSound(r, s, l, c); }
    else if l.pc.SyncUnlock? || l.pc.SyncUndo? || Closing(l.pc) { FinishIsSound(r, s, l, c); }
    else { StagingIsSound(r, s, l, c); }
  }

  // ------------------------------------------------------------ staged contents

  lemma ClosingPoint(r: Request, l: Publisher)
    requires AtPoint(r, l) && Closing(l.pc) && Forward(l)
    ensures Cleaning(r, l, 2, true)
  {
    hide Cleaning;
  }

  /** While a publication has not failed, its staged inodes are its own and cannot be recycled. */
  lemma ForwardKeepsInodes(r: Request, s: State, p: Pid, k: nat)
    requires Partitioned(s) && p in s.publishers && Local(r, s.publishers[p])
    requires Forward(s.publishers[p]) && k < |s.publishers[p].staged|
    ensures var i := s.publishers[p].staged[k].ino; Owned(s, p, i) && !Free(s, i)
  {
    var l := s.publishers[p];
    assert Pins(s, p) && Binds(s, p);
    hide Partitioned;
    if Closing(l.pc) {
      assert Cleaning(r, l, 2, true) by { ClosingPoint(r, l); }
      hide Local;
      assert Holds(l.held, l.published[k]);
    } else {
      hide AtPoint;
      assert UndoList(l)[|l.published| + k] == l.staged[k];
    }
  }

  lemma OthersKeepContents(r: Request, s: State, p: Pid, e: Effect, l': Publisher, q: Pid)
    requires Partitioned(s) && p in s.publishers && q in s.publishers && q != p
    requires Legal(s, s.publishers[p], e, l')
    requires Local(r, s.publishers[q]) && Contents(r, s.publishers[q], s.inodes)
    ensures Contents(r, s.publishers[q], Apply(s, p, e, l').inodes)
  {
    var l := s.publishers[q];
    assert Pins(s, p);
    if Forward(l) {
      forall k | 0 <= k < |l.staged| ensures Owned(s, q, l.staged[k].ino) && !Free(s, l.staged[k].ino) {
        ForwardKeepsInodes(r, s, q, k);
      }
    }
  }

  lemma OpenKeepsContents(r: Request, s: State, p: Pid, c: Choice)
    requires Partitioned(s) && p in s.publishers
    requires var l := s.publishers[p]; Local(r, l) && Contents(r, l, s.inodes) && l.pc.OpenTemporary?
    ensures var (e, l') := OpenStep(r, s, s.publishers[p], c, s.publishers[p].pc.k);
            Contents(r, l', Apply(s, p, e, l').inodes)
  {
    var l := s.publishers[p];
    forall k | 0 <= k < |l.staged| ensures !Free(s, l.staged[k].ino) { ForwardKeepsInodes(r, s, p, k); }
  }

  lemma DistinctFrom(l: Publisher, k: nat)
    requires Recorded(l) && k < |l.staged|
    ensures forall j | 0 <= j < |l.staged| && j != k :: l.staged[j].ino != l.staged[k].ino
  {
    hide Listed;
    hide Pinned;
    forall j | 0 <= j < |l.staged| && j != k ensures l.staged[j].ino != l.staged[k].ino {
      if j < k { assert l.staged[j].ino != l.staged[k].ino; }
    }
  }

  lemma WriteKeepsContents(r: Request, s: State, p: Pid, k: nat, w: nat, n: nat)
    requires p in s.publishers && Contents(r, s.publishers[p], s.inodes) && w + n <= |r.Body(k)|
    requires var l := s.publishers[p];
             && l.pc == WriteTemporary(k, w) && k < |l.staged| && l.staged[k].ino in s.inodes
             && (forall j | 0 <= j < |l.staged| && j != k :: l.staged[j].ino != l.staged[k].ino)
    ensures var l := s.publishers[p];
            var l' := l.(pc := WriteTemporary(k, w + n));
            Contents(r, l', Apply(s, p, Write(l.staged[k].ino, r.Body(k)[w..w + n]), l').inodes)
  {
    var l, body := s.publishers[p], r.Body(k);
    assert body[..w] + body[w..w + n] == body[..w + n];
    var inodes := s.inodes[l.staged[k].ino := s.inodes[l.staged[k].ino].(data := body[..w + n])];
    forall j | 0 <= j < |l.staged|
      ensures inodes[l.staged[j].ino].data == Written(r, l.(pc := WriteTemporary(k, w + n)), j) { }
  }

  lemma FillKeepsContents(r: Request, s: State, p: Pid, c: Choice)
    requires p in s.publishers
    requires var l := s.publishers[p];
             && Local(r, l) && Contents(r, l, s.inodes)
             && (l.pc.WriteTemporary? || l.pc.SyncTemporary? || l.pc.CheckTemporary?)
    ensures var (e, l') := FillStep(r, s, s.publishers[p], c, s.publishers[p].pc.k);
            Contents(r, l', Apply(s, p, e, l').inodes)
  {
    hide LinkCount;
    var l := s.publishers[p];
    var (e, l') := FillStep(r, s, l, c, l.pc.k);
    assert l.pc.WriteTemporary? ==> l.pc.written <= |r.Body(l.pc.k)|;
    if l.pc.k < |l.staged| { DistinctFrom(l, l.pc.k); }
    hide Local;
    if e.Write? {
      WriteKeepsContents(r, s, p, l.pc.k, l.pc.written, c.count);
      hide Contents;
    } else {
      assert l.pc.WriteTemporary? ==> r.Body(l.pc.k)[..|r.Body(l.pc.k)|] == r.Body(l.pc.k);
    }
  }

  /** No other step writes or replaces a staged inode, and none resumes a failed publication. */
  lemma OtherStepsAreQuiet(r: Request, s: State, l: Publisher, c: Choice)
    requires AtPoint(r, l)
    requires !l.pc.OpenTemporary? && !l.pc.WriteTemporary? && !l.pc.SyncTemporary? && !l.pc.CheckTemporary?
    ensures var (e, l') := Act(r, s, l, c);
            && l'.staged == l.staged && !l'.pc.WriteTemporary? && (Forward(l') ==> Forward(l))
            && (e.Create? || e.Write? ==> l.staged == [])
  {
  }

  lemma QuietStepKeepsContents(r: Request, s: State, p: Pid, e: Effect, l': Publisher)
    requires p in s.publishers && Contents(r, s.publishers[p], s.inodes)
    requires var l := s.publishers[p];
             && l'.staged == l.staged && !l.pc.WriteTemporary? && !l'.pc.WriteTemporary?
             && (Forward(l') ==> Forward(l)) && (e.Create? || e.Write? ==> l.staged == [])
    ensures Contents(r, l', Apply(s, p, e, l').inodes)
  {
  }

  lemma StepKeepsContents(r: Request, s: State, p: Pid, c: Choice)
    requires Partitioned(s) && p in s.publishers
    requires Local(r, s.publishers[p]) && Contents(r, s.publishers[p], s.inodes)
    ensures var (e, l') := Act(r, s, s.publishers[p], c); Contents(r, l', Apply(s, p, e, l').inodes)
  {
    var l := s.publishers[p];
    if l.pc.OpenTemporary? {
      OpenKeepsContents(r, s, p, c);
    } else if l.pc.WriteTemporary? || l.pc.SyncTemporary? || l.pc.CheckTemporary? {
      FillKeepsContents(r, s, p, c);
    } else {
      var (e, l') := Act(r, s, l, c);
      OtherStepsAreQuiet(r, s, l, c);
      QuietStepKeepsContents(r, s, p, e, l');
    }
  }

  // --------------------------------------------------------- over whole executions

  lemma StepIsLegal(requests: map<Pid, Request>, s: State, m: Move)
    requires Invariant(requests, s) && m.pid in requests
    ensures Sound(requests[m.pid], s, s.publishers[m.pid], Act(requests[m.pid], s, s.publishers[m.pid], m.choice))
  {
    var p, l := m.pid, s.publishers[m.pid];
    assert Binds(s, p) && Pins(s, p);
    forall n | n in s.dir && s.dir[n] in l.descriptors ensures n in l.held { assert Claimed(s, n); }
    ActIsSound(requests[p], s, l, m.choice);
  }

  lemma OthersStayConsistent(r: Request, s: State, p: Pid, e: Effect, l': Publisher, q: Pid)
    requires Partitioned(s) && p in s.publishers && q in s.publishers && q != p
    requires Legal(s, s.publishers[p], e, l') && Consistent(r, s.publishers[q], s.inodes)
    ensures var t := Apply(s, p, e, l'); t.publishers[q] == s.publishers[q] && Consistent(r, t.publishers[q], t.inodes)
  {
    OthersKeepContents(r, s, p, e, l', q);
  }

  lemma SoundKeepsInvariant(requests: map<Pid, Request>, s: State, p: Pid, e: Effect, l': Publisher)
    requires Invariant(requests, s) && p in requests && Sound(requests[p], s, s.publishers[p], (e, l'))
    requires Contents(requests[p], l', Apply(s, p, e, l').inodes)
    ensures Invariant(requests, Apply(s, p, e, l'))
  {
    hide Partitioned;
    hide Legal;
    hide Local;
    hide Contents;
    var t := Apply(s, p, e, l');
    LegalKeepsPartition(s, p, e, l');
    forall q | q in requests ensures Consistent(requests[q], t.publishers[q], t.inodes) {
      if q != p { OthersStayConsistent(requests[q], s, p, e, l', q); }
    }
  }

  lemma StepKeepsInvariant(requests: map<Pid, Request>, s: State, m: Move)
    requires Invariant(requests, s) && m.pid in requests
    ensures Invariant(requests, Step(requests, s, m))
  {
    var (e, l') := Act(requests[m.pid], s, s.publishers[m.pid], m.choice);
    StepIsLegal(requests, s, m);
    StepKeepsContents(requests[m.pid], s, m.pid, m.choice);
    SoundKeepsInvariant(requests, s, m.pid, e, l');
  }

  lemma {:induction false} ExecutionKeepsInvariant(requests: map<Pid, Request>, run: seq<State>, moves: seq<Move>,
                                                   t: nat)
    requires Execution(requests, run, moves) && t < |run|
    ensures Invariant(requests, run[t])
  {
    if t == 0 {
      var s := run[0];
      assert forall p | p in s.publishers :: UndoList(s.publishers[p]) == [];
    } else {
      ExecutionKeepsInvariant(requests, run, moves, t - 1);
      StepKeepsInvariant(requests, run[t - 1], moves[t - 1]);
    }
  }

  lemma LegalRespectsOthers(s: State, p: Pid, e: Effect, l': Publisher, n: Name)
    requires Partitioned(s) && p in s.publishers && Legal(s, s.publishers[p], e, l')
    requires n in s.dir && !Owned(s, p, s.dir[n])
    ensures var t := Apply(s, p, e, l');
            && n in t.dir && t.dir[n] == s.dir[n]
            && s.dir[n] in s.inodes && s.dir[n] in t.inodes && t.inodes[s.dir[n]] == s.inodes[s.dir[n]]
  {
    assert Pins(s, p) && Binds(s, p) && Claimed(s, n);
  }

  /**
   In every interleaving, with a failure at any call, a step never removes or rebinds a
   name bound to an inode the moving publisher did not create, and never writes to one.
   */
  lemma ForeignEntriesAreUntouched(requests: map<Pid, Request>, run: seq<State>, moves: seq<Move>, t: nat, n: Name)
    requires Execution(requests, run, moves) && t < |moves|
    requires n in run[t].dir && !Owned(run[t], moves[t].pid, run[t].dir[n])
    ensures n in run[t + 1].dir && run[t + 1].dir[n] == run[t].dir[n]
    ensures var i := run[t].dir[n];
            i in run[t].inodes && i in run[t + 1].inodes && run[t + 1].inodes[i] == run[t].inodes[i]
  {
    var s, m := run[t], moves[t];
    ExecutionKeepsInvariant(requests, run, moves, t);
    StepIsLegal(requests, s, m);
    var (e, l') := Act(requests[m.pid], s, s.publishers[m.pid], m.choice);
    LegalRespectsOthers(s, m.pid, e, l', n);
  }

  /** Files that were there before the publishers survive every execution, name and bytes. */
  lemma {:induction false} EarlierFilesSurvive(requests: map<Pid, Request>, run: seq<State>, moves: seq<Move>, t: nat,
                                               n: Name)
    requires Execution(requests, run, moves) && t < |run| && n in run[0].dir
    ensures n in run[t].dir && run[t].dir[n] == run[0].dir[n]
    ensures var i := run[0].dir[n];
            i in run[0].inodes && i in run[t].inodes && run[t].inodes[i] == run[0].inodes[i]
  {
    if t > 0 {
      EarlierFilesSurvive(requests, run, moves, t - 1, n);
      ForeignEntriesAreUntouched(requests, run, moves, t - 1, n);
    }
  }

  ghost function NamesOf(s: State, p: Pid): set<Name> {
    set n | n in s.dir && Owned(s, p, s.dir[n])
  }

  lemma SettledFacts(r: Request, l: Publisher)
    requires Local(r, l)
    ensures Settled(l.pc, true) ==>
              Cleaning(r, l, 2, true) && Listed(UndoList(l), l.held) && DistinctInodes(l.staged, l.lock)
    ensures Settled(l.pc, false) ==> l.held.Keys <= l.leaked
  {
    hide Cleaning;
    hide Listed;
    hide DistinctInodes;
    hide Pinned;
  }

  lemma LockLast(l: Publisher, a: Artifact)
    requires l.lock.Some? && a in UndoList(l)
    ensures a in l.published || a in l.staged || a == LockArtifact(l)
  {
  }

  lemma FinishedPairNames(r: Request, s: State, p: Pid)
    requires Partitioned(s) && p in s.publishers && Local(r, s.publishers[p]) && Settled(s.publishers[p].pc, true)
    ensures NamesOf(s, p) == {r.targets.0, r.targets.1}
  {
    var l := s.publishers[p];
    assert Binds(s, p);
    SettledFacts(r, l);
    hide Local;
    assert l.published[0].name == r.targets.0 && l.published[1].name == r.targets.1;
    assert l.held.Keys == {r.targets.0, r.targets.1} by { FinishedHolds(r, l); }
    forall n | n in s.dir && Owned(s, p, s.dir[n]) ensures n in {r.targets.0, r.targets.1} { assert Claimed(s, n); }
  }

  lemma FinishedHolds(r: Request, l: Publisher)
    requires Cleaning(r, l, 2, true) && Listed(UndoList(l), l.held)
    ensures l.held.Keys == {r.targets.0, r.targets.1}
  {
    forall n | n in l.held ensures n in {r.targets.0, r.targets.1} {
      LockLast(l, Artifact(n, l.held[n]));
    }
    hide Listed;
    assert Holds(l.held, l.published[0]) && Holds(l.held, l.published[1]);
  }

  lemma FinishedTarget(r: Request, s: State, p: Pid, k: nat)
    requires Partitioned(s) && p in s.publishers && Local(r, s.publishers[p]) && Settled(s.publishers[p].pc, true)
    requires Contents(r, s.publishers[p], s.inodes) && k < 2
    ensures r.Target(k) in s.dir && Owned(s, p, s.dir[r.Target(k)])
    ensures s.dir[r.Target(k)] == s.publishers[p].staged[k].ino
    ensures s.inodes[s.dir[r.Target(k)]].data == r.Body(k)
  {
    var l := s.publishers[p];
    assert Binds(s, p);
    SettledFacts(r, l);
    hide Local;
    hide Partitioned;
    assert Holds(l.held, l.published[0]) && Holds(l.held, l.published[1]);
  }

  lemma OnlyName(dir: map<Name, Ino>, name: Name)
    requires name in dir && forall n | n in dir && dir[n] == dir[name] :: n == name
    ensures LinkCount(dir, dir[name]) == 1
  {
    assert (set n | n in dir && dir[n] == dir[name]) == {name};
  }

  lemma FinishedTargetIsSingleLink(r: Request, s: State, p: Pid, k: nat)
    requires Partitioned(s) && p in s.publishers && Consistent(r, s.publishers[p], s.inodes)
    requires Settled(s.publishers[p].pc, true) && k < 2
    ensures r.Target(k) in s.dir && LinkCount(s.dir, s.dir[r.Target(k)]) == 1
  {
    hide Partitioned;
    hide Local;
    hide Contents;
    hide LinkCount;
    hide UndoOf;
    hide Listed;
    var l := s.publishers[p];
    SettledFacts(r, l);
    assert |l.staged| == 2 && l.staged[0].ino != l.staged[1].ino;
    hide Cleaning;
    hide DistinctInodes;
    FinishedPairNames(r, s, p);
    FinishedTarget(r, s, p, 0);
    FinishedTarget(r, s, p, 1);
    var i := s.dir[r.Target(k)];
    forall n | n in s.dir && s.dir[n] == i ensures n == r.Target(k) { assert n in NamesOf(s, p); }
    OnlyName(s.dir, r.Target(k));
  }

  /**
   A publisher that returned, or whose only failure was a descriptor's close, has both targets in
   place, each the only name of an inode that carries exactly the requested bytes, and no other
   entry: no temporary and no lock.
   */
  lemma SuccessIsComplete(requests: map<Pid, Request>, run: seq<State>, moves: seq<Move>, t: nat, p: Pid)
    requires Execution(requests, run, moves) && t < |run| && p in requests
    requires p in run[t].publishers && Settled(run[t].publishers[p].pc, true)
    ensures var s, r := run[t], requests[p];
            && NamesOf(s, p) == {r.targets.0, r.targets.1}
            && (forall k | 0 <= k < 2 ::
                  && r.Target(k) in s.dir && s.dir[r.Target(k)] in s.inodes
                  && s.inodes[s.dir[r.Target(k)]].data == r.Body(k)
                  && LinkCount(s.dir, s.dir[r.Target(k)]) == 1)
  {
    ExecutionKeepsInvariant(requests, run, moves, t);
    FinishedPairNames(requests[p], run[t], p);
    forall k | 0 <= k < 2
      ensures var s, r := run[t], requests[p];
              && r.Target(k) in s.dir && s.dir[r.Target(k)] in s.inodes
              && s.inodes[s.dir[r.Target(k)]].data == r.Body(k)
              && LinkCount(s.dir, s.dir[r.Target(k)]) == 1
    {
      FinishedTarget(requests[p], run[t], p, k);
      FinishedTargetIsSingleLink(requests[p], run[t], p, k);
    }
  }

  /** A publisher that failed leaves nothing behind but names whose rollback call itself failed. */
  lemma FailureLeavesNothing(requests: map<Pid, Request>, run: seq<State>, moves: seq<Move>, t: nat, p: Pid)
    requires Execution(requests, run, moves) && t < |run| && p in requests
    requires p in run[t].publishers && Settled(run[t].publishers[p].pc, false)
    ensures NamesOf(run[t], p) <= run[t].publishers[p].leaked
  {
    var s := run[t];
    ExecutionKeepsInvariant(requests, run, moves, t);
    hide Execution;
    hide Local;
    hide Contents;
    assert Consistent(requests[p], s.publishers[p], s.inodes);
    SettledFacts(requests[p], s.publishers[p]);
    forall n | n in NamesOf(s, p) ensures n in s.publishers[p].leaked { assert Claimed(s, n); }
  }

  /** The entry whose rollback call is next. */
  ghost predicate UndoingNow(l: Publisher, n: Name) {
    l.pc.Undo? && l.pc.next < |UndoList(l)| && UndoList(l)[l.pc.next].name == n
  }

  /** A name joins `leaked` exactly when a rollback call on it fails, and stays there. */
  lemma OnlyFailuresLeak(r: Request, s: State, l: Publisher, c: Choice, n: Name)
    ensures n in Act(r, s, l, c).1.leaked <==> n in l.leaked || (c.Fail? && UndoingNow(l, n))
  {
    hide UndoOf;
    hide LinkCount;
    hide Free;
  }

  ghost predicate FailedUndo(run: seq<State>, moves: seq<Move>, u: nat, p: Pid, n: Name)
    requires u < |run| && u < |moves|
  {
    moves[u] == Move(p, Fail) && p in run[u].publishers && UndoingNow(run[u].publishers[p], n)
  }

  lemma StepSetsMover(requests: map<Pid, Request>, s: State, m: Move, p: Pid)
    requires m.pid in requests && m.pid in s.publishers && p in s.publishers
    ensures p in Step(requests, s, m).publishers
    ensures Step(requests, s, m).publishers[p]
            == if p == m.pid then Act(requests[p], s, s.publishers[p], m.choice).1 else s.publishers[p]
  {
    hide Act;
  }

  /** In every execution a name is leaked only by an earlier rollback call on it that failed. */
  lemma {:induction false} LeakedMeansFailed(requests: map<Pid, Request>, run: seq<State>, moves: seq<Move>, t: nat,
                                             p: Pid, n: Name)
    requires Execution(requests, run, moves) && t < |run| && p in requests
    ensures p in run[t].publishers
    ensures n in run[t].publishers[p].leaked <==> exists u :: 0 <= u < t && FailedUndo(run, moves, u, p, n)
  {
    if t > 0 {
      LeakedMeansFailed(requests, run, moves, t - 1, p, n);
      var s, m := run[t - 1], moves[t - 1];
      StepSetsMover(requests, s, m, p);
      if p == m.pid { OnlyFailuresLeak(requests[p], s, s.publishers[p], m.choice, n); }
      hide Act;
      hide Apply;
      hide UndoingNow;
      assert FailedUndo(run, moves, t - 1, p, n) <==>
             p == m.pid && m.choice.Fail? && UndoingNow(s.publishers[p], n);
    }
  }

  /** A rollback none of whose own calls failed removes every entry its publisher made. */
  lemma CleanRollbackLeavesNothing(requests: map<Pid, Request>, run: seq<State>, moves: seq<Move>, t: nat, p: Pid)
    requires Execution(requests, run, moves) && t < |run| && p in requests
    requires p in run[t].publishers && Settled(run[t].publishers[p].pc, false)
    requires forall u, n | 0 <= u < t :: !FailedUndo(run, moves, u, p, n)
    ensures NamesOf(run[t], p) == {}
  {
    FailureLeavesNothing(requests, run, moves, t, p);
    forall n ensures n !in run[t].publishers[p].leaked { LeakedMeansFailed(requests, run, moves, t, p, n); }
  }

  ghost predicate InCriticalSection(l: Publisher) {
    match l.pc
    case Start => false
    case SyncUnlock => false
    case Undo(_, _) => false
    case SyncUndo => false
    case Close(_) => false
    case CloseRaised(_) => false
    case Done(_) => false
    case _ => true
  }

  /** The lock file admits one publisher at a time to staging, linking and cleaning. */
  lemma LockIsExclusive(requests: map<Pid, Request>, run: seq<State>, moves: seq<Move>, t: nat, p: Pid, q: Pid)
    requires Execution(requests, run, moves) && t < |run| && p in run[t].publishers && q in run[t].publishers
    requires InCriticalSection(run[t].publishers[p]) && InCriticalSection(run[t].publishers[q])
    ensures p == q
  {
    var s := run[t];
    ExecutionKeepsInvariant(requests, run, moves, t);
    assert Binds(s, p) && Binds(s, q);
    HoldsLock(requests[p], s.publishers[p]);
    HoldsLock(requests[q], s.publishers[q]);
  }

  lemma HoldsLock(r: Request, l: Publisher)
    requires Local(r, l) && InCriticalSection(l)
    ensures LOCK_NAME in l.held
  {
    assert UndoList(l)[|UndoList(l)| - 1] == LockArtifact(l);
    if !l.pc.StatTemporary? && !l.pc.UnlinkTemporary? && !l.pc.StatLock? && !l.pc.UnlinkLock? {
      assert Holds(l.held, UndoList(l)[|UndoList(l)| - 1]);
    }
  }
}
