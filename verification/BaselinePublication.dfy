/**
 The five-file baseline transaction: four fixtures and then the manifest are renamed
 into the output root, with a directory sync before the manifest, and a caught fault
 rolls the renamed files back in reverse order.  Any system call or injected operation
 may fail; a failed call has no effect.
 */
module BaselinePublication {
  import opened Options

  type Bytes = seq<nat>

  /** The names of the output root; `Other` is any unexpected name. */
  datatype Name = ToolCatalog | Resources | ResultCases | ErrorCases | Manifest | Other(text: string)

  const FIXTURES: seq<Name> := [ToolCatalog, Resources, ResultCases, ErrorCases]
  const OUTPUTS: seq<Name> := FIXTURES + [Manifest]
  const MAX_BYTES := 4 * 1024 * 1024
  const REGULAR_MODE := 0x1A4  // 0o644

  /** A directory entry; `Special` is a link or any other non-regular file. */
  datatype Entry = Regular(ino: nat, bytes: Bytes, mode: nat) | Special(ino: nat)

  /** One directory change since the last sync. */
  datatype Update = Put(name: Name, entry: Entry) | Drop(name: Name)

  /** The directory as processes see it, as the last sync left it, and the changes since. */
  datatype Disk = Disk(seen: map<Name, Entry>, durable: map<Name, Entry>, pending: seq<Update>)

  datatype Outcome = Published | Refused | RolledBack | RollbackFailed

  /** Where a name stands in the publication order; 5 for an unexpected name. */
  function Position(n: Name): nat {
    match n
    case ToolCatalog => 0
    case Resources => 1
    case ResultCases => 2
    case ErrorCases => 3
    case Manifest => 4
    case Other(_) => 5
  }

  predicate Expected(n: Name) { Position(n) < 5 }
  predicate Fixture(n: Name) { Position(n) < 4 }

  /** A prefix of the publication order. */
  predicate InOrder(list: seq<Name>) {
    |list| <= 5 && forall k | 0 <= k < |list| :: Position(list[k]) == k
  }

  function OutputAt(m: nat): (n: Name)
    requires m < 5
    ensures Position(n) == m && Expected(n)
  {
    OUTPUTS[m]
  }

  lemma PrefixIsPosition(i: nat, n: Name)
    requires i <= 5
    ensures n in OUTPUTS[..i] <==> Position(n) < i
    ensures i < 5 ==> Position(OUTPUTS[i]) == i && OUTPUTS[..i] + [OUTPUTS[i]] == OUTPUTS[..i + 1]
    ensures OUTPUTS[..5] == OUTPUTS
  {
    assert Position(n) < i ==> OUTPUTS[..i][Position(n)] == n;
  }

  function Lookup(files: map<Name, Entry>, n: Name): Option<Entry> {
    if n in files then Some(files[n]) else None
  }

  /** Existence, bytes and permission bits, without the inode number. */
  ghost predicate SameFile(a: Option<Entry>, b: Option<Entry>) {
    match (a, b)
    case (None, None) => true
    case (Some(Regular(_, ba, ma)), Some(Regular(_, bb, mb))) => ba == bb && ma == mb
    case _ => a == b
  }

  // --------------------------------------------------------------- crash images

  function Updated(files: map<Name, Entry>, u: Update): map<Name, Entry> {
    match u
    case Put(n, e) => files[n := e]
    case Drop(n) => files - {n}
  }

  /** The directory found after a crash that persisted the pending changes numbered in `keep`. */
  function Persisted(durable: map<Name, Entry>, pending: seq<Update>, keep: set<nat>): map<Name, Entry>
  {
    if pending == [] then durable
    else
      var last := |pending| - 1;
      var files := Persisted(durable, pending[..last], keep);
      if last in keep then Updated(files, pending[last]) else files
  }

  /** The name carries the newly staged file. */
  predicate IsNew(files: map<Name, Entry>, staged: map<Name, Entry>, n: Name) {
    n in files && n in staged && files[n] == staged[n]
  }

  ghost predicate ManifestLast(files: map<Name, Entry>, staged: map<Name, Entry>) {
    IsNew(files, staged, Manifest) ==> forall f | Fixture(f) :: IsNew(files, staged, f)
  }

  ghost predicate CrashSafe(d: Disk, staged: map<Name, Entry>) {
    forall keep :: ManifestLast(Persisted(d.durable, d.pending, keep), staged)
  }

  lemma {:induction false} PersistedOrigin(durable: map<Name, Entry>, pending: seq<Update>, keep: set<nat>, n: Name)
    ensures var now := Lookup(Persisted(durable, pending, keep), n);
            || now == Lookup(durable, n)
            || (exists k :: 0 <= k < |pending| && pending[k].name == n
                            && now == (if pending[k].Put? then Some(pending[k].entry) else None))
  {
    if pending != [] {
      var last := |pending| - 1;
      PersistedOrigin(durable, pending[..last], keep, n);
      assert forall k | 0 <= k < last :: pending[..last][k] == pending[k];
      if last in keep && pending[last].name == n {
        assert Lookup(Persisted(durable, pending, keep), n)
               == (if pending[last].Put? then Some(pending[last].entry) else None);
      }
    }
  }

  /** Nothing that could become durable is the new manifest. */
  ghost predicate ManifestNotYet(d: Disk, staged: map<Name, Entry>) {
    && !IsNew(d.durable, staged, Manifest)
    && (forall k | 0 <= k < |d.pending| ::
          d.pending[k].Put? && d.pending[k].name == Manifest && Manifest in staged
          ==> d.pending[k].entry != staged[Manifest])
  }

  /** Every fixture is durably new and nothing pending touches one. */
  ghost predicate FixturesSettled(d: Disk, staged: map<Name, Entry>) {
    && (forall f | Fixture(f) :: IsNew(d.durable, staged, f))
    && (forall k | 0 <= k < |d.pending| :: d.pending[k].name == Manifest)
  }

  lemma BarrierGivesCrashSafety(d: Disk, staged: map<Name, Entry>)
    requires ManifestNotYet(d, staged) || FixturesSettled(d, staged)
    ensures CrashSafe(d, staged)
  {
    forall keep ensures ManifestLast(Persisted(d.durable, d.pending, keep), staged) {
      PersistedOrigin(d.durable, d.pending, keep, Manifest);
      forall f | Fixture(f) && FixturesSettled(d, staged)
        ensures IsNew(Persisted(d.durable, d.pending, keep), staged, f)
      {
        PersistedOrigin(d.durable, d.pending, keep, f);
      }
    }
  }

  /** With only `k` of the updates to `n` kept, a crash leaves what update `k` wrote. */
  lemma {:induction false} PersistedAt(durable: map<Name, Entry>, pending: seq<Update>, keep: set<nat>, n: Name, k: nat)
    requires k < |pending| && k in keep && pending[k].name == n
    requires forall j | j in keep && j < |pending| && pending[j].name == n :: j == k
    ensures Lookup(Persisted(durable, pending, keep), n)
            == (if pending[k].Put? then Some(pending[k].entry) else None)
  {
    var last := |pending| - 1;
    if k < last { PersistedAt(durable, pending[..last], keep, n, k); }
  }

  lemma {:induction false} PersistedNowhere(durable: map<Name, Entry>, pending: seq<Update>, keep: set<nat>, n: Name)
    requires forall j | j in keep && j < |pending| :: pending[j].name != n
    ensures Lookup(Persisted(durable, pending, keep), n) == Lookup(durable, n)
  {
    if pending != [] { PersistedNowhere(durable, pending[..|pending| - 1], keep, n); }
  }

  /** The update does not write the staged file. */
  predicate Reverting(u: Update, staged: map<Name, Entry>) {
    u.Put? && u.name in staged ==> u.entry != staged[u.name]
  }

  /** A crash can still bring the new manifest: it is durable, or its rename is pending. */
  ghost predicate ManifestReachable(d: Disk, staged: map<Name, Entry>) {
    && Manifest in staged
    && (IsNew(d.durable, staged, Manifest) || Put(Manifest, staged[Manifest]) in d.pending)
  }

  ghost predicate FixtureTouched(pending: seq<Update>) {
    exists k :: 0 <= k < |pending| && Fixture(pending[k].name)
  }

  /** All outputs were renamed, the fixtures durably, and any fixture update since takes a new fixture away. */
  ghost predicate Unwinding(d: Disk, staged: map<Name, Entry>) {
    && ManifestReachable(d, staged)
    && (forall f | Fixture(f) :: IsNew(d.durable, staged, f))
    && (forall k | 0 <= k < |d.pending| && Fixture(d.pending[k].name) :: Reverting(d.pending[k], staged))
  }

  /** A pending fixture update and the new manifest together are an unsafe crash image. */
  lemma UnsafeImage(d: Disk, staged: map<Name, Entry>, k: nat)
    requires Unwinding(d, staged) && k < |d.pending| && Fixture(d.pending[k].name)
    ensures !CrashSafe(d, staged)
  {
    var f := d.pending[k].name;
    ghost var keep: set<nat> := {k};
    if !IsNew(d.durable, staged, Manifest) {
      var j :| 0 <= j < |d.pending| && d.pending[j] == Put(Manifest, staged[Manifest]);
      keep := {j, k};
      PersistedAt(d.durable, d.pending, keep, Manifest, j);
    } else {
      PersistedNowhere(d.durable, d.pending, keep, Manifest);
    }
    PersistedAt(d.durable, d.pending, keep, f, k);
    var image := Persisted(d.durable, d.pending, keep);
    assert IsNew(image, staged, Manifest) && !IsNew(image, staged, f);
    assert !ManifestLast(image, staged);
  }

  /** While the outputs are unwound, a crash is safe exactly as long as no fixture has been touched. */
  lemma UnwindingIsSafeExactly(d: Disk, staged: map<Name, Entry>)
    requires Unwinding(d, staged)
    ensures CrashSafe(d, staged) <==> !FixtureTouched(d.pending)
  {
    if FixtureTouched(d.pending) {
      var k :| 0 <= k < |d.pending| && Fixture(d.pending[k].name);
      UnsafeImage(d, staged, k);
    } else {
      forall keep ensures ManifestLast(Persisted(d.durable, d.pending, keep), staged) {
        forall f | Fixture(f) ensures IsNew(Persisted(d.durable, d.pending, keep), staged, f) {
          PersistedNowhere(d.durable, d.pending, keep, f);
        }
      }
    }
  }

  lemma SettledIsSafeExactly(files: map<Name, Entry>, staged: map<Name, Entry>)
    ensures CrashSafe(Disk(files, files, []), staged) <==> ManifestLast(files, staged)
  {
    assert Persisted(files, [], {}) == files;
  }

  /** No call from `a` up to `b` failed. */
  ghost predicate Smooth(fails: nat -> bool, a: nat, b: nat) {
    forall k | a <= k < b :: !fails(k)
  }

  /** The calls from `a` to `b` stop at the first failure: none fails if `ok`, otherwise the last one alone. */
  ghost predicate Went(fails: nat -> bool, a: nat, b: nat, ok: bool) {
    if ok then a <= b && Smooth(fails, a, b) else a < b && Smooth(fails, a, b - 1) && fails(b - 1)
  }

  lemma OneCall(fails: nat -> bool, a: nat)
    ensures (Smooth(fails, a, a + 1) <==> !fails(a)) && Went(fails, a, a + 1, !fails(a)) && Went(fails, a, a, true)
  {
  }

  lemma WentOn(fails: nat -> bool, a: nat, b: nat, c: nat, ok: bool)
    requires Went(fails, a, b, true) && Went(fails, b, c, ok)
    ensures a <= b <= c && Went(fails, a, c, ok)
  {
  }

  lemma WentExactly(fails: nat -> bool, a: nat, b: nat, ok: bool)
    requires Went(fails, a, b, ok)
    ensures a <= b && (ok <==> Smooth(fails, a, b)) && (!ok ==> a < b && Smooth(fails, a, b - 1) && fails(b - 1))
  {
    assert !ok ==> fails(b - 1);
  }

  lemma SmoothSplits(fails: nat -> bool, a: nat, b: nat, c: nat)
    requires a <= b <= c
    ensures Smooth(fails, a, c) <==> Smooth(fails, a, b) && Smooth(fails, b, c)
  {
  }

  // ------------------------------------------------------------- the output root

  class OutputRoot {
    var files: map<Name, Entry>
    var nextInode: nat
    var calls: nat
    const fails: nat -> bool          // whether the n-th call raises
    ghost var durable: map<Name, Entry>
    ghost var pending: seq<Update>
    ghost var trace: seq<Disk>        // the disk after each successful directory operation

    constructor (files: map<Name, Entry>, nextInode: nat, fails: nat -> bool)
      ensures this.files == files && this.nextInode == nextInode && this.fails == fails
      ensures durable == files && pending == [] && trace == []
    {
      this.files, this.nextInode, this.calls, this.fails := files, nextInode, 0, fails;
      this.durable, this.pending, this.trace := files, [], [];
    }

    ghost function Now(): Disk reads this {
      Disk(files, durable, pending)
    }

    /** Unused inode numbers start at `nextInode`. */
    ghost predicate InodesBelow() reads this {
      && (forall n | n in files :: files[n].ino < nextInode)
      && (forall n | n in durable :: durable[n].ino < nextInode)
      && (forall k | 0 <= k < |pending| :: pending[k].Put? ==> pending[k].entry.ino < nextInode)
    }

    method Call() returns (ok: bool)
      modifies this`calls
      ensures ok == !fails(old(calls)) && calls == old(calls) + 1
    {
      ok := !fails(calls);
      calls := calls + 1;
    }

    method NewFile(bytes: Bytes, mode: nat) returns (e: Entry)
      modifies this`nextInode
      ensures e == Regular(old(nextInode), bytes, mode) && nextInode == old(nextInode) + 1
    {
      e := Regular(nextInode, bytes, mode);
      nextInode := nextInode + 1;
    }

    method Replace(name: Name, e: Entry) returns (ok: bool)
      modifies this`files, this`calls, this`pending, this`trace
      ensures ok ==> files == old(files)[name := e] && pending == old(pending) + [Put(name, e)]
                     && trace == old(trace) + [Now()]
      ensures !ok ==> files == old(files) && pending == old(pending) && trace == old(trace)
      ensures ok == !fails(old(calls)) && calls == old(calls) + 1
    {
      ok := Call();
      if ok {
        files := files[name := e];
        pending := pending + [Put(name, e)];
        trace := trace + [Now()];
      }
    }

    method Unlink(name: Name) returns (ok: bool)
      modifies this`files, this`calls, this`pending, this`trace
      ensures ok ==> files == old(files) - {name} && pending == old(pending) + [Drop(name)]
                     && trace == old(trace) + [Now()]
      ensures !ok ==> files == old(files) && pending == old(pending) && trace == old(trace)
      ensures ok == !fails(old(calls)) && calls == old(calls) + 1
    {
      ok := Call();
      if ok {
        files := files - {name};
        pending := pending + [Drop(name)];
        trace := trace + [Now()];
      }
    }

    method Sync() returns (ok: bool)
      modifies this`calls, this`durable, this`pending, this`trace
      ensures ok ==> durable == files && pending == [] && trace == old(trace) + [Now()]
      ensures !ok ==> durable == old(durable) && pending == old(pending) && trace == old(trace)
      ensures ok == !fails(old(calls)) && calls == old(calls) + 1
    {
      ok := Call();
      if ok {
        durable := files;
        pending := [];
        trace := trace + [Now()];
      }
    }
  }

  // -------------------------------------------------------------- the transaction

  type States = map<Name, Option<Entry>>

  ghost predicate Recorded(states: States, files: map<Name, Entry>) {
    && (forall n :: n in states <==> Expected(n))
    && (forall n | Expected(n) :: states[n] == Lookup(files, n))
    && (forall n | Expected(n) :: states[n].Some? ==> states[n].value.Regular?)
  }

  /** The entry a successful restore leaves at `n`. */
  function Restored(states: States, backups: map<Name, Entry>, n: Name): Option<Entry> {
    if n in states && states[n].Some? then Lookup(backups, n) else None
  }

  /** The output `n` is staged on a new inode, and its backup carries the original bytes and mode. */
  ghost predicate Ready(staged: map<Name, Entry>, backups: map<Name, Entry>, states: States, base: nat, n: Name) {
    && n in states && n in staged && staged[n].Regular? && base <= staged[n].ino
    && SameFile(Restored(states, backups, n), states[n])
    && (states[n].Some? ==> n in backups && backups[n] != staged[n] && states[n].value.ino < base)
  }

  /** The first `m` outputs are ready. */
  ghost predicate Prepared(staged: map<Name, Entry>, backups: map<Name, Entry>, states: States, base: nat, m: nat) {
    && (forall n | Expected(n) :: n in states)
    && (forall n | Expected(n) && Position(n) < m :: Ready(staged, backups, states, base, n))
  }

  /** The five outputs, within bounds, over a directory of at most those regular files. */
  ghost predicate Publishable(files: map<Name, Entry>, outputs: map<Name, Bytes>) {
    && (forall n :: n in outputs <==> Expected(n)) && (forall n | n in outputs :: |outputs[n]| <= MAX_BYTES)
    && (forall n | n in files :: Expected(n) && files[n].Regular? && |files[n].bytes| <= MAX_BYTES)
  }

  method PublicationStates(root: OutputRoot, outputs: map<Name, Bytes>) returns (r: Checked<States>)
    modifies root`calls
    ensures r.Ok? ==> Recorded(r.value, root.files) && (forall n :: n in outputs <==> Expected(n))
                      && (forall n | n in root.files :: Expected(n))
    ensures r.Raised? && !root.fails(old(root.calls)) ==>
              || (exists n :: (n in outputs) != Expected(n))
              || (exists n :: n in root.files &&
                              (!Expected(n) || root.files[n].Special? || |root.files[n].bytes| > MAX_BYTES))
    ensures root.calls == old(root.calls) + 1 && (r.Ok? ==> !root.fails(old(root.calls)))
    ensures Publishable(root.files, outputs) ==> (r.Ok? <==> !root.fails(old(root.calls)))
  {
    var ok := root.Call();
    forall n ensures n in OUTPUTS <==> Expected(n) { PrefixIsPosition(5, n); }
    if !ok { return Raised; }
    if outputs.Keys != set n | n in OUTPUTS {
      assert exists n :: (n in outputs) != Expected(n);
      return Raised;
    }
    if exists n | n in root.files :: n !in OUTPUTS { return Raised; }
    if exists n | n in root.files :: root.files[n].Special? || |root.files[n].bytes| > MAX_BYTES { return Raised; }
    return Ok(map n | n in OUTPUTS :: Lookup(root.files, n));
  }

  /** How many of the first `i` outputs exist already. */
  function Existing(files: map<Name, Entry>, i: nat): nat
    requires i <= 5
  {
    if i == 0 then 0 else Existing(files, i - 1) + if OutputAt(i - 1) in files then 1 else 0
  }

  lemma {:induction false} ExistingGrows(files: map<Name, Entry>, i: nat)
    requires i <= 5
    ensures Existing(files, i) <= Existing(files, 5)
    decreases 5 - i
  {
    if i < 5 { ExistingGrows(files, i + 1); }
  }

  /** Stages one output and, if the destination exists, its backup. */
  method StageOutput(root: OutputRoot, raw: Bytes, state: Option<Entry>)
    returns (ok: bool, file: Entry, backup: Option<Entry>)
    requires state.Some? ==> state.value.Regular?
    modifies root`calls, root`nextInode
    ensures old(root.nextInode) <= root.nextInode
    ensures ok ==> file == Regular(old(root.nextInode), raw, REGULAR_MODE) && |raw| <= MAX_BYTES
    ensures ok ==> SameFile(backup, state) && backup != Some(file)
    ensures ok ==> file.ino < root.nextInode && (backup.Some? ==> backup.value.ino < root.nextInode)
    ensures old(root.calls) <= root.calls
    ensures |raw| <= MAX_BYTES ==> Went(root.fails, old(root.calls), root.calls, ok)
    ensures ok ==> root.calls == old(root.calls) + if state.Some? then 2 else 1
    ensures root.calls <= old(root.calls) + if state.Some? then 2 else 1
  {
    file, backup := Special(0), None;
    if |raw| > MAX_BYTES { ok := false; return; }
    ok := root.Call();
    if !ok { return; }
    file := root.NewFile(raw, REGULAR_MODE);
    if state.Some? {
      ok := root.Call();
      if !ok { return; }
      var copy := root.NewFile(state.value.bytes, state.value.mode);
      backup := Some(copy);
    }
  }

  /** The first `i` outputs are staged with their bytes and backed up. */
  ghost predicate AllReady(outputs: map<Name, Bytes>, staged: map<Name, Entry>, backups: map<Name, Entry>,
                           states: States, base: nat, i: nat)
  {
    forall n | Position(n) < i ::
      && Ready(staged, backups, states, base, n)
      && n in outputs && staged[n].bytes == outputs[n] && staged[n].mode == REGULAR_MODE
  }

  lemma NoneReady(outputs: map<Name, Bytes>, states: States, base: nat)
    ensures AllReady(outputs, map[], map[], states, base, 0)
  {
  }

  lemma RecordedRegular(states: States, files: map<Name, Entry>, name: Name)
    requires Recorded(states, files) && Expected(name)
    ensures name in states && (states[name].Some? ==> states[name].value.Regular?)
            && (states[name].Some? <==> name in files)
    ensures name in files ==> states[name].value == files[name]
  {
  }

  lemma StagedStep(outputs: map<Name, Bytes>, staged: map<Name, Entry>, backups: map<Name, Entry>, states: States,
                   base: nat, i: nat, name: Name, file: Entry, backup: Option<Entry>)
    requires i < 5 && Position(name) == i && name in states && name in outputs
    requires AllReady(outputs, staged, backups, states, base, i)
    requires file.Regular? && file.bytes == outputs[name] && file.mode == REGULAR_MODE
    requires base <= file.ino && backup != Some(file) && SameFile(backup, states[name])
    requires states[name].Some? ==> states[name].value.ino < base
    ensures var backups' := if backup.Some? then backups[name := backup.value] else backups;
            AllReady(outputs, staged[name := file], backups', states, base, i + 1)
  {
    forall n | Position(n) == i ensures n == name { }
  }

  /** The loop over the outputs. */
  method StageOutputs(root: OutputRoot, outputs: map<Name, Bytes>, states: States)
    returns (ok: bool, staged: map<Name, Entry>, backups: map<Name, Entry>)
    requires (forall n | Expected(n) :: n in outputs) && Recorded(states, root.files) && root.InodesBelow()
    modifies root`calls, root`nextInode
    ensures ok ==> AllReady(outputs, staged, backups, states, old(root.nextInode), 5)
    ensures old(root.calls) <= root.calls
    ensures (forall n | n in outputs :: |outputs[n]| <= MAX_BYTES) ==>
              Went(root.fails, old(root.calls), root.calls, ok)
    ensures ok ==> root.calls == old(root.calls) + 5 + Existing(root.files, 5)
    ensures root.calls <= old(root.calls) + 5 + Existing(root.files, 5)
  {
    ghost var base, c0 := root.nextInode, root.calls;
    staged, backups := map[], map[];
    ok := true;
    var i := 0;
    OneCall(root.fails, c0);
    hide Smooth;
    hide Went;
    hide SameFile;
    hide OutputAt;
    hide AllReady;
    hide Recorded;
    NoneReady(outputs, states, base);
    while i < 5
      invariant i <= 5 && base <= root.nextInode
      invariant root.calls == c0 + i + Existing(root.files, i) && Went(root.fails, c0, root.calls, true)
      invariant AllReady(outputs, staged, backups, states, base, i)
    {
      var name := OutputAt(i);
      RecordedRegular(states, root.files, name);
      var file, backup;
      ghost var before := root.calls;
      ok, file, backup := StageOutput(root, outputs[name], states[name]);
      if |outputs[name]| <= MAX_BYTES { WentOn(root.fails, c0, before, root.calls, ok); }
      ExistingGrows(root.files, i + 1);
      if !ok { return; }
      StagedStep(outputs, staged, backups, states, base, i, name, file, backup);
      staged := staged[name := file];
      if backup.Some? { backups := backups[name := backup.value]; }
      i := i + 1;
    }
  }

  method StagePublication(root: OutputRoot, outputs: map<Name, Bytes>, states: States)
    returns (ok: bool, staged: map<Name, Entry>, backups: map<Name, Entry>)
    requires (forall n | Expected(n) :: n in outputs) && Recorded(states, root.files) && root.InodesBelow()
    modifies root`calls, root`nextInode
    ensures ok ==> Prepared(staged, backups, states, old(root.nextInode), 5)
    ensures ok ==> forall n | Expected(n) :: staged[n].bytes == outputs[n] && staged[n].mode == REGULAR_MODE
    ensures old(root.calls) <= root.calls
    ensures (forall n | n in outputs :: |outputs[n]| <= MAX_BYTES) ==>
              Went(root.fails, old(root.calls), root.calls, ok)
    ensures ok ==> root.calls == old(root.calls) + 7 + Existing(root.files, 5)
    ensures root.calls <= old(root.calls) + 7 + Existing(root.files, 5)
  {
    hide Smooth;
    hide Went;
    hide Ready;
    hide Existing;
    ghost var c0 := root.calls;
    staged, backups := map[], map[];
    ok := root.Call();
    OneCall(root.fails, c0);
    if !ok { return; }
    ok, staged, backups := StageOutputs(root, outputs, states);
    ghost var bounded := forall n | n in outputs :: |outputs[n]| <= MAX_BYTES;
    if bounded { WentOn(root.fails, c0, c0 + 1, root.calls, ok); }
    if !ok { return; }
    ghost var before := root.calls;
    ok := root.Call();  // the directory validator
    OneCall(root.fails, before);
    if bounded { WentOn(root.fails, c0, before, root.calls, ok); }
  }

  /** The files after the first `m` outputs have been renamed into place. */
  ghost predicate Overlaid(files: map<Name, Entry>, original: map<Name, Entry>, staged: map<Name, Entry>, m: nat) {
    forall n :: Lookup(files, n) == if Position(n) < m then Lookup(staged, n) else Lookup(original, n)
  }

  method RequireUnchanged(root: OutputRoot, name: Name, state: Option<Entry>) returns (ok: bool)
    modifies root`calls
    ensures ok ==> Lookup(root.files, name).Some? == state.Some?
                   && (state.Some? ==> root.files[name].Regular? && root.files[name].ino == state.value.ino)
    ensures root.calls == old(root.calls) + 1
    ensures Lookup(root.files, name) == state && (state.Some? ==> state.value.Regular?) ==>
              ok == !root.fails(old(root.calls))
  {
    ok := root.Call();
    ok := ok && match (Lookup(root.files, name), state)
                case (None, None) => true
                case (Some(e), Some(s)) => e.Regular? && e.ino == s.ino
                case _ => false;
  }

  /** Between two steps of the forward run with `m` outputs in place. */
  ghost predicate Barrier(d: Disk, staged: map<Name, Entry>, m: nat) {
    && (m < 5 ==> ManifestNotYet(d, staged))
    && (m >= 4 ==> FixturesSettled(d, staged))
  }

  lemma RenameKeepsBarrier(d: Disk, staged: map<Name, Entry>, m: nat, name: Name, entry: Entry)
    requires m < 5 && Position(name) == m && Barrier(d, staged, m)
    ensures var d' := Disk(d.seen[name := entry], d.durable, d.pending + [Put(name, entry)]);
            (m < 4 ==> ManifestNotYet(d', staged)) && (m == 4 ==> FixturesSettled(d', staged))
  {
  }

  lemma SyncSettlesFixtures(files: map<Name, Entry>, original: map<Name, Entry>, staged: map<Name, Entry>)
    requires Overlaid(files, original, staged, 4) && !IsNew(original, staged, Manifest)
    requires forall n | Expected(n) :: n in staged
    ensures Barrier(Disk(files, files, []), staged, 4)
  {
    assert Lookup(files, Manifest) == Lookup(original, Manifest);
    forall f | Fixture(f)
      ensures IsNew(files, staged, f) { assert Expected(f) && Lookup(files, f) == Lookup(staged, f); }
  }

  lemma RenameOverlays(files: map<Name, Entry>, original: map<Name, Entry>, staged: map<Name, Entry>, m: nat,
                       name: Name)
    requires m < 5 && Position(name) == m && name in staged && Overlaid(files, original, staged, m)
    ensures Overlaid(files[name := staged[name]], original, staged, m + 1)
  {
    forall n | Position(n) == m ensures n == name { }
  }

  /** From position `t0` on, no recorded state has touched an output at position `m` or later. */
  ghost predicate AllUntouched(trace: seq<Disk>, t0: nat, original: map<Name, Entry>, m: nat) {
    forall k | t0 <= k < |trace| :: Untouched(trace[k].seen, original, m)
  }

  ghost predicate Untouched(files: map<Name, Entry>, original: map<Name, Entry>, m: nat) {
    forall n | Position(n) >= m :: Lookup(files, n) == Lookup(original, n)
  }

  /** How far a rollback has to go: either nothing can bring the new manifest, or it must be unwound. */
  ghost predicate TurningPoint(d: Disk, staged: map<Name, Entry>, m: nat) {
    && (m < 5 ==> ManifestNotYet(d, staged))
    && (m == 5 ==> FixturesSettled(d, staged) && ManifestReachable(d, staged))
  }

  lemma RenamedManifestIsReachable(d: Disk, staged: map<Name, Entry>)
    requires Manifest in staged && d.pending != [] && d.pending[|d.pending| - 1] == Put(Manifest, staged[Manifest])
    ensures ManifestReachable(d, staged)
  {
  }

  /** What one rename does to the disk. */
  lemma RenameAdvances(d: Disk, d': Disk, staged: map<Name, Entry>, original: map<Name, Entry>, m: nat, name: Name)
    requires m < 5 && Position(name) == m && name in staged && Overlaid(d.seen, original, staged, m)
             && Barrier(d, staged, m)
    requires d' == Disk(d.seen[name := staged[name]], d.durable, d.pending + [Put(name, staged[name])])
    ensures Overlaid(d'.seen, original, staged, m + 1) && Untouched(d'.seen, original, m + 1)
    ensures CrashSafe(d', staged) && TurningPoint(d', staged, m + 1) && (m != 3 ==> Barrier(d', staged, m + 1))
  {
    RenameKeepsBarrier(d, staged, m, name, staged[name]);
    RenameOverlays(d.seen, original, staged, m, name);
    BarrierGivesCrashSafety(d', staged);
    if m == 4 { RenamedManifestIsReachable(d', staged); }
  }

  /** The sync after the last fixture. */
  lemma SyncAdvances(d: Disk, staged: map<Name, Entry>, original: map<Name, Entry>)
    requires Overlaid(d.seen, original, staged, 4) && !IsNew(original, staged, Manifest)
    requires forall n | Expected(n) :: n in staged
    ensures var d' := Disk(d.seen, d.seen, []);
            Barrier(d', staged, 4) && TurningPoint(d', staged, 4) && CrashSafe(d', staged)
  {
    SyncSettlesFixtures(d.seen, original, staged);
    BarrierGivesCrashSafety(Disk(d.seen, d.seen, []), staged);
  }

  lemma BarrierTurns(d: Disk, staged: map<Name, Entry>, m: nat)
    requires m < 5 && Barrier(d, staged, m)
    ensures TurningPoint(d, staged, m)
  {
  }

  lemma StillOriginal(files: map<Name, Entry>, original: map<Name, Entry>, staged: map<Name, Entry>, states: States,
                      m: nat, name: Name)
    requires m < 5 && Position(name) == m && Overlaid(files, original, staged, m) && Recorded(states, original)
    ensures name in states && Lookup(files, name) == states[name]
            && (states[name].Some? ==> states[name].value.Regular?)
  {
    assert Expected(name);
  }

  /** Checks that the destination is still the recorded one and renames the staged file over it. */
  method RenameOne(root: OutputRoot, name: Name, file: Entry, state: Option<Entry>) returns (ok: bool)
    modifies root`files, root`calls, root`pending, root`trace
    ensures old(root.calls) <= root.calls <= old(root.calls) + 2
    ensures Lookup(old(root.files), name) == state && (state.Some? ==> state.value.Regular?) ==>
              Went(root.fails, old(root.calls), root.calls, ok)
    ensures ok ==> && root.calls == old(root.calls) + 2 && root.files == old(root.files)[name := file]
                   && root.pending == old(root.pending) + [Put(name, file)]
                   && root.trace == old(root.trace) + [root.Now()]
    ensures !ok ==> root.files == old(root.files) && root.pending == old(root.pending) && root.trace == old(root.trace)
  {
    hide Smooth;
    hide Went;
    ghost var c := root.calls;
    OneCall(root.fails, c);
    OneCall(root.fails, c + 1);
    ok := RequireUnchanged(root, name, state);
    if ok {
      ok := root.Replace(name, file);
      if !root.fails(c) { WentOn(root.fails, c, c + 1, c + 2, ok); }
    }
  }

  /** Renames one output, with the sync that follows the last fixture. */
  method PublishOne(root: OutputRoot, staged: map<Name, Entry>, states: States, m: nat,
                    ghost original: map<Name, Entry>)
    returns (ok: bool, renamed: bool)
    requires m < 5 && (forall n | Expected(n) :: n in staged) && Recorded(states, original)
    requires !IsNew(original, staged, Manifest)
    requires Overlaid(root.files, original, staged, m) && Barrier(root.Now(), staged, m)
    modifies root`files, root`calls, root`durable, root`pending, root`trace
    ensures Overlaid(root.files, original, staged, if renamed then m + 1 else m)
    ensures ok ==> renamed && Barrier(root.Now(), staged, m + 1)
    ensures TurningPoint(root.Now(), staged, if renamed then m + 1 else m)
    ensures Went(root.fails, old(root.calls), root.calls, ok)
    ensures ok ==> root.calls == old(root.calls) + if m == 3 then 3 else 2
    ensures root.calls <= old(root.calls) + if m == 3 then 3 else 2
    ensures !ok ==> (renamed <==> root.calls == old(root.calls) + 3)
    ensures old(root.trace) <= root.trace
    ensures forall k | |old(root.trace)| <= k < |root.trace| :: CrashSafe(root.trace[k], staged)
    ensures AllUntouched(root.trace, |old(root.trace)|, original, if renamed then m + 1 else m)
  {
    hide Position;
    hide Expected;
    hide OutputAt;
    hide Smooth;
    hide Went;
    hide Recorded;
    hide CrashSafe;
    hide Barrier;
    hide TurningPoint;
    hide Overlaid;
    hide IsNew;
    hide Untouched;
    var name := OutputAt(m);
    ghost var d, c := root.Now(), root.calls;
    StillOriginal(root.files, original, staged, states, m, name);
    BarrierTurns(d, staged, m);
    renamed := RenameOne(root, name, staged[name], states[name]);
    ok := renamed;
    if renamed {
      RenameAdvances(d, root.Now(), staged, original, m, name);
      if m == 3 {
        OneCall(root.fails, c + 2);
        SyncAdvances(root.Now(), staged, original);
        ok := root.Sync();
        WentOn(root.fails, c, c + 2, c + 3, ok);
      }
    }
  }

  /** How many outputs are renamed when exactly `n` calls of the renaming have succeeded. */
  function RenamedAfter(n: int): nat {
    if n < 0 then 0 else if n < 8 then n / 2 else if n < 11 then 4 else 5
  }

  /** Renames the outputs in order; `published` names what was renamed before a failure. */
  method RenameOutputs(root: OutputRoot, staged: map<Name, Entry>, states: States)
    returns (ok: bool, published: seq<Name>)
    requires (forall n | Expected(n) :: n in staged) && Recorded(states, root.files)
    requires ManifestNotYet(root.Now(), staged) && !IsNew(root.files, staged, Manifest)
    modifies root`files, root`calls, root`durable, root`pending, root`trace
    ensures InOrder(published) && (ok ==> |published| == 5)
    ensures Overlaid(root.files, old(root.files), staged, |published|)
    ensures TurningPoint(root.Now(), staged, |published|)
    ensures old(root.trace) <= root.trace
    ensures forall k | |old(root.trace)| <= k < |root.trace| :: CrashSafe(root.trace[k], staged)
    ensures AllUntouched(root.trace, |old(root.trace)|, old(root.files), |published|)
    ensures Went(root.fails, old(root.calls), root.calls, ok)
    ensures ok ==> root.calls == old(root.calls) + 11
    ensures root.calls <= old(root.calls) + 11
    ensures !ok ==> |published| == RenamedAfter(root.calls - old(root.calls) - 1)
  {
    ghost var t0, c0 := |root.trace|, root.calls;
    ghost var original := root.files;
    published := [];
    ok := true;
    StartRenaming(root.Now(), staged, root.fails, c0);
    hide Smooth;
    hide Went;
    hide CrashSafe;
    hide ManifestNotYet;
    hide FixturesSettled;
    hide ManifestReachable;
    hide Untouched;
    hide Recorded;
    hide IsNew;
    while |published| < 5
      invariant InOrder(published) && ok
      invariant Overlaid(root.files, original, staged, |published|) && Barrier(root.Now(), staged, |published|)
      invariant TurningPoint(root.Now(), staged, |published|)
      invariant old(root.trace) <= root.trace
      invariant forall k | t0 <= k < |root.trace| :: CrashSafe(root.trace[k], staged)
      invariant AllUntouched(root.trace, t0, original, |published|)
      invariant root.calls == c0 + 2 * |published| + (if |published| > 3 then 1 else 0)
                && Went(root.fails, c0, root.calls, true)
    {
      var name, renamed := OutputAt(|published|), false;
      ghost var trace, calls := root.trace, root.calls;
      ok, renamed := PublishOne(root, staged, states, |published|, original);
      WentOn(root.fails, c0, calls, root.calls, ok);
      UntouchedSoFar(trace, root.trace, t0, original, |published|, if renamed then |published| + 1 else |published|);
      if renamed { published := published + [name]; }
      if !ok { return; }
    }
  }

  lemma StartRenaming(d: Disk, staged: map<Name, Entry>, fails: nat -> bool, c: nat)
    requires ManifestNotYet(d, staged)
    ensures Barrier(d, staged, 0) && TurningPoint(d, staged, 0) && Went(fails, c, c, true)
  {
  }

  /** Outputs at later positions are fewer outputs: what holds from `m` on holds from any later position on. */
  lemma UntouchedSoFar(before: seq<Disk>, after: seq<Disk>, t0: nat, original: map<Name, Entry>, m: nat, m': nat)
    requires before <= after && t0 <= |before| && m <= m'
    requires AllUntouched(before, t0, original, m) && AllUntouched(after, |before|, original, m')
    ensures AllUntouched(after, t0, original, m')
  {
    forall k | t0 <= k < |after| ensures Untouched(after[k].seen, original, m') {
      if k < |before| { assert after[k] == before[k] && Untouched(before[k].seen, original, m); }
    }
  }

  /** After the last rename: a sync, which makes the manifest durable too, and the directory validator. */
  method PublishStaged(root: OutputRoot, staged: map<Name, Entry>, states: States)
    returns (ok: bool, published: seq<Name>)
    requires (forall n | Expected(n) :: n in staged) && Recorded(states, root.files)
    requires ManifestNotYet(root.Now(), staged) && !IsNew(root.files, staged, Manifest)
    modifies root`files, root`calls, root`durable, root`pending, root`trace
    ensures InOrder(published) && (ok ==> |published| == 5)
    ensures Overlaid(root.files, old(root.files), staged, |published|)
    ensures TurningPoint(root.Now(), staged, |published|)
    ensures old(root.trace) <= root.trace
    ensures forall k | |old(root.trace)| <= k < |root.trace| :: CrashSafe(root.trace[k], staged)
    ensures AllUntouched(root.trace, |old(root.trace)|, old(root.files), |published|)
    ensures ok ==> root.durable == root.files && root.pending == []
    ensures Went(root.fails, old(root.calls), root.calls, ok)
    ensures old(root.calls) <= root.calls <= old(root.calls) + 13 && (ok ==> root.calls == old(root.calls) + 13)
    ensures !ok ==> |published| == RenamedAfter(root.calls - old(root.calls) - 1)
  {
    hide Smooth;
    hide Went;
    hide CrashSafe;
    hide ManifestNotYet;
    hide FixturesSettled;
    hide ManifestReachable;
    hide Untouched;
    hide Recorded;
    hide IsNew;
    ghost var c0 := root.calls;
    ok, published := RenameOutputs(root, staged, states);
    WentExactly(root.fails, c0, root.calls, ok);
    ghost var trace, c1 := root.trace, root.calls;
    if !ok { return; }
    OneCall(root.fails, c1);
    OneCall(root.fails, c1 + 1);
    ok := root.Sync();
    WentOn(root.fails, c0, c1, c1 + 1, ok);
    if !ok { return; }
    AllDurable(root.files, old(root.files), staged);
    OverlaidUntouched(trace, root.Now(), old(root.files), staged);
    UntouchedSoFar(trace, root.trace, |old(root.trace)|, old(root.files), 5, 5);
    ok := root.Call();  // the directory validator
    WentOn(root.fails, c0, c1 + 1, c1 + 2, ok);
  }

  /** Once everything is renamed and synced, nothing is left for a crash to lose. */
  lemma AllDurable(files: map<Name, Entry>, original: map<Name, Entry>, staged: map<Name, Entry>)
    requires Overlaid(files, original, staged, 5) && forall n | Expected(n) :: n in staged
    ensures TurningPoint(Disk(files, files, []), staged, 5) && CrashSafe(Disk(files, files, []), staged)
  {
    forall n | Expected(n) ensures IsNew(files, staged, n) { assert Lookup(files, n) == Lookup(staged, n); }
    assert Expected(Manifest);
    BarrierGivesCrashSafety(Disk(files, files, []), staged);
  }

  lemma OverlaidUntouched(trace: seq<Disk>, d: Disk, original: map<Name, Entry>, staged: map<Name, Entry>)
    requires Overlaid(d.seen, original, staged, 5)
    ensures AllUntouched(trace + [d], |trace|, original, 5)
  {
  }

  // ------------------------------------------------------------------ rollback

  function Restoring(backups: map<Name, Entry>, name: Name, state: Option<Entry>): Update
    requires state.Some? ==> name in backups
  {
    if state.Some? then Put(name, backups[name]) else Drop(name)
  }

  /** Whether restoring one output from call `c` on fails: a rename if it existed, a check and an unlink if not. */
  predicate RestoreFails(fails: nat -> bool, c: nat, existed: bool) {
    fails(c) || (!existed && fails(c + 1))
  }

  function RestoreCalls(fails: nat -> bool, c: nat, existed: bool): nat {
    if existed || fails(c) then 1 else 2
  }

  /** The outputs below position `i` whose restore fails, when they are visited downwards from call `c` on. */
  function FailedRestores(fails: nat -> bool, c: nat, original: map<Name, Entry>, i: nat): set<Name>
    requires i <= 5
    decreases i
  {
    if i == 0 then {}
    else
      var name := OutputAt(i - 1);
      var existed := name in original;
      (if RestoreFails(fails, c, existed) then {name} else {})
      + FailedRestores(fails, c + RestoreCalls(fails, c, existed), original, i - 1)
  }

  lemma RestoreIsSmooth(fails: nat -> bool, c: nat, existed: bool)
    ensures !RestoreFails(fails, c, existed) <==> Smooth(fails, c, c + RestoreCalls(fails, c, existed))
  {
    var e := c + RestoreCalls(fails, c, existed);
    if !RestoreFails(fails, c, existed) {
      forall k | c <= k < e ensures !fails(k) { assert k == c || k == c + 1; }
    } else {
      assert fails(c) || fails(c + 1);
    }
  }

  lemma SamePosition(a: Name, b: Name)
    requires Position(a) == Position(b) < 5
    ensures a == b
  {
  }

  method RestoreDestination(root: OutputRoot, backups: map<Name, Entry>, name: Name, state: Option<Entry>)
    returns (ok: bool)
    requires state.Some? ==> name in backups
    modifies root`files, root`calls, root`pending, root`trace
    ensures ok ==> Lookup(root.files, name) == (if state.Some? then Some(backups[name]) else None)
                   && (forall n | n != name :: Lookup(root.files, n) == Lookup(old(root.files), n))
                   && root.pending == old(root.pending) + [Restoring(backups, name, state)]
                   && root.trace == old(root.trace) + [root.Now()]
    ensures !ok ==> root.files == old(root.files) && root.pending == old(root.pending) && root.trace == old(root.trace)
    ensures (state.None? ==> name in old(root.files) && old(root.files)[name].Regular?) ==>
              && (ok <==> !RestoreFails(root.fails, old(root.calls), state.Some?))
              && root.calls == old(root.calls) + RestoreCalls(root.fails, old(root.calls), state.Some?)
  {
    if state.Some? {
      ok := root.Replace(name, backups[name]);
    } else {
      ok := root.Call();
      if !ok || name !in root.files || root.files[name].Special? { return false; }
      ok := root.Unlink(name);
    }
  }

  /** What each destination holds after the outputs at positions `i` to `m - 1` were visited. */
  ghost predicate Unwound(files: map<Name, Entry>, original: map<Name, Entry>, staged: map<Name, Entry>,
                          backups: map<Name, Entry>, states: States, m: nat, i: nat, failed: set<Name>)
  {
    forall n :: Lookup(files, n) ==
                if Position(n) < i || n in failed then Lookup(staged, n)
                else if Position(n) < m then Restored(states, backups, n)
                else Lookup(original, n)
  }

  /** The manifest is back, was never replaced, or nothing at all has been restored. */
  ghost predicate OrderKept(m: nat, i: nat, failed: set<Name>) {
    || m < 5
    || (i < 5 && Manifest !in failed)
    || (forall n | i <= Position(n) < 5 :: n in failed)
  }

  lemma OrderKeptAtEnd(m: nat, failed: set<Name>)
    ensures OrderKept(m, 0, failed) <==> (m < 5 || Manifest !in failed || (forall n | Expected(n) :: n in failed))
  {
  }

  lemma UnwoundOrder(files: map<Name, Entry>, original: map<Name, Entry>, staged: map<Name, Entry>,
                     backups: map<Name, Entry>, states: States, m: nat, i: nat, failed: set<Name>, base: nat)
    requires Prepared(staged, backups, states, base, m) && Recorded(states, original)
             && !IsNew(original, staged, Manifest)
    requires i <= m <= 5 && (forall n | n in failed :: i <= Position(n) < m)
    requires Unwound(files, original, staged, backups, states, m, i, failed)
    ensures ManifestLast(files, staged) <==> OrderKept(m, i, failed)
  {
    forall n | Position(n) < m ensures IsNew(files, staged, n) <==> (Position(n) < i || n in failed) {
      assert Expected(n) && Ready(staged, backups, states, base, n);
    }
    if m == 5 && !(i < 5 && Manifest !in failed) {
      if n :| i <= Position(n) < 5 && n !in failed { assert Fixture(n) ==> !IsNew(files, staged, n); }
    }
  }

  /** A failed restore leaves the order question as it was; a good one can only lose it. */
  lemma OrderStep(m: nat, i: nat, failed: set<Name>, name: Name)
    requires 0 < i <= m <= 5 && Position(name) == i - 1 && (forall n | n in failed :: i <= Position(n) < m)
    ensures OrderKept(m, i - 1, failed + {name}) <==> OrderKept(m, i, failed)
    ensures OrderKept(m, i - 1, failed) ==> OrderKept(m, i, failed)
  {
    if m >= 5 && i < 5 && Manifest in failed && OrderKept(m, i, failed) {
      forall n | i - 1 <= Position(n) < 5 ensures n in failed + {name} { }
    }
    if m >= 5 && i == 5 {
      forall n | i - 1 <= Position(n) < 5 ensures n in failed + {name} { }
    }
  }

  lemma UnwoundStep(files: map<Name, Entry>, files': map<Name, Entry>, original: map<Name, Entry>,
                    staged: map<Name, Entry>, backups: map<Name, Entry>, states: States, m: nat, i: nat,
                    failed: set<Name>, name: Name)
    requires 0 < i <= m <= 5 && Position(name) == i - 1 && (forall n | n in failed :: i <= Position(n) < m)
    requires Unwound(files, original, staged, backups, states, m, i, failed)
    ensures Unwound(files, original, staged, backups, states, m, i - 1, failed + {name})
    ensures Lookup(files', name) == Restored(states, backups, name)
            && (forall n | n != name :: Lookup(files', n) == Lookup(files, n))
            ==> Unwound(files', original, staged, backups, states, m, i - 1, failed)
  {
    forall n | Position(n) == i - 1 ensures n == name { }
  }

  /** From position `t0` on, every recorded state shows the manifest last. */
  ghost predicate AllOrdered(trace: seq<Disk>, t0: nat, staged: map<Name, Entry>) {
    forall k | t0 <= k < |trace| :: ManifestLast(trace[k].seen, staged)
  }

  lemma AllOrderedAppend(trace: seq<Disk>, d: Disk, t0: nat, staged: map<Name, Entry>)
    requires t0 <= |trace|
    ensures AllOrdered(trace + [d], t0, staged) <==> AllOrdered(trace, t0, staged) && ManifestLast(d.seen, staged)
  {
    if AllOrdered(trace + [d], t0, staged) {
      forall k | t0 <= k < |trace| ensures ManifestLast(trace[k].seen, staged) { assert trace[k] == (trace + [d])[k]; }
      assert (trace + [d])[|trace|] == d;
    }
  }

  // --------------------------------------------- crashes in the middle of a rollback

  /** The manifest was not renamed, or no fixture visited so far was restored. */
  ghost predicate CrashKept(m: nat, i: nat, failed: set<Name>) {
    m < 5 || forall f | Fixture(f) && i <= Position(f) :: f in failed
  }

  /** What a rollback that has come down to position `i` keeps of the disk. */
  ghost predicate CrashBooks(d: Disk, staged: map<Name, Entry>, m: nat, i: nat, failed: set<Name>) {
    && (m < 5 ==> ManifestNotYet(d, staged))
    && (m == 5 ==> Unwinding(d, staged) && (FixtureTouched(d.pending) <==> !CrashKept(m, i, failed)))
  }

  lemma CrashBooksStart(d: Disk, staged: map<Name, Entry>, m: nat)
    requires m <= 5 && TurningPoint(d, staged, m)
    ensures CrashBooks(d, staged, m, m, {}) && CrashKept(m, m, {})
  {
  }

  lemma CrashBooksDecide(d: Disk, staged: map<Name, Entry>, m: nat, i: nat, failed: set<Name>)
    requires m <= 5 && CrashBooks(d, staged, m, i, failed)
    ensures CrashSafe(d, staged) <==> CrashKept(m, i, failed)
  {
    if m == 5 { UnwindingIsSafeExactly(d, staged); } else { BarrierGivesCrashSafety(d, staged); }
  }

  /** A failed restore changes neither the disk nor the question. */
  lemma CrashBooksSkip(d: Disk, staged: map<Name, Entry>, m: nat, i: nat, failed: set<Name>, name: Name)
    requires 0 < i <= m <= 5 && Position(name) == i - 1
    ensures CrashKept(m, i - 1, failed + {name}) <==> CrashKept(m, i, failed + {name})
    ensures (forall n | n in failed :: i <= Position(n)) ==>
              (CrashKept(m, i, failed + {name}) <==> CrashKept(m, i, failed))
    ensures (forall n | n in failed :: i <= Position(n)) && CrashBooks(d, staged, m, i, failed) ==>
              CrashBooks(d, staged, m, i - 1, failed + {name})
  {
    forall n | Position(n) == i - 1 ensures n == name { }
  }

  lemma UnwindingGrows(d: Disk, staged: map<Name, Entry>, u: Update)
    requires Unwinding(d, staged) && Reverting(u, staged)
    ensures Unwinding(d.(pending := d.pending + [u]), staged)
    ensures FixtureTouched(d.pending + [u]) <==> FixtureTouched(d.pending) || Fixture(u.name)
  {
    var longer := d.pending + [u];
    assert longer[|d.pending|] == u;
    if FixtureTouched(d.pending) {
      var k :| 0 <= k < |d.pending| && Fixture(d.pending[k].name);
      assert longer[k] == d.pending[k];
    }
    if Put(Manifest, staged[Manifest]) in d.pending {
      var j :| 0 <= j < |d.pending| && d.pending[j] == Put(Manifest, staged[Manifest]);
      assert longer[j] == d.pending[j];
    }
  }

  /** A restore that worked is one more pending update that takes the new file away. */
  lemma CrashBooksStep(d: Disk, d': Disk, staged: map<Name, Entry>, m: nat, i: nat, failed: set<Name>, name: Name,
                       u: Update)
    requires 0 < i <= m <= 5 && Position(name) == i - 1 && name !in failed && u.name == name && Reverting(u, staged)
    requires d'.durable == d.durable && d'.pending == d.pending + [u] && CrashBooks(d, staged, m, i, failed)
    ensures CrashBooks(d', staged, m, i - 1, failed)
    ensures CrashKept(m, i - 1, failed) ==> CrashKept(m, i, failed)
  {
    if m == 5 {
      UnwindingGrows(d, staged, u);
      hide Unwinding;
      hide FixtureTouched;
      assert Fixture(name) <==> i < 6 && i - 1 < 4;
      forall n | Position(n) == i - 1 ensures n == name { }
    }
  }

  // ------------------------------------------------------ the books of a rollback

  ghost predicate AllCrashSafe(trace: seq<Disk>, t0: nat, staged: map<Name, Entry>) {
    forall k | t0 <= k < |trace| :: CrashSafe(trace[k], staged)
  }

  /** Of the recorded states since `t0`: the order, the crash guarantee, and what was never touched. */
  ghost predicate TraceBooks(trace: seq<Disk>, t0: nat, staged: map<Name, Entry>, original: map<Name, Entry>,
                             m: nat, order: bool, crash: bool)
  {
    && t0 <= |trace|
    && (AllOrdered(trace, t0, staged) <==> order)
    && (AllCrashSafe(trace, t0, staged) <==> crash)
    && AllUntouched(trace, t0, original, m)
  }

  lemma TraceBooksStart(trace: seq<Disk>, staged: map<Name, Entry>, original: map<Name, Entry>, m: nat)
    ensures TraceBooks(trace, |trace|, staged, original, m, true, true)
  {
  }

  lemma TraceBooksStep(trace: seq<Disk>, d: Disk, t0: nat, staged: map<Name, Entry>, original: map<Name, Entry>, m: nat,
                       order: bool, crash: bool)
    requires TraceBooks(trace, t0, staged, original, m, order, crash) && Untouched(d.seen, original, m)
    ensures TraceBooks(trace + [d], t0, staged, original, m, order && ManifestLast(d.seen, staged),
                       crash && CrashSafe(d, staged))
  {
    hide Untouched;
    hide CrashSafe;
    AllOrderedAppend(trace, d, t0, staged);
    hide ManifestLast;
    var longer := trace + [d];
    assert longer[|trace|] == d && forall k | 0 <= k < |trace| :: longer[k] == trace[k];
    if AllCrashSafe(longer, t0, staged) {
      forall k | t0 <= k < |trace| ensures CrashSafe(trace[k], staged) { assert longer[k] == trace[k]; }
    }
  }

  /** Everything a rollback knows when it has come down to position `i`. */
  ghost predicate RollingBack(d: Disk, trace: seq<Disk>, t0: nat, original: map<Name, Entry>,
                              staged: map<Name, Entry>, backups: map<Name, Entry>, states: States,
                              m: nat, i: nat, failed: set<Name>)
  {
    && i <= m <= 5 && (forall n | n in failed :: i <= Position(n) < m)
    && Unwound(d.seen, original, staged, backups, states, m, i, failed)
    && CrashBooks(d, staged, m, i, failed)
    && TraceBooks(trace, t0, staged, original, m, OrderKept(m, i, failed), CrashKept(m, i, failed))
  }

  lemma UnwoundIsUntouched(files: map<Name, Entry>, original: map<Name, Entry>, staged: map<Name, Entry>,
                           backups: map<Name, Entry>, states: States, m: nat, i: nat, failed: set<Name>)
    requires i <= m && (forall n | n in failed :: Position(n) < m)
    requires Unwound(files, original, staged, backups, states, m, i, failed)
    ensures Untouched(files, original, m)
  {
  }

  lemma RestoreFailed(d: Disk, trace: seq<Disk>, t0: nat, original: map<Name, Entry>, staged: map<Name, Entry>,
                      backups: map<Name, Entry>, states: States, m: nat, i: nat, failed: set<Name>, name: Name)
    requires RollingBack(d, trace, t0, original, staged, backups, states, m, i, failed)
    requires 0 < i && Position(name) == i - 1
    ensures RollingBack(d, trace, t0, original, staged, backups, states, m, i - 1, failed + {name})
  {
    hide Unwound;
    hide CrashBooks;
    hide TraceBooks;
    hide OrderKept;
    hide CrashKept;
    UnwoundStep(d.seen, d.seen, original, staged, backups, states, m, i, failed, name);
    OrderStep(m, i, failed, name);
    CrashBooksSkip(d, staged, m, i, failed, name);
  }

  lemma RestoreWorked(d: Disk, d': Disk, trace: seq<Disk>, t0: nat, original: map<Name, Entry>,
                      staged: map<Name, Entry>, backups: map<Name, Entry>, states: States, base: nat, m: nat, i: nat,
                      failed: set<Name>, name: Name)
    requires Prepared(staged, backups, states, base, m) && Recorded(states, original)
             && !IsNew(original, staged, Manifest)
    requires RollingBack(d, trace, t0, original, staged, backups, states, m, i, failed)
    requires 0 < i && Position(name) == i - 1 && name in states && (states[name].Some? ==> name in backups)
    requires Lookup(d'.seen, name) == Restored(states, backups, name)
    requires forall n | n != name :: Lookup(d'.seen, n) == Lookup(d.seen, n)
    requires d'.durable == d.durable && d'.pending == d.pending + [Restoring(backups, name, states[name])]
    requires Reverting(Restoring(backups, name, states[name]), staged)
    ensures RollingBack(d', trace + [d'], t0, original, staged, backups, states, m, i - 1, failed)
  {
    hide Prepared;
    hide Recorded;
    hide Unwound;
    hide CrashBooks;
    hide TraceBooks;
    hide OrderKept;
    hide CrashKept;
    hide ManifestLast;
    hide CrashSafe;
    hide Reverting;
    hide Restored;
    UnwoundStep(d.seen, d'.seen, original, staged, backups, states, m, i, failed, name);
    UnwoundOrder(d'.seen, original, staged, backups, states, m, i - 1, failed, base);
    OrderStep(m, i, failed, name);
    CrashBooksStep(d, d', staged, m, i, failed, name, Restoring(backups, name, states[name]));
    CrashBooksDecide(d', staged, m, i - 1, failed);
    UnwoundIsUntouched(d'.seen, original, staged, backups, states, m, i - 1, failed);
    TraceBooksStep(trace, d', t0, staged, original, m, OrderKept(m, i, failed), CrashKept(m, i, failed));
  }

  /** An output not yet visited by the rollback holds its staged file, and its backup is at hand. */
  lemma StillNew(files: map<Name, Entry>, original: map<Name, Entry>, staged: map<Name, Entry>,
                 backups: map<Name, Entry>, states: States, base: nat, m: nat, i: nat, failed: set<Name>, name: Name)
    requires Prepared(staged, backups, states, base, m) && 0 < i <= m <= 5 && Position(name) == i - 1 && name in states
    requires Unwound(files, original, staged, backups, states, m, i, failed)
    ensures name in files && files[name].Regular? && (states[name].Some? ==> name in backups)
    ensures Restored(states, backups, name) == if states[name].Some? then Some(backups[name]) else None
    ensures Reverting(Restoring(backups, name, states[name]), staged)
  {
    assert Lookup(files, name) == Lookup(staged, name);
    assert Expected(name) && Ready(staged, backups, states, base, name);
  }

  /** Restores one output and keeps the books on what failed. */
  method RestoreOne(root: OutputRoot, backups: map<Name, Entry>, name: Name, state: Option<Entry>, ghost states: States,
                    ghost original: map<Name, Entry>, ghost staged: map<Name, Entry>, ghost base: nat,
                    ghost m: nat, ghost i: nat, ghost failed: set<Name>, ghost t0: nat)
    returns (ok: bool, ghost failed': set<Name>)
    requires Prepared(staged, backups, states, base, m) && Recorded(states, original)
             && !IsNew(original, staged, Manifest)
    requires 0 < i && Position(name) == i - 1 && name in states && states[name] == state
    requires RollingBack(root.Now(), root.trace, t0, original, staged, backups, states, m, i, failed)
    modifies root`files, root`calls, root`pending, root`trace
    ensures failed' == if ok then failed else failed + {name}
    ensures RollingBack(root.Now(), root.trace, t0, original, staged, backups, states, m, i - 1, failed')
    ensures old(root.trace) <= root.trace
    ensures ok <==> !RestoreFails(root.fails, old(root.calls), state.Some?)
    ensures root.calls == old(root.calls) + RestoreCalls(root.fails, old(root.calls), state.Some?)
  {
    hide Prepared;
    hide Recorded;
    hide IsNew;
    hide Unwound;
    hide CrashBooks;
    hide TraceBooks;
    hide OrderKept;
    hide CrashKept;
    hide Restored;
    hide Reverting;
    hide RestoreFails;
    hide RestoreCalls;
    ghost var d, trace := root.Now(), root.trace;
    StillNew(root.files, original, staged, backups, states, base, m, i, failed, name);
    ok := RestoreDestination(root, backups, name, state);
    failed' := if ok then failed else failed + {name};
    if ok {
      RestoreWorked(d, root.Now(), trace, t0, original, staged, backups, states, base, m, i, failed, name);
    } else {
      RestoreFailed(d, trace, t0, original, staged, backups, states, m, i, failed, name);
    }
  }

  lemma NothingUnwound(d: Disk, original: map<Name, Entry>, staged: map<Name, Entry>,
                       backups: map<Name, Entry>, states: States, m: nat, trace: seq<Disk>)
    requires m <= 5 && Overlaid(d.seen, original, staged, m) && TurningPoint(d, staged, m)
    ensures RollingBack(d, trace, |trace|, original, staged, backups, states, m, m, {})
  {
    CrashBooksStart(d, staged, m);
    TraceBooksStart(trace, staged, original, m);
  }

  lemma OrderedNames(published: seq<Name>)
    requires InOrder(published)
    ensures |published| <= 5 && forall k | 0 <= k < |published| :: Position(published[k]) == k && Expected(published[k])
  {
  }

  lemma AllRecorded(states: States, files: map<Name, Entry>)
    requires Recorded(states, files)
    ensures forall n | Expected(n) :: n in states
  {
  }

  lemma NowSees(root: OutputRoot)
    ensures root.Now().seen == root.files && root.Now().durable == root.durable && root.Now().pending == root.pending
  {
  }

  lemma NoCalls(fails: nat -> bool, a: nat)
    ensures Smooth(fails, a, a)
  {
  }

  lemma FailedStep(fails: nat -> bool, c: nat, states: States, original: map<Name, Entry>, i: nat, name: Name)
    requires 0 < i <= 5 && Position(name) == i - 1 && Recorded(states, original)
    ensures name in states
    ensures var existed := states[name].Some?;
            FailedRestores(fails, c, original, i)
            == (if RestoreFails(fails, c, existed) then {name} else {})
               + FailedRestores(fails, c + RestoreCalls(fails, c, existed), original, i - 1)
  {
    hide Recorded;
    hide RestoreFails;
    hide RestoreCalls;
    hide Position;
    hide OutputAt;
    hide FailedRestores;
    RecordedRegular(states, original, name) by { PositionExpected(name); }
    SamePosition(name, OutputAt(i - 1));
    FailedUnfold(fails, c, original, i);
  }

  lemma FailedUnfold(fails: nat -> bool, c: nat, original: map<Name, Entry>, i: nat)
    requires 0 < i <= 5
    ensures var existed := OutputAt(i - 1) in original;
            FailedRestores(fails, c, original, i)
            == (if RestoreFails(fails, c, existed) then {OutputAt(i - 1)} else {})
               + FailedRestores(fails, c + RestoreCalls(fails, c, existed), original, i - 1)
  {
    hide OutputAt;
    hide RestoreFails;
    hide RestoreCalls;
  }

  lemma PositionExpected(name: Name)
    requires Position(name) < 5
    ensures Expected(name)
  {
  }

  lemma FailedNone(fails: nat -> bool, c: nat, original: map<Name, Entry>)
    ensures FailedRestores(fails, c, original, 0) == {}
  {
  }

  /** Restores the published outputs in reverse order, going on after a failure. */
  method RestoreAll(root: OutputRoot, backups: map<Name, Entry>, published: seq<Name>, states: States,
                    ghost original: map<Name, Entry>, ghost staged: map<Name, Entry>, ghost base: nat)
    returns (error: bool, ghost failed: set<Name>)
    requires Prepared(staged, backups, states, base, |published|) && Recorded(states, original)
    requires InOrder(published) && !IsNew(original, staged, Manifest)
    requires Overlaid(root.files, original, staged, |published|) && TurningPoint(root.Now(), staged, |published|)
    modifies root`files, root`calls, root`pending, root`trace
    ensures error <==> failed != {}
    ensures old(root.calls) <= root.calls && (error <==> !Smooth(root.fails, old(root.calls), root.calls))
    ensures failed == FailedRestores(root.fails, old(root.calls), original, |published|)
    ensures RollingBack(root.Now(), root.trace, |old(root.trace)|, original, staged, backups, states, |published|, 0,
                        failed)
    ensures old(root.trace) <= root.trace
  {
    hide *;
    error, failed := false, {};
    var i: nat := |published|;
    ghost var m, t0 := i, |root.trace|;
    OrderedNames(published);
    assert root.Now().seen == root.files by { NowSees(root); }
    NothingUnwound(root.Now(), original, staged, backups, states, m, root.trace);
    NoCalls(root.fails, root.calls);
    ghost var c0 := root.calls;
    assert forall n | Expected(n) :: n in states by { AllRecorded(states, original); }
    while i > 0
      invariant i <= m && (error <==> failed != {})
      invariant old(root.calls) <= root.calls && (error <==> !Smooth(root.fails, old(root.calls), root.calls))
      invariant failed + FailedRestores(root.fails, root.calls, original, i)
                == FailedRestores(root.fails, c0, original, m)
      invariant RollingBack(root.Now(), root.trace, t0, original, staged, backups, states, m, i, failed)
      invariant old(root.trace) <= root.trace
    {
      var name := published[i - 1];
      var ok;
      ghost var before := root.calls;
      ok, failed := RestoreOne(root, backups, name, states[name], states, original, staged, base, m, i, failed, t0);
      RestoreIsSmooth(root.fails, before, states[name].Some?);
      SmoothSplits(root.fails, old(root.calls), before, root.calls);
      FailedStep(root.fails, before, states, original, i, name);
      error := error || !ok;
      i := i - 1;
    }
    FailedNone(root.fails, root.calls, original);
  }

  /** What a finished rollback's books mean. */
  lemma RolledBackBooks(d: Disk, trace: seq<Disk>, t0: nat, original: map<Name, Entry>, staged: map<Name, Entry>,
                        backups: map<Name, Entry>, states: States, base: nat, m: nat, failed: set<Name>)
    requires Prepared(staged, backups, states, base, m) && Recorded(states, original)
             && !IsNew(original, staged, Manifest)
    requires RollingBack(d, trace, t0, original, staged, backups, states, m, 0, failed)
    ensures TraceBooks(trace, t0, staged, original, m, OrderKept(m, 0, failed), CrashKept(m, 0, failed))
    ensures var synced := Disk(d.seen, d.seen, []);
            TraceBooks(trace + [synced], t0, staged, original, m, OrderKept(m, 0, failed), CrashKept(m, 0, failed))
  {
    var synced := Disk(d.seen, d.seen, []);
    UnwoundOrder(d.seen, original, staged, backups, states, m, 0, failed, base);
    UnwoundIsUntouched(d.seen, original, staged, backups, states, m, 0, failed);
    SettledIsSafeExactly(d.seen, staged);
    TraceBooksStep(trace, synced, t0, staged, original, m, OrderKept(m, 0, failed), CrashKept(m, 0, failed));
    assert CrashKept(m, 0, failed) ==> OrderKept(m, 0, failed) by { CrashImpliesOrder(m, failed); }
  }

  lemma CrashImpliesOrder(m: nat, failed: set<Name>)
    ensures CrashKept(m, 0, failed) ==> OrderKept(m, 0, failed)
    ensures CrashKept(m, 0, failed) <==> m < 5 || forall f | Fixture(f) :: f in failed
  {
    forall n | Expected(n) && n != Manifest ensures Fixture(n) { }
  }

  /**
   Restores the published outputs in reverse, going on after a failure.  `failed` are the
   outputs whose restore raised; the result is an error exactly when a call of the rollback
   failed.  If the manifest had been renamed, a crash in the middle of the rollback is safe
   exactly when no fixture was restored.
   */
  method Rollback(root: OutputRoot, backups: map<Name, Entry>, published: seq<Name>, states: States,
                  ghost original: map<Name, Entry>, ghost staged: map<Name, Entry>, ghost base: nat)
    returns (error: bool, ghost failed: set<Name>, ghost synced: bool)
    requires Prepared(staged, backups, states, base, |published|) && Recorded(states, original)
    requires InOrder(published) && !IsNew(original, staged, Manifest)
    requires Overlaid(root.files, original, staged, |published|) && TurningPoint(root.Now(), staged, |published|)
    modifies root`files, root`calls, root`durable, root`pending, root`trace
    ensures error <==> failed != {} || !synced
    ensures old(root.calls) <= root.calls && (error <==> !Smooth(root.fails, old(root.calls), root.calls))
    ensures |published| <= 5 && failed == FailedRestores(root.fails, old(root.calls), original, |published|)
    ensures forall n | n in failed :: Position(n) < |published|
    ensures Unwound(root.files, original, staged, backups, states, |published|, 0, failed)
    ensures synced ==> root.durable == root.files && root.pending == []
    ensures old(root.trace) <= root.trace
    ensures AllOrdered(root.trace, |old(root.trace)|, staged)
            <==> (|published| < 5 || Manifest !in failed || (forall n | Expected(n) :: n in failed))
    ensures AllCrashSafe(root.trace, |old(root.trace)|, staged)
            <==> (|published| < 5 || forall f | Fixture(f) :: f in failed)
    ensures AllUntouched(root.trace, |old(root.trace)|, original, |published|)
  {
    error, failed := RestoreAll(root, backups, published, states, original, staged, base);
    ghost var m, t0 := |published|, |old(root.trace)|;
    RolledBackBooks(root.Now(), root.trace, t0, original, staged, backups, states, base, m, failed);
    OrderKeptAtEnd(m, failed);
    CrashImpliesOrder(m, failed);
    hide Smooth;
    hide FailedRestores;
    hide OrderKept;
    hide CrashKept;
    hide CrashBooks;
    hide Unwound;
    hide AllOrdered;
    hide AllCrashSafe;
    hide AllUntouched;
    hide Prepared;
    hide Recorded;
    hide Overlaid;
    hide IsNew;
    ghost var before := root.calls;
    var ok := root.Sync();
    SmoothSplits(root.fails, old(root.calls), before, root.calls);
    OneCall(root.fails, before);
    synced := ok;
    error := error || !ok;
  }

  /**
   The calls of a forward run from call `c` on, whose renaming begins at call `renaming` if it gets there:
   it makes them all, or stops at the first that fails, and what was replaced by then follows from where.
   */
  ghost predicate ForwardRun(fails: nat -> bool, c: nat, renaming: nat, stop: nat, ok: bool, replaced: nat) {
    && Went(fails, c, stop, ok) && stop <= renaming + 13 && (ok ==> stop == renaming + 13)
    && (!ok ==> replaced == RenamedAfter(stop - 1 - renaming))
  }

  lemma ForwardAfter(fails: nat -> bool, c: nat, renaming: nat, stop: nat, ok: bool, replaced: nat)
    requires Went(fails, c, c + 1, true) && ForwardRun(fails, c + 1, renaming, stop, ok, replaced)
    ensures ForwardRun(fails, c, renaming, stop, ok, replaced)
  {
    WentOn(fails, c, c + 1, stop, ok);
    hide Went;
  }

  lemma ForwardExactly(fails: nat -> bool, c: nat, renaming: nat, stop: nat, ok: bool, replaced: nat)
    requires ForwardRun(fails, c, renaming, stop, ok, replaced)
    ensures ok <==> Smooth(fails, c, renaming + 13)
  {
    if !ok { assert fails(stop - 1); }
  }

  lemma RefusedAtOnce(fails: nat -> bool, c: nat, renaming: nat)
    requires fails(c) && c < renaming
    ensures ForwardRun(fails, c, renaming, c + 1, false, 0)
  {
  }

  /** A first fault at call `n` of the forward run decides it. */
  lemma FaultDecides(fails: nat -> bool, c: nat, renaming: nat, stop: nat, ok: bool, replaced: nat, n: nat)
    requires ForwardRun(fails, c, renaming, stop, ok, replaced) && c <= n < renaming + 13
    requires fails(n) && Smooth(fails, c, n)
    ensures !ok && stop == n + 1 && replaced == RenamedAfter(n - renaming)
  {
  }

  /** Staging followed by publication; `staged` stays empty when staging fails. */
  method RunForward(root: OutputRoot, outputs: map<Name, Bytes>, states: States)
    returns (ok: bool, published: seq<Name>, backups: map<Name, Entry>, ghost staged: map<Name, Entry>)
    requires root.InodesBelow() && Recorded(states, root.files) && (forall n | Expected(n) :: n in outputs)
    modifies root
    ensures InOrder(published) && (ok ==> |published| == 5)
    ensures Prepared(staged, backups, states, old(root.nextInode), |published|)
    ensures !IsNew(old(root.files), staged, Manifest)
    ensures Overlaid(root.files, old(root.files), staged, |published|)
    ensures ok ==> root.durable == root.files && root.pending == []
                   && (forall n | Expected(n) :: n in staged && staged[n].Regular? && staged[n].bytes == outputs[n])
    ensures TurningPoint(root.Now(), staged, |published|)
    ensures old(root.trace) <= root.trace
    ensures AllCrashSafe(root.trace, |old(root.trace)|, staged)
    ensures AllUntouched(root.trace, |old(root.trace)|, old(root.files), |published|)
    ensures old(root.calls) <= root.calls
    ensures (forall n | n in outputs :: |outputs[n]| <= MAX_BYTES) ==>
              var renaming := old(root.calls) + 7 + Existing(old(root.files), 5);
              ForwardRun(root.fails, old(root.calls), renaming, root.calls, ok, |published|)
  {
    hide Smooth;
    hide Went;
    hide CrashSafe;
    hide Existing;
    hide Recorded;
    AllRecorded(states, root.files);
    ghost var base, c0 := root.nextInode, root.calls;
    published, staged := [], map[];
    var files;
    ok, files, backups := StagePublication(root, outputs, states);
    ghost var c1 := root.calls;
    if ok {
      staged := files;
      assert Expected(Manifest) && Ready(staged, backups, states, base, Manifest);
      forall n | Expected(n) ensures n in staged && n in states { assert Ready(staged, backups, states, base, n); }
      ok, published := PublishStaged(root, files, states);
      if forall n | n in outputs :: |outputs[n]| <= MAX_BYTES { WentOn(root.fails, c0, c1, root.calls, ok); }
    }
  }

  /** Of all calls, exactly number `n` fails. */
  ghost predicate OnlyFault(fails: nat -> bool, n: nat) {
    forall k :: fails(k) <==> k == n
  }

  lemma TheFault(fails: nat -> bool, n: nat)
    requires OnlyFault(fails, n)
    ensures fails(n) && forall k | k != n :: !fails(k)
  {
  }

  lemma OneFault(fails: nat -> bool, n: nat, a: nat, b: nat)
    requires OnlyFault(fails, n) && a <= b
    ensures Smooth(fails, a, b) <==> !(a <= n < b)
  {
    assert fails(n);
  }

  lemma AllPublished(files: map<Name, Entry>, original: map<Name, Entry>, staged: map<Name, Entry>)
    requires Overlaid(files, original, staged, 5) && (forall n | Expected(n) :: n in staged)
    ensures forall n | Expected(n) :: IsNew(files, staged, n) && files[n] == staged[n]
    ensures forall n | !Expected(n) :: Lookup(files, n) == Lookup(original, n)
  {
    forall n | Expected(n) ensures IsNew(files, staged, n) { assert Lookup(files, n) == Lookup(staged, n); }
  }

  lemma NothingYet(files: map<Name, Entry>, trace: seq<Disk>, staged: map<Name, Entry>)
    ensures Untouched(files, files, 0) && AllUntouched(trace, |trace|, files, 0)
    ensures AllOrdered(trace, |trace|, staged) && AllCrashSafe(trace[..|trace|], |trace|, staged)
  {
  }

  lemma WithinBounds(files: map<Name, Entry>, outputs: map<Name, Bytes>)
    requires Publishable(files, outputs)
    ensures forall n | n in outputs :: |outputs[n]| <= MAX_BYTES
  {
  }

  lemma NoneAfter(trace: seq<Disk>, staged: map<Name, Entry>)
    ensures AllOrdered(trace, |trace|, staged)
  {
  }

  lemma OverlaidIsUntouched(files: map<Name, Entry>, original: map<Name, Entry>, staged: map<Name, Entry>, m: nat)
    requires Overlaid(files, original, staged, m)
    ensures Untouched(files, original, m)
  {
  }

  /** The forward run and, after a fault in it, the rollback. */
  method Transact(root: OutputRoot, outputs: map<Name, Bytes>, states: States)
    returns (outcome: Outcome, ghost staged: map<Name, Entry>, ghost replaced: nat, ghost forward: nat,
             ghost failed: set<Name>, ghost turned: nat)
    requires root.InodesBelow() && Recorded(states, root.files) && (forall n | Expected(n) :: n in outputs)
    modifies root
    ensures outcome != Refused && replaced <= 5
    ensures outcome == Published ==>
              && root.durable == root.files && root.pending == [] && failed == {} && forward == |root.trace|
              && turned == root.calls
              && (forall n | Expected(n) :: n in staged && staged[n].Regular? && staged[n].bytes == outputs[n])
              && Overlaid(root.files, old(root.files), staged, 5)
    ensures outcome == RolledBack ==>
              && failed == {} && root.durable == root.files
              && (forall n :: SameFile(Lookup(root.files, n), Lookup(old(root.files), n)))
    ensures outcome == RollbackFailed ==>
              forall n :: if n in failed then IsNew(root.files, staged, n)
                          else SameFile(Lookup(root.files, n), Lookup(old(root.files), n))
    ensures Untouched(root.files, old(root.files), replaced)
    ensures AllUntouched(root.trace, |old(root.trace)|, old(root.files), replaced)
    ensures old(root.trace) <= root.trace && |old(root.trace)| <= forward <= |root.trace|
    ensures AllCrashSafe(root.trace[..forward], |old(root.trace)|, staged)
    ensures AllOrdered(root.trace, forward, staged) <==>
              (replaced < 5 || Manifest !in failed || (forall n | Expected(n) :: n in failed))
    ensures outcome != Published ==>
              (AllCrashSafe(root.trace, forward, staged) <==> (replaced < 5 || forall f | Fixture(f) :: f in failed))
    ensures old(root.calls) <= turned <= root.calls
    ensures (forall n | n in outputs :: |outputs[n]| <= MAX_BYTES) ==>
              var renaming := old(root.calls) + 7 + Existing(old(root.files), 5);
              ForwardRun(root.fails, old(root.calls), renaming, turned, outcome == Published, replaced)
    ensures failed == if outcome == Published then {}
                      else FailedRestores(root.fails, turned, old(root.files), replaced)
    ensures outcome == RolledBack ==> Smooth(root.fails, turned, root.calls)
    ensures outcome == RollbackFailed ==> !Smooth(root.fails, turned, root.calls)
  {
    ghost var original, base := root.files, root.nextInode;
    hide Smooth;
    hide ForwardRun;
    hide FailedRestores;
    hide Existing;
    hide CrashSafe;
    hide Recorded;
    hide Prepared;
    hide AllOrdered;
    hide AllCrashSafe;
    hide AllUntouched;
    hide Untouched;
    hide Overlaid;
    hide Unwound;
    hide TurningPoint;
    hide SameFile;
    hide IsNew;
    failed := {};
    var ok, published, backups;
    ok, published, backups, staged := RunForward(root, outputs, states);
    replaced, forward, turned := |published|, |root.trace|, root.calls;
    ghost var trace := root.trace;
    assert trace[..forward] == trace;
    OverlaidIsUntouched(root.files, original, staged, replaced);
    if ok {
      outcome := Published;
      NoneAfter(root.trace, staged);
      return;
    }
    var error;
    ghost var synced;
    error, failed, synced := Rollback(root, backups, published, states, original, staged, base);
    outcome := if error then RollbackFailed else RolledBack;
    RestoredFiles(root.files, original, staged, backups, states, replaced, failed, base);
    UnwoundIsUntouched(root.files, original, staged, backups, states, replaced, 0, failed);
    UntouchedSoFar(trace, root.trace, |old(root.trace)|, original, replaced, replaced);
    assert root.trace[..forward] == trace;
  }

  /**
   The whole transaction.  `staged` are the new files, `replaced` how many outputs were
   renamed before a failure, `forward` and `turned` the lengths of the trace and of the call
   history when rollback began, and `failed` the outputs whose restore raised.
   */
  method PublishOutputBytes(root: OutputRoot, outputs: map<Name, Bytes>)
    returns (outcome: Outcome, ghost staged: map<Name, Entry>, ghost replaced: nat, ghost forward: nat,
             ghost failed: set<Name>, ghost turned: nat)
    requires root.InodesBelow()
    modifies root
    ensures outcome == Refused ==> root.files == old(root.files) && root.trace == old(root.trace) && replaced == 0
    ensures outcome == Published ==>
              && root.durable == root.files && root.pending == []
              && (forall n | Expected(n) :: n in outputs && n in root.files && IsNew(root.files, staged, n)
                                            && root.files[n].Regular? && root.files[n].bytes == outputs[n])
              && (forall n | !Expected(n) :: n !in root.files)
    ensures outcome == RolledBack ==>
              && failed == {} && root.durable == root.files
              && (forall n :: SameFile(Lookup(root.files, n), Lookup(old(root.files), n)))
    ensures outcome == RollbackFailed ==>
              forall n :: if n in failed then IsNew(root.files, staged, n)
                          else SameFile(Lookup(root.files, n), Lookup(old(root.files), n))
    ensures Untouched(root.files, old(root.files), replaced)
    ensures AllUntouched(root.trace, |old(root.trace)|, old(root.files), replaced)
    ensures old(root.trace) <= root.trace && |old(root.trace)| <= forward <= |root.trace|
    ensures AllCrashSafe(root.trace[..forward], |old(root.trace)|, staged)
    ensures AllOrdered(root.trace, forward, staged) <==>
              (replaced < 5 || Manifest !in failed || (forall n | Expected(n) :: n in failed))
    ensures outcome == RolledBack || outcome == RollbackFailed ==>
              (AllCrashSafe(root.trace, forward, staged) <==> (replaced < 5 || forall f | Fixture(f) :: f in failed))
    ensures old(root.calls) <= turned <= root.calls
    ensures Publishable(old(root.files), outputs) ==>
              var renaming := old(root.calls) + 8 + Existing(old(root.files), 5);
              && ForwardRun(root.fails, old(root.calls), renaming, turned, outcome == Published, replaced)
              && (outcome == Published <==> Smooth(root.fails, old(root.calls), renaming + 13))
              && (outcome == Refused <==> root.fails(old(root.calls)))
    ensures replaced <= 5
    ensures failed == if outcome == RolledBack || outcome == RollbackFailed
                      then FailedRestores(root.fails, turned, old(root.files), replaced) else {}
    ensures outcome == RolledBack ==> Smooth(root.fails, turned, root.calls)
    ensures outcome == RollbackFailed ==> !Smooth(root.fails, turned, root.calls)
  {
    hide Smooth;
    hide Went;
    hide ForwardRun;
    hide FailedRestores;
    hide Existing;
    hide CrashSafe;
    hide AllOrdered;
    hide AllCrashSafe;
    hide AllUntouched;
    hide Untouched;
    hide Overlaid;
    hide SameFile;
    hide Publishable;
    ghost var original, c0 := root.files, root.calls;
    staged, replaced, forward, failed := map[], 0, |root.trace|, {};
    NothingYet(root.files, root.trace, staged);
    var r := PublicationStates(root, outputs);
    turned := root.calls;
    OneCall(root.fails, c0);
    if r.Raised? {
      outcome := Refused;
      if root.fails(c0) {
        RefusedAtOnce(root.fails, c0, c0 + 8 + Existing(original, 5));
        ForwardExactly(root.fails, c0, c0 + 8 + Existing(original, 5), turned, false, 0);
      }
      return;
    }
    assert forall n | !Expected(n) :: Lookup(original, n) == None;
    hide Recorded;
    outcome, staged, replaced, forward, failed, turned := Transact(root, outputs, r.value);
    if Publishable(original, outputs) {
      WithinBounds(original, outputs);
      ForwardAfter(root.fails, c0, c0 + 8 + Existing(original, 5), turned, outcome == Published, replaced);
      ForwardExactly(root.fails, c0, c0 + 8 + Existing(original, 5), turned, outcome == Published, replaced);
    }
    if outcome == Published { AllPublished(root.files, original, staged); }
  }

  /**
   A run for every publishable input: when the final validator alone fails, after all five
   renames are durable, the rollback succeeds and passes through a state that a crash can turn
   into the new manifest without all of the new fixtures.
   */
  method RollbackRunIsNotCrashSafe(root: OutputRoot, outputs: map<Name, Bytes>)
    returns (outcome: Outcome, ghost staged: map<Name, Entry>)
    requires root.InodesBelow() && Publishable(root.files, outputs)
    requires OnlyFault(root.fails, root.calls + 20 + Existing(root.files, 5))
    modifies root
    ensures outcome == RolledBack && (forall n :: SameFile(Lookup(root.files, n), Lookup(old(root.files), n)))
    ensures exists k :: |old(root.trace)| <= k < |root.trace| && !CrashSafe(root.trace[k], staged)
  {
    hide CrashSafe;
    hide SameFile;
    hide Existing;
    hide OnlyFault;
    hide Smooth;
    hide ForwardRun;
    hide FailedRestores;
    hide AllOrdered;
    hide Untouched;
    ghost var c0, n := root.calls, root.calls + 20 + Existing(root.files, 5);
    ghost var replaced, forward, failed, turned;
    outcome, staged, replaced, forward, failed, turned := PublishOutputBytes(root, outputs);
    OneFault(root.fails, n, c0, n);
    assert root.fails(n) && !root.fails(c0) by { TheFault(root.fails, n); }
    FaultDecides(root.fails, c0, n - 12, turned, outcome == Published, replaced, n);
    OneFault(root.fails, n, turned, root.calls);
    assert Fixture(ErrorCases);
    assert !AllCrashSafe(root.trace, forward, staged);
  }

  /**
   After a complete rollback every output is the new file where its restore failed and the original
   file elsewhere.
   */
  lemma RestoredFiles(files: map<Name, Entry>, original: map<Name, Entry>, staged: map<Name, Entry>,
                      backups: map<Name, Entry>, states: States, m: nat, failed: set<Name>, base: nat)
    requires m <= 5 && Prepared(staged, backups, states, base, m) && Recorded(states, original)
    requires (forall n | n in failed :: Position(n) < m)
             && Unwound(files, original, staged, backups, states, m, 0, failed)
    ensures forall n :: if n in failed then IsNew(files, staged, n) else SameFile(Lookup(files, n), Lookup(original, n))
  {
    forall n ensures if n in failed then IsNew(files, staged, n) else SameFile(Lookup(files, n), Lookup(original, n)) {
      if Position(n) < m { assert Expected(n) && Ready(staged, backups, states, base, n); }
    }
  }
}
