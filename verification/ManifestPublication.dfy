/**
 The two-file attestation publish: the archived version 3 manifest is renamed into place
 first, the active version 4 manifest second, and a caught fault undoes them in the other
 order.  Any call may fail; a failed call has no effect.
 */
module ManifestPublication {
  import opened Options
  import opened CandidateAttestation

  const REGULAR_MODE := 0x1A4  // 0o644

  datatype File = File(ino: nat, blob: Blob, mode: nat)

  datatype Outcome = Published | Refused | RolledBack | RollbackFailed

  function Blobs(files: map<FileName, File>): Dir {
    map n | n in files :: files[n].blob
  }

  function Modes(files: map<FileName, File>): map<FileName, nat> {
    map n | n in files :: files[n].mode
  }

  /** An active version 4 manifest has the archived manifest it digests beside it. */
  predicate ArchiveBesideActive(files: map<FileName, File>) {
    Manifest in files && files[Manifest].blob.ManifestV4?
    ==> Historical in files && files[Manifest].blob.historical == Digest(files[Historical].blob)
  }

  /** No call from `a` up to `b` fails. */
  ghost predicate Smooth(fails: nat -> bool, a: nat, b: nat) {
    forall k | a <= k < b :: !fails(k)
  }

  /** At least two calls from `a` on fail. */
  ghost predicate TwoFaults(fails: nat -> bool, a: nat) {
    exists j, k :: a <= j < k && fails(j) && fails(k)
  }

  class BaselineRoot {
    var files: map<FileName, File>
    var nextInode: nat
    var calls: nat
    const fails: nat -> bool
    ghost var trace: seq<map<FileName, File>>

    constructor (files: map<FileName, File>, nextInode: nat, fails: nat -> bool)
      ensures this.files == files && this.nextInode == nextInode && this.fails == fails && trace == [] && calls == 0
    {
      this.files, this.nextInode, this.calls, this.fails, this.trace := files, nextInode, 0, fails, [];
    }

    method Call() returns (ok: bool)
      modifies this`calls
      ensures ok == !fails(old(calls)) && calls == old(calls) + 1
    {
      ok := !fails(calls);
      calls := calls + 1;
    }

    /** `write_staged_file`: a new inode with the fixed regular mode. */
    method Stage(blob: Blob) returns (ok: bool, f: File)
      modifies this`calls, this`nextInode
      ensures f == File(old(nextInode), blob, REGULAR_MODE) && nextInode == old(nextInode) + 1
      ensures ok == !fails(old(calls)) && calls == old(calls) + 1
    {
      f := File(nextInode, blob, REGULAR_MODE);
      nextInode := nextInode + 1;
      ok := Call();
    }

    method Replace(n: FileName, f: File) returns (ok: bool)
      modifies this`files, this`calls, this`trace
      ensures ok ==> files == old(files)[n := f] && trace == old(trace) + [files]
      ensures !ok ==> files == old(files) && trace == old(trace)
      ensures ok == !fails(old(calls)) && calls == old(calls) + 1
    {
      ok := Call();
      if ok {
        files := files[n := f];
        trace := trace + [files];
      }
    }

    method Unlink(n: FileName) returns (ok: bool)
      modifies this`files, this`calls, this`trace
      ensures ok ==> files == old(files) - {n} && trace == old(trace) + [files]
      ensures !ok ==> files == old(files) && trace == old(trace)
      ensures ok == !fails(old(calls)) && calls == old(calls) + 1
    {
      ok := Call();
      if ok {
        files := files - {n};
        trace := trace + [files];
      }
    }
  }

  /** Puts the backup back before removing the archive; stops at the first failure. */
  method RollBack(root: BaselineRoot, backup: File, manifestPublished: bool, historicalPublished: bool)
    returns (ok: bool)
    modifies root`files, root`calls, root`trace
    ensures ok ==> root.files ==
                   var files := if manifestPublished then old(root.files)[Manifest := backup] else old(root.files);
                   if historicalPublished then files - {Historical} else files
    ensures old(root.trace) <= root.trace
    ensures (forall k | |old(root.trace)| <= k < |root.trace| ::
               || root.trace[k] == old(root.files)[Manifest := backup]
               || root.trace[k] == old(root.files)[Manifest := backup] - {Historical}
               || (!manifestPublished && root.trace[k] == old(root.files) - {Historical}))
    ensures ok <==> Smooth(root.fails, old(root.calls), old(root.calls)
                           + (if manifestPublished then 1 else 0) + if historicalPublished then 1 else 0)
    ensures !ok ==> exists k :: k >= old(root.calls) && root.fails(k)
  {
    ok := true;
    if manifestPublished {
      ok := root.Replace(Manifest, backup);
      if !ok { return; }
    }
    if historicalPublished {
      ok := root.Unlink(Historical);
    }
  }

  /** The directory the bundle is validated in before anything is renamed. */
  function Preview(files: map<FileName, File>, historicalRaw: Blob, manifestRaw: Blob): Dir {
    (map n | n in files && n in FIXTURES :: files[n].blob)[Historical := historicalRaw][Manifest := manifestRaw]
  }

  /** Both renames lead to a valid committed directory. */
  predicate PairIsValid(files: map<FileName, File>, historical: File, manifest: File) {
    ValidCommittedDirectory(Blobs(files[Historical := historical][Manifest := manifest]))
  }

  /** The two renames with the identity check between them, then validation in place. */
  method ReplacePair(root: BaselineRoot, stagedHistorical: File, stagedManifest: File, inode: nat)
    returns (ok: bool, historicalPublished: bool, manifestPublished: bool)
    modifies root`files, root`calls, root`trace
    ensures manifestPublished ==> historicalPublished
    ensures root.files
              == if manifestPublished then old(root.files)[Historical := stagedHistorical][Manifest := stagedManifest]
                          else if historicalPublished then old(root.files)[Historical := stagedHistorical]
                          else old(root.files)
    ensures ok ==> manifestPublished && ValidCommittedDirectory(Blobs(root.files))
    ensures old(root.trace) <= root.trace
    ensures forall k | |old(root.trace)| <= k < |root.trace| ::
              || root.trace[k] == old(root.files)[Historical := stagedHistorical]
              || root.trace[k] == old(root.files)[Historical := stagedHistorical][Manifest := stagedManifest]
    ensures historicalPublished <==> root.trace != old(root.trace)
    ensures (&& Manifest in old(root.files) && old(root.files)[Manifest].ino == inode) ==>
              && (historicalPublished <==> !root.fails(old(root.calls)))
              && (manifestPublished <==> Smooth(root.fails, old(root.calls), old(root.calls) + 3))
              && (ok <==> (&& Smooth(root.fails, old(root.calls), old(root.calls) + 4)
                           && PairIsValid(old(root.files), stagedHistorical, stagedManifest)))
              && (manifestPublished ==> root.calls == old(root.calls) + 4)
              && (!manifestPublished ==> exists k :: old(root.calls) <= k < root.calls && root.fails(k))
  {
    historicalPublished, manifestPublished := false, false;
    ok := root.Replace(Historical, stagedHistorical);
    if !ok { return; }
    historicalPublished := true;
    ok := root.Call();
    ok := ok && Manifest in root.files && root.files[Manifest].ino == inode;
    if !ok { return; }
    ok := root.Replace(Manifest, stagedManifest);
    if !ok { return; }
    manifestPublished := true;
    ok := root.Call();
    ok := ok && ValidCommittedDirectory(Blobs(root.files));
  }

  lemma UndoneFiles(original: map<FileName, File>, files: map<FileName, File>, backup: File, replaced: bool)
    requires Manifest in original && original[Manifest].blob == backup.blob && backup.mode == REGULAR_MODE
    requires files == if replaced then original[Manifest := backup] else original
    ensures Blobs(files) == Blobs(original)
    ensures Modes(files) == Modes(original) <==> !replaced || original[Manifest].mode == REGULAR_MODE
  {
    assert Modes(files)[Manifest] == if replaced then REGULAR_MODE else Modes(original)[Manifest];
  }

  /** A valid version 3 directory whose two new manifests make a valid committed one. */
  ghost predicate Attestable(d: Dir, historicalRaw: Blob, manifestRaw: Blob) {
    && ValidBaselineDirectory(d) && d[Manifest] == historicalRaw
    && ValidCommittedDirectory(d[Historical := historicalRaw][Manifest := manifestRaw])
  }

  lemma BlobsOfPair(files: map<FileName, File>, h: File, m: File)
    ensures Blobs(files[Historical := h][Manifest := m]) == Blobs(files)[Historical := h.blob][Manifest := m.blob]
  {
  }

  lemma PreviewOfBaseline(files: map<FileName, File>, historicalRaw: Blob, manifestRaw: Blob)
    requires files.Keys == {ToolCatalog, Resources, ResultCases, ErrorCases, Manifest}
    ensures Preview(files, historicalRaw, manifestRaw)
              == Blobs(files)[Historical := historicalRaw][Manifest := manifestRaw]
  {
    assert forall n :: n in FIXTURES <==> n in {ToolCatalog, Resources, ResultCases, ErrorCases};
  }

  lemma AttestableFiles(files: map<FileName, File>, historicalRaw: Blob, manifestRaw: Blob)
    requires Attestable(Blobs(files), historicalRaw, manifestRaw)
    ensures Manifest in files && Historical !in files
    ensures ValidCommittedDirectory(Preview(files, historicalRaw, manifestRaw))
    ensures ValidCommittedDirectory(Blobs(files)[Historical := historicalRaw][Manifest := manifestRaw])
  {
    hide ValidCommittedDirectory;
    hide ValidV3;
    assert Blobs(files).Keys == files.Keys;
    PreviewOfBaseline(files, historicalRaw, manifestRaw);
  }

  /** The manifest that the candidate writer builds is such a pair. */
  lemma BuiltManifestIsAttestable(d: Dir, candidate: Identity)
    requires ValidBaselineDirectory(d)
    ensures Attestable(d, d[Manifest], BuildManifest(d, candidate))
  {
    ManifestIsValid(d, candidate);
  }

  /** Validates the bundle outside the output root before anything is renamed. */
  method ValidatePreview(root: BaselineRoot, historicalRaw: Blob, manifestRaw: Blob) returns (ok: bool)
    modifies root`calls
    ensures ok ==>
              historicalRaw.ManifestV3? && manifestRaw.ManifestV4? && manifestRaw.historical == Digest(historicalRaw)
    ensures ok <==>
            !root.fails(old(root.calls)) && ValidCommittedDirectory(Preview(root.files, historicalRaw, manifestRaw))
    ensures root.calls == old(root.calls) + 1
  {
    ok := root.Call();
    ok := ok && ValidCommittedDirectory(Preview(root.files, historicalRaw, manifestRaw));
  }

  /** Everything before the first rename: the checks, the three staged files, and the preview. */
  method StageManifests(root: BaselineRoot, historicalRaw: Blob, manifestRaw: Blob)
    returns (ok: bool, stagedHistorical: File, stagedManifest: File, backup: File)
    modifies root`calls, root`nextInode
    ensures ok ==>
              && Manifest in root.files && Historical !in root.files
              && stagedHistorical.blob == backup.blob == historicalRaw && backup.mode == REGULAR_MODE
              && stagedManifest.blob == manifestRaw && root.calls == old(root.calls) + 5
              && historicalRaw.ManifestV3? && manifestRaw.ManifestV4? && manifestRaw.historical == Digest(historicalRaw)
    ensures ok <==>
              && Manifest in root.files && Historical !in root.files
              && ValidCommittedDirectory(Preview(root.files, historicalRaw, manifestRaw))
              && Smooth(root.fails, old(root.calls), old(root.calls) + 5)
  {
    hide ValidCommittedDirectory;
    hide Preview;
    stagedHistorical := File(0, historicalRaw, REGULAR_MODE);
    stagedManifest, backup := stagedHistorical, stagedHistorical;
    ok := root.Call();
    ok := ok && Manifest in root.files && Historical !in root.files;
    if !ok { return; }
    ok, stagedHistorical := root.Stage(historicalRaw);
    if !ok { return; }
    ok, stagedManifest := root.Stage(manifestRaw);
    if !ok { return; }
    ok, backup := root.Stage(historicalRaw);
    if !ok { return; }
    ok := ValidatePreview(root, historicalRaw, manifestRaw);
  }

  /** Renames the validated pair and undoes it on a caught fault. */
  method CommitPair(root: BaselineRoot, stagedHistorical: File, stagedManifest: File, backup: File)
    returns (outcome: Outcome, ghost replaced: bool)
    requires Manifest in root.files && Historical !in root.files
    requires root.files[Manifest].blob == backup.blob == stagedHistorical.blob && backup.mode == REGULAR_MODE
    requires backup.blob.ManifestV3? && stagedManifest.blob.ManifestV4?
             && stagedManifest.blob.historical == Digest(backup.blob)
    modifies root`files, root`calls, root`trace
    ensures outcome == Published ==>
              && ValidCommittedDirectory(Blobs(root.files))
              && root.files == old(root.files)[Historical := stagedHistorical][Manifest := stagedManifest]
    ensures outcome != Refused
    ensures outcome == RolledBack ==>
              && Blobs(root.files) == Blobs(old(root.files))
              && (Modes(root.files) == Modes(old(root.files)) <==>
                  (!replaced || old(root.files)[Manifest].mode == REGULAR_MODE))
    ensures old(root.trace) <= root.trace
    ensures forall k | |old(root.trace)| <= k < |root.trace| :: ArchiveBesideActive(root.trace[k])
    ensures replaced <==> Smooth(root.fails, old(root.calls), old(root.calls) + 3)
    ensures PairIsValid(old(root.files), stagedHistorical, stagedManifest) ==>
              && (outcome == Published <==> Smooth(root.fails, old(root.calls), old(root.calls) + 4))
              && (outcome == RollbackFailed ==> TwoFaults(root.fails, old(root.calls)))
  {
    var ok, historicalPublished, manifestPublished :=
      ReplacePair(root, stagedHistorical, stagedManifest, root.files[Manifest].ino);
    replaced := manifestPublished;
    if ok {
      outcome := Published;
      return;
    }
    var undone := RollBack(root, backup, manifestPublished, historicalPublished);
    outcome := if undone then RolledBack else RollbackFailed;
    if undone { UndoneFiles(old(root.files), root.files, backup, replaced); }
  }

  /**
   `replaced` tells whether the active manifest had been renamed when a fault was caught.
   A completed rollback restores every document; it restores every mode exactly when the
   active manifest was not yet replaced or already had the fixed regular mode, because the
   backup is written with that mode.
   */
  method PublishCommittedManifests(root: BaselineRoot, historicalRaw: Blob, manifestRaw: Blob)
    returns (outcome: Outcome, ghost replaced: bool)
    requires Manifest in root.files ==> root.files[Manifest].blob == historicalRaw
    modifies root
    ensures outcome == Published ==>
              && ValidCommittedDirectory(Blobs(root.files))
              && Blobs(root.files) == Blobs(old(root.files))[Historical := historicalRaw][Manifest := manifestRaw]
    ensures outcome == Refused ==> root.files == old(root.files) && root.trace == old(root.trace)
    ensures outcome == RolledBack ==>
              && Blobs(root.files) == Blobs(old(root.files)) && Manifest in old(root.files)
              && (Modes(root.files) == Modes(old(root.files)) <==>
                  (!replaced || old(root.files)[Manifest].mode == REGULAR_MODE))
    ensures old(root.trace) <= root.trace
    ensures forall k | |old(root.trace)| <= k < |root.trace| :: ArchiveBesideActive(root.trace[k])
    ensures Attestable(Blobs(old(root.files)), historicalRaw, manifestRaw) ==>
              && (outcome == Refused <==> !Smooth(root.fails, old(root.calls), old(root.calls) + 5))
              && (outcome == Published <==> Smooth(root.fails, old(root.calls), old(root.calls) + 9))
              && (replaced <==> Smooth(root.fails, old(root.calls), old(root.calls) + 8))
              && (outcome == RollbackFailed ==> TwoFaults(root.fails, old(root.calls)))
  {
    hide ValidCommittedDirectory;
    hide Attestable;
    hide Blobs;
    hide Modes;
    hide Preview;
    hide ArchiveBesideActive;
    if Attestable(Blobs(root.files), historicalRaw, manifestRaw) {
      AttestableFiles(root.files, historicalRaw, manifestRaw);
    }
    outcome, replaced := Refused, false;
    var ok, stagedHistorical, stagedManifest, backup := StageManifests(root, historicalRaw, manifestRaw);
    if !ok { return; }
    BlobsOfPair(root.files, stagedHistorical, stagedManifest);
    outcome, replaced := CommitPair(root, stagedHistorical, stagedManifest, backup);
  }

  /**
   A run on every attestable directory in which only the last validation fails: the rollback
   completes and restores every document, and it loses the manifest's mode unless that was 0644.
   */
  method UndoneModeCanDiffer(root: BaselineRoot, historicalRaw: Blob, manifestRaw: Blob) returns (outcome: Outcome)
    requires Attestable(Blobs(root.files), historicalRaw, manifestRaw)
    requires forall k | k >= root.calls :: root.fails(k) <==> k == root.calls + 8
    modifies root
    ensures outcome == RolledBack && Blobs(root.files) == Blobs(old(root.files))
    ensures Manifest in old(root.files)
    ensures Modes(root.files) == Modes(old(root.files)) <==> old(root.files)[Manifest].mode == REGULAR_MODE
  {
    AttestableFiles(root.files, historicalRaw, manifestRaw);
    assert root.files[Manifest].blob == historicalRaw;
    hide Attestable;
    hide Blobs;
    hide Modes;
    ghost var replaced;
    outcome, replaced := PublishCommittedManifests(root, historicalRaw, manifestRaw);
    assert root.fails(old(root.calls) + 8);
  }

  /** A valid version 3 directory: the tools, and one captured case. */
  function OneCase(): Dir {
    var d: Dir := map[ToolCatalog := Fixture(Ids(TOOLS)), Resources := Fixture({0}), ResultCases := Fixture({}),
                      ErrorCases := Fixture({})];
    var entries := [FixtureEntry(ToolCatalog, Digest(d[ToolCatalog])), FixtureEntry(Resources, Digest(d[Resources])),
                    FixtureEntry(ResultCases, Digest(d[ResultCases])), FixtureEntry(ErrorCases, Digest(d[ErrorCases]))];
    d[Manifest := ManifestV3(CaptureInput(0, 0, 0, 0, true, true), entries, TOOLS, [0])]
  }

  lemma OneCaseIsValid()
    ensures ValidBaselineDirectory(OneCase())
  {
    hide Ids;
    assert Ids([0]) == {0} by { OneId(); }
  }

  lemma OneId()
    ensures Ids([0]) == {0}
  {
  }

  /** That run on one directory, whose manifest is kept at mode 0600. */
  method PrivateManifestLosesItsMode(candidate: Identity)
    returns (outcome: Outcome, root: BaselineRoot, before: map<FileName, File>)
    ensures outcome == RolledBack && Manifest in before && before[Manifest].mode == 0x180
    ensures ValidBaselineDirectory(Blobs(before)) && Blobs(root.files) == Blobs(before)
            && Modes(root.files) != Modes(before)
  {
    OneCaseIsValid();
    hide ValidBaselineDirectory;
    var d := OneCase();
    BuiltManifestIsAttestable(d, candidate);
    before := map n | n in d :: File(0, d[n], 0x180);
    assert Blobs(before) == d && Manifest in before;
    hide Attestable;
    hide Blobs;
    hide Modes;
    hide OneCase;
    root := new BaselineRoot(before, 1, k => k == 8);
    outcome := UndoneModeCanDiffer(root, d[Manifest], BuildManifest(d, candidate));
  }
}
