/**
 The committed-candidate attestation: a clean commit with a version 3 manifest is named by
 a version 4 manifest, which is committed as the only child of that commit.  The model is a
 commit graph over trees of parsed documents; a digest is the document it was taken from.
 */
module CandidateAttestation {
  import opened Options

  /** Identifiers of tools and cases, numbered in their sorted order. */
  type Id = nat

  datatype FileName = ToolCatalog | Resources | ResultCases | ErrorCases | Manifest | Historical | Extra(text: string)

  const FIXTURES: seq<FileName> := [ToolCatalog, Resources, ResultCases, ErrorCases]
  const TOOLS: seq<Id> := [0, 1, 2, 3, 4, 5, 6, 7]

  /** A repository path: a file of the baseline directory, of the source tree, or any other. */
  datatype Path = Baseline(name: FileName) | Source(text: string) | Elsewhere(text: string)

  const ATTESTATION_PATHS: set<Path> := {Baseline(Manifest), Baseline(Historical)}

  datatype Digest = Digest(of: Blob)

  datatype FixtureEntry = FixtureEntry(path: FileName, sha256: Digest)

  /** What the capture recorded about its input, as far as the validator looks at it. */
  datatype CaptureInput = CaptureInput(
    recoveryTree: nat, transitionTree: nat, treeBefore: nat, treeAfter: nat, exclusionsExact: bool,
    untrackedExact: bool)

  datatype Blob =
    | ManifestV3(input: CaptureInput, entries: seq<FixtureEntry>, tools: seq<Id>, cases: seq<Id>)
    | ManifestV4(candidate: Identity, historical: Digest, fixtures: seq<FixtureEntry>, toolNames: seq<Id>,
                 caseIds: seq<Id>, allowed: set<Path>)
    | Fixture(keys: set<Id>)
    | Unreadable(id: nat)

  datatype Identity = Identity(commit: nat, tree: nat, src: nat)

  type Tree = map<Path, Blob>
  type Dir = map<FileName, Blob>

  datatype Commit = Commit(tree: Tree, treeId: nat, srcId: nat, parents: seq<nat>)

  datatype Repository = Repository(commits: map<nat, Commit>, head: nat, worktree: Tree) {
    ghost predicate Valid() { head in commits }
    predicate Clean() requires head in commits { worktree == commits[head].tree }
  }

  function IdentityOf(commits: map<nat, Commit>, c: nat): Checked<Identity> {
    if c in commits then Ok(Identity(c, commits[c].treeId, commits[c].srcId)) else Raised
  }

  function BaselineDir(t: Tree): Dir {
    map p | p in t && p.Baseline? :: p.name := t[p]
  }

  // ----------------------------------------------------------------- validators

  predicate StrictlySorted(s: seq<Id>) {
    forall i, j | 0 <= i < j < |s| :: s[i] < s[j]
  }

  const MAX_CASES := 512

  /** The case identifiers a manifest may list: at least one, at most 512, sorted and unique. */
  predicate CaseList(cases: seq<Id>) {
    1 <= |cases| <= MAX_CASES && StrictlySorted(cases)
  }

  function Ids(s: seq<Id>): set<Id> { set x | x in s }

  function Load(d: Dir, n: FileName): Checked<set<Id>> {
    if n in d && d[n].Fixture? then Ok(d[n].keys) else Raised
  }

  /** The case identifiers of the three case files, which must not overlap. */
  function CapturedCases(d: Dir): Checked<set<Id>> {
    match (Load(d, ToolCatalog), Load(d, Resources), Load(d, ResultCases), Load(d, ErrorCases))
    case (Ok(_), Ok(a), Ok(b), Ok(c)) =>
      if a !! b && (a + b) !! c then Ok(a + b + c) else Raised
    case _ => Raised
  }

  predicate EntriesMatch(entries: seq<FixtureEntry>, d: Dir) {
    && |entries| == |FIXTURES|
    && (forall k | 0 <= k < |FIXTURES| ::
          && entries[k].path == FIXTURES[k]
          && FIXTURES[k] in d && entries[k].sha256 == Digest(d[FIXTURES[k]]))
  }

  /** The checks shared by an active and an archived version 3 manifest. */
  predicate ValidV3(m: Blob, d: Dir) {
    && m.ManifestV3?
    && m.input.recoveryTree == m.input.transitionTree && m.input.treeBefore == m.input.treeAfter
    && m.input.exclusionsExact && m.input.untrackedExact
    && m.tools == TOOLS && CaseList(m.cases)
    && Load(d, ToolCatalog) == Ok(Ids(TOOLS))
    && CapturedCases(d) == Ok(Ids(m.cases))
    && EntriesMatch(m.entries, d)
  }

  predicate ValidBaselineDirectory(d: Dir) {
    && d.Keys == {ToolCatalog, Resources, ResultCases, ErrorCases, Manifest}
    && ValidV3(d[Manifest], d)
  }

  predicate ValidCommittedDirectory(d: Dir) {
    && d.Keys == {ToolCatalog, Resources, ResultCases, ErrorCases, Historical, Manifest}
    && ValidV3(d[Historical], d)
    && var m := d[Manifest];
       && m.ManifestV4?
       && m.toolNames == TOOLS
       && CaseList(m.caseIds) && CapturedCases(d) == Ok(Ids(m.caseIds))
       && m.caseIds == d[Historical].cases
       && m.allowed == ATTESTATION_PATHS
       && m.historical == Digest(d[Historical])
       && EntriesMatch(m.fixtures, d)
  }

  // ----------------------------------------------------------- writing a manifest

  function BuildManifest(d: Dir, candidate: Identity): Blob
    requires ValidBaselineDirectory(d)
  {
    ManifestV4(candidate, Digest(d[Manifest]),
               seq(|FIXTURES|, k requires 0 <= k < |FIXTURES| => FixtureEntry(FIXTURES[k], Digest(d[FIXTURES[k]]))),
               d[Manifest].tools, d[Manifest].cases, ATTESTATION_PATHS)
  }

  /** The working tree after a successful write; fixtures are never rewritten. */
  function WriteCandidateManifest(r: Repository): Checked<Tree>
    requires r.Valid()
  {
    var d := BaselineDir(r.worktree);
    if !r.Clean() || !ValidBaselineDirectory(d) then Raised
    else
      var candidate := Identity(r.head, r.commits[r.head].treeId, r.commits[r.head].srcId);
      Ok(r.worktree[Baseline(Historical) := d[Manifest]][Baseline(Manifest) := BuildManifest(d, candidate)])
  }

  /** Commits the whole working tree as the only child of HEAD. */
  function CommitWorktree(r: Repository, id: nat, treeId: nat, srcId: nat, worktree: Tree): Repository {
    Repository(r.commits[id := Commit(worktree, treeId, srcId, [r.head])], id, worktree)
  }

  // ---------------------------------------------------------------- verification

  /** The paths at which two trees differ. */
  function Delta(a: Tree, b: Tree): set<Path> {
    set p | p in a.Keys + b.Keys && (p !in a || p !in b || a[p] != b[p])
  }

  function VerifyAttestation(r: Repository): Checked<Blob>
    requires r.Valid()
  {
    var d := BaselineDir(r.worktree);
    if !ValidCommittedDirectory(d) || !r.Clean() then Raised
    else
      var manifest, head := d[Manifest], r.commits[r.head];
      if |head.parents| != 1 || head.parents[0] != manifest.candidate.commit then Raised
      else if IdentityOf(r.commits, manifest.candidate.commit) != Ok(manifest.candidate) then Raised
      else
        var delta := Delta(r.commits[manifest.candidate.commit].tree, head.tree);
        if Baseline(Manifest) !in delta || !(delta <= ATTESTATION_PATHS) then Raised
        else Ok(manifest)
  }

  /** The two trees hold the same thing at `p`. */
  predicate Agree(a: Tree, b: Tree, p: Path) {
    (p in a <==> p in b) && (p in a ==> a[p] == b[p])
  }

  lemma DeltaIsDisagreement(a: Tree, b: Tree, p: Path)
    ensures p in Delta(a, b) <==> !Agree(a, b, p)
  {
  }

  /**
   An accepted HEAD is the single child of the candidate its manifest names, with that
   candidate's recorded identity, and differs from it in no path outside the two manifests:
   the source tree and every fixture are the candidate's.
   */
  lemma AttestationIsSound(r: Repository)
    requires r.Valid() && VerifyAttestation(r).Ok?
    ensures var m := VerifyAttestation(r).value;
            && m.ManifestV4? && m.candidate.commit in r.commits
            && r.commits[r.head].parents == [m.candidate.commit]
            && var head, candidate := r.commits[r.head], r.commits[m.candidate.commit];
               && m.candidate == Identity(m.candidate.commit, candidate.treeId, candidate.srcId)
               && r.worktree == head.tree
               && (forall p | p !in ATTESTATION_PATHS :: Agree(candidate.tree, head.tree, p))
               && (forall text :: Agree(candidate.tree, head.tree, Source(text)))
               && !Agree(candidate.tree, head.tree, Baseline(Manifest))
               && (forall k | 0 <= k < |FIXTURES| ::
                     && Baseline(FIXTURES[k]) in candidate.tree
                     && k < |m.fixtures|
                     && m.fixtures[k] == FixtureEntry(FIXTURES[k], Digest(candidate.tree[Baseline(FIXTURES[k])])))
               && Baseline(Historical) in head.tree && m.historical == Digest(head.tree[Baseline(Historical)])
               && ValidV3(head.tree[Baseline(Historical)], BaselineDir(head.tree))
  {
    var m := VerifyAttestation(r).value;
    var head, candidate := r.commits[r.head].tree, r.commits[m.candidate.commit].tree;
    forall p | p !in ATTESTATION_PATHS ensures Agree(candidate, head, p) {
      DeltaIsDisagreement(candidate, head, p);
    }
    DeltaIsDisagreement(candidate, head, Baseline(Manifest));
    forall k | 0 <= k < |FIXTURES|
      ensures Baseline(FIXTURES[k]) in candidate
      ensures m.fixtures[k] == FixtureEntry(FIXTURES[k], Digest(candidate[Baseline(FIXTURES[k])]))
    {
      assert Agree(candidate, head, Baseline(FIXTURES[k]));
      assert FIXTURES[k] in BaselineDir(head);
    }
  }

  lemma ManifestIsValid(d: Dir, candidate: Identity)
    requires ValidBaselineDirectory(d)
    ensures ValidCommittedDirectory(d[Historical := d[Manifest]][Manifest := BuildManifest(d, candidate)])
  {
    var built := BuildManifest(d, candidate);
    var d' := d[Historical := d[Manifest]][Manifest := built];
    assert forall n | n in FIXTURES :: n in d && d'[n] == d[n];
    assert CapturedCases(d') == CapturedCases(d);
    assert EntriesMatch(d[Manifest].entries, d');
    assert EntriesMatch(built.fixtures, d');
  }

  lemma WrittenDirectory(r: Repository)
    requires r.Valid() && WriteCandidateManifest(r).Ok?
    ensures var d, d' := BaselineDir(r.worktree), BaselineDir(WriteCandidateManifest(r).value);
            var candidate := Identity(r.head, r.commits[r.head].treeId, r.commits[r.head].srcId);
            && ValidBaselineDirectory(d)
            && d' == d[Historical := d[Manifest]][Manifest := BuildManifest(d, candidate)]
            && ValidCommittedDirectory(d')
  {
    var d, t' := BaselineDir(r.worktree), WriteCandidateManifest(r).value;
    var candidate := Identity(r.head, r.commits[r.head].treeId, r.commits[r.head].srcId);
    ManifestIsValid(d, candidate);
    hide ValidCommittedDirectory;
    hide ValidBaselineDirectory;
    hide BuildManifest;
    assert BaselineDir(t') == d[Historical := d[Manifest]][Manifest := BuildManifest(d, candidate)];
  }

  /**
   On a clean commit with a valid version 3 directory the write succeeds, and committing just
   the written files as the only child of that commit is always accepted.
   */
  lemma AttestationIsComplete(r: Repository, id: nat, treeId: nat, srcId: nat)
    requires r.Valid() && r.Clean() && ValidBaselineDirectory(BaselineDir(r.worktree)) && id !in r.commits
    ensures WriteCandidateManifest(r).Ok?
    ensures var r' := CommitWorktree(r, id, treeId, srcId, WriteCandidateManifest(r).value);
            r'.Valid() && VerifyAttestation(r') == Ok(BaselineDir(r'.worktree)[Manifest])
  {
    var t' := WriteCandidateManifest(r).value;
    var r' := CommitWorktree(r, id, treeId, srcId, t');
    WrittenDirectory(r);
    var d := BaselineDir(r.worktree);
    var candidate := r'.commits[r.head].tree;
    assert candidate == r.worktree;
    forall p | p in Delta(candidate, t') ensures p in ATTESTATION_PATHS { DeltaIsDisagreement(candidate, t', p); }
    assert Manifest in d && d[Manifest].ManifestV3?;
    DeltaIsDisagreement(candidate, t', Baseline(Manifest));
  }

  /** A second write is rejected, both before the manifests are committed and after. */
  lemma SecondWriteIsRejected(r: Repository, id: nat, treeId: nat, srcId: nat)
    requires r.Valid() && WriteCandidateManifest(r).Ok? && id !in r.commits
    ensures var t' := WriteCandidateManifest(r).value;
            && WriteCandidateManifest(r.(worktree := t')).Raised?
            && WriteCandidateManifest(CommitWorktree(r, id, treeId, srcId, t')).Raised?
  {
    WrittenDirectory(r);
    var t' := WriteCandidateManifest(r).value;
    assert Historical in BaselineDir(t');
  }

  // ------------------------------------------------- what acceptance says of the trees

  ghost predicate FixtureAt(t: Tree, n: FileName, keys: set<Id>) {
    Baseline(n) in t && t[Baseline(n)] == Fixture(keys)
  }

  /** One entry per fixture, in order, with the digest of the fixture that the tree holds. */
  ghost predicate DigestsOf(t: Tree, entries: seq<FixtureEntry>) {
    && |entries| == 4
    && (forall k | 0 <= k < 4 ::
          Baseline(FIXTURES[k]) in t && entries[k] == FixtureEntry(FIXTURES[k], Digest(t[Baseline(FIXTURES[k])])))
  }

  /** The listed cases, sorted and 1 to 512 of them, are the keys of the three case files, which share none. */
  ghost predicate CasesOf(t: Tree, cases: seq<Id>) {
    && 1 <= |cases| <= 512 && (forall i, j | 0 <= i < j < |cases| :: cases[i] < cases[j])
    && exists a, b, c ::
         && FixtureAt(t, Resources, a) && FixtureAt(t, ResultCases, b) && FixtureAt(t, ErrorCases, c)
         && AreTheKeys(cases, a, b, c)
  }

  /** The three sets share no key, and the list has the keys of all three. */
  ghost predicate AreTheKeys(cases: seq<Id>, a: set<Id>, b: set<Id>, c: set<Id>) {
    && a * b == {} && a * c == {} && b * c == {}
    && (forall id | id in cases :: id in a || id in b || id in c)
    && (forall id | id in a :: id in cases) && (forall id | id in b :: id in cases)
    && (forall id | id in c :: id in cases)
  }

  lemma UnionIsKeys(cases: seq<Id>, a: set<Id>, b: set<Id>, c: set<Id>)
    ensures AreTheKeys(cases, a, b, c) <==> a !! b && (a + b) !! c && a + b + c == Ids(cases)
  {
    if a !! b && (a + b) !! c && a + b + c == Ids(cases) {
      forall id | id in cases ensures id in a || id in b || id in c { assert id in Ids(cases); }
      forall id | id in a ensures id in cases { assert id in Ids(cases); }
      forall id | id in b ensures id in cases { assert id in Ids(cases); }
      forall id | id in c ensures id in cases { assert id in Ids(cases); }
      assert a * b == {} && a * c == {} && b * c == {};
    }
    if AreTheKeys(cases, a, b, c) {
      forall id | id in a ensures id !in b && id !in c { assert id !in a * b && id !in a * c; }
      forall id | id in b ensures id !in c { assert id !in b * c; }
      assert a + b + c == Ids(cases);
    }
  }

  function FirstEight(): set<Id> { {0, 1, 2, 3, 4, 5, 6, 7} }

  ghost predicate ToolsOf(t: Tree, tools: seq<Id>) {
    tools == [0, 1, 2, 3, 4, 5, 6, 7] && FixtureAt(t, ToolCatalog, FirstEight())
  }

  /** The version 3 manifest `m` describes the fixtures of the tree, and its own records agree. */
  ghost predicate Describes(m: Blob, t: Tree) {
    && m.ManifestV3?
    && m.input.recoveryTree == m.input.transitionTree && m.input.treeBefore == m.input.treeAfter
    && m.input.exclusionsExact && m.input.untrackedExact
    && ToolsOf(t, m.tools) && CasesOf(t, m.cases) && DigestsOf(t, m.entries)
  }

  lemma EntriesAreDigests(t: Tree, entries: seq<FixtureEntry>)
    ensures EntriesMatch(entries, BaselineDir(t)) <==> DigestsOf(t, entries)
  {
    assert |FIXTURES| == 4;
    forall k | 0 <= k < 4 ensures FIXTURES[k] in BaselineDir(t) <==> Baseline(FIXTURES[k]) in t { }
    if EntriesMatch(entries, BaselineDir(t)) {
      forall k | 0 <= k < 4
        ensures Baseline(FIXTURES[k]) in t && entries[k] == FixtureEntry(FIXTURES[k], Digest(t[Baseline(FIXTURES[k])]))
      {
        assert FIXTURES[k] in BaselineDir(t);
      }
    }
  }

  lemma LoadIsFixture(t: Tree, n: FileName, keys: set<Id>)
    ensures Load(BaselineDir(t), n) == Ok(keys) <==> FixtureAt(t, n, keys)
  {
    assert n in BaselineDir(t) <==> Baseline(n) in t;
  }

  lemma ToolsAreEight()
    ensures TOOLS == [0, 1, 2, 3, 4, 5, 6, 7] && Ids(TOOLS) == FirstEight()
  {
    forall x | x in FirstEight() ensures x in TOOLS { assert TOOLS[x] == x; }
    assert forall x | x in TOOLS :: x in FirstEight();
  }

  /** Given a readable tool catalog, the captured cases are the keys of three files that share none. */
  lemma CapturedAreCases(t: Tree, cases: seq<Id>)
    requires FixtureAt(t, ToolCatalog, FirstEight())
    ensures CaseList(cases) && CapturedCases(BaselineDir(t)) == Ok(Ids(cases)) <==> CasesOf(t, cases)
  {
    var d := BaselineDir(t);
    LoadIsFixture(t, ToolCatalog, FirstEight());
    if CaseList(cases) && CapturedCases(d) == Ok(Ids(cases)) {
      var a, b, c := Load(d, Resources).value, Load(d, ResultCases).value, Load(d, ErrorCases).value;
      LoadIsFixture(t, Resources, a);
      LoadIsFixture(t, ResultCases, b);
      LoadIsFixture(t, ErrorCases, c);
      hide FixtureAt;
      hide Load;
      UnionIsKeys(cases, a, b, c);
    }
    if CasesOf(t, cases) {
      var a, b, c :| && FixtureAt(t, Resources, a) && FixtureAt(t, ResultCases, b) && FixtureAt(t, ErrorCases, c)
                     && AreTheKeys(cases, a, b, c);
      LoadIsFixture(t, Resources, a);
      LoadIsFixture(t, ResultCases, b);
      LoadIsFixture(t, ErrorCases, c);
      hide FixtureAt;
      hide Load;
      UnionIsKeys(cases, a, b, c);
    }
  }

  lemma ValidV3Exactly(m: Blob, t: Tree)
    ensures ValidV3(m, BaselineDir(t)) <==> Describes(m, t)
  {
    ToolsAreEight();
    LoadIsFixture(t, ToolCatalog, FirstEight());
    hide FixtureAt;
    hide Load;
    hide Ids;
    hide CapturedCases;
    hide CaseList;
    hide CasesOf;
    hide EntriesMatch;
    hide DigestsOf;
    if m.ManifestV3? {
      EntriesAreDigests(t, m.entries);
      if FixtureAt(t, ToolCatalog, FirstEight()) { CapturedAreCases(t, m.cases); }
    }
  }

  /** The baseline directory of the tree holds exactly these files. */
  ghost predicate HoldsExactly(t: Tree, names: set<FileName>) {
    forall n :: Baseline(n) in t <==> n in names
  }

  lemma KeysAreNames(t: Tree, names: set<FileName>)
    ensures BaselineDir(t).Keys == names <==> HoldsExactly(t, names)
  {
    forall n ensures n in BaselineDir(t) <==> Baseline(n) in t { }
    if BaselineDir(t).Keys == names {
      forall n ensures Baseline(n) in t <==> n in names { assert n in BaselineDir(t).Keys <==> n in names; }
    }
  }

  /**
   The write succeeds exactly on a clean tree whose five baseline files are the fixtures and a
   manifest that describes them.
   */
  lemma WriteAcceptsExactly(r: Repository)
    requires r.Valid()
    ensures WriteCandidateManifest(r).Ok? <==>
            && r.worktree == r.commits[r.head].tree
            && HoldsExactly(r.worktree, {ToolCatalog, Resources, ResultCases, ErrorCases, Manifest})
            && Describes(r.worktree[Baseline(Manifest)], r.worktree)
  {
    var t := r.worktree;
    KeysAreNames(t, {ToolCatalog, Resources, ResultCases, ErrorCases, Manifest});
    if Baseline(Manifest) in t { ValidV3Exactly(t[Baseline(Manifest)], t); }
    hide ValidV3;
    hide Describes;
    hide BuildManifest;
  }

  /** The version 4 manifest `m` describes the fixtures of the tree and its archived manifest. */
  ghost predicate Attests(m: Blob, t: Tree) {
    && m.ManifestV4? && Baseline(Historical) in t && Describes(t[Baseline(Historical)], t)
    && m.historical == Digest(t[Baseline(Historical)]) && DigestsOf(t, m.fixtures)
    && m.toolNames == [0, 1, 2, 3, 4, 5, 6, 7] && m.caseIds == t[Baseline(Historical)].cases
    && m.allowed == {Baseline(Manifest), Baseline(Historical)}
  }

  lemma CommittedExactly(t: Tree)
    ensures ValidCommittedDirectory(BaselineDir(t)) <==>
            && HoldsExactly(t, {ToolCatalog, Resources, ResultCases, ErrorCases, Historical, Manifest})
            && Attests(t[Baseline(Manifest)], t)
  {
    var d := BaselineDir(t);
    KeysAreNames(t, {ToolCatalog, Resources, ResultCases, ErrorCases, Historical, Manifest});
    ToolsAreEight();
    hide Ids;
    hide CapturedCases;
    hide CaseList;
    hide EntriesMatch;
    hide DigestsOf;
    hide Describes;
    hide TOOLS;
    if HoldsExactly(t, {ToolCatalog, Resources, ResultCases, ErrorCases, Historical, Manifest}) {
      assert Baseline(Historical) in t && Baseline(Manifest) in t;
      ValidV3Exactly(t[Baseline(Historical)], t);
      if t[Baseline(Manifest)].ManifestV4? { EntriesAreDigests(t, t[Baseline(Manifest)].fixtures); }
    }
  }

  /**
   HEAD is accepted exactly when its tree is clean and holds the six files, its version 4 manifest
   and the archived one describe the fixtures, it is the only child of the candidate that manifest
   names with that candidate's identity, and it differs from it in the active manifest and at most
   the archived one.
   */
  lemma VerifyAcceptsExactly(r: Repository)
    requires r.Valid()
    ensures VerifyAttestation(r).Ok? <==>
            && r.worktree == r.commits[r.head].tree
            && HoldsExactly(r.worktree, {ToolCatalog, Resources, ResultCases, ErrorCases, Historical, Manifest})
            && Attests(r.worktree[Baseline(Manifest)], r.worktree)
            && var m := r.worktree[Baseline(Manifest)];
               && r.commits[r.head].parents == [m.candidate.commit] && m.candidate.commit in r.commits
               && var candidate := r.commits[m.candidate.commit];
                  && m.candidate == Identity(m.candidate.commit, candidate.treeId, candidate.srcId)
                  && !Agree(candidate.tree, r.worktree, Baseline(Manifest))
                  && forall p | p != Baseline(Manifest)
                     && p != Baseline(Historical) :: Agree(candidate.tree, r.worktree, p)
  {
    CommittedExactly(r.worktree);
    hide ValidCommittedDirectory;
    hide DigestsOf;
    hide Describes;
    if r.worktree == r.commits[r.head].tree && ValidCommittedDirectory(BaselineDir(r.worktree)) {
      var m := r.worktree[Baseline(Manifest)];
      assert BaselineDir(r.worktree)[Manifest] == m by { assert Manifest in BaselineDir(r.worktree); }
      if m.candidate.commit in r.commits {
        var candidate := r.commits[m.candidate.commit].tree;
        forall p ensures p in Delta(candidate, r.worktree) <==> !Agree(candidate, r.worktree, p) {
          DeltaIsDisagreement(candidate, r.worktree, p);
        }
        hide Delta;
        hide Agree;
        if Delta(candidate, r.worktree) <= ATTESTATION_PATHS {
          forall p | p != Baseline(Manifest) && p != Baseline(Historical) ensures Agree(candidate, r.worktree, p) {
            assert p !in ATTESTATION_PATHS;
          }
        }
      }
    }
  }

  /** The manifest that an accepted HEAD archives, and the active one, digest the candidate's own fixtures. */
  lemma AttestedFixturesAreTheCandidates(r: Repository)
    requires r.Valid() && VerifyAttestation(r).Ok?
    ensures var m := VerifyAttestation(r).value;
            && m.ManifestV4? && m.candidate.commit in r.commits && Baseline(Historical) in r.worktree
            && var t, archived := r.commits[m.candidate.commit].tree, r.worktree[Baseline(Historical)];
               m.historical == Digest(archived) && DigestsOf(t, m.fixtures) && Describes(archived, t)
  {
    VerifyAcceptsExactly(r);
    var m := r.worktree[Baseline(Manifest)];
    assert VerifyAttestation(r).value == m by { assert Manifest in BaselineDir(r.worktree); }
    SameFixtures(r.commits[m.candidate.commit].tree, r.worktree, r.worktree[Baseline(Historical)], m.fixtures);
  }

  /** Trees with the same four fixtures are described alike. */
  lemma SameFixtures(t: Tree, t': Tree, m: Blob, entries: seq<FixtureEntry>)
    requires forall k | 0 <= k < 4 :: Agree(t, t', Baseline(FIXTURES[k]))
    ensures Describes(m, t') ==> Describes(m, t)
    ensures DigestsOf(t', entries) ==> DigestsOf(t, entries)
  {
    assert Agree(t, t', Baseline(FIXTURES[0])) && Agree(t, t', Baseline(FIXTURES[1]));
    assert Agree(t, t', Baseline(FIXTURES[2])) && Agree(t, t', Baseline(FIXTURES[3]));
    if m.ManifestV3? && CasesOf(t', m.cases) {
      var a, b, c :| && FixtureAt(t', Resources, a) && FixtureAt(t', ResultCases, b) && FixtureAt(t', ErrorCases, c)
                     && AreTheKeys(m.cases, a, b, c);
      assert FixtureAt(t, Resources, a) && FixtureAt(t, ResultCases, b) && FixtureAt(t, ErrorCases, c);
    }
  }

  /**
   The archive need not be the candidate's own manifest: any version 3 manifest that describes the
   candidate's fixtures is accepted in its place.
   */
  lemma AnyDescribingArchiveIsAccepted(r: Repository, id: nat, treeId: nat, srcId: nat, archive: Blob)
    requires r.Valid() && WriteCandidateManifest(r).Ok? && id !in r.commits && Describes(archive, r.worktree)
    ensures var candidate := Identity(r.head, r.commits[r.head].treeId, r.commits[r.head].srcId);
            var m := ManifestV4(candidate, Digest(archive), archive.entries, archive.tools, archive.cases,
                                ATTESTATION_PATHS);
            var t := r.worktree[Baseline(Historical) := archive][Baseline(Manifest) := m];
            var r' := CommitWorktree(r, id, treeId, srcId, t);
            r'.Valid() && VerifyAttestation(r').Ok?
  {
    var candidate := Identity(r.head, r.commits[r.head].treeId, r.commits[r.head].srcId);
    var m := ManifestV4(candidate, Digest(archive), archive.entries, archive.tools, archive.cases, ATTESTATION_PATHS);
    var t := r.worktree[Baseline(Historical) := archive][Baseline(Manifest) := m];
    WriteAcceptsExactly(r);
    hide HoldsExactly;
    assert r.worktree[Baseline(Manifest)].ManifestV3?;
    ManifestsAdded(r.worktree, archive, m);
    hide Describes;
    hide DigestsOf;
    hide Agree;
    ToolsAreEight();
    assert Attests(m, t) by { DescribedAttests(r.worktree, t, archive, m); }
    hide Attests;
    VerifyAcceptsExactly(CommitWorktree(r, id, treeId, srcId, t));
  }

  lemma DescribedAttests(t: Tree, t': Tree, archive: Blob, m: Blob)
    requires Describes(archive, t) && (forall k | 0 <= k < 4 :: Agree(t', t, Baseline(FIXTURES[k])))
    requires Baseline(Historical) in t' && t'[Baseline(Historical)] == archive
    requires m.ManifestV4? && m.historical == Digest(archive) && m.fixtures == archive.entries
    requires m.toolNames == archive.tools && m.caseIds == archive.cases && m.allowed == ATTESTATION_PATHS
    ensures Attests(m, t')
  {
    SameFixtures(t', t, archive, archive.entries);
  }

  /** Adding the archive and replacing the manifest changes just these two paths. */
  lemma ManifestsAdded(t: Tree, archive: Blob, m: Blob)
    requires HoldsExactly(t, {ToolCatalog, Resources, ResultCases, ErrorCases, Manifest})
    requires Baseline(Manifest) in t && t[Baseline(Manifest)] != m
    ensures var t' := t[Baseline(Historical) := archive][Baseline(Manifest) := m];
            && HoldsExactly(t', {ToolCatalog, Resources, ResultCases, ErrorCases, Historical, Manifest})
            && !Agree(t, t', Baseline(Manifest))
            && (forall p | p != Baseline(Manifest) && p != Baseline(Historical) :: Agree(t, t', p))
            && (forall k | 0 <= k < 4 :: Agree(t', t, Baseline(FIXTURES[k])))
  {
    var t' := t[Baseline(Historical) := archive][Baseline(Manifest) := m];
    forall n
      ensures Baseline(n) in t' <==> n in {ToolCatalog, Resources, ResultCases, ErrorCases, Historical, Manifest}
    {
      assert Baseline(n) in t <==> n in {ToolCatalog, Resources, ResultCases, ErrorCases, Manifest};
    }
  }
}
