/**
 The candidate release decision: a list of blockers gathered over the selected matrix rows and
 their cited evidence, against a specification of the conditions a release must meet.
 Verifying evidence consults and extends the replay registry as the evaluation proceeds.
 */
module Release {
  import opened Options
  import opened Custody

  const L1_L2_REQUIREMENT_COUNT := 253
  const CANDIDATE_PROFILE := "alpic-metadata"
  const APPROVED_ABSENCE_EVIDENCE_KINDS: set<string> := {"design", "code_config", "test"}
  const SECONDS_PER_DAY := 86_400

  datatype Requirement = Requirement(id: string, level: nat, text: string)

  datatype Claim =
    | Applicable(verdict: string, evidenceIds: seq<string>, requiredKinds: seq<string>)
    | NotApplicable(absenceIds: seq<string>, reviewDue: nat)

  datatype Row = Row(profile: string, requirementId: string, level: nat, text: string, evidenceRevision: string,
                     assertedInvariant: string, claim: Claim)

  /** The candidate and what can verify evidence about it; local artefacts are checked by `localCheck`. */
  datatype Assessment = Assessment(
    revision: string, tree: string, asOf: Instant, template: Option<Context>, localCheck: (Reference, Context) -> bool,
    digest: SubjectDigest)

  datatype Blocker =
    | ProfileNotSupported | RequirementSetMismatch | RequirementSemanticsMismatch | DuplicateEvidenceId | RowNotPass
    | CandidateBinding | ProfileBinding | ClaimBinding | ExpiredEvidence | MissingClaimPurpose | Unverified
    | MissingAbsenceProof | WrongClaimPurpose | MissingRequiredEvidence | ExpiredReview | MissingEvidence

  function Day(t: Instant): nat { t / SECONDS_PER_DAY }

  function CitedIds(row: Row): seq<string> {
    match row.claim
    case Applicable(_, ids, _) => ids
    case NotApplicable(ids, _) => ids
  }

  /** The index by identifier; a later reference replaces an earlier one. */
  function Lookup(evidence: seq<Reference>, id: string): Option<Reference> {
    if evidence == [] then None
    else if evidence[|evidence| - 1].evidenceId == id then Some(evidence[|evidence| - 1])
    else Lookup(evidence[..|evidence| - 1], id)
  }

  function ContextFor(a: Assessment, row: Row, template: Context, r: Reference): Context {
    template.(evidenceRevision := a.revision, candidateTree := a.tree, requirementId := row.requirementId,
              profile := row.profile, assertedInvariant := row.assertedInvariant, coveredSurface := r.coveredSurface,
              asOf := a.asOf,
              claimPurpose := if row.claim.NotApplicable? then "absence-proof" else "positive-control")
  }

  predicate MatchesContext(r: Reference, c: Context) {
    && r.evidenceRevision == c.evidenceRevision && r.candidateTree == c.candidateTree
    && c.requirementId in r.requirementIds && c.profile in r.profiles
    && r.assertedInvariant == c.assertedInvariant && r.coveredSurface == c.coveredSurface
    && r.collectedAt <= c.asOf < r.expiresAt
  }

  // ------------------------------------------------------ what a release requires

  /** The reference is about this candidate, profile and claim, and is still valid. */
  predicate Bound(a: Assessment, row: Row, r: Reference) {
    && r.evidenceRevision == a.revision == row.evidenceRevision && r.candidateTree == a.tree
    && row.profile in r.profiles
    && row.requirementId in r.requirementIds && row.assertedInvariant == r.assertedInvariant
    && a.asOf < r.expiresAt
    && r.claimPurpose.Some?
  }

  predicate RightPurpose(row: Row, r: Reference) {
    if row.claim.NotApplicable?
    then r.claimPurpose == Some("absence-proof") && r.storage.Custodied? && r.kind in APPROVED_ABSENCE_EVIDENCE_KINDS
    else r.claimPurpose == Some("implementation-proof")
  }

  /** With the nonces in `seen`: collected by now, and either checked locally or held under a receipt of its own. */
  predicate VerifiedIn(a: Assessment, seen: Nonces, row: Row, r: Reference) {
    && a.template.Some?
    && var c := ContextFor(a, row, a.template.value, r);
       && MatchesContext(r, c)
       && if r.storage.Local? then a.localCheck(r, c)
          else
            var receipt := BoundReceipt(r, c);
            receipt.Some? && receipt.value.nonce in seen && seen[receipt.value.nonce] == a.digest(receipt.value.subject)
  }

  predicate CitationHolds(a: Assessment, seen: Nonces, row: Row, evidence: seq<Reference>, id: string) {
    var r := Lookup(evidence, id);
    r.Some? && Bound(a, row, r.value) && VerifiedIn(a, seen, row, r.value) && RightPurpose(row, r.value)
  }

  ghost predicate KindCited(evidence: seq<Reference>, ids: seq<string>, kind: string) {
    exists id :: id in ids && Lookup(evidence, id).Some? && Lookup(evidence, id).value.kind == kind
  }

  ghost predicate RowHolds(a: Assessment, seen: Nonces, evidence: seq<Reference>, row: Row) {
    && (forall id | id in CitedIds(row) :: CitationHolds(a, seen, row, evidence, id))
    && match row.claim
       case Applicable(verdict, ids, kinds) =>
         verdict == "Pass" && ids != [] && kinds != []
         && (forall kind | kind in kinds :: KindCited(evidence, ids, kind))
       case NotApplicable(_, reviewDue) => Day(a.asOf) < reviewDue
  }

  ghost predicate UniqueIds(evidence: seq<Reference>) {
    forall i, j | 0 <= i < j < |evidence| :: evidence[i].evidenceId != evidence[j].evidenceId
  }

  /** The matrix is the pinned requirements, in order, with their level and text, all for this profile. */
  ghost predicate ExactlyPinned(profile: string, pinned: seq<Requirement>, matrix: seq<Row>) {
    && |matrix| == |pinned| == L1_L2_REQUIREMENT_COUNT
    && (forall k | 0 <= k < |matrix| ::
          && matrix[k].profile == profile
          && Requirement(matrix[k].requirementId, matrix[k].level, matrix[k].text) == pinned[k])
  }

  ghost predicate Releasable(profile: string, pinned: seq<Requirement>, matrix: seq<Row>, evidence: seq<Reference>,
                             a: Assessment, seen: Nonces)
  {
    && profile == CANDIDATE_PROFILE
    && ExactlyPinned(profile, pinned, matrix)
    && UniqueIds(evidence)
    && (forall k | 0 <= k < |matrix| :: RowHolds(a, seen, evidence, matrix[k]))
  }

  // --------------------------------------------------------- verifying one reference

  /** Once verification has run, no later use of the registry changes its answer. */
  ghost predicate Settled(a: Assessment, seen: Nonces, row: Row, r: Reference, ok: bool) {
    forall later | Grows(seen, later) :: VerifiedIn(a, later, row, r) == ok
  }

  method VerifyReference(a: Assessment, row: Row, r: Reference, registry: ReplayRegistry) returns (ok: bool)
    modifies registry
    ensures Grows(old(registry.seen), registry.seen)
    ensures Settled(a, registry.seen, row, r, ok)
    ensures forall limit | Grows(old(registry.seen), limit) && VerifiedIn(a, limit, row, r) ::
              Grows(registry.seen, limit)
  {
    if a.template.None? { return false; }
    var c := ContextFor(a, row, a.template.value, r);
    if !MatchesContext(r, c) { return false; }
    hide MatchesContext;
    if r.storage.Local? { return a.localCheck(r, c); }
    ok := VerifyCustodiedEvidence(a.digest, r, c, registry);
    hide BoundReceipt;
  }

  lemma GrowsTransitive(x: Nonces, y: Nonces, z: Nonces)
    requires Grows(x, y) && Grows(y, z)
    ensures Grows(x, z)
  {
  }

  // ------------------------------------------------------------ which codes are reported

  function When(b: bool, code: Blocker): seq<Blocker> { if b then [code] else [] }

  /** What a citation is reported for; with no such reference, only that it is missing. */
  ghost predicate CitationReports(a: Assessment, seen: Nonces, row: Row, evidence: seq<Reference>, id: string,
                                  code: Blocker)
  {
    var found := Lookup(evidence, id);
    if found.None? then code == (if row.claim.NotApplicable? then MissingAbsenceProof else MissingEvidence)
    else
      var r := found.value;
      match code
      case CandidateBinding =>
        r.evidenceRevision != a.revision || row.evidenceRevision != a.revision || r.candidateTree != a.tree
      case ProfileBinding => row.profile !in r.profiles
      case ClaimBinding => row.requirementId !in r.requirementIds || row.assertedInvariant != r.assertedInvariant
      case ExpiredEvidence => r.expiresAt <= a.asOf
      case MissingClaimPurpose => r.claimPurpose == None
      case Unverified => !VerifiedIn(a, seen, row, r)
      case MissingAbsenceProof =>
        && row.claim.NotApplicable?
        && (|| r.claimPurpose != Some("absence-proof") || r.storage.Local?
            || (r.kind != "design" && r.kind != "code_config" && r.kind != "test"))
      case WrongClaimPurpose => row.claim.Applicable? && r.claimPurpose != Some("implementation-proof")
      case _ => false
  }

  /** The codes of one citation, in the order in which they are reported. */
  ghost function CitationCodes(a: Assessment, seen: Nonces, row: Row, evidence: seq<Reference>,
                               id: string): seq<Blocker> {
    if Lookup(evidence, id).None? then [if row.claim.NotApplicable? then MissingAbsenceProof else MissingEvidence]
    else
      (When(CitationReports(a, seen, row, evidence, id, CandidateBinding), CandidateBinding)
       + When(CitationReports(a, seen, row, evidence, id, ProfileBinding), ProfileBinding)
       + When(CitationReports(a, seen, row, evidence, id, ClaimBinding), ClaimBinding)
       + When(CitationReports(a, seen, row, evidence, id, ExpiredEvidence), ExpiredEvidence)
       + When(CitationReports(a, seen, row, evidence, id, MissingClaimPurpose), MissingClaimPurpose))
      + When(CitationReports(a, seen, row, evidence, id, Unverified), Unverified)
      + (if row.claim.NotApplicable?
         then When(CitationReports(a, seen, row, evidence, id, MissingAbsenceProof), MissingAbsenceProof)
         else When(CitationReports(a, seen, row, evidence, id, WrongClaimPurpose), WrongClaimPurpose))
  }

  lemma CitationCodesExactly(a: Assessment, seen: Nonces, row: Row, evidence: seq<Reference>, id: string)
    ensures forall code :: code in CitationCodes(a, seen, row, evidence, id)
                           <==> CitationReports(a, seen, row, evidence, id, code)
  {
    hide VerifiedIn;
    hide Lookup;
  }

  lemma CitationCodesEmpty(a: Assessment, seen: Nonces, row: Row, evidence: seq<Reference>, id: string)
    ensures CitationCodes(a, seen, row, evidence, id) == [] <==> CitationHolds(a, seen, row, evidence, id)
  {
    hide VerifiedIn;
    hide Lookup;
  }

  ghost function CitedCodes(a: Assessment, seen: Nonces, row: Row, evidence: seq<Reference>,
                            ids: seq<string>): seq<Blocker> {
    if ids == [] then []
    else CitedCodes(a, seen, row, evidence, ids[..|ids| - 1]) + CitationCodes(a, seen, row, evidence, ids[|ids| - 1])
  }

  lemma {:induction false} CitedCodesExactly(a: Assessment, seen: Nonces, row: Row, evidence: seq<Reference>,
                                             ids: seq<string>, code: Blocker)
    ensures code in CitedCodes(a, seen, row, evidence, ids)
            <==> exists id :: id in ids && CitationReports(a, seen, row, evidence, id, code)
  {
    hide CitationReports;
    if ids != [] {
      var front, last := ids[..|ids| - 1], ids[|ids| - 1];
      assert ids == front + [last];
      CitedCodesExactly(a, seen, row, evidence, front, code);
      CitationCodesExactly(a, seen, row, evidence, last);
      hide CitationCodes;
    }
  }

  /** What a row is reported for, its citations included. */
  ghost predicate RowReports(a: Assessment, seen: Nonces, evidence: seq<Reference>, row: Row, code: Blocker) {
    match code
    case RowNotPass => row.claim.Applicable? && row.claim.verdict != "Pass"
    case ExpiredReview => row.claim.NotApplicable? && row.claim.reviewDue <= a.asOf / SECONDS_PER_DAY
    case MissingRequiredEvidence =>
      && row.claim.Applicable? && row.claim.verdict == "Pass"
      && (|| row.claim.evidenceIds == [] || row.claim.requiredKinds == []
          || exists kind :: kind in row.claim.requiredKinds && !KindCited(evidence, row.claim.evidenceIds, kind))
    case _ => exists id :: id in CitedIds(row) && CitationReports(a, seen, row, evidence, id, code)
  }

  /** The codes of one row: its verdict or review, its citations in their order, the kinds they must cover. */
  ghost function RowCodes(a: Assessment, seen: Nonces, evidence: seq<Reference>, row: Row): seq<Blocker> {
    When(RowReports(a, seen, evidence, row, RowNotPass), RowNotPass)
    + When(RowReports(a, seen, evidence, row, ExpiredReview), ExpiredReview)
    + CitedCodes(a, seen, row, evidence, CitedIds(row))
    + When(RowReports(a, seen, evidence, row, MissingRequiredEvidence), MissingRequiredEvidence)
  }

  lemma CitationsReportOwnCodes(a: Assessment, seen: Nonces, row: Row, evidence: seq<Reference>, id: string,
                                code: Blocker)
    requires CitationReports(a, seen, row, evidence, id, code)
    ensures code != RowNotPass && code != ExpiredReview && code != MissingRequiredEvidence
            && code != ProfileNotSupported
    ensures code != RequirementSetMismatch && code != RequirementSemanticsMismatch && code != DuplicateEvidenceId
  {
    hide VerifiedIn;
    hide Lookup;
  }

  lemma RowCodesExactly(a: Assessment, seen: Nonces, evidence: seq<Reference>, row: Row, code: Blocker)
    ensures code in RowCodes(a, seen, evidence, row) <==> RowReports(a, seen, evidence, row, code)
  {
    hide CitationReports;
    hide KindCited;
    var ids := CitedIds(row);
    CitedCodesExactly(a, seen, row, evidence, ids, code);
    forall id, c | id in ids && CitationReports(a, seen, row, evidence, id, c)
      ensures c != RowNotPass && c != ExpiredReview && c != MissingRequiredEvidence
    {
      CitationsReportOwnCodes(a, seen, row, evidence, id, c);
    }
    hide CitedCodes;
  }

  lemma {:induction false} CitedCodesEmpty(a: Assessment, seen: Nonces, row: Row, evidence: seq<Reference>,
                                           ids: seq<string>)
    ensures CitedCodes(a, seen, row, evidence, ids) == []
            <==> forall id | id in ids :: CitationHolds(a, seen, row, evidence, id)
  {
    hide CitationHolds;
    if ids != [] {
      var front, last := ids[..|ids| - 1], ids[|ids| - 1];
      assert ids == front + [last];
      CitedCodesEmpty(a, seen, row, evidence, front);
      CitationCodesEmpty(a, seen, row, evidence, last);
      hide CitationCodes;
    }
  }

  lemma RowCodesEmpty(a: Assessment, seen: Nonces, evidence: seq<Reference>, row: Row)
    ensures RowCodes(a, seen, evidence, row) == [] <==> RowHolds(a, seen, evidence, row)
  {
    CitedCodesEmpty(a, seen, row, evidence, CitedIds(row));
    hide CitedCodes;
    hide CitationHolds;
    hide CitationReports;
    hide KindCited;
  }

  ghost function RowsCodes(a: Assessment, seen: Nonces, evidence: seq<Reference>, rows: seq<Row>): seq<Blocker> {
    if rows == [] then []
    else RowsCodes(a, seen, evidence, rows[..|rows| - 1]) + RowCodes(a, seen, evidence, rows[|rows| - 1])
  }

  lemma {:induction false} RowsCodesExactly(a: Assessment, seen: Nonces, evidence: seq<Reference>, rows: seq<Row>,
                                            code: Blocker)
    ensures code in RowsCodes(a, seen, evidence, rows)
            <==> exists row :: row in rows && RowReports(a, seen, evidence, row, code)
  {
    hide RowReports;
    if rows != [] {
      var front, last := rows[..|rows| - 1], rows[|rows| - 1];
      assert rows == front + [last];
      RowsCodesExactly(a, seen, evidence, front, code);
      RowCodesExactly(a, seen, evidence, last, code);
      hide RowCodes;
    }
  }

  lemma RowsHoldLast(a: Assessment, seen: Nonces, evidence: seq<Reference>, front: seq<Row>, last: Row)
    ensures RowsHold(a, seen, evidence, front + [last])
            <==> RowsHold(a, seen, evidence, front) && RowHolds(a, seen, evidence, last)
  {
    hide RowHolds;
    var rows := front + [last];
    if RowsHold(a, seen, evidence, rows) {
      forall k | 0 <= k < |front| ensures RowHolds(a, seen, evidence, front[k]) { assert rows[k] == front[k]; }
      assert rows[|front|] == last;
    }
  }

  lemma {:induction false} RowsCodesEmpty(a: Assessment, seen: Nonces, evidence: seq<Reference>, rows: seq<Row>)
    ensures RowsCodes(a, seen, evidence, rows) == [] <==> RowsHold(a, seen, evidence, rows)
  {
    hide RowHolds;
    hide RowCodes;
    if rows != [] {
      var front, last := rows[..|rows| - 1], rows[|rows| - 1];
      assert rows == front + [last];
      RowsCodesEmpty(a, seen, evidence, front);
      RowCodesEmpty(a, seen, evidence, last);
      RowsHoldLast(a, seen, evidence, front, last);
      hide RowsHold;
    }
  }

  // ------------------------------------------------------------- gathering blockers

  function BindingBlockers(a: Assessment, row: Row, r: Reference): (codes: seq<Blocker>)
    ensures codes == [] <==> Bound(a, row, r)
  {
    When(r.evidenceRevision != a.revision || row.evidenceRevision != a.revision || r.candidateTree != a.tree,
         CandidateBinding)
    + When(row.profile !in r.profiles, ProfileBinding)
    + When(row.requirementId !in r.requirementIds || row.assertedInvariant != r.assertedInvariant, ClaimBinding)
    + When(r.expiresAt <= a.asOf, ExpiredEvidence)
    + When(r.claimPurpose.None?, MissingClaimPurpose)
  }

  function GovernanceBlockers(row: Row, r: Reference): (codes: seq<Blocker>)
    ensures codes == [] <==> RightPurpose(row, r)
  {
    if row.claim.NotApplicable? then
      When(r.claimPurpose != Some("absence-proof") || !r.storage.Custodied?
           || r.kind !in APPROVED_ABSENCE_EVIDENCE_KINDS,
           MissingAbsenceProof)
    else When(r.claimPurpose != Some("implementation-proof"), WrongClaimPurpose)
  }

  function RequiredEvidenceBlockers(row: Row, evidence: seq<Reference>): (codes: seq<Blocker>)
    ensures codes == When(&& row.claim.Applicable? && row.claim.verdict == "Pass"
                          && (|| row.claim.evidenceIds == [] || row.claim.requiredKinds == []
                              || exists kind :: kind in row.claim.requiredKinds
                                                && !KindCited(evidence, row.claim.evidenceIds, kind)),
                          MissingRequiredEvidence)
  {
    if row.claim.NotApplicable? || row.claim.verdict != "Pass" then []
    else
      var ids, required := row.claim.evidenceIds, row.claim.requiredKinds;
      var kinds := set id | id in ids && Lookup(evidence, id).Some? :: Lookup(evidence, id).value.kind;
      assert forall kind :: kind in kinds <==> KindCited(evidence, ids, kind);
      When(ids == [] || required == [] || exists kind :: kind in required && kind !in kinds, MissingRequiredEvidence)
  }

  /** The blockers of one cited identifier are its codes from now on. */
  ghost predicate CitationSettled(a: Assessment, seen: Nonces, row: Row, evidence: seq<Reference>, id: string,
                                  codes: seq<Blocker>)
  {
    forall later | Grows(seen, later) :: CitationCodes(a, later, row, evidence, id) == codes
  }

  method CitationBlockers(a: Assessment, row: Row, evidence: seq<Reference>, id: string, registry: ReplayRegistry)
    returns (blockers: seq<Blocker>)
    modifies registry
    ensures Grows(old(registry.seen), registry.seen)
    ensures CitationSettled(a, registry.seen, row, evidence, id, blockers)
    ensures forall limit | Grows(old(registry.seen), limit) && CitationHolds(a, limit, row, evidence, id) ::
              Grows(registry.seen, limit)
  {
    var found := Lookup(evidence, id);
    if found.None? {
      return [if row.claim.NotApplicable? then MissingAbsenceProof else MissingEvidence];
    }
    var r := found.value;
    blockers := BindingBlockers(a, row, r);
    var verified := VerifyReference(a, row, r, registry);
    blockers := blockers + When(!verified, Unverified) + GovernanceBlockers(row, r);
    hide CitationCodes;
    hide BindingBlockers;
    hide GovernanceBlockers;
    hide CitationHolds;
    hide Lookup;
    forall later | Grows(registry.seen, later) ensures CitationCodes(a, later, row, evidence, id) == blockers {
      assert VerifiedIn(a, later, row, r) == verified;
      CitationGathered(a, later, row, evidence, id);
    }
    forall later | CitationHolds(a, later, row, evidence, id) ensures VerifiedIn(a, later, row, r) {
      HoldsIsVerified(a, later, row, evidence, id);
    }
    hide VerifiedIn;
  }

  lemma HoldsIsVerified(a: Assessment, seen: Nonces, row: Row, evidence: seq<Reference>, id: string)
    requires CitationHolds(a, seen, row, evidence, id)
    ensures Lookup(evidence, id).Some? && VerifiedIn(a, seen, row, Lookup(evidence, id).value)
  {
  }

  lemma BindingGathered(a: Assessment, seen: Nonces, row: Row, evidence: seq<Reference>, id: string)
    requires Lookup(evidence, id).Some?
    ensures BindingBlockers(a, row, Lookup(evidence, id).value)
            == When(CitationReports(a, seen, row, evidence, id, CandidateBinding), CandidateBinding)
               + When(CitationReports(a, seen, row, evidence, id, ProfileBinding), ProfileBinding)
               + When(CitationReports(a, seen, row, evidence, id, ClaimBinding), ClaimBinding)
               + When(CitationReports(a, seen, row, evidence, id, ExpiredEvidence), ExpiredEvidence)
               + When(CitationReports(a, seen, row, evidence, id, MissingClaimPurpose), MissingClaimPurpose)
  {
    hide VerifiedIn;
    hide Lookup;
    hide When;
  }

  lemma GovernanceGathered(a: Assessment, seen: Nonces, row: Row, evidence: seq<Reference>, id: string)
    requires Lookup(evidence, id).Some?
    ensures GovernanceBlockers(row, Lookup(evidence, id).value)
            == if row.claim.NotApplicable?
               then When(CitationReports(a, seen, row, evidence, id, MissingAbsenceProof), MissingAbsenceProof)
               else When(CitationReports(a, seen, row, evidence, id, WrongClaimPurpose), WrongClaimPurpose)
  {
    hide VerifiedIn;
    hide Lookup;
    hide When;
  }

  lemma CitationGathered(a: Assessment, seen: Nonces, row: Row, evidence: seq<Reference>, id: string)
    requires Lookup(evidence, id).Some?
    ensures var r := Lookup(evidence, id).value;
            CitationCodes(a, seen, row, evidence, id)
            == BindingBlockers(a, row, r) + When(!VerifiedIn(a, seen, row, r), Unverified) + GovernanceBlockers(row, r)
  {
    hide VerifiedIn;
    hide Lookup;
    hide When;
    hide BindingBlockers;
    hide GovernanceBlockers;
    BindingGathered(a, seen, row, evidence, id);
    GovernanceGathered(a, seen, row, evidence, id);
  }

  ghost predicate CitationsSettled(a: Assessment, seen: Nonces, row: Row, evidence: seq<Reference>, ids: seq<string>,
                                   codes: seq<Blocker>)
  {
    forall later | Grows(seen, later) :: CitedCodes(a, later, row, evidence, ids) == codes
  }

  /** Every registry that extends the first and satisfies the citations also extends the second. */
  ghost predicate CitationsWithin(a: Assessment, seen: Nonces, seen': Nonces, row: Row, evidence: seq<Reference>,
                                  ids: seq<string>)
  {
    forall limit | Grows(seen, limit) && (forall id | id in ids :: CitationHolds(a, limit, row, evidence, id)) ::
      Grows(seen', limit)
  }

  lemma OneMoreWithin(a: Assessment, seen: Nonces, seen': Nonces, seen'': Nonces, row: Row, evidence: seq<Reference>,
                      ids: seq<string>, id: string)
    requires CitationsWithin(a, seen, seen', row, evidence, ids)
    requires forall limit | Grows(seen', limit) && CitationHolds(a, limit, row, evidence, id) :: Grows(seen'', limit)
    ensures CitationsWithin(a, seen, seen'', row, evidence, ids + [id])
  {
    hide CitationHolds;
    hide Grows;
    forall limit | Grows(seen, limit) && (forall i | i in ids + [id] :: CitationHolds(a, limit, row, evidence, i))
      ensures Grows(seen'', limit)
    {
      assert forall i :: i in ids + [id] <==> i in ids || i == id;
      assert CitationHolds(a, limit, row, evidence, id);
      assert Grows(seen', limit);
    }
  }

  lemma OneMoreCitation(a: Assessment, seen: Nonces, seen': Nonces, row: Row, evidence: seq<Reference>,
                        ids: seq<string>, id: string, codes: seq<Blocker>, more: seq<Blocker>)
    requires CitationsSettled(a, seen, row, evidence, ids, codes) && Grows(seen, seen')
    requires CitationSettled(a, seen', row, evidence, id, more)
    ensures CitationsSettled(a, seen', row, evidence, ids + [id], codes + more)
  {
    hide CitationCodes;
    forall later | Grows(seen', later) ensures CitedCodes(a, later, row, evidence, ids + [id]) == codes + more {
      GrowsTransitive(seen, seen', later);
      assert (ids + [id])[..|ids|] == ids;
    }
  }

  ghost predicate RowSettled(a: Assessment, seen: Nonces, evidence: seq<Reference>, row: Row, codes: seq<Blocker>) {
    forall later | Grows(seen, later) :: RowCodes(a, later, evidence, row) == codes
  }

  /** All blockers of one row, the row's own verdict included. */
  method RowBlockers(a: Assessment, row: Row, evidence: seq<Reference>, registry: ReplayRegistry)
    returns (blockers: seq<Blocker>)
    modifies registry
    ensures Grows(old(registry.seen), registry.seen)
    ensures RowSettled(a, registry.seen, evidence, row, blockers)
    ensures RowsWithin(a, old(registry.seen), registry.seen, evidence, [row])
  {
    var own := When(row.claim.Applicable? && row.claim.verdict != "Pass", RowNotPass)
               + When(row.claim.NotApplicable? && row.claim.reviewDue <= Day(a.asOf), ExpiredReview);
    var ids, cited := CitedIds(row), [];
    var i := 0;
    assert ids[..0] == [];
    hide CitationHolds;
    hide CitationCodes;
    while i < |ids|
      invariant i <= |ids| && Grows(old(registry.seen), registry.seen)
      invariant CitationsSettled(a, registry.seen, row, evidence, ids[..i], cited)
      invariant CitationsWithin(a, old(registry.seen), registry.seen, row, evidence, ids[..i])
    {
      ghost var before := registry.seen;
      var more := CitationBlockers(a, row, evidence, ids[i], registry);
      OneMoreCitation(a, before, registry.seen, row, evidence, ids[..i], ids[i], cited, more);
      OneMoreWithin(a, old(registry.seen), before, registry.seen, row, evidence, ids[..i], ids[i]);
      GrowsTransitive(old(registry.seen), before, registry.seen);
      assert ids[..i + 1] == ids[..i] + [ids[i]];
      cited := cited + more;
      i := i + 1;
    }
    assert ids[..i] == ids;
    blockers := own + cited + RequiredEvidenceBlockers(row, evidence);
    RowIsSettled(a, registry.seen, evidence, row, cited);
    RowIsWithin(a, old(registry.seen), registry.seen, evidence, row);
  }

  lemma RowIsSettled(a: Assessment, seen: Nonces, evidence: seq<Reference>, row: Row, cited: seq<Blocker>)
    requires CitationsSettled(a, seen, row, evidence, CitedIds(row), cited)
    ensures RowSettled(a, seen, evidence, row,
                       When(row.claim.Applicable? && row.claim.verdict != "Pass", RowNotPass)
                       + When(row.claim.NotApplicable? && row.claim.reviewDue <= Day(a.asOf), ExpiredReview)
                       + cited + RequiredEvidenceBlockers(row, evidence))
  {
    hide CitedCodes;
    hide KindCited;
    forall later | Grows(seen, later)
      ensures RowCodes(a, later, evidence, row)
              == When(row.claim.Applicable? && row.claim.verdict != "Pass", RowNotPass)
                 + When(row.claim.NotApplicable? && row.claim.reviewDue <= Day(a.asOf), ExpiredReview)
                 + cited + RequiredEvidenceBlockers(row, evidence)
    {
      assert CitedCodes(a, later, row, evidence, CitedIds(row)) == cited;
    }
  }

  ghost predicate RowsWithin(a: Assessment, seen: Nonces, seen': Nonces, evidence: seq<Reference>, rows: seq<Row>) {
    forall limit | Grows(seen, limit) && (forall k | 0 <= k < |rows| :: RowHolds(a, limit, evidence, rows[k])) ::
      Grows(seen', limit)
  }

  lemma RowIsWithin(a: Assessment, seen: Nonces, seen': Nonces, evidence: seq<Reference>, row: Row)
    requires CitationsWithin(a, seen, seen', row, evidence, CitedIds(row))
    ensures RowsWithin(a, seen, seen', evidence, [row])
  {
    hide CitationHolds;
    hide Grows;
    hide KindCited;
    forall limit | Grows(seen, limit) && (forall k | 0 <= k < |[row]| :: RowHolds(a, limit, evidence, [row][k]))
      ensures Grows(seen', limit)
    {
      assert RowHolds(a, limit, evidence, [row][0]);
    }
  }

  lemma OneMoreRowWithin(a: Assessment, seen: Nonces, seen': Nonces, seen'': Nonces, evidence: seq<Reference>,
                         rows: seq<Row>, row: Row)
    requires RowsWithin(a, seen, seen', evidence, rows) && RowsWithin(a, seen', seen'', evidence, [row])
    ensures RowsWithin(a, seen, seen'', evidence, rows + [row])
  {
    hide RowHolds;
    hide Grows;
    var all := rows + [row];
    forall limit | Grows(seen, limit) && (forall k | 0 <= k < |all| :: RowHolds(a, limit, evidence, all[k]))
      ensures Grows(seen'', limit)
    {
      forall k | 0 <= k < |rows| ensures RowHolds(a, limit, evidence, rows[k]) { assert all[k] == rows[k]; }
      assert all[|rows|] == row;
      assert Grows(seen', limit);
    }
  }

  // --------------------------------------------------------- the pinned requirements

  function Select(matrix: seq<Row>, profile: string): seq<Row> {
    if matrix == [] then []
    else Select(matrix[..|matrix| - 1], profile)
         + if matrix[|matrix| - 1].profile == profile then [matrix[|matrix| - 1]] else []
  }

  lemma {:induction false} SelectAll(matrix: seq<Row>, profile: string)
    ensures |Select(matrix, profile)| <= |matrix|
    ensures |Select(matrix, profile)| == |matrix| <==> forall k | 0 <= k < |matrix| :: matrix[k].profile == profile
    ensures |Select(matrix, profile)| == |matrix| ==> Select(matrix, profile) == matrix
  {
    if matrix != [] {
      SelectAll(matrix[..|matrix| - 1], profile);
      assert matrix == matrix[..|matrix| - 1] + [matrix[|matrix| - 1]];
    }
  }

  predicate DistinctIds(pinned: seq<Requirement>) {
    forall i, j | 0 <= i < j < |pinned| :: pinned[i].id != pinned[j].id
  }

  /** The pinned requirements by identifier. */
  function Find(pinned: seq<Requirement>, id: string): Option<Requirement> {
    if pinned == [] then None
    else if pinned[|pinned| - 1].id == id then Some(pinned[|pinned| - 1])
    else Find(pinned[..|pinned| - 1], id)
  }

  lemma {:induction false} FindDistinct(pinned: seq<Requirement>, k: nat)
    requires DistinctIds(pinned) && k < |pinned|
    ensures Find(pinned, pinned[k].id) == Some(pinned[k])
  {
    if k < |pinned| - 1 { FindDistinct(pinned[..|pinned| - 1], k); }
  }

  function RowIds(rows: seq<Row>): (ids: seq<string>)
    ensures |ids| == |rows|
  {
    seq(|rows|, k requires 0 <= k < |rows| => rows[k].requirementId)
  }

  function PinnedIds(pinned: seq<Requirement>): (ids: seq<string>)
    ensures |ids| == |pinned|
  {
    seq(|pinned|, k requires 0 <= k < |pinned| => pinned[k].id)
  }

  /** The semantic comparison of a row with the pinned requirement of its identifier. */
  predicate SameRequirement(pinned: seq<Requirement>, row: Row) {
    var expected := Find(pinned, row.requirementId);
    expected.Some? && row.level == expected.value.level && row.text == expected.value.text
  }

  function Ids(ids: seq<string>): set<string> { set id | id in ids }

  predicate SetMatches(pinned: seq<Requirement>, matrix: seq<Row>, selected: seq<Row>) {
    && |matrix| == L1_L2_REQUIREMENT_COUNT && |selected| == L1_L2_REQUIREMENT_COUNT
    && Ids(RowIds(selected)) == Ids(PinnedIds(pinned))
  }

  predicate SemanticsMatch(pinned: seq<Requirement>, selected: seq<Row>) {
    RowIds(selected) == PinnedIds(pinned) && forall k | 0 <= k < |selected| :: SameRequirement(pinned, selected[k])
  }

  /** The two comparisons together say that the matrix is exactly the pinned list. */
  lemma PinnedExactly(profile: string, pinned: seq<Requirement>, matrix: seq<Row>)
    requires DistinctIds(pinned)
    ensures var selected := Select(matrix, profile);
            SetMatches(pinned, matrix, selected) && SemanticsMatch(pinned, selected)
            <==> ExactlyPinned(profile, pinned, matrix)
    ensures ExactlyPinned(profile, pinned, matrix) ==> Select(matrix, profile) == matrix
  {
    var selected := Select(matrix, profile);
    SelectAll(matrix, profile);
    hide Select;
    hide DistinctIds;
    forall k | 0 <= k < |pinned| ensures Find(pinned, pinned[k].id) == Some(pinned[k]) { FindDistinct(pinned, k); }
    hide Find;
    if SetMatches(pinned, matrix, selected) && SemanticsMatch(pinned, selected) {
      forall k | 0 <= k < |matrix|
        ensures Requirement(matrix[k].requirementId, matrix[k].level, matrix[k].text) == pinned[k] {
        assert RowIds(selected)[k] == PinnedIds(pinned)[k] && SameRequirement(pinned, selected[k]);
      }
    }
    if ExactlyPinned(profile, pinned, matrix) {
      assert RowIds(selected) == PinnedIds(pinned);
      forall k | 0 <= k < |selected| ensures SameRequirement(pinned, selected[k]) {
        assert Requirement(matrix[k].requirementId, matrix[k].level, matrix[k].text) == pinned[k];
      }
    }
  }

  function EvidenceIds(evidence: seq<Reference>): set<string> {
    set r | r in evidence :: r.evidenceId
  }

  lemma {:induction false} IdsAreCounted(evidence: seq<Reference>)
    ensures |EvidenceIds(evidence)| <= |evidence|
    ensures |EvidenceIds(evidence)| == |evidence| <==> UniqueIds(evidence)
  {
    if evidence != [] {
      var front, last := evidence[..|evidence| - 1], evidence[|evidence| - 1];
      IdsAreCounted(front);
      assert evidence == front + [last];
      assert EvidenceIds(evidence) == EvidenceIds(front) + {last.evidenceId} by {
        forall r | r in evidence ensures r in front || r == last {}
        assert last in evidence && forall r | r in front :: r in evidence;
      }
      if last.evidenceId in EvidenceIds(front) {
        var r :| r in front && r.evidenceId == last.evidenceId;
        var k :| 0 <= k < |front| && front[k] == r;
        assert evidence[k].evidenceId == evidence[|front|].evidenceId;
      }
    }
  }

  // ------------------------------------------------------------------ the decision

  function Distinct(codes: seq<Blocker>): (d: seq<Blocker>)
    ensures d == [] <==> codes == []
    ensures forall c :: c in d <==> c in codes
    ensures forall i, j | 0 <= i < j < |d| :: d[i] != d[j]
  {
    if codes == [] then []
    else
      var front, last := Distinct(codes[..|codes| - 1]), codes[|codes| - 1];
      assert codes == codes[..|codes| - 1] + [last];
      if last in front then front else front + [last]
  }

  datatype Decision = Decision(release: bool, reasons: seq<Blocker>)

  ghost predicate RowsSettled(a: Assessment, seen: Nonces, evidence: seq<Reference>, rows: seq<Row>,
                              codes: seq<Blocker>)
  {
    forall later | Grows(seen, later) :: RowsCodes(a, later, evidence, rows) == codes
  }

  lemma OneMoreRow(a: Assessment, seen: Nonces, seen': Nonces, evidence: seq<Reference>, rows: seq<Row>, row: Row,
                   codes: seq<Blocker>, more: seq<Blocker>)
    requires RowsSettled(a, seen, evidence, rows, codes) && Grows(seen, seen')
             && RowSettled(a, seen', evidence, row, more)
    ensures RowsSettled(a, seen', evidence, rows + [row], codes + more)
  {
    hide RowCodes;
    forall later | Grows(seen', later) ensures RowsCodes(a, later, evidence, rows + [row]) == codes + more {
      GrowsTransitive(seen, seen', later);
      assert (rows + [row])[..|rows|] == rows;
    }
  }

  method AllRowBlockers(a: Assessment, rows: seq<Row>, evidence: seq<Reference>, registry: ReplayRegistry)
    returns (blockers: seq<Blocker>)
    modifies registry
    ensures Grows(old(registry.seen), registry.seen)
    ensures RowsSettled(a, registry.seen, evidence, rows, blockers)
    ensures RowsWithin(a, old(registry.seen), registry.seen, evidence, rows)
  {
    hide RowHolds;
    hide RowCodes;
    blockers := [];
    var i := 0;
    assert rows[..0] == [];
    while i < |rows|
      invariant i <= |rows| && Grows(old(registry.seen), registry.seen)
      invariant RowsSettled(a, registry.seen, evidence, rows[..i], blockers)
      invariant RowsWithin(a, old(registry.seen), registry.seen, evidence, rows[..i])
    {
      ghost var before := registry.seen;
      var more := RowBlockers(a, rows[i], evidence, registry);
      OneMoreRow(a, before, registry.seen, evidence, rows[..i], rows[i], blockers, more);
      OneMoreRowWithin(a, old(registry.seen), before, registry.seen, evidence, rows[..i], rows[i]);
      GrowsTransitive(old(registry.seen), before, registry.seen);
      assert rows[..i + 1] == rows[..i] + [rows[i]];
      blockers := blockers + more;
      i := i + 1;
    }
    assert rows[..i] == rows;
  }

  // --------------------------------------------- the decision from the registry it starts with

  /** The receipt that a citation would have accepted. */
  function ReceiptFor(a: Assessment, row: Row, evidence: seq<Reference>, id: string): Option<Receipt> {
    var r := Lookup(evidence, id);
    if r.None? || a.template.None? || r.value.storage.Local? then None
    else BoundReceipt(r.value, ContextFor(a, row, a.template.value, r.value))
  }

  /** All that a citation needs apart from the registry. */
  predicate CitationSound(a: Assessment, row: Row, evidence: seq<Reference>, id: string) {
    var r := Lookup(evidence, id);
    && r.Some? && Bound(a, row, r.value) && RightPurpose(row, r.value) && a.template.Some?
    && var c := ContextFor(a, row, a.template.value, r.value);
       && MatchesContext(r.value, c)
       && if r.value.storage.Local? then a.localCheck(r.value, c) else ReceiptFor(a, row, evidence, id).Some?
  }

  ghost predicate RowSound(a: Assessment, evidence: seq<Reference>, row: Row) {
    && (forall id | id in CitedIds(row) :: CitationSound(a, row, evidence, id))
    && match row.claim
       case Applicable(verdict, ids, kinds) =>
         verdict == "Pass" && ids != [] && kinds != []
         && (forall kind | kind in kinds :: KindCited(evidence, ids, kind))
       case NotApplicable(_, reviewDue) => Day(a.asOf) < reviewDue
  }

  /** The nonce and subject digest of every receipt that the rows cite. */
  ghost function CitedNonces(a: Assessment, rows: seq<Row>, evidence: seq<Reference>): set<(string, string)> {
    set row, id | row in rows && id in CitedIds(row) && ReceiptFor(a, row, evidence, id).Some? ::
      (ReceiptFor(a, row, evidence, id).value.nonce, a.digest(ReceiptFor(a, row, evidence, id).value.subject))
  }

  /** Each cited nonce is unused or already bound to its digest, and no two citations bind one nonce differently. */
  ghost predicate NoncesFit(seen: Nonces, cited: set<(string, string)>) {
    && (forall c | c in cited :: Accepts(seen, c.0, c.1))
    && (forall c, d | c in cited && d in cited && c.0 == d.0 :: c.1 == d.1)
  }

  lemma CitationHoldsApart(a: Assessment, seen: Nonces, row: Row, evidence: seq<Reference>, id: string)
    ensures CitationHolds(a, seen, row, evidence, id) <==>
            && CitationSound(a, row, evidence, id)
            && var receipt := ReceiptFor(a, row, evidence, id);
               receipt.Some? ==>
                 receipt.value.nonce in seen && seen[receipt.value.nonce] == a.digest(receipt.value.subject)
  {
    hide Bound;
    hide RightPurpose;
    hide MatchesContext;
    hide BoundReceipt;
  }

  ghost predicate Recorded(seen: Nonces, cited: set<(string, string)>) {
    forall c | c in cited :: c.0 in seen && seen[c.0] == c.1
  }

  ghost predicate RowsHold(a: Assessment, seen: Nonces, evidence: seq<Reference>, rows: seq<Row>) {
    forall k | 0 <= k < |rows| :: RowHolds(a, seen, evidence, rows[k])
  }

  ghost predicate RowsSound(a: Assessment, evidence: seq<Reference>, rows: seq<Row>) {
    forall k | 0 <= k < |rows| :: RowSound(a, evidence, rows[k])
  }

  lemma RowHoldsApart(a: Assessment, seen: Nonces, evidence: seq<Reference>, row: Row)
    ensures RowHolds(a, seen, evidence, row)
            <==> RowSound(a, evidence, row) && Recorded(seen, CitedNonces(a, [row], evidence))
  {
    hide CitationHolds;
    hide CitationSound;
    hide ReceiptFor;
    hide KindCited;
    hide Day;
    forall id ensures CitationHolds(a, seen, row, evidence, id) <==>
                      && CitationSound(a, row, evidence, id)
                      && var receipt := ReceiptFor(a, row, evidence, id);
                         receipt.Some? ==>
                           receipt.value.nonce in seen && seen[receipt.value.nonce] == a.digest(receipt.value.subject)
    {
      CitationHoldsApart(a, seen, row, evidence, id);
    }
    var cited := CitedNonces(a, [row], evidence);
    if Recorded(seen, cited) {
      forall id | id in CitedIds(row) && ReceiptFor(a, row, evidence, id).Some?
        ensures var receipt := ReceiptFor(a, row, evidence, id).value;
                receipt.nonce in seen && seen[receipt.nonce] == a.digest(receipt.subject)
      {
        var receipt := ReceiptFor(a, row, evidence, id).value;
        assert row in [row];
        assert (receipt.nonce, a.digest(receipt.subject)) in cited;
      }
    }
  }

  lemma CitedInRow(a: Assessment, evidence: seq<Reference>, rows: seq<Row>, c: (string, string))
    ensures c in CitedNonces(a, rows, evidence)
            <==> exists k :: 0 <= k < |rows| && c in CitedNonces(a, [rows[k]], evidence)
  {
    hide ReceiptFor;
    if c in CitedNonces(a, rows, evidence) {
      var row, id :| row in rows && id in CitedIds(row) && ReceiptFor(a, row, evidence, id).Some?
        && c == (ReceiptFor(a, row, evidence, id).value.nonce,
                 a.digest(ReceiptFor(a, row, evidence, id).value.subject));
      var k :| 0 <= k < |rows| && rows[k] == row;
      assert row in [rows[k]];
    }
  }

  lemma RowsHoldApart(a: Assessment, seen: Nonces, evidence: seq<Reference>, rows: seq<Row>)
    ensures RowsHold(a, seen, evidence, rows)
            <==> RowsSound(a, evidence, rows) && Recorded(seen, CitedNonces(a, rows, evidence))
  {
    hide RowHolds;
    hide RowSound;
    hide CitedNonces;
    forall k | 0 <= k < |rows|
      ensures RowHolds(a, seen, evidence, rows[k])
              <==> RowSound(a, evidence, rows[k]) && Recorded(seen, CitedNonces(a, [rows[k]], evidence))
    {
      RowHoldsApart(a, seen, evidence, rows[k]);
    }
    forall c
      ensures c in CitedNonces(a, rows, evidence)
              <==> exists k :: 0 <= k < |rows| && c in CitedNonces(a, [rows[k]], evidence) {
      CitedInRow(a, evidence, rows, c);
    }
  }

  /** The registry with every cited nonce added. */
  ghost function WithCited(seen: Nonces, cited: set<(string, string)>): Nonces {
    map n | n in seen.Keys + (set c | c in cited :: c.0) ::
      if n in seen then seen[n] else (var c :| c in cited && c.0 == n; c.1)
  }

  /** The cited nonces fit exactly if some later registry can hold them all. */
  lemma FittingExtends(seen: Nonces, cited: set<(string, string)>, later: Nonces)
    ensures NoncesFit(seen, cited) ==> Grows(seen, WithCited(seen, cited)) && Recorded(WithCited(seen, cited), cited)
    ensures Grows(seen, later) && Recorded(later, cited) ==> NoncesFit(seen, cited)
  {
    if NoncesFit(seen, cited) {
      forall c | c in cited ensures c.0 in WithCited(seen, cited) && WithCited(seen, cited)[c.0] == c.1 { }
    }
  }

  ghost predicate ReleasableFrom(profile: string, pinned: seq<Requirement>, matrix: seq<Row>, evidence: seq<Reference>,
                                 a: Assessment, seen: Nonces)
  {
    && profile == CANDIDATE_PROFILE && ExactlyPinned(profile, pinned, matrix) && UniqueIds(evidence)
    && RowsSound(a, evidence, matrix) && NoncesFit(seen, CitedNonces(a, matrix, evidence))
  }

  /** A settled evaluation answers for the registry it started with. */
  lemma SettledFromStart(a: Assessment, seen: Nonces, seen': Nonces, evidence: seq<Reference>, rows: seq<Row>,
                         codes: seq<Blocker>)
    requires Grows(seen, seen') && RowsSettled(a, seen', evidence, rows, codes)
             && RowsWithin(a, seen, seen', evidence, rows)
    ensures codes == RowsCodes(a, seen', evidence, rows) && (codes == [] <==> RowsHold(a, seen', evidence, rows))
    ensures codes == [] <==> RowsSound(a, evidence, rows) && NoncesFit(seen, CitedNonces(a, rows, evidence))
  {
    hide RowHolds;
    hide RowSound;
    hide NoncesFit;
    hide Recorded;
    hide CitedNonces;
    hide WithCited;
    var cited := CitedNonces(a, rows, evidence);
    assert Grows(seen', seen');
    RowsHoldApart(a, seen', evidence, rows);
    RowsCodesEmpty(a, seen', evidence, rows);
    FittingExtends(seen, cited, seen');
    hide RowsCodes;
    if RowsSound(a, evidence, rows) && NoncesFit(seen, cited) {
      var limit := WithCited(seen, cited);
      RowsHoldApart(a, limit, evidence, rows);
      RowsCodesEmpty(a, limit, evidence, rows);
      assert RowsHold(a, limit, evidence, rows) && Grows(seen', limit);
    }
  }

  // ------------------------------------------------- verification, field by field

  /** The context in which a reference is verified for a row: the claim's own fields over the template. */
  ghost predicate IsClaimContext(a: Assessment, row: Row, r: Reference, c: Context) {
    && a.template.Some?
    && var t := a.template.value;
       && c.evidenceRevision == a.revision && c.candidateTree == a.tree && c.asOf == a.asOf
       && c.requirementId == row.requirementId && c.profile == row.profile
       && c.assertedInvariant == row.assertedInvariant && c.coveredSurface == r.coveredSurface
       && (row.claim.NotApplicable? ==> c.claimPurpose == "absence-proof")
       && (row.claim.Applicable? ==> c.claimPurpose == "positive-control")
       && c.riskId == t.riskId && c.candidateBundle == t.candidateBundle
       && c.attestationCommit == t.attestationCommit && c.approverSubject == t.approverSubject
       && c.authorities == t.authorities && c.hasRegistry == t.hasRegistry
  }

  /** Its own fields bind it to the claim at this time. */
  ghost predicate Pertinent(a: Assessment, row: Row, r: Reference) {
    && r.evidenceRevision == a.revision && r.candidateTree == a.tree
    && row.requirementId in r.requirementIds && row.profile in r.profiles
       && r.assertedInvariant == row.assertedInvariant
    && r.collectedAt <= a.asOf && a.asOf < r.expiresAt
  }

  /** A receipt vouches for it in this context and its nonce stands for its subject. */
  ghost predicate HeldUnder(a: Assessment, seen: Nonces, r: Reference, c: Context, receipt: Receipt) {
    Vouched(r, c, receipt) && receipt.nonce in seen && seen[receipt.nonce] == a.digest(receipt.subject)
  }

  /**
   A reference is verified exactly when it is pertinent and, in the claim's context, either the local
   check passes or a receipt that is valid now vouches for it and holds its nonce.
   */
  lemma VerifiedInExactly(a: Assessment, seen: Nonces, row: Row, r: Reference)
    ensures VerifiedIn(a, seen, row, r) <==>
            exists c ::
              && IsClaimContext(a, row, r, c) && Pertinent(a, row, r)
              && if r.storage.Local? then a.localCheck(r, c)
                 else exists receipt ::
                        HeldUnder(a, seen, r, c, receipt) && receipt.issuedAt <= a.asOf && a.asOf < receipt.expiresAt
  {
    if a.template.Some? {
      var c := ContextFor(a, row, a.template.value, r);
      assert IsClaimContext(a, row, r, c);
      forall c' | IsClaimContext(a, row, r, c') ensures c' == c { }
      assert MatchesContext(r, c) <==> Pertinent(a, row, r);
      hide ContextFor;
      hide MatchesContext;
      hide Pertinent;
      forall receipt
        ensures BoundReceipt(r, c) == Some(receipt) <==> Vouched(r, c, receipt) { BoundExactly(r, c, receipt); }
      hide BoundReceipt;
      forall receipt | Vouched(r, c, receipt) ensures receipt.issuedAt <= a.asOf && a.asOf < receipt.expiresAt { }
      hide Vouched;
      if VerifiedIn(a, seen, row, r) && r.storage.Custodied? {
        var receipt := BoundReceipt(r, c).value;
        assert HeldUnder(a, seen, r, c, receipt);
      }
    }
  }

  ghost predicate LastAt(evidence: seq<Reference>, id: string, k: nat) {
    && k < |evidence| && evidence[k].evidenceId == id
    && forall j | k < j < |evidence| :: evidence[j].evidenceId != id
  }

  /** The index by identifier finds the last reference with the identifier. */
  lemma {:induction false} LookupExactly(evidence: seq<Reference>, id: string, k: nat)
    ensures LastAt(evidence, id, k) ==> Lookup(evidence, id) == Some(evidence[k])
    ensures Lookup(evidence, id) == None ==> forall j | 0 <= j < |evidence| :: evidence[j].evidenceId != id
  {
    if evidence != [] {
      var n := |evidence| - 1;
      var front := evidence[..n];
      assert forall j | 0 <= j < n :: front[j] == evidence[j];
      LookupExactly(front, id, k);
      if LastAt(evidence, id, k) && k < n { assert LastAt(front, id, k); }
      if Lookup(evidence, id) == None {
        forall j | 0 <= j < |evidence|
          ensures evidence[j].evidenceId != id { if j < n { assert front[j].evidenceId != id; } }
      }
    }
  }

  /** The selected rows are the rows of the profile, each once and in the order of the matrix. */
  lemma {:induction false} SelectExactly(matrix: seq<Row>, profile: string) returns (places: seq<nat>)
    ensures |places| == |Select(matrix, profile)|
    ensures forall i | 0 <= i < |places| :: places[i] < |matrix| && Select(matrix, profile)[i] == matrix[places[i]]
    ensures forall i, j | 0 <= i < j < |places| :: places[i] < places[j]
    ensures forall k | 0 <= k < |matrix| :: matrix[k].profile == profile <==> k in places
  {
    if matrix == [] {
      places := [];
    } else {
      var n := |matrix| - 1;
      places := SelectExactly(matrix[..n], profile);
      if matrix[n].profile == profile { places := places + [n]; }
    }
  }

  lemma SelectMembers(matrix: seq<Row>, profile: string, row: Row)
    ensures row in Select(matrix, profile) <==> row in matrix && row.profile == profile
  {
    var places := SelectExactly(matrix, profile);
    var selected := Select(matrix, profile);
    if row in selected {
      var i :| 0 <= i < |selected| && selected[i] == row;
      assert places[i] in places && matrix[places[i]] == row;
    }
    if row in matrix && row.profile == profile {
      var k :| 0 <= k < |matrix| && matrix[k] == row;
      var i :| 0 <= i < |places| && places[i] == k;
      assert selected[i] == row;
    }
  }

  // ------------------------------------------------------------- the reasons given

  /** The same identifiers are pinned as the rows of the profile name. */
  ghost predicate SameIds(pinned: seq<Requirement>, rows: seq<Row>) {
    && (forall k | 0 <= k < |rows| :: rows[k].requirementId in PinnedIds(pinned))
    && (forall j | 0 <= j < |pinned| :: pinned[j].id in RowIds(rows))
  }

  /** What the decision gives each code for. */
  ghost predicate Reported(profile: string, pinned: seq<Requirement>, matrix: seq<Row>, evidence: seq<Reference>,
                           a: Assessment, seen: Nonces, code: Blocker)
  {
    match code
    case ProfileNotSupported => profile != "alpic-metadata"
    case RequirementSetMismatch =>
      || |matrix| != 253 || (exists k :: 0 <= k < |matrix| && matrix[k].profile != profile)
      || !SameIds(pinned, matrix)
    case RequirementSemanticsMismatch =>
      var rows := Select(matrix, profile);
      || |rows| != |pinned|
      || exists k :: 0 <= k < |rows| && Requirement(rows[k].requirementId, rows[k].level, rows[k].text) != pinned[k]
    case DuplicateEvidenceId =>
      exists i, j :: 0 <= i < j < |evidence| && evidence[i].evidenceId == evidence[j].evidenceId
    case _ => exists row :: row in matrix && row.profile == profile && RowReports(a, seen, evidence, row, code)
  }

  /** All codes in the order in which they are found. */
  ghost function DecisionCodes(profile: string, pinned: seq<Requirement>, matrix: seq<Row>, evidence: seq<Reference>,
                               a: Assessment, seen: Nonces): seq<Blocker>
  {
    When(Reported(profile, pinned, matrix, evidence, a, seen, ProfileNotSupported), ProfileNotSupported)
    + When(Reported(profile, pinned, matrix, evidence, a, seen, RequirementSetMismatch), RequirementSetMismatch)
    + When(Reported(profile, pinned, matrix, evidence, a, seen, RequirementSemanticsMismatch),
           RequirementSemanticsMismatch)
    + When(Reported(profile, pinned, matrix, evidence, a, seen, DuplicateEvidenceId), DuplicateEvidenceId)
    + RowsCodes(a, seen, evidence, Select(matrix, profile))
  }

  lemma SubsetOfIds(a: seq<string>, b: seq<string>)
    ensures Ids(a) <= Ids(b) <==> forall k | 0 <= k < |a| :: a[k] in b
  {
    if Ids(a) <= Ids(b) {
      forall k | 0 <= k < |a| ensures a[k] in b { assert a[k] in Ids(a); }
    }
  }

  lemma IdSetsAgree(pinned: seq<Requirement>, rows: seq<Row>)
    ensures Ids(RowIds(rows)) == Ids(PinnedIds(pinned)) <==> SameIds(pinned, rows)
  {
    var a, b := RowIds(rows), PinnedIds(pinned);
    assert forall k | 0 <= k < |rows| :: a[k] == rows[k].requirementId;
    assert forall j | 0 <= j < |pinned| :: b[j] == pinned[j].id;
    hide RowIds;
    hide PinnedIds;
    SubsetOfIds(a, b);
    SubsetOfIds(b, a);
    hide Ids;
    assert SameIds(pinned, rows) <==> Ids(a) <= Ids(b) && Ids(b) <= Ids(a);
  }

  lemma SetReported(profile: string, pinned: seq<Requirement>, matrix: seq<Row>, evidence: seq<Reference>,
                    a: Assessment, seen: Nonces)
    ensures SetMatches(pinned, matrix, Select(matrix, profile))
            <==> !Reported(profile, pinned, matrix, evidence, a, seen, RequirementSetMismatch)
  {
    SelectAll(matrix, profile);
    IdSetsAgree(pinned, matrix);
    hide Select;
    hide SameIds;
  }

  lemma SemanticsReported(profile: string, pinned: seq<Requirement>, matrix: seq<Row>, evidence: seq<Reference>,
                          a: Assessment, seen: Nonces)
    requires DistinctIds(pinned)
    ensures SemanticsMatch(pinned, Select(matrix, profile))
            <==> !Reported(profile, pinned, matrix, evidence, a, seen, RequirementSemanticsMismatch)
  {
    var rows := Select(matrix, profile);
    hide Select;
    forall k | 0 <= k < |pinned| ensures Find(pinned, pinned[k].id) == Some(pinned[k]) { FindDistinct(pinned, k); }
    hide Find;
    hide DistinctIds;
    if SemanticsMatch(pinned, rows) {
      assert |RowIds(rows)| == |PinnedIds(pinned)|;
      forall k | 0 <= k < |rows| ensures Requirement(rows[k].requirementId, rows[k].level, rows[k].text) == pinned[k] {
        assert RowIds(rows)[k] == PinnedIds(pinned)[k] && SameRequirement(pinned, rows[k]);
      }
    }
    if !Reported(profile, pinned, matrix, evidence, a, seen, RequirementSemanticsMismatch) {
      forall k | 0 <= k < |rows| ensures RowIds(rows)[k] == PinnedIds(pinned)[k] && SameRequirement(pinned, rows[k]) {
        assert Requirement(rows[k].requirementId, rows[k].level, rows[k].text) == pinned[k];
      }
      assert RowIds(rows) == PinnedIds(pinned);
    }
  }

  lemma RowReportsOwnCodes(a: Assessment, seen: Nonces, evidence: seq<Reference>, row: Row, code: Blocker)
    requires RowReports(a, seen, evidence, row, code)
    ensures code != ProfileNotSupported && code != RequirementSetMismatch && code != RequirementSemanticsMismatch
    ensures code != DuplicateEvidenceId
  {
    hide CitationReports;
    hide KindCited;
    if !code.RowNotPass? && !code.ExpiredReview? && !code.MissingRequiredEvidence? {
      var id :| id in CitedIds(row) && CitationReports(a, seen, row, evidence, id, code);
      CitationsReportOwnCodes(a, seen, row, evidence, id, code);
    }
  }

  /** Every code is among them exactly when its own condition holds. */
  lemma DecisionCodesExactly(profile: string, pinned: seq<Requirement>, matrix: seq<Row>, evidence: seq<Reference>,
                             a: Assessment, seen: Nonces, code: Blocker)
    ensures code in DecisionCodes(profile, pinned, matrix, evidence, a, seen)
            <==> Reported(profile, pinned, matrix, evidence, a, seen, code)
  {
    hide RowReports;
    hide RowsCodes;
    hide Select;
    hide SameIds;
    var rows := Select(matrix, profile);
    RowsCodesExactly(a, seen, evidence, rows, code);
    forall row ensures row in rows <==> row in matrix && row.profile == profile { SelectMembers(matrix, profile, row); }
    forall row | RowReports(a, seen, evidence, row, code)
      ensures code != ProfileNotSupported && code != RequirementSetMismatch && code != RequirementSemanticsMismatch
      ensures code != DuplicateEvidenceId
    {
      RowReportsOwnCodes(a, seen, evidence, row, code);
    }
    var set', text, twice := Reported(profile, pinned, matrix, evidence, a, seen, RequirementSetMismatch),
                             Reported(profile, pinned, matrix, evidence, a, seen, RequirementSemanticsMismatch),
                             Reported(profile, pinned, matrix, evidence, a, seen, DuplicateEvidenceId);
    InFourAnd(profile != "alpic-metadata", set', text, twice, RowsCodes(a, seen, evidence, rows), code);
  }

  lemma InFourAnd(b0: bool, b1: bool, b2: bool, b3: bool, rest: seq<Blocker>, code: Blocker)
    ensures code in When(b0, ProfileNotSupported) + When(b1, RequirementSetMismatch)
                    + When(b2, RequirementSemanticsMismatch) + When(b3, DuplicateEvidenceId) + rest
            <==> || (b0 && code == ProfileNotSupported) || (b1 && code == RequirementSetMismatch)
                 || (b2 && code == RequirementSemanticsMismatch) || (b3 && code == DuplicateEvidenceId) || code in rest
  {
  }

  lemma DecisionGathered(profile: string, pinned: seq<Requirement>, matrix: seq<Row>, evidence: seq<Reference>,
                         a: Assessment, seen: Nonces)
    requires DistinctIds(pinned)
    ensures var selected := Select(matrix, profile);
            DecisionCodes(profile, pinned, matrix, evidence, a, seen)
            == When(profile != CANDIDATE_PROFILE, ProfileNotSupported)
               + When(!SetMatches(pinned, matrix, selected), RequirementSetMismatch)
               + When(!SemanticsMatch(pinned, selected), RequirementSemanticsMismatch)
               + When(|EvidenceIds(evidence)| != |evidence|, DuplicateEvidenceId)
               + RowsCodes(a, seen, evidence, selected)
  {
    SetReported(profile, pinned, matrix, evidence, a, seen);
    SemanticsReported(profile, pinned, matrix, evidence, a, seen);
    IdsAreCounted(evidence);
    assert Reported(profile, pinned, matrix, evidence, a, seen, DuplicateEvidenceId) <==> !UniqueIds(evidence);
    assert Reported(profile, pinned, matrix, evidence, a, seen, ProfileNotSupported) <==> profile != CANDIDATE_PROFILE;
    hide Reported;
    hide UniqueIds;
    hide SetMatches;
    hide SemanticsMatch;
    hide Select;
    hide RowsCodes;
    hide EvidenceIds;
  }

  lemma DistinctGrows(codes: seq<Blocker>)
    requires codes != []
    ensures var d, last := Distinct(codes[..|codes| - 1]), codes[|codes| - 1];
            Distinct(codes) == if last in d then d else d + [last]
  {
  }

  /** Each reason keeps the place of its first occurrence. */
  lemma {:induction false} DistinctKeepsOrder(codes: seq<Blocker>, i: nat, j: nat, q: nat)
    requires i < j < |Distinct(codes)| && q < |codes| && codes[q] == Distinct(codes)[j]
    ensures exists p :: 0 <= p < q && codes[p] == Distinct(codes)[i]
  {
    var n := |codes| - 1;
    var front := codes[..n];
    var d := Distinct(front);
    DistinctGrows(codes);
    hide Distinct;
    if j < |d| {
      if q < n {
        assert front[q] == d[j];
        DistinctKeepsOrder(front, i, j, q);
        var p :| 0 <= p < q && front[p] == d[i];
        assert codes[p] == Distinct(codes)[i];
      } else {
        assert d[i] in front;
        var p :| 0 <= p < |front| && front[p] == d[i];
        assert codes[p] == Distinct(codes)[i];
      }
    } else {
      assert codes[q] == codes[n] && codes[n] !in d;
      assert forall z | z in front :: z in d;
      assert forall z | 0 <= z < n :: codes[z] in front;
      assert q == n;
      assert d[i] in front;
      var p :| 0 <= p < |front| && front[p] == d[i];
      assert codes[p] == Distinct(codes)[i];
    }
  }

  /** Every custodied reference that the rows cite has a receipt that is valid now and vouches for it. */
  ghost predicate RestsOnReceipts(a: Assessment, evidence: seq<Reference>, rows: seq<Row>) {
    forall k, id | 0 <= k < |rows| && id in CitedIds(rows[k]) :: RestsOnReceipt(a, evidence, rows[k], id)
  }

  ghost predicate RestsOnReceipt(a: Assessment, evidence: seq<Reference>, row: Row, id: string) {
    var r := Lookup(evidence, id);
    && r.Some?
    && (r.value.storage.Custodied? ==>
          exists c, receipt ::
            && IsClaimContext(a, row, r.value, c) && Vouched(r.value, c, receipt)
            && receipt.issuedAt <= a.asOf && a.asOf < receipt.expiresAt)
  }

  lemma ReleaseRestsOnReceipts(a: Assessment, seen: Nonces, evidence: seq<Reference>, rows: seq<Row>)
    requires RowsHold(a, seen, evidence, rows)
    ensures RestsOnReceipts(a, evidence, rows)
  {
    forall k, id | 0 <= k < |rows| && id in CitedIds(rows[k]) ensures RestsOnReceipt(a, evidence, rows[k], id) {
      var row := rows[k];
      assert RowHolds(a, seen, evidence, row);
      assert CitationHolds(a, seen, row, evidence, id);
      hide RowHolds;
      var r := Lookup(evidence, id).value;
      VerifiedInExactly(a, seen, row, r);
      hide VerifiedIn;
      hide Vouched;
      if r.storage.Custodied? {
        var c :| && IsClaimContext(a, row, r, c) && Pertinent(a, row, r)
                 && exists receipt ::
                      HeldUnder(a, seen, r, c, receipt) && receipt.issuedAt <= a.asOf && a.asOf < receipt.expiresAt;
        var receipt :| HeldUnder(a, seen, r, c, receipt) && receipt.issuedAt <= a.asOf && a.asOf < receipt.expiresAt;
      }
    }
  }

  /**
   The decision is to release exactly when the matrix is the pinned list for the one supported
   profile, evidence identifiers are unique, every row is sound apart from the registry, and the
   nonces its citations use fit the registry as the evaluation finds it and each other; then every
   row holds against the registry as the evaluation leaves it.  Otherwise it names each reason once, in
   the order in which they are found: a reason is given exactly when its own condition holds.
   */
  method CandidateProfileRelease(profile: string, pinned: seq<Requirement>, matrix: seq<Row>, evidence: seq<Reference>,
                                 a: Assessment, registry: ReplayRegistry)
    returns (d: Decision)
    requires DistinctIds(pinned)
    modifies registry
    ensures d.release <==> ReleasableFrom(profile, pinned, matrix, evidence, a, old(registry.seen))
    ensures d.release <==> Releasable(profile, pinned, matrix, evidence, a, registry.seen)
    ensures d.release <==> d.reasons == []
    ensures d.release ==> RestsOnReceipts(a, evidence, matrix)
    ensures d.reasons == Distinct(DecisionCodes(profile, pinned, matrix, evidence, a, registry.seen))
    ensures forall code :: code in d.reasons <==> Reported(profile, pinned, matrix, evidence, a, registry.seen, code)
    ensures forall i, j | 0 <= i < j < |d.reasons| :: d.reasons[i] != d.reasons[j]
    ensures Grows(old(registry.seen), registry.seen)
  {
    var selected := Select(matrix, profile);
    var blockers := When(profile != CANDIDATE_PROFILE, ProfileNotSupported)
                    + When(!SetMatches(pinned, matrix, selected), RequirementSetMismatch)
                    + When(!SemanticsMatch(pinned, selected), RequirementSemanticsMismatch)
                    + When(|EvidenceIds(evidence)| != |evidence|, DuplicateEvidenceId);
    PinnedExactly(profile, pinned, matrix);
    IdsAreCounted(evidence);
    hide ExactlyPinned;
    hide UniqueIds;
    hide SetMatches;
    hide SemanticsMatch;
    hide RowHolds;
    hide Select;
    hide SameIds;
    hide RowReports;
    hide RowSound;
    hide NoncesFit;
    hide CitedNonces;
    hide RowsCodes;
    hide EvidenceIds;
    hide RestsOnReceipts;
    hide Distinct;
    var more := AllRowBlockers(a, selected, evidence, registry);
    ghost var seen := registry.seen;
    SettledFromStart(a, old(registry.seen), seen, evidence, selected, more);
    hide Reported;
    hide DecisionCodes;
    DecisionGathered(profile, pinned, matrix, evidence, a, seen);
    if RowsHold(a, seen, evidence, selected) { ReleaseRestsOnReceipts(a, seen, evidence, selected); }
    var reasons := Distinct(blockers + more);
    d := Decision(reasons == [], reasons);
    forall code
      ensures code in DecisionCodes(profile, pinned, matrix, evidence, a, seen)
              <==> Reported(profile, pinned, matrix, evidence, a, seen, code)
    {
      DecisionCodesExactly(profile, pinned, matrix, evidence, a, seen, code);
    }
  }
}
