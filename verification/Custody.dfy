/**
 Verification of custodied evidence: a receipt must bind every field of the claim, and a replay
 registry lets one nonce stand for one claim subject only.
 */
module Custody {
  import opened Options

  type Instant = nat

  /** The receipt fields that make up the claim subject. */
  datatype Subject = Subject(
    approverSubject: Option<string>, artifactObjectVersion: string, artifactSha256: string, assertedInvariant: string,
    attestationCommit: Option<string>, authorityId: string, candidateBundle: Option<string>, candidateTree: string,
    claimPurpose: string, coveredSurface: string, decision: string, deploymentId: Option<string>, evidenceId: string,
    evidenceRevision: string, imageDigest: Option<string>, artifactUri: string, kind: string, profile: string,
    requirementId: string, reviewer: string, riskId: Option<string>, selectors: seq<string>)

  datatype Receipt = Receipt(subject: Subject, receiptId: string, nonce: string, issuedAt: Instant, expiresAt: Instant)

  datatype Storage = Local | Custodied(authorityId: string, receiptId: string, artifactUri: string,
                                       objectVersion: string)

  datatype Reference = Reference(
    evidenceId: string, kind: string, selectors: seq<string>, reviewer: string, deploymentId: Option<string>,
    imageDigest: Option<string>, sha256: string, evidenceRevision: string, candidateTree: string,
    requirementIds: seq<string>, profiles: seq<string>, assertedInvariant: string, coveredSurface: string,
    collectedAt: Instant, expiresAt: Instant, claimPurpose: Option<string>, storage: Storage)

  /** An authority answers with a receipt, or with nothing when it raises. */
  datatype Authority = Authority(id: string, receiptFor: Reference -> Option<Receipt>)

  datatype Context = Context(
    evidenceRevision: string, candidateTree: string, requirementId: string, profile: string, assertedInvariant: string,
    coveredSurface: string, asOf: Instant, claimPurpose: string, riskId: Option<string>,
    candidateBundle: Option<string>,
    attestationCommit: Option<string>, approverSubject: Option<string>, authorities: seq<Authority>, hasRegistry: bool)

  /** Canonical JSON and SHA-256 of a subject. */
  type SubjectDigest = Subject -> string

  // ------------------------------------------------------------- the receipt

  function Matching(authorities: seq<Authority>, id: string): seq<Authority> {
    if authorities == [] then []
    else (if authorities[0].id == id then [authorities[0]] else []) + Matching(authorities[1..], id)
  }

  function ReceiptOf(reference: Reference, context: Context): Option<Receipt> {
    if reference.storage.Local? then None
    else
      var authorities := Matching(context.authorities, reference.storage.authorityId);
      if |authorities| != 1 || !context.hasRegistry then None else authorities[0].receiptFor(reference)
  }

  /** The only subject a receipt may carry for this reference in this context. */
  function ExpectedSubject(reference: Reference, context: Context): Subject
    requires reference.storage.Custodied?
  {
    Subject(
      context.approverSubject, reference.storage.objectVersion, reference.sha256, context.assertedInvariant,
      context.attestationCommit, reference.storage.authorityId, context.candidateBundle, context.candidateTree,
      context.claimPurpose, context.coveredSurface,
      if context.riskId.Some? then "risk_approved" else "evidence_verified",
      reference.deploymentId, reference.evidenceId, context.evidenceRevision, reference.imageDigest,
      reference.storage.artifactUri, reference.kind, context.profile, context.requirementId, reference.reviewer,
      context.riskId, reference.selectors)
  }

  predicate ReceiptBinds(reference: Reference, context: Context, receipt: Receipt) {
    && reference.storage.Custodied?
    && receipt.receiptId == reference.storage.receiptId
    && receipt.subject == ExpectedSubject(reference, context)
    && receipt.issuedAt <= context.asOf < receipt.expiresAt
  }

  /** The receipt that reaches the registry, if every other check passed. */
  function BoundReceipt(reference: Reference, context: Context): (r: Option<Receipt>)
    ensures r.Some? ==> reference.storage.Custodied? && r.value.subject == ExpectedSubject(reference, context)
  {
    var receipt := ReceiptOf(reference, context);
    if receipt.Some? && ReceiptBinds(reference, context, receipt.value) then receipt else None
  }

  // --------------------------------------------- what a bound receipt says, field by field

  /** The receipt is for this reference and claim, and `asOf` is within its validity. */
  ghost predicate Endorses(reference: Reference, context: Context, receipt: Receipt)
    requires reference.storage.Custodied?
  {
    var custody, s := reference.storage, receipt.subject;
    && receipt.receiptId == custody.receiptId
    && receipt.issuedAt <= context.asOf && context.asOf < receipt.expiresAt
    && s.authorityId == custody.authorityId && s.artifactUri == custody.artifactUri
    && s.artifactObjectVersion == custody.objectVersion
    && s.artifactSha256 == reference.sha256 && s.evidenceId == reference.evidenceId && s.kind == reference.kind
    && s.selectors == reference.selectors && s.reviewer == reference.reviewer
    && s.deploymentId == reference.deploymentId && s.imageDigest == reference.imageDigest
    && s.claimPurpose == context.claimPurpose && s.evidenceRevision == context.evidenceRevision
    && s.candidateTree == context.candidateTree && s.requirementId == context.requirementId
    && s.profile == context.profile && s.assertedInvariant == context.assertedInvariant
    && s.coveredSurface == context.coveredSurface && s.riskId == context.riskId
    && s.candidateBundle == context.candidateBundle && s.attestationCommit == context.attestationCommit
    && s.approverSubject == context.approverSubject
    && (context.riskId.Some? ==> s.decision == "risk_approved")
    && (context.riskId.None? ==> s.decision == "evidence_verified")
  }

  /** The `i`-th authority is the only one with this identifier. */
  ghost predicate OnlyAuthority(authorities: seq<Authority>, id: string, i: nat) {
    && i < |authorities| && authorities[i].id == id
    && forall j | 0 <= j < |authorities| && j != i :: authorities[j].id != id
  }

  /** The one authority that the reference names gives this receipt, and it endorses the claim. */
  ghost predicate Vouched(reference: Reference, context: Context, receipt: Receipt) {
    && reference.storage.Custodied? && context.hasRegistry && Endorses(reference, context, receipt)
    && exists i: nat ::
         && OnlyAuthority(context.authorities, reference.storage.authorityId, i)
         && context.authorities[i].receiptFor(reference) == Some(receipt)
  }

  lemma {:induction false} NoneMatching(authorities: seq<Authority>, id: string)
    ensures Matching(authorities, id) == [] <==> forall j | 0 <= j < |authorities| :: authorities[j].id != id
  {
    if authorities != [] {
      NoneMatching(authorities[1..], id);
      var rest := authorities[1..];
      assert forall j | 0 <= j < |rest| :: rest[j] == authorities[j + 1];
      if forall j | 0 <= j < |authorities| :: authorities[j].id != id {
        forall j | 0 <= j < |rest| ensures rest[j].id != id { assert authorities[j + 1].id != id; }
      }
      if Matching(authorities, id) == [] {
        forall j | 0 <= j < |authorities| ensures authorities[j].id != id {
          if j > 0 { assert rest[j - 1].id != id; }
        }
      }
    }
  }

  /** Exactly one authority matches if and only if it is the only one with the identifier. */
  lemma {:induction false} OneMatching(authorities: seq<Authority>, id: string, i: nat)
    ensures OnlyAuthority(authorities, id, i) ==> Matching(authorities, id) == [authorities[i]]
  {
    if OnlyAuthority(authorities, id, i) {
      var rest := authorities[1..];
      assert forall j | 0 <= j < |rest| :: rest[j] == authorities[j + 1];
      if i == 0 {
        NoneMatching(rest, id);
        forall j | 0 <= j < |rest| ensures rest[j].id != id { assert authorities[j + 1].id != id; }
      } else {
        forall j | 0 <= j < |rest| && j != i - 1 ensures rest[j].id != id { assert authorities[j + 1].id != id; }
        OneMatching(rest, id, i - 1);
      }
    }
  }

  lemma {:induction false} MatchedIsOnly(authorities: seq<Authority>, id: string) returns (i: nat)
    requires |Matching(authorities, id)| == 1
    ensures OnlyAuthority(authorities, id, i) && Matching(authorities, id) == [authorities[i]]
  {
    var rest := authorities[1..];
    assert forall j | 0 <= j < |rest| :: rest[j] == authorities[j + 1];
    if authorities[0].id == id {
      i := 0;
      assert |Matching(rest, id)| == 0;
      NoneMatching(rest, id);
      forall j | 0 < j < |authorities| ensures authorities[j].id != id { assert rest[j - 1].id != id; }
    } else {
      var k := MatchedIsOnly(rest, id);
      i := k + 1;
      forall j | 0 <= j < |authorities| && j != i ensures authorities[j].id != id {
        if j > 0 { assert rest[j - 1].id != id; }
      }
    }
  }

  lemma BindsIsEndorses(reference: Reference, context: Context, receipt: Receipt)
    requires reference.storage.Custodied?
    ensures ReceiptBinds(reference, context, receipt) <==> Endorses(reference, context, receipt)
  {
    var s, e := receipt.subject, ExpectedSubject(reference, context);
    if Endorses(reference, context, receipt) { assert s == e; }
  }

  /** The receipt that reaches the registry is exactly the one that is vouched for. */
  lemma BoundExactly(reference: Reference, context: Context, receipt: Receipt)
    ensures BoundReceipt(reference, context) == Some(receipt) <==> Vouched(reference, context, receipt)
  {
    if reference.storage.Custodied? {
      var id := reference.storage.authorityId;
      BindsIsEndorses(reference, context, receipt);
      hide ReceiptBinds;
      hide Endorses;
      if BoundReceipt(reference, context) == Some(receipt) {
        var i := MatchedIsOnly(context.authorities, id);
        hide Matching;
        assert OnlyAuthority(context.authorities, id, i);
      }
      if Vouched(reference, context, receipt) {
        var i: nat :| && OnlyAuthority(context.authorities, id, i)
                      && context.authorities[i].receiptFor(reference) == Some(receipt);
        OneMatching(context.authorities, id, i);
      }
    }
  }

  // ------------------------------------------------------- the replay registry

  type Nonces = map<string, string>

  predicate Accepts(seen: Nonces, nonce: string, subject: string) {
    nonce in seen ==> seen[nonce] == subject
  }

  /** First use, or idempotent reuse for the same subject. */
  class ReplayRegistry {
    var seen: Nonces

    constructor ()
      ensures seen == map[]
    {
      seen := map[];
    }

    method Accept(nonce: string, subject: string) returns (ok: bool)
      modifies this
      ensures ok == Accepts(old(seen), nonce, subject)
      ensures seen == if ok then old(seen)[nonce := subject] else old(seen)
    {
      ok := nonce !in seen || seen[nonce] == subject;
      if ok { seen := seen[nonce := subject]; }
    }
  }

  /** What one verification does to the registry, and whether it succeeds. */
  function Verified(digest: SubjectDigest, seen: Nonces, reference: Reference, context: Context): (bool, Nonces) {
    match BoundReceipt(reference, context)
    case None => (false, seen)
    case Some(receipt) =>
      var subject := digest(receipt.subject);
      if Accepts(seen, receipt.nonce, subject) then (true, seen[receipt.nonce := subject]) else (false, seen)
  }

  method VerifyCustodiedEvidence(digest: SubjectDigest, reference: Reference, context: Context,
                                 registry: ReplayRegistry)
    returns (ok: bool)
    modifies registry
    ensures (ok, registry.seen) == Verified(digest, old(registry.seen), reference, context)
    ensures ok <==> exists receipt ::
                      && Vouched(reference, context, receipt)
                      && (receipt.nonce in old(registry.seen) ==>
                            old(registry.seen)[receipt.nonce] == digest(receipt.subject))
    ensures forall receipt | ok && Vouched(reference, context, receipt) ::
              registry.seen == old(registry.seen)[receipt.nonce := digest(receipt.subject)]
    ensures !ok ==> registry.seen == old(registry.seen)
  {
    forall receipt ensures BoundReceipt(reference, context) == Some(receipt) <==> Vouched(reference, context, receipt) {
      BoundExactly(reference, context, receipt);
    }
    hide Vouched;
    var receipt := ReceiptOf(reference, context);
    if receipt.None? || !ReceiptBinds(reference, context, receipt.value) { return false; }
    ok := registry.Accept(receipt.value.nonce, digest(receipt.value.subject));
  }

  // ----------------------------------------------------------- over whole runs

  datatype Attempt = Attempt(reference: Reference, context: Context)

  /** The registry after each attempt of a run. */
  ghost predicate Run(digest: SubjectDigest, attempts: seq<Attempt>, states: seq<Nonces>) {
    && |states| == |attempts| + 1
    && (forall t | 0 <= t < |attempts| ::
          states[t + 1] == Verified(digest, states[t], attempts[t].reference, attempts[t].context).1)
  }

  ghost predicate AcceptedAt(digest: SubjectDigest, attempts: seq<Attempt>, states: seq<Nonces>, t: nat)
    requires Run(digest, attempts, states) && t < |attempts|
  {
    Verified(digest, states[t], attempts[t].reference, attempts[t].context).0
  }

  ghost predicate Grows(a: Nonces, b: Nonces) {
    forall n | n in a :: n in b && b[n] == a[n]
  }

  lemma {:induction false} RegistryGrows(digest: SubjectDigest, attempts: seq<Attempt>, states: seq<Nonces>, s: nat,
                                         t: nat)
    requires Run(digest, attempts, states) && s <= t < |states|
    ensures Grows(states[s], states[t])
    decreases t - s
  {
    if s < t {
      RegistryGrows(digest, attempts, states, s, t - 1);
      assert Grows(states[t - 1], states[t]);
    }
  }

  lemma AcceptedIsRecorded(digest: SubjectDigest, attempts: seq<Attempt>, states: seq<Nonces>, t: nat)
    requires Run(digest, attempts, states) && t < |attempts| && AcceptedAt(digest, attempts, states, t)
    ensures var r := BoundReceipt(attempts[t].reference, attempts[t].context);
            && r.Some? && r.value.nonce in states[t + 1] && states[t + 1][r.value.nonce] == digest(r.value.subject)
  {
  }

  ghost predicate CollisionFree(digest: SubjectDigest, a: Subject, b: Subject) {
    digest(a) == digest(b) ==> a == b
  }

  /**
   In any sequence of verifications that share a registry, whatever it held at the start, two
   accepted receipts with the same nonce carry the same claim subject, and that subject is the
   one each reference and context demanded.
   */
  lemma NonceMeansOneSubject(digest: SubjectDigest, attempts: seq<Attempt>, states: seq<Nonces>, i: nat, j: nat)
    requires Run(digest, attempts, states) && i <= j < |attempts|
    requires AcceptedAt(digest, attempts, states, i) && AcceptedAt(digest, attempts, states, j)
    requires var a := BoundReceipt(attempts[i].reference, attempts[i].context);
             var b := BoundReceipt(attempts[j].reference, attempts[j].context);
             a.Some? && b.Some? && a.value.nonce == b.value.nonce ==>
               CollisionFree(digest, a.value.subject, b.value.subject)
    ensures var a := BoundReceipt(attempts[i].reference, attempts[i].context);
            var b := BoundReceipt(attempts[j].reference, attempts[j].context);
            && a.Some? && b.Some?
            && (a.value.nonce == b.value.nonce ==>
                  && a.value.subject == b.value.subject
                  && ExpectedSubject(attempts[i].reference, attempts[i].context)
                     == ExpectedSubject(attempts[j].reference, attempts[j].context))
  {
    AcceptedIsRecorded(digest, attempts, states, i);
    AcceptedIsRecorded(digest, attempts, states, j);
    RegistryGrows(digest, attempts, states, i + 1, j + 1);
    hide BoundReceipt;
  }
}
