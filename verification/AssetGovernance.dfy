/** Decisions on official assets and the inclusion of an asset in a release. */
module AssetGovernance {
  import opened Common

  datatype AssetState = Candidate | Approved | Restricted | Withdrawn

  datatype Decision = Approve | Restrict | Withdraw

  datatype AssetRecord = AssetRecord(
    assetId: string, assetRevision: string, sourceStatement: string, rightsBasis: Option<string>,
    allowedPurposes: seq<string>, decisionAuthorityId: Option<string>, decidedAt: Option<string>,
    targetRelease: Option<string>, state: AssetState, recordRevision: nat)

  datatype DecisionInput = DecisionInput(
    assetId: string, assetRevision: string, expectedRecordRevision: int, decision: Decision, rightsBasis: string,
    allowedPurposes: seq<string>, decisionAuthorityId: string, decidedAt: string, targetRelease: Option<string>)

  datatype BlockedReason = InputInvalid | TargetMismatch | RevisionConflict | TransitionInvalid

  datatype DecisionResult = Blocked(reason: BlockedReason) | Completed(record: AssetRecord)

  const MAX_SAFE_INTEGER := 9007199254740991

  /** White space and line terminators, as String.prototype.trim removes them. */
  predicate Space(c: char) {
    var n := c as int;
    9 <= n <= 13 || n == 0x20 || n == 0xA0 || n == 0x1680 || 0x2000 <= n <= 0x200A || n == 0x2028 || n == 0x2029 ||
    n == 0x202F || n == 0x205F || n == 0x3000 || n == 0xFEFF
  }

  predicate NonEmpty(s: string) {
    exists i :: 0 <= i < |s| && !Space(s[i])
  }

  predicate InputValid(input: DecisionInput) {
    NonEmpty(input.assetId) && NonEmpty(input.assetRevision) &&
    0 <= input.expectedRecordRevision <= MAX_SAFE_INTEGER && NonEmpty(input.rightsBasis) &&
    NonEmpty(input.decisionAuthorityId) && NonEmpty(input.decidedAt) &&
    (forall i :: 0 <= i < |input.allowedPurposes| ==> NonEmpty(input.allowedPurposes[i])) &&
    (input.decision == Withdraw || input.allowedPurposes != [])
  }

  function StateOf(d: Decision): AssetState {
    match d case Approve => Approved case Restrict => Restricted case Withdraw => Withdrawn
  }

  /** applyOfficialAssetDecision. */
  function Apply(current: AssetRecord, input: DecisionInput): DecisionResult {
    if !InputValid(input) then Blocked(InputInvalid)
    else if current.assetId != input.assetId || current.assetRevision != input.assetRevision then Blocked(TargetMismatch)
    else if current.recordRevision != input.expectedRecordRevision then Blocked(RevisionConflict)
    else if current.state == Withdrawn && input.decision != Withdraw then Blocked(TransitionInvalid)
    else Completed(current.(rightsBasis := Some(input.rightsBasis), allowedPurposes := input.allowedPurposes,
                            decisionAuthorityId := Some(input.decisionAuthorityId), decidedAt := Some(input.decidedAt),
                            targetRelease := input.targetRelease, state := StateOf(input.decision),
                            recordRevision := current.recordRevision + 1))
  }

  /** What one record of a history may be followed by. */
  predicate Follows(a: AssetRecord, b: AssetRecord) {
    && b.recordRevision == a.recordRevision + 1
    && b.assetId == a.assetId && b.assetRevision == a.assetRevision && b.sourceStatement == a.sourceStatement
    && b.state != Candidate && (a.state == Withdrawn ==> b.state == Withdrawn)
    && (b.state == Approved || b.state == Restricted ==> b.allowedPurposes != [])
    && b.rightsBasis.Some? && NonEmpty(b.rightsBasis.value) && b.decisionAuthorityId.Some? && b.decidedAt.Some?
  }

  lemma AppliedFollows(current: AssetRecord, input: DecisionInput)
    requires Apply(current, input).Completed?
    ensures Follows(current, Apply(current, input).record)
  {
  }

  // ------------------------------------------------------------ what was decided

  /** No more than white space. */
  predicate Blank(s: string) {
    forall i :: 0 <= i < |s| ==> s[i] in WHITE_SPACE
  }

  const WHITE_SPACE := "\t\n\U{000B}\U{000C}\r \U{00A0}\U{1680}\U{2000}\U{2001}\U{2002}\U{2003}\U{2004}\U{2005}\U{2006}" +
    "\U{2007}\U{2008}\U{2009}\U{200A}\U{2028}\U{2029}\U{202F}\U{205F}\U{3000}\U{FEFF}"

  lemma BlankIsEmpty(s: string)
    ensures NonEmpty(s) <==> !Blank(s)
  {
    forall c: char ensures Space(c) <==> c in WHITE_SPACE { SpaceListed(c); }
  }

  /** The record says what the input decided, field by field. */
  predicate Says(r: AssetRecord, input: DecisionInput) {
    && (r.state == Approved <==> input.decision == Approve) && (r.state == Restricted <==> input.decision == Restrict)
    && (r.state == Withdrawn <==> input.decision == Withdraw)
    && r.rightsBasis == Some(input.rightsBasis) && r.allowedPurposes == input.allowedPurposes
    && r.decisionAuthorityId == Some(input.decisionAuthorityId) && r.decidedAt == Some(input.decidedAt)
    && r.targetRelease == input.targetRelease
  }

  /** The input can be decided on at all. */
  predicate Sensible(input: DecisionInput) {
    && !Blank(input.assetId) && !Blank(input.assetRevision) && !Blank(input.rightsBasis) && !Blank(input.decisionAuthorityId)
    && !Blank(input.decidedAt) && (forall purpose :: purpose in input.allowedPurposes ==> !Blank(purpose))
    && 0 <= input.expectedRecordRevision <= 9007199254740991
    && (input.decision == Approve || input.decision == Restrict ==> input.allowedPurposes != [])
  }

  /** When a decision applies to the current record, what it makes of it, and why it does not otherwise. */
  lemma AppliesExactly(current: AssetRecord, input: DecisionInput)
    ensures var same := current.assetId == input.assetId && current.assetRevision == input.assetRevision;
            var expected := current.recordRevision == input.expectedRecordRevision;
            var reopens := current.state == Withdrawn && input.decision != Withdraw;
            var d := Apply(current, input);
            && (d.Completed? <==> Sensible(input) && same && expected && !reopens)
            && (d == Blocked(InputInvalid) <==> !Sensible(input))
            && (d == Blocked(TargetMismatch) <==> Sensible(input) && !same)
            && (d == Blocked(RevisionConflict) <==> Sensible(input) && same && !expected)
            && (d == Blocked(TransitionInvalid) <==> Sensible(input) && same && expected && reopens)
    ensures Apply(current, input).Completed? ==>
              var r := Apply(current, input).record;
              Says(r, input) && r.recordRevision == current.recordRevision + 1 && r.assetId == current.assetId &&
              r.assetRevision == current.assetRevision && r.sourceStatement == current.sourceStatement
  {
    hide NonEmpty, Blank;
    SensibleIsValid(input);
  }

  lemma SensibleIsValid(input: DecisionInput)
    ensures Sensible(input) <==> InputValid(input)
  {
    hide NonEmpty, Blank;
    BlankIsEmpty(input.assetId);
    BlankIsEmpty(input.assetRevision);
    BlankIsEmpty(input.rightsBasis);
    BlankIsEmpty(input.decisionAuthorityId);
    BlankIsEmpty(input.decidedAt);
    forall i | 0 <= i < |input.allowedPurposes| ensures NonEmpty(input.allowedPurposes[i]) <==> !Blank(input.allowedPurposes[i]) {
      BlankIsEmpty(input.allowedPurposes[i]);
    }
  }

  lemma SpaceListed(c: char)
    ensures Space(c) <==> c in WHITE_SPACE
  {
  }

  datatype Inclusion = Inclusion(
    assetId: string, assetRevision: string, decisionRecordRevision: nat, allowedPurpose: string, targetRelease: Option<string>)

  /** verifyOfficialAssetInclusion. */
  predicate Included(r: AssetRecord, i: Inclusion) {
    (r.state == Approved || r.state == Restricted) && r.assetId == i.assetId && r.assetRevision == i.assetRevision &&
    r.recordRevision == i.decisionRecordRevision && i.allowedPurpose in r.allowedPurposes && r.targetRelease == i.targetRelease
  }

  /** An inclusion is verified by the record of a decision exactly when it names that decision and what the decision
      allows; a withdrawal verifies none. */
  lemma InclusionsOfDecision(current: AssetRecord, input: DecisionInput, i: Inclusion)
    requires Apply(current, input).Completed?
    ensures Included(Apply(current, input).record, i) <==>
              && (input.decision == Approve || input.decision == Restrict)
              && i.assetId == input.assetId && i.assetRevision == input.assetRevision
              && i.decisionRecordRevision == input.expectedRecordRevision + 1 && i.targetRelease == input.targetRelease
              && exists k :: 0 <= k < |input.allowedPurposes| && input.allowedPurposes[k] == i.allowedPurpose
    ensures current.state == Candidate || current.state == Withdrawn ==> !Included(current, i)
  {
    AppliesExactly(current, input);
    hide Apply, Sensible, InputValid;
  }
}
