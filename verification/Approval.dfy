/** The human approval gate (backend/api/dashboard.py): a verified fix becomes a branch and a pull request only here. */
module Approval {
  import opened Prelude
  import opened Text
  import opened Sorting
  import Patching
  import opened Store
  import opened PullRequest

  /** What is recorded about the scan: its repository, the head of its pull request, and the tree at the scanned
      commit. */
  datatype Scanned = Scanned(repo: string, headRepo: Option<string>, headRef: Option<string>, tree: Patching.Tree)

  datatype Refusal = WritesDisabled | NobodyApproves | ScanNotFound | FromFork | NothingPending | CouldNotOpen

  datatype Outcome = Refused(why: Refusal) | Approved(pull: Pull, fixes: nat)

  predicate IsFork(scan: Scanned) {
    scan.headRepo.Some? && scan.headRepo.value != scan.repo
  }

  function BaseRef(scan: Scanned): string {
    if Truthy(scan.headRef) then scan.headRef.value else "main"
  }

  /** The first reason that stops an approval. */
  function WhyNot(writes: bool, approvedBy: string, scan: Option<Scanned>, pending: seq<Row>, taken: bool)
    : Option<Refusal>
  {
    if !writes then Some(WritesDisabled)
    else if Strip(approvedBy) == "" then Some(NobodyApproves)
    else if scan.None? then Some(ScanNotFound)
    else if IsFork(scan.value) then Some(FromFork)
    else if pending == [] then Some(NothingPending)
    else if taken then Some(CouldNotOpen)
    else None
  }

  /** When a reason stops an approval. */
  ghost predicate Stops(why: Refusal, writes: bool, approvedBy: string, scan: Option<Scanned>, scanId: string,
                        rows: seq<Row>, taken: bool)
  {
    match why
    case WritesDisabled => !writes
    case NobodyApproves => AllBlank(approvedBy)
    case ScanNotFound => scan.None?
    case FromFork => scan.Some? && scan.value.headRepo.Some? && scan.value.headRepo.value != scan.value.repo
    case NothingPending => forall row :: row in rows ==> !(row.scanId == scanId && row.status == RowVerified)
    case CouldNotOpen => taken
  }

  /** The order in which the reasons are looked for. */
  function Turn(why: Refusal): nat {
    match why
    case WritesDisabled => 1
    case NobodyApproves => 2
    case ScanNotFound => 3
    case FromFork => 4
    case NothingPending => 5
    case CouldNotOpen => 6
  }

  /** `why` is the first reason that stops the approval, and there is none if none does. */
  ghost predicate FirstToStop(why: Option<Refusal>, writes: bool, approvedBy: string, scan: Option<Scanned>,
                              scanId: string, rows: seq<Row>, taken: bool)
  {
    && (why.Some? ==> Stops(why.value, writes, approvedBy, scan, scanId, rows, taken))
    && forall other :: (why.None? || Turn(other) < Turn(why.value)) ==>
         !Stops(other, writes, approvedBy, scan, scanId, rows, taken)
  }

  lemma {:induction false} BlankStrips(s: string)
    ensures Strip(s) == "" <==> AllBlank(s)
  {
    StripTrims(s);
    var before, after :| s == before + Strip(s) + after && AllBlank(before) && AllBlank(after) &&
                         (Strip(s) != "" ==> Strip(s)[0] !in BLANKS && Strip(s)[|Strip(s)| - 1] !in BLANKS);
    if Strip(s) != "" {
      assert s[|before|] == Strip(s)[0];
    }
  }

  lemma {:induction false} NonePending(rows: seq<Row>, scanId: string)
    ensures Pending(rows, scanId) == [] <==>
            forall row :: row in rows ==> !(row.scanId == scanId && row.status == RowVerified)
  {
    DictSize(VerifiedRows(rows, scanId), RowFingerprint);
    EmptyFilter(rows, (r: Row) => AwaitsApproval(r, scanId));
  }

  lemma {:induction false} WhyNotIsFirst(writes: bool, approvedBy: string, scan: Option<Scanned>, scanId: string,
                                         rows: seq<Row>, taken: bool)
    ensures FirstToStop(WhyNot(writes, approvedBy, scan, Pending(rows, scanId), taken), writes, approvedBy, scan,
                        scanId, rows, taken)
  {
    BlankStrips(approvedBy);
    NonePending(rows, scanId);
    var why := WhyNot(writes, approvedBy, scan, Pending(rows, scanId), taken);
    forall other | why.None? || Turn(other) < Turn(why.value)
      ensures !Stops(other, writes, approvedBy, scan, scanId, rows, taken)
    {
      match other {
        case WritesDisabled =>
        case NobodyApproves =>
        case ScanNotFound =>
        case FromFork =>
        case NothingPending =>
        case CouldNotOpen =>
      }
    }
  }

  /** A refused approval changes nothing. An accepted one opens a branch with the scanned tree and the pending fixes on
      it, and takes them off the list: exactly the rows that a later one of their fingerprint superseded stay pending.
      None do exactly when no fingerprint was verified twice; then nothing can be approved twice. */
  method ApproveRemediations(store: RemediationStore, gh: GitHub, writes: bool, approvedBy: string, scanId: string,
                             scan: Option<Scanned>, url: Pull -> string)
    returns (r: Outcome)
    requires store.Valid()
    modifies store`rows, gh
    ensures store.Valid()
    ensures FirstToStop(if r.Refused? then Some(r.why) else None, writes, approvedBy, scan, scanId, old(store.rows),
                        BranchName(scanId) in old(gh.branches))
    ensures r.Refused? ==>
              store.rows == old(store.rows) && gh.branches == old(gh.branches) && gh.pulls == old(gh.pulls)
    ensures r.Approved? ==>
              && scan.Some? && r.pull.head == BranchName(scanId)
              && r.pull.base == (if scan.value.headRef in {None, Some("")} then "main" else scan.value.headRef.value)
              && r.fixes == |Pending(old(store.rows), scanId)|
              && gh.pulls == old(gh.pulls) + [r.pull]
              && gh.branches == old(gh.branches)[BranchName(scanId) :=
                                                 scan.value.tree + Overlay(Pending(old(store.rows), scanId))]
    ensures r.Approved? ==>
              && Trimmed(approvedBy, Strip(approvedBy))
              && store.rows == Marked(old(store.rows), Pending(old(store.rows), scanId), RowPrOpened,
                                      Some(Strip(approvedBy)), Some(url(r.pull)))
              && VerifiedRows(store.rows, scanId) == LeftOver(old(store.rows), scanId)
              && (Pending(store.rows, scanId) == [] <==>
                  DistinctBy(VerifiedRows(old(store.rows), scanId), RowFingerprint))
  {
    WhyNotIsFirst(writes, approvedBy, scan, scanId, store.rows, BranchName(scanId) in gh.branches);
    StripTrims(approvedBy);
    if !writes {
      return Refused(WritesDisabled);
    }
    if Strip(approvedBy) == "" {
      return Refused(NobodyApproves);
    }
    if scan.None? {
      return Refused(ScanNotFound);
    }
    if IsFork(scan.value) {
      return Refused(FromFork);
    }
    var fixes := store.VerifiedRemediations(scanId);
    if fixes == [] {
      return Refused(NothingPending);
    }
    var result := gh.OpenRemediationPr(BaseRef(scan.value), scan.value.tree, scanId, fixes);
    if !result.OpenedPull? {
      return Refused(CouldNotOpen);
    }
    var who, at := Some(Strip(approvedBy)), Some(url(result.pull));
    NumberedIsDistinct(store.rows, store.nextId);
    ApprovalDrains(store.rows, scanId, who, at);
    store.MarkRemediations(fixes, RowPrOpened, who, at);
    return Approved(result.pull, |fixes|);
  }
}
