/** The finding schema shared by every scanner (backend/models/finding.py). */
module Findings {
  import opened Prelude
  import opened Cwe

  datatype Severity = Info | Low | Medium | High | Critical

  function SeverityIndex(s: Severity): nat {
    match s
    case Info => 0
    case Low => 1
    case Medium => 2
    case High => 3
    case Critical => 4
  }

  datatype Verdict = TruePositive | FalsePositive | NeedsReview

  datatype Status = Unvalidated | StatusTruePositive | StatusFalsePositive | StatusNeedsReview | FixFailed | Fixed

  datatype Scope = New | Existing | UnknownScope

  datatype Analysis = Analysis(verdict: Verdict, confidence: real, priority: int, exploitability: string,
                               reasoning: string, citedLines: seq<int>, model: string)

  datatype Finding = Finding(
    id: string, scanner: string, ruleId: string, file: string, line: int, endLine: Option<int>,
    severity: Severity, cwe: Option<Cwe>, owasp: Option<string>, title: string, evidence: string,
    status: Status, symbol: Option<string>, fingerprint: string, prScope: Scope, cve: Option<string>,
    package: Option<string>, alsoDetectedBy: seq<string>, mergedRuleIds: seq<string>,
    reachable: Option<bool>, analysis: Option<Analysis>)

  /** `f.end_line or f.line`. */
  function EndOf(f: Finding): int {
    if f.endLine.Some? && f.endLine.value != 0 then f.endLine.value else f.line
  }

  function Ids(findings: seq<Finding>): seq<string> {
    seq(|findings|, i requires 0 <= i < |findings| => findings[i].id)
  }

  function Fingerprints(findings: seq<Finding>): seq<string> {
    seq(|findings|, i requires 0 <= i < |findings| => findings[i].fingerprint)
  }
}
