/** Normalised scan results, shared by every scanner and consumer. */
module Scanners {
  datatype Severity = Critical | High | Medium | Low | Unknown

  function Rank(s: Severity): int {
    match s
    case Critical => 4
    case High => 3
    case Medium => 2
    case Low => 1
    case Unknown => 0
  }

  /** At least as severe: critical, high, medium, low, unknown. */
  predicate MoreSevere(a: Severity, b: Severity) {
    match b
    case Critical => a.Critical?
    case High => a.Critical? || a.High?
    case Medium => !a.Low? && !a.Unknown?
    case Low => !a.Unknown?
    case Unknown => true
  }

  datatype Summary = Summary(critical: int, high: int, medium: int, low: int, unknown: int)

  const NO_VULNERABILITIES: Summary := Summary(0, 0, 0, 0, 0)

  function Total(s: Summary): int {
    s.critical + s.high + s.medium + s.low + s.unknown
  }

  datatype Finding = Finding(id: string, cve: string, pkg: string, installed: string, fixed: string,
                             severity: Severity, exploitable: bool, fixAvailable: bool)

  function FindingSeverity(f: Finding): Severity {
    f.severity
  }

  datatype ScanResult = ScanResult(scanner: string, digest: string, summary: Summary, findings: seq<Finding>)
}
