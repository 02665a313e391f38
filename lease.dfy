/**
 * Lease vocabulary of the storage service: the lease status, state and duration enumerations
 * with their wire names (as `create_enum!` declares them, `from_str` matching the name exactly),
 * and the lease identifier.
 */
module Lease {
  import opened Wrappers

  datatype LeaseStatus = Locked | Unlocked
  datatype LeaseState = Available | Leased | Expired | Breaking | Broken
  datatype LeaseDuration = Infinite | Fixed

  /** A lease identifier (a UUID), carried as its hyphenated text, which `to_string` renders. */
  datatype LeaseId = LeaseId(hyphenated: string)

  function LeaseStatusName(s: LeaseStatus): string {
    match s
    case Locked => "locked"
    case Unlocked => "unlocked"
  }

  function LeaseStatusFromStr(text: string): (r: Option<LeaseStatus>)
    ensures r.Some? ==> LeaseStatusName(r.value) == text
    ensures forall s :: LeaseStatusName(s) == text ==> r == Some(s)
  {
    if text == "locked" then Some(Locked)
    else if text == "unlocked" then Some(Unlocked)
    else None
  }

  function LeaseStateName(s: LeaseState): string {
    match s
    case Available => "available"
    case Leased => "leased"
    case Expired => "expired"
    case Breaking => "breaking"
    case Broken => "broken"
  }

  function LeaseStateFromStr(text: string): (r: Option<LeaseState>)
    ensures r.Some? ==> LeaseStateName(r.value) == text
    ensures forall s :: LeaseStateName(s) == text ==> r == Some(s)
  {
    if text == "available" then Some(Available)
    else if text == "leased" then Some(Leased)
    else if text == "expired" then Some(Expired)
    else if text == "breaking" then Some(Breaking)
    else if text == "broken" then Some(Broken)
    else None
  }

  function LeaseDurationName(d: LeaseDuration): string {
    match d
    case Infinite => "infinite"
    case Fixed => "fixed"
  }

  function LeaseDurationFromStr(text: string): (r: Option<LeaseDuration>)
    ensures r.Some? ==> LeaseDurationName(r.value) == text
    ensures forall d :: LeaseDurationName(d) == text ==> r == Some(d)
  {
    if text == "infinite" then Some(Infinite)
    else if text == "fixed" then Some(Fixed)
    else None
  }
}
