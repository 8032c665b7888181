/** The user's dashboard: the four counters over the fetched cases, and the page's own
    status colours and texts (which, unlike the shared helpers, know no REJECTED). */
module DashboardPage {
  import opened Common

  const InProgress: seq<string> := ["AWAITING_RESPONSE", "ACCEPTED", "PANEL_CREATED", "MEDIATION_IN_PROGRESS"]

  /** `cases.filter(c => c.status === s).length` over the statuses of the fetched cases. */
  function CountStatus(statuses: seq<string>, s: string): nat
    decreases |statuses|
  {
    if statuses == [] then 0 else (if statuses[0] == s then 1 else 0) + CountStatus(statuses[1..], s)
  }

  function CountInProgress(statuses: seq<string>): nat
    decreases |statuses|
  {
    if statuses == [] then 0 else (if statuses[0] in InProgress then 1 else 0) + CountInProgress(statuses[1..])
  }

  /** Cases in none of the three buckets. */
  function CountUnbucketed(statuses: seq<string>): nat
    decreases |statuses|
  {
    if statuses == [] then 0
    else (if statuses[0] != "PENDING" && statuses[0] !in InProgress && statuses[0] != "RESOLVED" then 1 else 0)
         + CountUnbucketed(statuses[1..])
  }

  datatype DashboardStats = DashboardStats(totalCases: nat, pendingCases: nat, inProgressCases: nat, resolvedCases: nat)

  /** `cases?.length || 0` and the three filters; no data yet gives zeros. The request
      asks for `limit=5`, so these count at most the five newest cases. */
  function Stats(cases: Option<seq<string>>): DashboardStats {
    match cases
    case None => DashboardStats(0, 0, 0, 0)
    case Some(sts) => DashboardStats(|sts|, CountStatus(sts, "PENDING"), CountInProgress(sts), CountStatus(sts, "RESOLVED"))
  }

  /** Every case is in exactly one bucket or in none: the buckets never add up to more
      than the total, and the gap is the cases in no bucket. */
  lemma {:induction false} BucketsPartition(sts: seq<string>)
    ensures CountStatus(sts, "PENDING") + CountInProgress(sts) + CountStatus(sts, "RESOLVED") + CountUnbucketed(sts) == |sts|
    decreases |sts|
  {
    if sts != [] {
      BucketsPartition(sts[1..]);
    }
  }

  /** Unresolved and rejected cases are in no bucket: each one makes the counters fall
      short of the total. */
  lemma {:induction false} ClosedCasesUncounted(sts: seq<string>)
    ensures forall k :: 0 <= k < |sts| && sts[k] in {"UNRESOLVED", "REJECTED"} ==> CountUnbucketed(sts) > 0
    ensures var s := Stats(Some(sts)); s.pendingCases + s.inProgressCases + s.resolvedCases <= s.totalCases
    decreases |sts|
  {
    BucketsPartition(sts);
    if sts != [] {
      ClosedCasesUncounted(sts[1..]);
      forall k | 0 < k < |sts| && sts[k] in {"UNRESOLVED", "REJECTED"} ensures CountUnbucketed(sts[1..]) > 0 {
        assert sts[1..][k - 1] == sts[k];
      }
    }
  }

  /** The page's `getStatusColor`. */
  function StatusColor(status: string): string {
    if status == "PENDING" then "status-pending"
    else if status in InProgress then "status-in-progress"
    else if status == "RESOLVED" then "status-resolved"
    else if status == "UNRESOLVED" then "status-unresolved"
    else "status-pending"
  }

  /** The page's `getStatusText`. */
  function StatusText(status: string): string {
    if status == "PENDING" then "Pending Review"
    else if status == "AWAITING_RESPONSE" then "Awaiting Response"
    else if status == "ACCEPTED" then "Accepted"
    else if status == "PANEL_CREATED" then "Panel Created"
    else if status == "MEDIATION_IN_PROGRESS" then "In Mediation"
    else if status == "RESOLVED" then "Resolved"
    else if status == "UNRESOLVED" then "Unresolved"
    else status
  }

  /** The colour follows the buckets; a rejected case looks pending and is labelled with
      its raw status. */
  lemma ColorsFollowBuckets(status: string)
    ensures status in InProgress <==> StatusColor(status) == "status-in-progress"
    ensures StatusColor("REJECTED") == "status-pending" && StatusText("REJECTED") == "REJECTED"
    ensures status !in InProgress && status !in {"PENDING", "RESOLVED", "UNRESOLVED"} ==>
      StatusColor(status) == "status-pending" && StatusText(status) == status
  {
  }
}
