/** The user's own case list ("My Cases"): the status filter over the fetched cases,
    what each card shows for its status, its type and the other party, and the filter
    buttons' labels. */
module CasesPage {
  import opened Common
  import opened Store

  /** What the page reads of one fetched case: `defendant` is the registered other
      party's name when there is one, `oppositeParty` the name typed in for an
      unregistered one. */
  datatype CaseCard = CaseCard(
    id: string, status: string, caseType: string,
    defendant: Option<string>, oppositeParty: Option<string>)

  predicate Shown(c: CaseCard, filter: string) {
    filter == "ALL" || c.status == filter
  }

  /** `cases.filter(case_ => filter === 'ALL' || case_.status === filter)` */
  function FilterCases(cs: seq<CaseCard>, filter: string): seq<CaseCard>
    decreases |cs|
  {
    if cs == [] then []
    else (if Shown(cs[0], filter) then [cs[0]] else []) + FilterCases(cs[1..], filter)
  }

  /** Filtering a list filters each part of it and keeps the parts in order, so the cards
      keep the order the server sent them in. */
  lemma {:induction false} FilterKeepsOrder(a: seq<CaseCard>, b: seq<CaseCard>, filter: string)
    ensures FilterCases(a + b, filter) == FilterCases(a, filter) + FilterCases(b, filter)
    decreases |a|
  {
    if a == [] {
      assert a + b == b;
    } else {
      assert (a + b)[1..] == a[1..] + b;
      FilterKeepsOrder(a[1..], b, filter);
    }
  }

  /** A card is listed exactly when it was fetched and has the chosen status; "ALL"
      lists every fetched case as it is. */
  lemma {:induction false} FilterContents(cs: seq<CaseCard>, filter: string)
    ensures forall c :: c in FilterCases(cs, filter) <==> c in cs && Shown(c, filter)
    ensures filter == "ALL" ==> FilterCases(cs, filter) == cs
    ensures |FilterCases(cs, filter)| <= |cs|
    decreases |cs|
  {
    if cs != [] {
      FilterContents(cs[1..], filter);
      assert cs == [cs[0]] + cs[1..];
    }
  }

  /** `getOppositePartyName`: the registered defendant first, then the details typed in
      at registration, then "Unknown". */
  function OppositePartyName(c: CaseCard): (name: string)
    ensures c.defendant.Some? ==> name == c.defendant.value
    ensures c.defendant.None? && c.oppositeParty.Some? ==> name == c.oppositeParty.value
    ensures c.defendant.None? && c.oppositeParty.None? ==> name == "Unknown"
  {
    match c.defendant
    case Some(n) => n
    case None => Pick(c.oppositeParty, "Unknown")
  }

  // ----- statusConfig / caseTypeConfig -----

  function StatusConfigLabel(st: CaseStatus): string {
    match st
    case PENDING => "Pending"
    case AWAITING_RESPONSE => "Awaiting Response"
    case ACCEPTED => "Accepted"
    case PANEL_CREATED => "Panel Created"
    case MEDIATION_IN_PROGRESS => "Mediation in Progress"
    case RESOLVED => "Resolved"
    case UNRESOLVED => "Unresolved"
    case REJECTED => "Rejected"
  }

  function CaseTypeConfigLabel(t: CaseType): string {
    match t
    case FAMILY => "Family Dispute"
    case BUSINESS => "Business Dispute"
    case CRIMINAL => "Criminal Matter"
    case PROPERTY => "Property Dispute"
    case OTHER_CASE => "Other"
  }

  /** `statusConfig[case_.status] || statusConfig.PENDING`: an unknown status is shown as
      a pending one. */
  function CardStatus(status: string): CaseStatus {
    Pick(StatusOf(status), PENDING)
  }

  /** `caseTypeConfig[case_.caseType] || caseTypeConfig.OTHER` */
  function CardType(caseType: string): CaseType {
    Pick(CaseTypeOf(caseType), OTHER_CASE)
  }

  /** Every card has a badge: its own status and type when the server sent a known one,
      "Pending" and "Other" otherwise; a known status never reads as another one. */
  lemma CardBadges(status: string, caseType: string, a: CaseStatus, b: CaseStatus)
    ensures StatusOf(status).Some? ==> StatusName(CardStatus(status)) == status
    ensures StatusOf(status).None? ==> StatusConfigLabel(CardStatus(status)) == "Pending"
    ensures CaseTypeOf(caseType).Some? ==> CaseTypeName(CardType(caseType)) == caseType
    ensures CaseTypeOf(caseType).None? ==> CaseTypeConfigLabel(CardType(caseType)) == "Other"
    ensures a != b ==> StatusConfigLabel(a) != StatusConfigLabel(b)
    ensures CardStatus(StatusName(a)) == a
  {
    StatusNamesRoundTrip(a);
  }

  // ----- the filter buttons and the empty list -----

  /** The buttons offered: every status except UNRESOLVED. */
  const OfferedFilters: seq<string> :=
    ["ALL", "PENDING", "AWAITING_RESPONSE", "ACCEPTED", "PANEL_CREATED", "MEDIATION_IN_PROGRESS", "RESOLVED", "REJECTED"]

  /** A button's text: "All", or the status's label, or the status with its first
      underscore turned into a space when it has no label. */
  function FilterLabel(status: string): string {
    if status == "ALL" then "All"
    else match StatusOf(status)
      case Some(st) => StatusConfigLabel(st)
      case None => ReplaceFirstUnderscore(status)
  }

  /** Every button offered is "ALL" or a known status, so each shows its label; no button
      shows the unresolved cases, and the eight buttons read differently. */
  lemma OfferedFiltersLabelled()
    ensures "UNRESOLVED" !in OfferedFilters
    ensures forall f :: f in OfferedFilters ==> f == "ALL" || StatusOf(f).Some?
    ensures forall f :: f in OfferedFilters && f != "ALL" ==> FilterLabel(f) == StatusConfigLabel(StatusOf(f).value)
    ensures forall i, j :: 0 <= i < j < |OfferedFilters| ==> FilterLabel(OfferedFilters[i]) != FilterLabel(OfferedFilters[j])
  {
  }

  /** The text under "No cases found". */
  function EmptyMessage(filter: string): string {
    if filter == "ALL" then "You haven't registered any cases yet."
    else "No " + ReplaceFirstUnderscore(Lower(filter)) + " cases found."
  }

  /** The message names the filter in lower case; a filter without an underscore is named
      exactly, and one with several keeps all but its first. */
  lemma EmptyMessageNamesFilter(filter: string, i: nat)
    ensures filter != "ALL" ==>
      && |EmptyMessage(filter)| == |filter| + 16
      && EmptyMessage(filter)[3..3 + |filter|] == ReplaceFirstUnderscore(Lower(filter))
    ensures filter != "ALL" && (forall k :: 0 <= k < |filter| ==> filter[k] != '_') ==>
      EmptyMessage(filter)[3..3 + |filter|] == Lower(filter)
    ensures filter != "ALL" && i < |filter| && filter[i] == '_' && (forall k :: 0 <= k < i ==> filter[k] != '_') ==>
      EmptyMessage(filter)[3..3 + |filter|] == Lower(filter)[..i] + " " + Lower(filter)[i + 1..]
  {
    var l := Lower(filter);
    ReplaceKeepsOthers(l);
    if filter != "ALL" {
      var m := EmptyMessage(filter);
      assert m == "No " + ReplaceFirstUnderscore(l) + " cases found.";
      assert m[3..3 + |filter|] == ReplaceFirstUnderscore(l);
      if i < |filter| && filter[i] == '_' && (forall k :: 0 <= k < i ==> filter[k] != '_') {
        forall k | 0 <= k < i ensures l[k] != '_' {
          assert l[k] == LowerChar(filter[k]);
        }
        ReplaceFirstOnly(l, i);
      }
    }
  }
}
