/** The administrator's case list page: the one next step it offers for each case, the
    filter state and its updates, and the pager. */
module AdminCasesPage {
  import opened Common

  // ----- getAvailableActions -----

  datatype Action = ContactOppositeParty | UpdateResponse | CreatePanel | StartMediation | ResolveCase

  function ActionLabel(a: Action): string {
    match a
    case ContactOppositeParty => "Contact Opposite Party"
    case UpdateResponse => "Update Response"
    case CreatePanel => "Create Panel"
    case StartMediation => "Start Mediation"
    case ResolveCase => "Resolve Case"
  }

  /** The `switch` on the case's status; `hasPanel` is whether the case came with one. */
  function AvailableActions(status: string, hasPanel: bool): seq<Action> {
    if status == "PENDING" then [ContactOppositeParty]
    else if status == "AWAITING_RESPONSE" then [UpdateResponse]
    else if status == "ACCEPTED" then (if hasPanel then [] else [CreatePanel])
    else if status == "PANEL_CREATED" then [StartMediation]
    else if status == "MEDIATION_IN_PROGRESS" then [ResolveCase]
    else []
  }

  /** At most one action per case; each status's action, the panel condition for
      creating one, and nothing for the closed statuses or an unknown one. */
  lemma OneActionAtMost(status: string, hasPanel: bool)
    ensures |AvailableActions(status, hasPanel)| <= 1
    ensures AvailableActions(status, hasPanel) == [ContactOppositeParty] <==> status == "PENDING"
    ensures AvailableActions(status, hasPanel) == [UpdateResponse] <==> status == "AWAITING_RESPONSE"
    ensures AvailableActions(status, hasPanel) == [CreatePanel] <==> status == "ACCEPTED" && !hasPanel
    ensures AvailableActions(status, hasPanel) == [StartMediation] <==> status == "PANEL_CREATED"
    ensures AvailableActions(status, hasPanel) == [ResolveCase] <==> status == "MEDIATION_IN_PROGRESS"
    ensures AvailableActions(status, hasPanel) == [] <==>
      status !in {"PENDING", "AWAITING_RESPONSE", "PANEL_CREATED", "MEDIATION_IN_PROGRESS"} && (status == "ACCEPTED" ==> hasPanel)
  {
  }

  // ----- the filter state -----

  /** `filters`: starts at page 1 with 20 rows; `limit` stays a number, which is what
      the arithmetic that reads it makes of the option text. */
  datatype Filters = Filters(status: string, caseType: string, search: string, page: int, limit: int)

  const InitialFilters := Filters("", "", "", 1, 20)

  datatype FilterKey = StatusKey | TypeKey | SearchKey | LimitKey | PageKey

  /** `[key]: value` alone, before the page is reset. */
  function SetField(f: Filters, key: FilterKey, value: string): Filters {
    match key
    case StatusKey => f.(status := value)
    case TypeKey => f.(caseType := value)
    case SearchKey => f.(search := value)
    case LimitKey => f.(limit := Pick(ParseInt(value), f.limit))
    case PageKey => f.(page := Pick(ParseInt(value), f.page))
  }

  /** `handleFilterChange` as written: `page: 1` follows `[key]: value` in the object
      literal, so it wins even when the key is `page`. */
  function FilterChangeAsWritten(f: Filters, key: FilterKey, value: string): Filters {
    SetField(f, key, value).(page := 1)
  }

  /** As written, the pager's buttons all lead back to page 1: asking for any page `n`
      leaves the list on the first page. */
  lemma PagerStuckOnFirstPage(f: Filters, n: nat)
    requires n > 1
    ensures FilterChangeAsWritten(f, PageKey, NatToString(n)).page == 1
    ensures FilterChangeAsWritten(f, PageKey, NatToString(n)).page != n
  {
  }

  /** The intended rule: a new filter starts again at page 1, and a page change goes to
      the page asked for. */
  function FilterChange(f: Filters, key: FilterKey, value: string): Filters {
    if key == PageKey then SetField(f, key, value) else SetField(f, key, value).(page := 1)
  }

  /** With the intended rule every button reaches its page and keeps the filters; any
      other change goes back to page 1 and differs from the written one nowhere. */
  lemma PagerReachesPage(f: Filters, key: FilterKey, value: string, n: nat)
    ensures var g := FilterChange(f, PageKey, NatToString(n));
      g.page == n && g == f.(page := n)
    ensures key != PageKey ==> FilterChange(f, key, value) == FilterChangeAsWritten(f, key, value)
    ensures key != PageKey ==> FilterChange(f, key, value).page == 1
  {
    ParseIntOfNatToString(n);
  }

  // ----- the pager -----

  /** `Math.max(1, page - 1)` and `Math.min(pages, page + 1)` */
  function PreviousPage(page: int): int {
    if page - 1 < 1 then 1 else page - 1
  }

  function NextPage(page: int, pages: int): int {
    if page + 1 < pages then page + 1 else pages
  }

  /** From any page of the list, the previous and next buttons stay within the pages
      and move by at most one, and the range shown is within the rows. */
  lemma PagerWithinBounds(page: int, limit: int, total: nat)
    requires limit > 0 && total > 0
    requires 1 <= page <= PageCount(total, limit).value
    ensures 1 <= ShowingFrom(page, limit) <= ShowingTo(page, limit, total) <= total
    ensures 1 <= PreviousPage(page) <= page && page - PreviousPage(page) <= 1
    ensures var pages := PageCount(total, limit).value;
      page <= NextPage(page, pages) <= pages && NextPage(page, pages) - page <= 1
  {
    ShownRangeWithinRows(page, limit, total);
  }
}
