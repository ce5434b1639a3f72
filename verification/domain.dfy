/** The enumerations shared by the list and detail pages, with the exact
    strings the application uses for them in URLs and requests. */
module Domain {
  import opened Options

  datatype AdStatus = Pending | Approved | Rejected | Draft

  datatype SortBy = CreatedAt | Price | Priority

  datatype SortOrder = Asc | Desc

  function StatusName(s: AdStatus): string {
    match s
    case Pending => "pending"
    case Approved => "approved"
    case Rejected => "rejected"
    case Draft => "draft"
  }

  /** The status a string names, if it names one (`isValidStatus`). */
  function ParseStatus(value: string): (r: Option<AdStatus>)
    ensures r.Some? ==> StatusName(r.value) == value
  {
    if value == "pending" then Some(Pending)
    else if value == "approved" then Some(Approved)
    else if value == "rejected" then Some(Rejected)
    else if value == "draft" then Some(Draft)
    else None
  }

  /** Every status name is recognised as its own status. */
  lemma ParseStatusName(s: AdStatus)
    ensures ParseStatus(StatusName(s)) == Some(s)
  {
  }

  function SortByName(f: SortBy): string {
    match f
    case CreatedAt => "createdAt"
    case Price => "price"
    case Priority => "priority"
  }

  function SortOrderName(o: SortOrder): string {
    match o
    case Asc => "asc"
    case Desc => "desc"
  }

  /** No status name contains a comma, so a comma-joined list of them can be
      split back apart. */
  lemma StatusNameHasNoComma(s: AdStatus)
    ensures ',' !in StatusName(s)
  {
  }
}
