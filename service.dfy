/** The service record shared by the mock store and the list view. */
module ServiceModel {

  /** One service record. `createdAt` is an ISO-8601 timestamp string, so
      its string order is its chronological order. */
  datatype Service = Service(
    id: int,
    name: string,
    category: string,
    description: string,
    status: string,
    createdAt: string)

  /** The four columns the list can be sorted by. */
  datatype SortKey = Name | Category | Status | CreatedAt

  /** `record[key]` for a sortable column. */
  function Field(s: Service, key: SortKey): string
  {
    match key
    case Name => s.name
    case Category => s.category
    case Status => s.status
    case CreatedAt => s.createdAt
  }
}
