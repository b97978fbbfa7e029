/** The records the front end exchanges with the snippet service. */
module Types {
  import opened Wrappers

  /** One page's position in a paginated listing. */
  datatype PaginationInfo = PaginationInfo(
    page: int,
    pageSize: int,
    totalItems: int,
    totalPages: int,
    hasNext: bool,
    hasPrev: bool)

  /** A snippet as shown in a list: metadata plus a shortened content preview. */
  datatype TreePreview = TreePreview(
    id: int,
    title: string,
    language: string,
    isPublic: bool,
    ownerId: Option<int>,
    ownerUsername: Option<string>,
    createdAt: string,
    expiresAt: Option<string>,
    contentPreview: string)

  /** What the registration form submits. */
  datatype RegisterData = RegisterData(username: string, password: string, email: string)

  /** One page of a listing together with its pagination info. */
  datatype PageResponse = PageResponse(items: seq<TreePreview>, pagination: PaginationInfo)
}
