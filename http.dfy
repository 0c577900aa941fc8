/** The status code and JSON payload a route handler answers with. */
module Http {
  import opened Common
  import opened ComplaintModel
  import opened ComplaintStore

  datatype Body =
    | Message(text: string)
      // `{ message: error.message }` for an error thrown by `save()`
    | SaveFailed(error: SaveError)
    | Created(complaint: Complaint)
    | Page(complaints: seq<Complaint>, currentPage: int, totalComplaints: nat, totalPages: Option<int>)
    | Complaints(items: seq<Complaint>)
    | Stats(memberSince: int, totalIssues: nat)

  datatype Response = Response(status: int, body: Body)

  const InternalServerError: string := "Internal server error"
}
