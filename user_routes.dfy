/** The user route: GET /stats for the authenticated user. */
module UserRoutes {
  import opened ComplaintModel
  import opened ComplaintStore
  import opened Http
  import ComplaintRoutes

  /** The one user path the route selects. */
  datatype User = User(createdAt: int)

  const UserNotFoundMessage: string := "User not found"

  /**
   * GET /stats: 404 when no user has the requester's id; otherwise the user's
   * join date and the number of complaints the user owns. Reads only.
   */
  function UserStats(users: map<ObjectId, User>, docs: seq<Complaint>, requester: ObjectId): (r: Response)
    ensures r.status == 404 <==> requester !in users
    ensures requester !in users ==> r.body == Message(UserNotFoundMessage)
    ensures requester in users ==>
              && r.status == 200 && r.body.Stats?
              && r.body.memberSince == users[requester].createdAt
              && r.body.totalIssues == |FilterByUser(docs, requester)|
  {
    if requester !in users then Response(404, Message(UserNotFoundMessage))
    else
      Response(200, Stats(users[requester].createdAt, CountByUser(docs, requester)))
  }

  /** The stats count agrees with the length of the requester's complaint list. */
  lemma StatsAgreesWithUserList(users: map<ObjectId, User>, docs: seq<Complaint>, requester: ObjectId)
    requires requester in users
    ensures UserStats(users, docs, requester).body.totalIssues
            == |ComplaintRoutes.UserComplaints(docs, requester).body.items|
  {
  }
}
