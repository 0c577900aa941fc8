/**
 * The complaint routes: create, the paginated list of all complaints, the
 * requester's own complaints, and delete with its image cleanup. The
 * requester's id is the authenticated user's `_id`; the outcomes of the image
 * host's upload and destroy calls, the generated `_id` and the store's clock
 * are parameters.
 */
module ComplaintRoutes {
  import opened Common
  import opened JsStrings
  import opened ComplaintModel
  import opened ComplaintStore
  import opened Http

  // ---------------------------------------------------------------------
  // Create
  // ---------------------------------------------------------------------

  /** The JSON fields of a create request. */
  datatype CreateBody = CreateBody(
    description: Option<string>,
    cause: Option<string>,
    impact: Option<string>,
    location: Option<string>,
    proofImage: Option<string>)

  /** What the image host's upload answers: a `secure_url`, or an error. */
  datatype UploadResult = Uploaded(secureUrl: string) | UploadFailed(message: string)

  const MissingFieldsMessage: string := "Please provide description, cause, and impact fields"

  /** The request passes the handler's own field check. */
  predicate HasRequiredText(body: CreateBody): (ok: bool)
    ensures ok <==> && body.description != None && body.description != Some("")
                    && body.cause != None && body.cause != Some("")
                    && body.impact != None && body.impact != Some("")
  {
    Truthy(body.description) && Truthy(body.cause) && Truthy(body.impact)
  }

  /**
   * The object the handler passes to the model constructor: the submitted
   * text, the uploaded image URL (or null) and the requester as owner; no
   * status, email body or classification.
   */
  function CreateInput(requester: ObjectId, body: CreateBody, imageUrl: Option<string>): (r: ComplaintInput)
    ensures r.user == Some(requester)
    ensures r.description == body.description && r.cause == body.cause
    ensures r.impact == body.impact && r.location == body.location
    ensures r.proofImage == imageUrl
  {
    ComplaintInput(Some(requester), body.description, body.cause, body.impact, body.location,
                   imageUrl, None, None, None, None, None)
  }

  /**
   * The document create builds can never be saved: it lacks `emailBody`, and
   * without an image it lacks `proofImage` too; its status is the valid default.
   */
  lemma CreateInputNeverValid(requester: ObjectId, body: CreateBody, imageUrl: Option<string>)
    ensures !SchemaValid(CreateInput(requester, body, imageUrl))
    ensures EmailBodyPath in InvalidPaths(CreateInput(requester, body, imageUrl))
    ensures imageUrl.None? ==> ProofImagePath in InvalidPaths(CreateInput(requester, body, imageUrl))
    ensures StatusPath !in InvalidPaths(CreateInput(requester, body, imageUrl))
    ensures UserPath !in InvalidPaths(CreateInput(requester, body, imageUrl))
  {
  }

  /**
   * POST /: the field check, the upload when an image is sent, then save.
   * `uploadCalled` says whether the upload call was made.
   */
  method CreateComplaint(store: ComplaintCollection, requester: ObjectId, body: CreateBody,
                         upload: UploadResult, newId: ObjectId, now: int)
    returns (response: Response, uploadCalled: bool)
    requires store.Valid()
    modifies store
    ensures store.Valid()
    ensures !HasRequiredText(body) ==> response == Response(400, Message(MissingFieldsMessage))
    ensures response.status == 400 <==> !HasRequiredText(body)
    ensures uploadCalled <==> HasRequiredText(body) && Truthy(body.proofImage)
    ensures uploadCalled && upload.UploadFailed? ==> response == Response(500, Message(upload.message))
    // what a successful save would produce
    ensures response.status == 201 <==> response.body.Created?
    ensures response.body.Created? ==>
              && store.docs == old(store.docs) + [response.body.complaint]
              && response.body.complaint.id == newId
              && response.body.complaint.user == requester
              && Some(response.body.complaint.description) == body.description
              && Some(response.body.complaint.cause) == body.cause
              && Some(response.body.complaint.impact) == body.impact
              && response.body.complaint.location == body.location
              && response.body.complaint.status == DefaultStatus
              && response.body.complaint.createdAt == now
    ensures !response.body.Created? ==> store.docs == old(store.docs)
    // what the schema as written makes of every create that reaches save
    ensures response.body.SaveFailed? ==>
              response.status == 500 && response.body.error.ValidationError? &&
              EmailBodyPath in response.body.error.paths
    ensures HasRequiredText(body) && !(uploadCalled && upload.UploadFailed?) ==> response.body.SaveFailed?
    ensures HasRequiredText(body) && !Truthy(body.proofImage) ==>
              response.body.SaveFailed? && ProofImagePath in response.body.error.paths
    ensures response.status == 400 || response.status == 500
    ensures store.docs == old(store.docs)
  {
    if !(Truthy(body.description) && Truthy(body.cause) && Truthy(body.impact)) {
      return Response(400, Message(MissingFieldsMessage)), false;
    }
    var imageUrl: Option<string> := None;
    uploadCalled := false;
    if Truthy(body.proofImage) {
      uploadCalled := true;
      match upload {
        case UploadFailed(msg) =>
          return Response(500, Message(msg)), true;
        case Uploaded(url) =>
          imageUrl := Some(url);
      }
    }
    var input := CreateInput(requester, body, imageUrl);
    CreateInputNeverValid(requester, body, imageUrl);
    var saved := store.Save(input, newId, now);
    match saved {
      case Ok(c) => response := Response(201, Created(c));
      case Err(e) => response := Response(500, SaveFailed(e));
    }
  }

  // ---------------------------------------------------------------------
  // List (pagination)
  // ---------------------------------------------------------------------

  const DefaultPage: int := 1
  const DefaultLimit: int := 2

  /** `req.query.x || d`: a query parameter is absent, or present with its numeric value. */
  function QueryOr(param: Option<int>, default: int): (v: int)
    ensures param.None? ==> v == default
    ensures param.Some? ==> v == param.value
  {
    param.GetOr(default)
  }

  /** `(page - 1) * limit`. */
  function Skip(page: int, limit: int): (skip: int)
    ensures page == 1 || limit == 0 ==> skip == 0
    ensures limit > 0 ==> (skip < 0 <==> page < 1)
    ensures limit < 0 ==> (skip < 0 <==> page > 1)
  {
    (page - 1) * limit
  }

  function Abs(x: int): nat { if x < 0 then -x else x }

  function Min(a: int, b: int): int { if a <= b then a else b }

  /** `Math.ceil(total / limit)` for a non-zero limit: the least integer not below the quotient. */
  function CeilDiv(total: nat, limit: int): (q: int)
    requires limit != 0
    ensures limit > 0 ==> (q - 1) * limit < total <= q * limit
    ensures limit < 0 ==> q * limit <= total < (q - 1) * limit
  {
    if limit > 0 then
      var q := (total + limit - 1) / limit;
      CeilDivBounds(total, limit, q);
      q
    else
      var q := -(total / -limit);
      FloorDivBounds(total, -limit, total / -limit);
      q
  }

  lemma CeilDivBounds(total: nat, limit: int, q: int)
    requires limit > 0 && q == (total + limit - 1) / limit
    ensures (q - 1) * limit < total <= q * limit
  {
  }

  lemma FloorDivBounds(total: nat, d: int, f: int)
    requires d > 0 && f == total / d
    ensures f * d <= total < (f + 1) * d
  {
  }

  /**
   * `totalPages`: `Math.ceil(total / limit)`; a zero limit gives Infinity or
   * NaN, which JSON serialises as null.
   */
  function TotalPages(total: nat, limit: int): (r: Option<int>)
    ensures r.None? <==> limit == 0
    ensures limit > 0 ==> r.value >= 0 && (r.value - 1) * limit < total <= r.value * limit
    ensures limit < 0 ==> r.value <= 0 && r.value * limit <= total < (r.value - 1) * limit
  {
    if limit == 0 then None else Some(CeilDiv(total, limit))
  }

  /**
   * `.skip(skip).limit(limit)` over a sorted result: no limit when it is 0, at
   * most |limit| documents otherwise (a negative limit asks for one batch).
   */
  function Window(sorted: seq<Complaint>, skip: nat, limit: int): (w: seq<Complaint>)
    ensures |w| == if skip >= |sorted| then 0
                   else if limit == 0 then |sorted| - skip
                   else Min(Abs(limit), |sorted| - skip)
    ensures forall k :: 0 <= k < |w| ==> w[k] == sorted[skip + k]
  {
    if skip >= |sorted| then []
    else if limit == 0 then sorted[skip..]
    else sorted[skip..skip + Min(Abs(limit), |sorted| - skip)]
  }

  /**
   * GET /: the page of all complaints, newest first. A negative skip is
   * refused by the database and answered with 500.
   */
  function ListComplaints(docs: seq<Complaint>, pageParam: Option<int>, limitParam: Option<int>): (r: Response)
    ensures var page := QueryOr(pageParam, DefaultPage);
            var limit := QueryOr(limitParam, DefaultLimit);
            var skip := Skip(page, limit);
            && (r.status == 500 <==> skip < 0)
            && (skip < 0 ==> r.body == Message(InternalServerError))
            && (skip >= 0 ==>
                  && r.status == 200 && r.body.Page?
                  && r.body.currentPage == page
                  && r.body.totalComplaints == |docs|
                  && r.body.totalPages == TotalPages(|docs|, limit)
                  && (limit > 0 ==> |r.body.complaints| <= limit)
                  && |r.body.complaints| == (if skip >= |docs| then 0
                                             else if limit == 0 then |docs| - skip
                                             else Min(Abs(limit), |docs| - skip))
                  && (forall k :: 0 <= k < |r.body.complaints| ==>
                                    r.body.complaints[k] == SortNewestFirst(docs)[skip + k])
                  && NewestFirst(r.body.complaints)
                  && (forall c :: c in r.body.complaints ==> c in docs))
  {
    var page := QueryOr(pageParam, DefaultPage);
    var limit := QueryOr(limitParam, DefaultLimit);
    var skip := Skip(page, limit);
    if skip < 0 then Response(500, Message(InternalServerError))
    else
      var sorted := SortNewestFirst(docs);
      var items := Window(sorted, skip, limit);
      WindowOfSorted(sorted, docs, skip, limit);
      assert limit > 0 ==> |items| <= limit;
      Response(200, Page(items, page, |docs|, TotalPages(|docs|, limit)))
  }

  /** A window of the sorted collection is itself newest-first and drawn from it. */
  lemma WindowOfSorted(sorted: seq<Complaint>, docs: seq<Complaint>, skip: nat, limit: int)
    requires NewestFirst(sorted) && multiset(sorted) == multiset(docs)
    ensures NewestFirst(Window(sorted, skip, limit))
    ensures forall c :: c in Window(sorted, skip, limit) ==> c in docs
  {
    var w := Window(sorted, skip, limit);
    forall c | c in w ensures c in docs {
      var k :| 0 <= k < |w| && w[k] == c;
      assert sorted[skip + k] == c;
      assert c in multiset(sorted);
    }
  }

  /**
   * With a positive limit, page `page` (from 1) is non-empty exactly when it
   * is within `totalPages`.
   */
  lemma PageNonEmptyIffWithinTotal(docs: seq<Complaint>, page: int, limit: int)
    requires page >= 1 && limit > 0
    ensures ListComplaints(docs, Some(page), Some(limit)).body.Page?
    ensures |ListComplaints(docs, Some(page), Some(limit)).body.complaints| > 0
            <==> page <= TotalPages(|docs|, limit).value
  {
    var n, tp := |docs|, TotalPages(|docs|, limit).value;
    assert (page - 1) * limit >= 0;
    if page <= tp {
      assert (page - 1) * limit <= (tp - 1) * limit by {
        MulMonotone(page - 1, tp - 1, limit);
      }
    } else {
      assert tp * limit <= (page - 1) * limit by {
        MulMonotone(tp, page - 1, limit);
      }
    }
  }

  lemma MulMonotone(a: int, b: int, m: int)
    requires a <= b && m >= 0
    ensures a * m <= b * m
  {
  }

  /** With no parameters, five complaints give a first page of two and three pages. */
  lemma FiveComplaintsDefaultPaging(docs: seq<Complaint>)
    requires |docs| == 5
    ensures ListComplaints(docs, None, None).status == 200
    ensures |ListComplaints(docs, None, None).body.complaints| == 2
    ensures ListComplaints(docs, None, None).body.totalPages == Some(3)
  {
  }

  // ---------------------------------------------------------------------
  // The requester's complaints
  // ---------------------------------------------------------------------

  /** GET /user: exactly the requester's complaints, newest first. */
  function UserComplaints(docs: seq<Complaint>, requester: ObjectId): (r: Response)
    ensures r.status == 200 && r.body.Complaints?
    ensures forall c :: c in r.body.items <==> c in docs && c.user == requester
    ensures multiset(r.body.items) == multiset(FilterByUser(docs, requester))
    ensures NewestFirst(r.body.items)
    ensures |r.body.items| == CountByUser(docs, requester)
  {
    var mine := FilterByUser(docs, requester);
    var items := SortNewestFirst(mine);
    assert forall c :: c in items <==> c in multiset(mine);
    Response(200, Complaints(items))
  }

  // ---------------------------------------------------------------------
  // Delete
  // ---------------------------------------------------------------------

  /** The `:id` route parameter: an ObjectId, or text that fails the cast. */
  datatype IdParam = WellFormed(id: ObjectId) | Malformed

  /** What the image host's destroy answers; the handler catches a failure. */
  datatype DestroyResult = Destroyed | DestroyFailed(message: string)

  /** The last `/`-separated segment of a URL. */
  function LastSegment(url: string): (s: string)
    ensures '/' !in s
    ensures |s| <= |url| && url[|url| - |s|..] == s
    ensures |s| == |url| || url[|url| - |s| - 1] == '/'
  {
    var parts := Split(url, '/');
    JoinEndsWithLast(parts, '/');
    SplitLastAfterSep(url, '/');
    Last(parts)
  }

  /**
   * `url.split("/").pop().split(".")[0]`: the image's public id, the last
   * segment up to its first dot.
   */
  function PublicId(url: string): (id: string)
    ensures '/' !in id && '.' !in id
    ensures id <= LastSegment(url)
    ensures '.' !in LastSegment(url) ==> id == LastSegment(url)
    ensures '.' in LastSegment(url) ==> |id| < |LastSegment(url)| && LastSegment(url)[|id|] == '.'
  {
    var segment := LastSegment(url);
    var parts := Split(segment, '.');
    JoinStartsWithFirst(parts, '.');
    SplitFirstStopsAtSep(segment, '.');
    parts[0]
  }

  /** Destroy is called for an image that is set and hosted on Cloudinary. */
  predicate DestroyAttempted(proofImage: string): (attempted: bool)
    ensures attempted <==> exists i :: OccursAt(proofImage, "cloudinary", i)
  {
    proofImage != "" && Includes(proofImage, "cloudinary")
  }

  const NotFoundMessage: string := "Complaint not found"
  const UnauthorizedMessage: string := "Unauthorized"
  const DeletedMessage: string := "Complaint deleted successfully"

  /**
   * DELETE /:id: 404 for an unknown id, 401 for another user's complaint;
   * otherwise the image is destroyed (best effort: `destroy`'s outcome is
   * caught and makes no difference) and the complaint removed.
   * `destroyedId` is the public id destroy was called with, if it was.
   */
  method DeleteComplaint(store: ComplaintCollection, requester: ObjectId, idParam: IdParam,
                         destroy: DestroyResult)
    returns (response: Response, destroyedId: Option<string>)
    requires store.Valid()
    modifies store
    ensures store.Valid()
    ensures idParam.Malformed? ==>
              && response == Response(500, Message(InternalServerError))
              && store.docs == old(store.docs) && destroyedId.None?
    ensures idParam.WellFormed? && Find(old(store.docs), idParam.id).None? ==>
              && response == Response(404, Message(NotFoundMessage))
              && store.docs == old(store.docs) && destroyedId.None?
    ensures idParam.WellFormed? && Find(old(store.docs), idParam.id).Some? &&
            Find(old(store.docs), idParam.id).value.user != requester ==>
              && response == Response(401, Message(UnauthorizedMessage))
              && store.docs == old(store.docs) && destroyedId.None?
    ensures idParam.WellFormed? && Find(old(store.docs), idParam.id).Some? &&
            Find(old(store.docs), idParam.id).value.user == requester ==>
              var c := Find(old(store.docs), idParam.id).value;
              && response == Response(200, Message(DeletedMessage))
              && store.docs == WithoutId(old(store.docs), idParam.id)
              && |store.docs| == |old(store.docs)| - 1
              && destroyedId == (if DestroyAttempted(c.proofImage) then Some(PublicId(c.proofImage)) else None)
    ensures destroyedId.Some? ==> '/' !in destroyedId.value && '.' !in destroyedId.value
  {
    destroyedId := None;
    if idParam.Malformed? {
      return Response(500, Message(InternalServerError)), None;
    }
    var found := Find(store.docs, idParam.id);
    if found.None? {
      return Response(404, Message(NotFoundMessage)), None;
    }
    var complaint := found.value;
    if complaint.user != requester {
      return Response(401, Message(UnauthorizedMessage)), None;
    }
    if DestroyAttempted(complaint.proofImage) {
      destroyedId := Some(PublicId(complaint.proofImage));
    }
    DeleteRemovesExactlyOne(store.docs, complaint.id);
    store.DeleteOne(complaint.id);
    response := Response(200, Message(DeletedMessage));
  }

  /**
   * An owner's delete removes exactly one complaint: the target is gone and
   * every other complaint is kept.
   */
  lemma {:induction false} DeleteRemovesExactlyOne(docs: seq<Complaint>, id: ObjectId)
    requires UniqueIds(docs) && HasId(docs, id)
    ensures |WithoutId(docs, id)| == |docs| - 1
    ensures !HasId(WithoutId(docs, id), id)
    ensures forall c :: c in docs && c.id != id ==> c in WithoutId(docs, id)
  {
    if docs[0].id != id {
      assert HasId(docs[1..], id) by {
        var i :| 0 <= i < |docs| && docs[i].id == id;
        assert docs[1..][i - 1].id == id;
      }
      DeleteRemovesExactlyOne(docs[1..], id);
    }
  }
}
