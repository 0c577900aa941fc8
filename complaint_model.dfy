/**
 * The complaint schema: the document passed to `new Complaint({...})`, the
 * `status` enumeration and its default, the `required` validation that runs
 * on save, and the stored document carrying store-set timestamps.
 */
module ComplaintModel {
  import opened Common

  /** A MongoDB ObjectId, compared by value. */
  type ObjectId = nat

  /** The values the `status` path accepts, in schema order. */
  const StatusValues: seq<string> := ["Pending", "In Progress", "Resolved"]

  /** The value `status` takes when the caller supplies none. */
  const DefaultStatus: string := "Pending"

  /** The object handed to the model constructor; every path may be absent. */
  datatype ComplaintInput = ComplaintInput(
    user: Option<ObjectId>,
    description: Option<string>,
    cause: Option<string>,
    impact: Option<string>,
    location: Option<string>,
    proofImage: Option<string>,
    status: Option<string>,
    emailBody: Option<string>,
    classifiedIntent: Option<string>,
    departmentEmail: Option<string>,
    departmentName: Option<string>)

  /** A document as the store holds it: required paths are present. */
  datatype Complaint = Complaint(
    id: ObjectId,
    user: ObjectId,
    description: string,
    cause: string,
    impact: string,
    location: Option<string>,
    proofImage: string,
    status: string,
    emailBody: string,
    classifiedIntent: Option<string>,
    departmentEmail: Option<string>,
    departmentName: Option<string>,
    createdAt: int,
    updatedAt: int)
  {
    /** The schema paths of the stored document, as the constructor would receive them. */
    function Input(): ComplaintInput {
      ComplaintInput(Some(user), Some(description), Some(cause), Some(impact), location,
                     Some(proofImage), Some(status), Some(emailBody),
                     classifiedIntent, departmentEmail, departmentName)
    }
  }

  /** Mongoose's `required` check on a String path: set and non-empty. */
  predicate RequiredString(s: Option<string>) {
    s.Some? && s.value != ""
  }

  /** The `enum` check on `status`: an unset value passes, a set one must be listed. */
  predicate StatusAllowed(s: Option<string>) {
    s.None? || s.value in StatusValues
  }

  /** Construction applies the schema default of `status`; nothing else has a default. */
  function WithDefaults(input: ComplaintInput): (r: ComplaintInput)
    ensures r.status.Some?
    ensures input.status.Some? ==> r.status == input.status
    ensures input.status.None? ==> r.status == Some(DefaultStatus)
    ensures r.(status := input.status) == input
  {
    if input.status.Some? then input else input.(status := Some(DefaultStatus))
  }

  /**
   * Whether a constructed document passes validation on save. The status
   * default is listed, so validity can be read off the input as given.
   */
  predicate SchemaValid(input: ComplaintInput): (valid: bool)
    ensures valid <==>
              && input.user.Some?
              && RequiredString(input.description)
              && RequiredString(input.cause)
              && RequiredString(input.impact)
              && RequiredString(input.proofImage)
              && RequiredString(input.emailBody)
              && StatusAllowed(input.status)
  {
    var d := WithDefaults(input);
    && d.user.Some?
    && RequiredString(d.description)
    && RequiredString(d.cause)
    && RequiredString(d.impact)
    && RequiredString(d.proofImage)
    && StatusAllowed(d.status)
    && RequiredString(d.emailBody)
  }

  /** A schema path that carries a validator. */
  datatype SchemaPath = UserPath | DescriptionPath | CausePath | ImpactPath
                      | ProofImagePath | StatusPath | EmailBodyPath

  /** Whether one validated path of a constructed document passes its validator. */
  predicate PathValid(input: ComplaintInput, p: SchemaPath) {
    var d := WithDefaults(input);
    match p
    case UserPath => d.user.Some?
    case DescriptionPath => RequiredString(d.description)
    case CausePath => RequiredString(d.cause)
    case ImpactPath => RequiredString(d.impact)
    case ProofImagePath => RequiredString(d.proofImage)
    case StatusPath => StatusAllowed(d.status)
    case EmailBodyPath => RequiredString(d.emailBody)
  }

  /** The validated paths in schema order. */
  const SchemaOrder: seq<SchemaPath> :=
    [UserPath, DescriptionPath, CausePath, ImpactPath, ProofImagePath, StatusPath, EmailBodyPath]

  /** The failing paths among `paths`, in their order. */
  function FailingAmong(input: ComplaintInput, paths: seq<SchemaPath>): (r: seq<SchemaPath>)
    ensures forall p :: p in r <==> p in paths && !PathValid(input, p)
  {
    if paths == [] then []
    else
      var rest := FailingAmong(input, paths[1..]);
      assert paths == [paths[0]] + paths[1..];
      if PathValid(input, paths[0]) then rest else [paths[0]] + rest
  }

  /**
   * The paths the validation error reports, in schema order: exactly the
   * failing ones, so the list is empty exactly when the document is valid.
   */
  function InvalidPaths(input: ComplaintInput): (paths: seq<SchemaPath>)
    ensures forall p :: p in paths <==> !PathValid(input, p)
    ensures paths == [] <==> SchemaValid(input)
  {
    SchemaOrderComplete(input);
    var r := FailingAmong(input, SchemaOrder);
    assert r != [] ==> r[0] in r;
    r
  }

  /** Every validated path is listed, and validity is every path passing. */
  lemma SchemaOrderComplete(input: ComplaintInput)
    ensures forall p :: p in SchemaOrder
    ensures SchemaValid(input) <==> forall p :: PathValid(input, p)
  {
    forall p: SchemaPath ensures p in SchemaOrder && (SchemaValid(input) ==> PathValid(input, p)) {
      match p
      case UserPath =>
      case DescriptionPath =>
      case CausePath =>
      case ImpactPath =>
      case ProofImagePath =>
      case StatusPath =>
      case EmailBodyPath =>
    }
    if forall p :: PathValid(input, p) {
      assert PathValid(input, UserPath) && PathValid(input, DescriptionPath)
          && PathValid(input, CausePath) && PathValid(input, ImpactPath)
          && PathValid(input, ProofImagePath) && PathValid(input, StatusPath)
          && PathValid(input, EmailBodyPath);
    }
  }

  /**
   * The document the store writes for a valid input: the caller's paths with
   * defaults applied, the assigned id, and both timestamps set to the store's clock.
   */
  function Stamp(input: ComplaintInput, id: ObjectId, now: int): (c: Complaint)
    requires SchemaValid(input)
    ensures c.Input() == WithDefaults(input)
    ensures c.id == id && c.createdAt == now && c.updatedAt == now
  {
    var d := WithDefaults(input);
    Complaint(id, d.user.value, d.description.value, d.cause.value, d.impact.value,
              d.location, d.proofImage.value, d.status.value, d.emailBody.value,
              d.classifiedIntent, d.departmentEmail, d.departmentName, now, now)
  }

  /** What every document in the store satisfies. */
  predicate Stored(c: Complaint) {
    SchemaValid(c.Input())
  }

  /** Applying defaults twice changes nothing. */
  lemma DefaultsIdempotent(input: ComplaintInput)
    ensures WithDefaults(WithDefaults(input)) == WithDefaults(input)
  {
  }

  /** A document without a `status` gets "Pending", which the enumeration accepts. */
  lemma DefaultStatusIsPending(input: ComplaintInput)
    requires input.status.None?
    ensures WithDefaults(input).status == Some("Pending")
    ensures StatusAllowed(WithDefaults(input).status)
  {
  }

  /** Exactly the valid inputs become stored documents. */
  lemma StampIsStored(input: ComplaintInput, id: ObjectId, now: int)
    requires SchemaValid(input)
    ensures Stored(Stamp(input, id, now))
  {
  }

  /** A stored document's status is always one of the three listed values. */
  lemma StoredStatusEnumerated(c: Complaint)
    requires Stored(c)
    ensures c.status in StatusValues
    ensures c.status == "Pending" || c.status == "In Progress" || c.status == "Resolved"
  {
  }

  /** A stored document has every required path non-empty. */
  lemma StoredRequiredPresent(c: Complaint)
    requires Stored(c)
    ensures c.description != "" && c.cause != "" && c.impact != ""
    ensures c.proofImage != "" && c.emailBody != ""
  {
  }

  /** The optional paths never decide validity. */
  lemma OptionalPathsIrrelevant(input: ComplaintInput, location: Option<string>,
                                intent: Option<string>, email: Option<string>, name: Option<string>)
    ensures SchemaValid(input.(location := location, classifiedIntent := intent,
                               departmentEmail := email, departmentName := name))
            == SchemaValid(input)
  {
  }
}
