/**
 * The complaint collection: the documents in their natural (insertion) order,
 * the two writes the handlers perform (save of a constructed document and
 * delete of a found one) and the reads they issue (find by id, filter by
 * owner, sort by `createdAt` descending, count).
 */
module ComplaintStore {
  import opened Common
  import opened ComplaintModel

  /** No two documents share an `_id`. */
  predicate UniqueIds(docs: seq<Complaint>) {
    forall i, j :: 0 <= i < j < |docs| ==> docs[i].id != docs[j].id
  }

  /** Some document has the given `_id`. */
  predicate HasId(docs: seq<Complaint>, id: ObjectId) {
    exists i :: 0 <= i < |docs| && docs[i].id == id
  }

  /** `findById`: the document with that `_id`, if any. */
  function Find(docs: seq<Complaint>, id: ObjectId): (r: Option<Complaint>)
    ensures r.Some? ==> r.value in docs && r.value.id == id
    ensures r.None? <==> !HasId(docs, id)
  {
    if docs == [] then None
    else if docs[0].id == id then Some(docs[0])
    else
      var r := Find(docs[1..], id);
      assert HasId(docs, id) ==> HasId(docs[1..], id) by {
        if HasId(docs, id) {
          var i :| 0 <= i < |docs| && docs[i].id == id;
          assert docs[1..][i - 1].id == id;
        }
      }
      assert HasId(docs[1..], id) ==> HasId(docs, id) by {
        if HasId(docs[1..], id) {
          var i :| 0 <= i < |docs[1..]| && docs[1..][i].id == id;
          assert docs[i + 1].id == id;
        }
      }
      r
  }

  /** `sub` is `docs` with some elements dropped, the rest in their order. */
  predicate IsSubsequence(sub: seq<Complaint>, docs: seq<Complaint>)
    decreases |docs|
  {
    || sub == []
    || (docs != [] &&
        ((sub[0] == docs[0] && IsSubsequence(sub[1..], docs[1..])) || IsSubsequence(sub, docs[1..])))
  }

  /** The collection after deleting by `_id`: every other document, in order. */
  function WithoutId(docs: seq<Complaint>, id: ObjectId): (r: seq<Complaint>)
    ensures forall c :: c in r <==> c in docs && c.id != id
    ensures |r| <= |docs|
    ensures !HasId(docs, id) ==> r == docs
  {
    if docs == [] then []
    else
      var rest := WithoutId(docs[1..], id);
      assert !HasId(docs, id) ==> !HasId(docs[1..], id) by {
        if HasId(docs[1..], id) {
          var i :| 0 <= i < |docs[1..]| && docs[1..][i].id == id;
          assert docs[i + 1].id == id;
        }
      }
      if docs[0].id == id then rest
      else
        assert docs == [docs[0]] + docs[1..];
        [docs[0]] + rest
  }

  /**
   * Deleting by `_id` keeps every other document as often as it was stored,
   * and in its order.
   */
  lemma {:induction false} WithoutIdKeepsOthers(docs: seq<Complaint>, id: ObjectId)
    ensures forall c :: multiset(WithoutId(docs, id))[c] == (if c.id == id then 0 else multiset(docs)[c])
    ensures IsSubsequence(WithoutId(docs, id), docs)
  {
    if docs != [] {
      WithoutIdKeepsOthers(docs[1..], id);
      var rest := WithoutId(docs[1..], id);
      assert docs == [docs[0]] + docs[1..];
      if docs[0].id != id {
        assert ([docs[0]] + rest)[1..] == rest;
      }
    }
  }

  /** `find({ user })`: the owner's documents, in natural order. */
  function FilterByUser(docs: seq<Complaint>, user: ObjectId): (r: seq<Complaint>)
    ensures forall c :: c in r <==> c in docs && c.user == user
    ensures forall c :: multiset(r)[c] == (if c.user == user then multiset(docs)[c] else 0)
    ensures |r| <= |docs|
  {
    if docs == [] then []
    else
      var rest := FilterByUser(docs[1..], user);
      assert docs == [docs[0]] + docs[1..];
      if docs[0].user == user then [docs[0]] + rest else rest
  }

  /** `countDocuments({ user })`. */
  function CountByUser(docs: seq<Complaint>, user: ObjectId): (n: nat)
    ensures n == |FilterByUser(docs, user)|
    ensures n <= |docs|
    ensures n == 0 <==> forall c :: c in docs ==> c.user != user
  {
    if docs == [] then 0
    else
      assert docs == [docs[0]] + docs[1..];
      (if docs[0].user == user then 1 else 0) + CountByUser(docs[1..], user)
  }

  /** Documents in `sort({ createdAt: -1 })` order: newer never after older. */
  predicate NewestFirst(docs: seq<Complaint>) {
    forall i, j :: 0 <= i < j < |docs| ==> docs[i].createdAt >= docs[j].createdAt
  }

  /**
   * Places `c` in a newest-first sequence, ahead of the documents with the
   * same `createdAt`.
   */
  function InsertNewestFirst(c: Complaint, sorted: seq<Complaint>): (r: seq<Complaint>)
    requires NewestFirst(sorted)
    ensures |r| == |sorted| + 1
    ensures r[0] == c || (sorted != [] && r[0] == sorted[0])
    ensures NewestFirst(r)
    decreases |sorted|
  {
    if sorted == [] || sorted[0].createdAt <= c.createdAt then
      [c] + sorted
    else
      var rest := InsertNewestFirst(c, sorted[1..]);
      assert sorted[0].createdAt >= rest[0].createdAt;
      [sorted[0]] + rest
  }

  /** Insertion adds exactly the inserted document. */
  lemma {:induction false} InsertPermutes(c: Complaint, sorted: seq<Complaint>)
    requires NewestFirst(sorted)
    ensures multiset(InsertNewestFirst(c, sorted)) == multiset(sorted) + multiset{c}
    decreases |sorted|
  {
    if !(sorted == [] || sorted[0].createdAt <= c.createdAt) {
      InsertPermutes(c, sorted[1..]);
      assert sorted == [sorted[0]] + sorted[1..];
    }
  }

  /**
   * The collection sorted by `createdAt`, newest first: a permutation of the
   * documents in which no document precedes a newer one. Ties keep natural order.
   */
  function SortNewestFirst(docs: seq<Complaint>): (r: seq<Complaint>)
    ensures NewestFirst(r)
    ensures multiset(r) == multiset(docs)
    ensures |r| == |docs|
  {
    if docs == [] then []
    else
      assert docs == [docs[0]] + docs[1..];
      InsertPermutes(docs[0], SortNewestFirst(docs[1..]));
      InsertNewestFirst(docs[0], SortNewestFirst(docs[1..]))
  }

  /** The Mongoose model bound to the complaint collection. */
  class ComplaintCollection {
    var docs: seq<Complaint>

    /** Every document passed validation and has its own `_id`. */
    ghost predicate Valid()
      reads this
    {
      && UniqueIds(docs)
      && forall c :: c in docs ==> Stored(c)
    }

    constructor ()
      ensures Valid() && docs == []
    {
      docs := [];
    }

    /**
     * `save()` of a document built from `input` with `_id` `id`, at store
     * time `now`. Validation runs first; an invalid document or a taken `_id`
     * throws and nothing is written; otherwise the stamped document is
     * appended.
     */
    method Save(input: ComplaintInput, id: ObjectId, now: int) returns (r: Result<Complaint, SaveError>)
      requires Valid()
      modifies this
      ensures Valid()
      ensures !SchemaValid(input) ==> r == Err(ValidationError(InvalidPaths(input)))
      ensures SchemaValid(input) && HasId(old(docs), id) ==> r == Err(DuplicateKey(id))
      ensures r.Ok? <==> SchemaValid(input) && !HasId(old(docs), id)
      ensures r.Ok? ==> r.value == Stamp(input, id, now) && docs == old(docs) + [r.value]
      ensures r.Err? ==> docs == old(docs)
    {
      if !SchemaValid(input) {
        return Err(ValidationError(InvalidPaths(input)));
      }
      if HasId(docs, id) {
        return Err(DuplicateKey(id));
      }
      var c := Stamp(input, id, now);
      StampIsStored(input, id, now);
      docs := docs + [c];
      r := Ok(c);
    }

    /** `deleteOne()` on a found document: removes the document with that `_id`. */
    method DeleteOne(id: ObjectId)
      requires Valid()
      modifies this
      ensures Valid()
      ensures docs == WithoutId(old(docs), id)
    {
      var kept := WithoutId(docs, id);
      WithoutIdKeepsUniqueIds(docs, id);
      docs := kept;
    }
  }

  /** Why `save()` threw. */
  datatype SaveError =
    | ValidationError(paths: seq<SchemaPath>)
    | DuplicateKey(id: ObjectId)

  /** Deleting keeps `_id`s unique. */
  lemma {:induction false} WithoutIdKeepsUniqueIds(docs: seq<Complaint>, id: ObjectId)
    requires UniqueIds(docs)
    ensures UniqueIds(WithoutId(docs, id))
  {
    if docs != [] {
      WithoutIdKeepsUniqueIds(docs[1..], id);
      var rest := WithoutId(docs[1..], id);
      forall k | 0 <= k < |rest| ensures rest[k].id != docs[0].id {
        var j :| 0 <= j < |docs[1..]| && docs[1..][j] == rest[k];
        assert docs[j + 1] == rest[k];
      }
    }
  }
}
