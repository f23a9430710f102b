/**
 * The document store the services talk to (MongoDB), reduced to what the
 * modelled queries use: a store maps a partition (collection) name to the
 * sequence of its documents in natural order, and a document maps field
 * names to BSON values. Only the query shapes the services issue are
 * modelled: equality on one field, equality on `_id`, and `_id` `$ne`.
 */
module DocStore {
  import opened Results
  import ObjectIds

  datatype Bson =
    | BNull
    | BBool(b: bool)
    | BInt(i: int)
    | BStr(s: string)
    | BOid(id: ObjectIds.ObjectId)
    | BArr(items: seq<Bson>)

  type Doc = map<string, Bson>
  type Partition = seq<Doc>
  type Store = map<string, Partition>

  /** Why a store call answered with an error of its own (not an injected fault). */
  datatype StoreError =
    | DuplicateKey   // E11000: a document with that `_id` already exists
    | ImmutableId    // `$set` would change a document's `_id`

  /** `db.Collection(name)`: a partition nobody wrote to is empty. */
  function Coll(s: Store, name: string): Partition
  {
    if name in s then s[name] else []
  }

  /** The filter `{key: v}`. */
  predicate Matches(d: Doc, key: string, v: Bson)
  {
    key in d && d[key] == v
  }

  /** `CountDocuments({key: v})`. */
  function Count(p: Partition, key: string, v: Bson): (n: nat)
    ensures n <= |p|
    ensures n == 0 <==> forall i | 0 <= i < |p| :: !Matches(p[i], key, v)
  {
    if |p| == 0 then 0
    else
      var rest := Count(p[1..], key, v);
      assert forall i | 1 <= i < |p| :: p[i] == p[1..][i - 1];
      (if Matches(p[0], key, v) then 1 else 0) + rest
  }

  /**
   * `CountDocuments({key: v, "_id": {"$ne": other}})`: the documents with
   * `key` equal to `v` whose `_id` is not equal to `other`. Values of
   * different BSON types are never equal, so an `_id` holding an ObjectId is
   * "not equal" to any string.
   */
  function CountExcept(p: Partition, key: string, v: Bson, other: Bson): (n: nat)
    ensures n <= Count(p, key, v)
    ensures n == 0 <==> forall i | 0 <= i < |p| :: !(Matches(p[i], key, v) && !Matches(p[i], "_id", other))
  {
    if |p| == 0 then 0
    else
      var rest := CountExcept(p[1..], key, v, other);
      assert forall i | 1 <= i < |p| :: p[i] == p[1..][i - 1];
      (if Matches(p[0], key, v) && !Matches(p[0], "_id", other) then 1 else 0) + rest
  }

  /** Position of the first document in natural order that matches `{key: v}`. */
  function FindFirst(p: Partition, key: string, v: Bson): (r: Option<nat>)
    ensures r.Some? ==> r.value < |p| && Matches(p[r.value], key, v)
    ensures r.Some? ==> forall i | 0 <= i < r.value :: !Matches(p[i], key, v)
    ensures r.None? <==> Count(p, key, v) == 0
  {
    if |p| == 0 then None
    else if Matches(p[0], key, v) then Some(0)
    else
      match FindFirst(p[1..], key, v)
      case None => None
      case Some(i) =>
        assert forall j | 1 <= j <= i :: p[j] == p[1..][j - 1];
        Some(i + 1)
  }

  /** A document appended to a partition where nothing matched is the first match. */
  lemma FindAppended(p: Partition, d: Doc, key: string, v: Bson)
    requires Count(p, key, v) == 0 && Matches(d, key, v)
    ensures FindFirst(p + [d], key, v) == Some(|p|)
  {
    var q := p + [d];
    assert q[|p|] == d;
    assert forall i | 0 <= i < |p| :: q[i] == p[i];
  }

  /** `FindOne({key: v})`: the first matching document, if any. */
  function FindOne(p: Partition, key: string, v: Bson): (r: Option<Doc>)
    ensures r.Some? <==> Count(p, key, v) > 0
    ensures r.Some? ==> r.value in p && Matches(r.value, key, v)
  {
    match FindFirst(p, key, v)
    case None => None
    case Some(i) => Some(p[i])
  }

  /**
   * `InsertOne(doc)`: a document without `_id` gets the identifier
   * `generated` that the driver makes up; an `_id` already present in the partition is a
   * duplicate-key error. The inserted document goes to the end.
   */
  function InsertOne(p: Partition, doc: Doc, generated: ObjectIds.ObjectId): (r: Result<(Partition, Bson), StoreError>)
    ensures var id := if "_id" in doc then doc["_id"] else BOid(generated);
            && (r.Ok? <==> Count(p, "_id", id) == 0)
            && (r.Ok? ==> r.value == (p + [doc["_id" := id]], id))
            && (r.Err? ==> r.error == DuplicateKey)
  {
    var id := if "_id" in doc then doc["_id"] else BOid(generated);
    if Count(p, "_id", id) > 0 then Err(DuplicateKey)
    else Ok((p + [doc["_id" := id]], id))
  }

  /**
   * `UpdateOne({"_id": id}, {"$set": set})`: the first document with that
   * `_id` takes the fields of `set`, keeping the rest. No match is not an
   * error and changes nothing; a `$set` of a different `_id` is refused.
   */
  function UpdateOneSet(p: Partition, id: Bson, fields: Doc): (r: Result<Partition, StoreError>)
    ensures FindFirst(p, "_id", id).None? ==> r == Ok(p)
    ensures FindFirst(p, "_id", id).Some? ==>
              var i := FindFirst(p, "_id", id).value;
              if "_id" in fields && fields["_id"] != id then r == Err(ImmutableId)
              else r == Ok(p[i := p[i] + fields])
  {
    match FindFirst(p, "_id", id)
    case None => Ok(p)
    case Some(i) =>
      if "_id" in fields && fields["_id"] != id then Err(ImmutableId)
      else Ok(p[i := p[i] + fields])
  }

  /** `DeleteOne({"_id": id})`: removes the first document with that `_id`, if any. */
  function DeleteOne(p: Partition, id: Bson): (r: Partition)
    ensures FindFirst(p, "_id", id).None? ==> r == p
    ensures FindFirst(p, "_id", id).Some? ==>
              var i := FindFirst(p, "_id", id).value;
              r == p[..i] + p[i + 1..]
  {
    match FindFirst(p, "_id", id)
    case None => p
    case Some(i) => p[..i] + p[i + 1..]
  }

  /** After a successful update only the first document with that `_id` differs, and it gained exactly the `$set` fields. */
  lemma UpdateTouchesOne(p: Partition, id: Bson, fields: Doc)
    requires UpdateOneSet(p, id, fields).Ok?
    ensures var q := UpdateOneSet(p, id, fields).value;
            && |q| == |p|
            && forall i | 0 <= i < |p| && q[i] != p[i] ::
                 Matches(p[i], "_id", id) && q[i] == p[i] + fields
  {
  }

  /** Deleting leaves every document that does not carry that `_id`, and removes at most one. */
  lemma DeleteKeepsOthers(p: Partition, id: Bson)
    ensures |DeleteOne(p, id)| == |p| - (if Count(p, "_id", id) > 0 then 1 else 0)
    ensures forall d | d in p && !Matches(d, "_id", id) :: d in DeleteOne(p, id)
  {
    match FindFirst(p, "_id", id)
    case None =>
    case Some(i) =>
      var q := p[..i] + p[i + 1..];
      assert DeleteOne(p, id) == q;
      forall d | d in p && !Matches(d, "_id", id)
        ensures d in q
      {
        var j :| 0 <= j < |p| && p[j] == d;
        RemoveKeeps(p, i, j);
      }
  }

  /** Removing position `i` keeps the element at any other position `j`. */
  lemma RemoveKeeps(p: Partition, i: nat, j: nat)
    requires i < |p| && j < |p| && i != j
    ensures p[j] in p[..i] + p[i + 1..]
  {
    var q := p[..i] + p[i + 1..];
    if j < i {
      assert q[j] == p[j];
    } else {
      assert q[j - 1] == p[j];
    }
  }
}
