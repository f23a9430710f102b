/**
 * How a Go struct's fields travel in and out of documents. A struct is seen
 * through a schema, the ordered list of its serialised fields with the
 * name its tag (or its Go name) gives each, and its value as the matching
 * list of field values. Two codecs are modelled over the same schema shape:
 *
 *  - `encoding/json`: `Encode` writes the fields in declaration order,
 *    leaving out `omitempty` fields that are empty; `Decode` reads an object
 *    into the zero struct member by member, matching a member's key against
 *    the field names exactly first and then up to ASCII case, ignoring
 *    unknown keys; a later member overwrites an earlier one, and `null`
 *    leaves a scalar unchanged while it resets a slice or a pointer.
 *  - the BSON driver's struct codec: `ToDoc` writes the non-omitted fields
 *    under their names; `FromDoc` reads each field from the document into
 *    the zero struct, a missing key leaving it zero.
 */
module Binding {
  import opened Results
  import Text
  import ObjectIds
  import opened Json
  import DocStore

  /** The Go types the modelled structs use for their serialised fields. */
  datatype Kind =
    | KStr      // string
    | KInt      // int
    | KBool     // bool
    | KOid      // primitive.ObjectID
    | KOids     // []primitive.ObjectID
    | KDate     // *jwt.NumericDate, whole seconds
    | KNested   // a slice of nested records, whose contents are not modelled

  datatype Val =
    | VStr(s: string)
    | VInt(i: Int64)
    | VBool(b: bool)
    | VOid(id: ObjectIds.ObjectId)
    | VOids(ids: seq<ObjectIds.ObjectId>)
    | VDate(date: Option<int>)
    | VNested
  {
    /** The payload of a value of the expected kind; the zero of that kind otherwise. */
    function Str(): string { if VStr? then s else "" }
    function Int(): Int64 { if VInt? then i else 0 }
    function Bool(): bool { VBool? && b }
    function Oid(): ObjectIds.ObjectId { if VOid? then id else ObjectIds.NilObjectId }
    function Oids(): seq<ObjectIds.ObjectId> { if VOids? then ids else [] }
    function Date(): Option<int> { if VDate? then date else None }
  }

  predicate HasKind(v: Val, k: Kind)
  {
    match k
    case KStr => v.VStr?
    case KInt => v.VInt?
    case KBool => v.VBool?
    case KOid => v.VOid?
    case KOids => v.VOids?
    case KDate => v.VDate?
    case KNested => v.VNested?
  }

  /** Go's zero value of each kind. */
  function ZeroOf(k: Kind): (v: Val)
    ensures HasKind(v, k)
  {
    match k
    case KStr => VStr("")
    case KInt => VInt(0)
    case KBool => VBool(false)
    case KOid => VOid(ObjectIds.NilObjectId)
    case KOids => VOids([])
    case KDate => VDate(None)
    case KNested => VNested
  }

  /** What `omitempty` counts as empty: "", 0, false, the nil identifier, an empty slice, a nil pointer. */
  predicate IsEmpty(v: Val)
  {
    match v
    case VStr(s) => s == ""
    case VInt(i) => i == 0
    case VBool(b) => !b
    case VOid(id) => id == ObjectIds.NilObjectId
    case VOids(ids) => ids == []
    case VDate(d) => d.None?
    case VNested => true
  }

  /** A value counts as empty exactly when it is the zero value of its kind. */
  lemma EmptyIsZero(v: Val, k: Kind)
    requires HasKind(v, k)
    ensures IsEmpty(v) <==> v == ZeroOf(k)
  {
  }

  /**
   * A serialised field: its key in the document, its kind, whether its tag
   * says `omitempty`, and (BSON only) a second spelling of the key that the
   * driver's lower-case retry also maps to this field. The driver decodes a
   * document's elements in order, so of two spellings the later one wins;
   * documents here are unordered, and the alias is taken to be the later.
   */
  datatype Field = Field(name: string, kind: Kind, omitEmpty: bool, alias: Option<string>)

  type Schema = seq<Field>

  predicate Conforms(schema: Schema, vals: seq<Val>)
  {
    |vals| == |schema| && forall i | 0 <= i < |schema| :: HasKind(vals[i], schema[i].kind)
  }

  /** The zero struct. */
  function Zero(schema: Schema): (vals: seq<Val>)
    ensures Conforms(schema, vals)
    ensures forall i | 0 <= i < |schema| :: vals[i] == ZeroOf(schema[i].kind)
  {
    seq(|schema|, i requires 0 <= i < |schema| => ZeroOf(schema[i].kind))
  }

  predicate Omitted(f: Field, v: Val)
  {
    f.omitEmpty && IsEmpty(v)
  }

  /** No two field names are equal, not even up to ASCII case. */
  predicate FoldDistinct(schema: Schema)
  {
    forall i, j | 0 <= i < j < |schema| :: !Text.FoldEq(schema[i].name, schema[j].name)
  }

  /** No two field names are equal and no alias is another field's name. */
  predicate KeysDistinct(schema: Schema)
  {
    && (forall i, j | 0 <= i < j < |schema| :: schema[i].name != schema[j].name)
    && (forall i, j | 0 <= i < |schema| && 0 <= j < |schema| :: schema[i].alias != Some(schema[j].name))
  }

  /** Names equal under key folding fold to the same text, so distinct lower-cased names give `FoldDistinct`. */
  lemma FoldDistinctByLowered(schema: Schema, names: seq<string>, lowered: seq<string>)
    requires |names| == |schema| && |lowered| == |schema|
    requires forall i | 0 <= i < |schema| :: schema[i].name == names[i]
    requires forall i | 0 <= i < |schema| :: Text.Fold(names[i]) == lowered[i]
    requires forall i, j | 0 <= i < j < |lowered| :: lowered[i] != lowered[j]
    ensures FoldDistinct(schema)
  {
  }

  lemma KeysDistinctByNames(schema: Schema, names: seq<string>)
    requires |names| == |schema|
    requires forall i | 0 <= i < |schema| :: schema[i].name == names[i]
    requires forall i, j | 0 <= i < j < |names| :: names[i] != names[j]
    requires forall i | 0 <= i < |schema| && schema[i].alias.Some? :: schema[i].alias.value !in names
    ensures KeysDistinct(schema)
  {
  }

  datatype DecodeError =
    | NotAnObject              // the text is not a JSON object (nor null)
    | TypeMismatch(field: string)

  // ---------------------------------------------------------------- JSON

  /** `ObjectID.MarshalJSON`: the identifier's hex form as a JSON string. */
  function OidJson(id: ObjectIds.ObjectId): Json
  {
    JStr(ObjectIds.Hex(id))
  }

  /** `encoding/json`'s rendering of one field value; a nil slice and a nil pointer are `null`. */
  function ValJson(v: Val): Json
  {
    match v
    case VStr(s) => JStr(s)
    case VInt(i) => JNum(i)
    case VBool(b) => JBool(b)
    case VOid(id) => OidJson(id)
    case VOids(ids) =>
      if ids == [] then JNull
      else JArr(seq(|ids|, j requires 0 <= j < |ids| => OidJson(ids[j])))
    case VDate(d) => if d.Some? then JNum(d.value) else JNull
    case VNested => JNull
  }

  function MembersFrom(schema: Schema, vals: seq<Val>, k: nat): seq<Member>
    requires Conforms(schema, vals) && k <= |schema|
    decreases |schema| - k
  {
    if k == |schema| then []
    else
      (if Omitted(schema[k], vals[k]) then [] else [Member(schema[k].name, ValJson(vals[k]))])
      + MembersFrom(schema, vals, k + 1)
  }

  /** `json.Marshal` of the struct. */
  function Encode(schema: Schema, vals: seq<Val>): (j: Json)
    requires Conforms(schema, vals)
    ensures j.JObj?
  {
    JObj(MembersFrom(schema, vals, 0))
  }

  predicate NameMatches(name: string, key: string, exact: bool)
  {
    if exact then name == key else Text.FoldEq(name, key)
  }

  function IndexWhere(schema: Schema, key: string, exact: bool, from: nat): (r: Option<nat>)
    requires from <= |schema|
    ensures r.Some? ==> from <= r.value < |schema| && NameMatches(schema[r.value].name, key, exact)
    ensures r.Some? ==> forall i | from <= i < r.value :: !NameMatches(schema[i].name, key, exact)
    ensures r.None? ==> forall i | from <= i < |schema| :: !NameMatches(schema[i].name, key, exact)
    decreases |schema| - from
  {
    if from == |schema| then None
    else if NameMatches(schema[from].name, key, exact) then Some(from)
    else IndexWhere(schema, key, exact, from + 1)
  }

  /** The field a member's key selects: the field of that exact name, else the first one equal up to ASCII case. */
  function FieldIndex(schema: Schema, key: string): (r: Option<nat>)
    ensures r.Some? ==> r.value < |schema| && Text.FoldEq(schema[r.value].name, key)
    ensures r.None? <==> forall i | 0 <= i < |schema| :: !Text.FoldEq(schema[i].name, key)
  {
    match IndexWhere(schema, key, true, 0)
    case Some(i) => Some(i)
    case None => IndexWhere(schema, key, false, 0)
  }

  /** A field's own name selects it when the names are distinct up to case. */
  lemma FieldIndexOfName(schema: Schema, k: nat)
    requires FoldDistinct(schema) && k < |schema|
    ensures FieldIndex(schema, schema[k].name) == Some(k)
  {
    assert IndexWhere(schema, schema[k].name, true, 0).Some?;
  }

  /** Any key that folds to a field's name selects that field when the names are distinct under folding. */
  lemma FieldIndexFolded(schema: Schema, key: string, k: nat)
    requires FoldDistinct(schema) && k < |schema| && Text.FoldEq(schema[k].name, key)
    ensures FieldIndex(schema, key) == Some(k)
  {
    forall i | 0 <= i < |schema| && i != k
      ensures !Text.FoldEq(schema[i].name, key)
    {
      if i < k {
        assert !Text.FoldEq(schema[i].name, schema[k].name);
      } else {
        assert !Text.FoldEq(schema[k].name, schema[i].name);
      }
    }
  }

  /**
   * The text `ObjectID.UnmarshalJSON` reads an identifier from: a JSON
   * string, or the extended-JSON object `{"$oid": <string>}`, whose other
   * members are ignored and whose last "$oid" member counts.
   */
  function OidText(j: Json): (r: Option<string>)
    ensures j.JStr? ==> r == Some(j.s)
    ensures r.Some? ==> j.JStr? || j.JObj?
    ensures j.JObj? ==> (r.Some? <==> LastMember(j.members, "$oid").Some? && LastMember(j.members, "$oid").value.JStr?)
  {
    match j
    case JStr(t) => Some(t)
    case JObj(ms) =>
      (match LastMember(ms, "$oid")
       case Some(JStr(t)) => Some(t)
       case _ => None)
    case _ => None
  }

  /** `ObjectID.UnmarshalJSON` of a non-null value: "" is the nil identifier, otherwise 24 hex digits. */
  function OidOfJson(j: Json): (r: Option<ObjectIds.ObjectId>)
    ensures r.Some? <==> OidText(j).Some? && (OidText(j).value == "" || ObjectIds.FromHex(OidText(j).value).Ok?)
    ensures r.Some? && OidText(j).value == "" ==> r.value == ObjectIds.NilObjectId
    ensures r.Some? && OidText(j).value != "" ==> r.value == ObjectIds.FromHex(OidText(j).value).value
  {
    match OidText(j)
    case None => None
    case Some(t) =>
      if t == "" then Some(ObjectIds.NilObjectId)
      else
        match ObjectIds.FromHex(t)
        case Ok(id) => Some(id)
        case Err(_) => None
  }

  /** An identifier reads back from its hex string and from its extended-JSON form alike. */
  lemma OidOfBothForms(id: ObjectIds.ObjectId, ms: seq<Member>)
    ensures OidOfJson(JStr(ObjectIds.Hex(id))) == Some(id)
    ensures OidOfJson(JObj(ms + [Member("$oid", JStr(ObjectIds.Hex(id)))])) == Some(id)
  {
    ObjectIds.FromHexOfHex(id);
    var all := ms + [Member("$oid", JStr(ObjectIds.Hex(id)))];
    assert all[|all| - 1] == Member("$oid", JStr(ObjectIds.Hex(id)));
    assert OidText(JObj(all)) == Some(ObjectIds.Hex(id));
  }

  function OidsOfJson(items: seq<Json>): (r: Option<seq<ObjectIds.ObjectId>>)
    ensures r.Some? ==> |r.value| == |items|
  {
    if |items| == 0 then Some([])
    else
      var first := if items[0].JNull? then Some(ObjectIds.NilObjectId) else OidOfJson(items[0]);
      match (first, OidsOfJson(items[1..]))
      case (Some(id), Some(rest)) => Some([id] + rest)
      case _ => None
  }

  /** Decoding one member's value into a field whose current value is `cur`. */
  function DecodeVal(f: Field, j: Json, cur: Val): (r: Result<Val, DecodeError>)
    requires HasKind(cur, f.kind)
    ensures r.Ok? ==> HasKind(r.value, f.kind)
    ensures r.Err? ==> r.error == TypeMismatch(f.name)
  {
    if j.JNull? then
      Ok(if f.kind == KOids || f.kind == KDate then ZeroOf(f.kind) else cur)
    else
      match f.kind
      case KStr => if j.JStr? then Ok(VStr(j.s)) else Err(TypeMismatch(f.name))
      case KInt =>
        if j.JNum? && -0x8000_0000_0000_0000 <= j.n < 0x8000_0000_0000_0000 then Ok(VInt(j.n))
        else Err(TypeMismatch(f.name))
      case KBool => if j.JBool? then Ok(VBool(j.b)) else Err(TypeMismatch(f.name))
      case KOid =>
        (match OidOfJson(j)
         case Some(id) => Ok(VOid(id))
         case None => Err(TypeMismatch(f.name)))
      case KOids =>
        if !j.JArr? then Err(TypeMismatch(f.name))
        else
          (match OidsOfJson(j.items)
           case Some(ids) => Ok(VOids(ids))
           case None => Err(TypeMismatch(f.name)))
      case KDate => if j.JNum? then Ok(VDate(Some(j.n))) else Err(TypeMismatch(f.name))
      case KNested => Ok(cur)
  }

  /** The members of an object, applied in order to the struct decoded so far. */
  function DecodeMembers(schema: Schema, ms: seq<Member>, acc: seq<Val>): (r: Result<seq<Val>, DecodeError>)
    requires Conforms(schema, acc)
    ensures r.Ok? ==> Conforms(schema, r.value)
    decreases |ms|
  {
    if |ms| == 0 then Ok(acc)
    else
      match FieldIndex(schema, ms[0].key)
      case None => DecodeMembers(schema, ms[1..], acc)
      case Some(i) =>
        match DecodeVal(schema[i], ms[0].value, acc[i])
        case Err(e) => Err(e)
        case Ok(v) => DecodeMembers(schema, ms[1..], acc[i := v])
  }

  /** `json.Unmarshal` of an already parsed value into a zero struct. */
  function Decode(schema: Schema, j: Json): (r: Result<seq<Val>, DecodeError>)
    ensures r.Ok? ==> Conforms(schema, r.value)
    ensures j.JNull? ==> r == Ok(Zero(schema))
    ensures !j.JNull? && !j.JObj? ==> r == Err(NotAnObject)
  {
    match j
    case JObj(ms) => DecodeMembers(schema, ms, Zero(schema))
    case JNull => Ok(Zero(schema))
    case _ => Err(NotAnObject)
  }

  /** A rendered value decodes back to itself, whatever the field held before. */
  lemma DecodeValJson(f: Field, v: Val, cur: Val)
    requires HasKind(v, f.kind) && HasKind(cur, f.kind)
    ensures DecodeVal(f, ValJson(v), cur) == Ok(v)
  {
    match v
    case VOid(id) =>
      ObjectIds.FromHexOfHex(id);
    case VOids(ids) =>
      if ids != [] {
        var items := seq(|ids|, j requires 0 <= j < |ids| => OidJson(ids[j]));
        OidsOfHex(ids, items);
      }
    case _ =>
  }

  /** One identifier printed as JSON reads back as itself. */
  lemma OidOfOidJson(id: ObjectIds.ObjectId)
    ensures !OidJson(id).JNull? && OidOfJson(OidJson(id)) == Some(id)
  {
    ObjectIds.FromHexOfHex(id);
    assert |ObjectIds.Hex(id)| == 24;
  }

  lemma {:induction false} OidsOfHex(ids: seq<ObjectIds.ObjectId>, items: seq<Json>)
    requires |items| == |ids|
    requires forall j | 0 <= j < |ids| :: items[j] == OidJson(ids[j])
    ensures OidsOfJson(items) == Some(ids)
    decreases |ids|
  {
    if |ids| > 0 {
      OidsOfHex(ids[1..], items[1..]);
      OidsOfJsonStep(ids[0], items, ids[1..]);
      assert [ids[0]] + ids[1..] == ids;
    }
  }

  /** One step of `OidsOfJson`: a printed identifier in front of a list that reads back. */
  lemma OidsOfJsonStep(id: ObjectIds.ObjectId, items: seq<Json>, rest: seq<ObjectIds.ObjectId>)
    requires |items| > 0 && items[0] == OidJson(id) && OidsOfJson(items[1..]) == Some(rest)
    ensures OidsOfJson(items) == Some([id] + rest)
  {
    OidOfOidJson(id);
  }


  lemma {:induction false} DecodeMembersFrom(schema: Schema, vals: seq<Val>, k: nat, acc: seq<Val>)
    requires FoldDistinct(schema) && Conforms(schema, vals) && Conforms(schema, acc) && k <= |schema|
    requires acc[..k] == vals[..k]
    requires forall i | k <= i < |schema| :: acc[i] == ZeroOf(schema[i].kind)
    ensures DecodeMembers(schema, MembersFrom(schema, vals, k), acc) == Ok(vals)
    decreases |schema| - k
  {
    if k == |schema| {
      assert acc == acc[..k] && vals == vals[..k];
    } else {
      var rest := MembersFrom(schema, vals, k + 1);
      if Omitted(schema[k], vals[k]) {
        EmptyIsZero(vals[k], schema[k].kind);
        assert MembersFrom(schema, vals, k) == rest;
        assert acc[..k + 1] == vals[..k + 1] by {
          assert acc[..k + 1] == acc[..k] + [acc[k]];
          assert vals[..k + 1] == vals[..k] + [vals[k]];
        }
        DecodeMembersFrom(schema, vals, k + 1, acc);
      } else {
        var m := Member(schema[k].name, ValJson(vals[k]));
        assert MembersFrom(schema, vals, k) == [m] + rest;
        FieldIndexOfName(schema, k);
        DecodeValJson(schema[k], vals[k], acc[k]);
        var acc' := acc[k := vals[k]];
        assert ([m] + rest)[1..] == rest;
        assert acc'[..k + 1] == vals[..k + 1] by {
          assert acc'[..k + 1] == acc[..k] + [vals[k]];
          assert vals[..k + 1] == vals[..k] + [vals[k]];
        }
        DecodeMembersFrom(schema, vals, k + 1, acc');
      }
    }
  }

  /** What `Encode` writes, `Decode` reads back, for every schema whose names differ up to case. */
  lemma DecodeEncode(schema: Schema, vals: seq<Val>)
    requires FoldDistinct(schema) && Conforms(schema, vals)
    ensures Decode(schema, Encode(schema, vals)) == Ok(vals)
  {
    DecodeMembersFrom(schema, vals, 0, Zero(schema));
  }

  // ---------------------------------------------------------------- BSON

  /** The driver's encoding of one field value. */
  function ValBson(v: Val): DocStore.Bson
  {
    match v
    case VStr(s) => DocStore.BStr(s)
    case VInt(i) => DocStore.BInt(i)
    case VBool(b) => DocStore.BBool(b)
    case VOid(id) => DocStore.BOid(id)
    case VOids(ids) => DocStore.BArr(seq(|ids|, j requires 0 <= j < |ids| => DocStore.BOid(ids[j])))
    case VDate(d) => if d.Some? then DocStore.BInt(d.value) else DocStore.BNull
    case VNested => DocStore.BNull
  }

  function DocFrom(schema: Schema, vals: seq<Val>, k: nat): (d: DocStore.Doc)
    requires Conforms(schema, vals) && k <= |schema|
    requires KeysDistinct(schema)
    ensures forall i | k <= i < |schema| ::
              && (schema[i].name in d <==> !Omitted(schema[i], vals[i]))
              && (schema[i].name in d ==> d[schema[i].name] == ValBson(vals[i]))
    ensures forall key | key in d :: exists i | k <= i < |schema| :: schema[i].name == key
    decreases |schema| - k
  {
    if k == |schema| then map[]
    else
      var rest := DocFrom(schema, vals, k + 1);
      var d := if Omitted(schema[k], vals[k]) then rest else rest[schema[k].name := ValBson(vals[k])];
      DocFromStep(schema, vals, k, rest, d);
      d
  }

  /** Adding field `k` (unless omitted) to the document of the later fields. */
  lemma DocFromStep(schema: Schema, vals: seq<Val>, k: nat, rest: DocStore.Doc, d: DocStore.Doc)
    requires Conforms(schema, vals) && k < |schema| && KeysDistinct(schema)
    requires forall i | k + 1 <= i < |schema| ::
               && (schema[i].name in rest <==> !Omitted(schema[i], vals[i]))
               && (schema[i].name in rest ==> rest[schema[i].name] == ValBson(vals[i]))
    requires forall key | key in rest :: exists i | k + 1 <= i < |schema| :: schema[i].name == key
    requires d == if Omitted(schema[k], vals[k]) then rest else rest[schema[k].name := ValBson(vals[k])]
    ensures forall i | k <= i < |schema| ::
              && (schema[i].name in d <==> !Omitted(schema[i], vals[i]))
              && (schema[i].name in d ==> d[schema[i].name] == ValBson(vals[i]))
    ensures forall key | key in d :: exists i | k <= i < |schema| :: schema[i].name == key
  {
    DocFromFields(schema, vals, k, rest, d);
    forall key | key in d
      ensures exists i | k <= i < |schema| :: schema[i].name == key
    {
      if key != schema[k].name {
        var i :| k + 1 <= i < |schema| && schema[i].name == key;
      }
    }
  }

  lemma DocFromFields(schema: Schema, vals: seq<Val>, k: nat, rest: DocStore.Doc, d: DocStore.Doc)
    requires Conforms(schema, vals) && k < |schema| && KeysDistinct(schema)
    requires forall i | k + 1 <= i < |schema| ::
               && (schema[i].name in rest <==> !Omitted(schema[i], vals[i]))
               && (schema[i].name in rest ==> rest[schema[i].name] == ValBson(vals[i]))
    requires forall key | key in rest :: exists i | k + 1 <= i < |schema| :: schema[i].name == key
    requires d == if Omitted(schema[k], vals[k]) then rest else rest[schema[k].name := ValBson(vals[k])]
    ensures forall i | k <= i < |schema| ::
              && (schema[i].name in d <==> !Omitted(schema[i], vals[i]))
              && (schema[i].name in d ==> d[schema[i].name] == ValBson(vals[i]))
  {
    forall i | k < i < |schema|
      ensures (schema[i].name in d <==> schema[i].name in rest)
      ensures schema[i].name in d ==> d[schema[i].name] == rest[schema[i].name]
    {
      assert schema[i].name != schema[k].name;
    }
    assert schema[k].name !in rest;
  }

  /** The driver's encoding of the struct: one key per non-omitted field. */
  function ToDoc(schema: Schema, vals: seq<Val>): (d: DocStore.Doc)
    requires Conforms(schema, vals) && KeysDistinct(schema)
    ensures forall i | 0 <= i < |schema| ::
              && (schema[i].name in d <==> !Omitted(schema[i], vals[i]))
              && (schema[i].name in d ==> d[schema[i].name] == ValBson(vals[i]))
    ensures forall key | key in d :: exists i | 0 <= i < |schema| :: schema[i].name == key
  {
    DocFrom(schema, vals, 0)
  }

  /** Field `i` of the document, taken on its own. */
  lemma ToDocField(schema: Schema, vals: seq<Val>, i: nat)
    requires Conforms(schema, vals) && KeysDistinct(schema) && i < |schema|
    ensures schema[i].name in ToDoc(schema, vals) <==> !Omitted(schema[i], vals[i])
    ensures schema[i].name in ToDoc(schema, vals) ==> ToDoc(schema, vals)[schema[i].name] == ValBson(vals[i])
  {
  }

  /** The document of the fields from `k` on depends only on their values. */
  lemma {:induction false} DocFromLater(schema: Schema, a: seq<Val>, b: seq<Val>, k: nat)
    requires Conforms(schema, a) && Conforms(schema, b) && k <= |schema| && KeysDistinct(schema)
    requires forall i | k <= i < |schema| :: a[i] == b[i]
    ensures DocFrom(schema, a, k) == DocFrom(schema, b, k)
    decreases |schema| - k
  {
    if k < |schema| {
      DocFromLater(schema, a, b, k + 1);
    }
  }

  /** Giving the first field a value that is not omitted puts exactly that key into the document. */
  lemma ToDocSetFirst(schema: Schema, vals: seq<Val>, v: Val)
    requires Conforms(schema, vals) && KeysDistinct(schema) && |schema| > 0
    requires HasKind(v, schema[0].kind) && !Omitted(schema[0], v)
    ensures Conforms(schema, vals[0 := v])
    ensures ToDoc(schema, vals[0 := v]) == ToDoc(schema, vals)[schema[0].name := ValBson(v)]
  {
    var vals' := vals[0 := v];
    assert Conforms(schema, vals');
    DocFromLater(schema, vals, vals', 1);
    var rest := DocFrom(schema, vals, 1);
    assert DocFrom(schema, vals', 0) == rest[schema[0].name := ValBson(v)];
    if !Omitted(schema[0], vals[0]) {
      assert ToDoc(schema, vals) == rest[schema[0].name := ValBson(vals[0])];
      UpdateTwice(rest, schema[0].name, ValBson(vals[0]), ValBson(v));
    }
  }

  lemma UpdateTwice(d: DocStore.Doc, key: string, a: DocStore.Bson, b: DocStore.Bson)
    ensures d[key := a][key := b] == d[key := b]
  {
  }

  /** The document value the driver decodes into field `f`: its alias when present (taken to be written last), else its name. */
  function Lookup(d: DocStore.Doc, f: Field): Option<DocStore.Bson>
  {
    if f.alias.Some? && f.alias.value in d then Some(d[f.alias.value])
    else if f.name in d then Some(d[f.name])
    else None
  }

  function BsonVal(f: Field, b: DocStore.Bson): (r: Result<Val, DecodeError>)
    ensures r.Ok? ==> HasKind(r.value, f.kind)
  {
    if b.BNull? then Ok(ZeroOf(f.kind))
    else
      match f.kind
      case KStr => if b.BStr? then Ok(VStr(b.s)) else Err(TypeMismatch(f.name))
      case KInt =>
        if b.BInt? && -0x8000_0000_0000_0000 <= b.i < 0x8000_0000_0000_0000 then Ok(VInt(b.i))
        else Err(TypeMismatch(f.name))
      case KBool => if b.BBool? then Ok(VBool(b.b)) else Err(TypeMismatch(f.name))
      case KOid => if b.BOid? then Ok(VOid(b.id)) else Err(TypeMismatch(f.name))
      case KOids =>
        if b.BArr? && forall j | 0 <= j < |b.items| :: b.items[j].BOid? then
          Ok(VOids(seq(|b.items|, j requires 0 <= j < |b.items| && b.items[j].BOid? => b.items[j].id)))
        else Err(TypeMismatch(f.name))
      case KDate => if b.BInt? then Ok(VDate(Some(b.i))) else Err(TypeMismatch(f.name))
      case KNested => Ok(VNested)
  }

  /** One field of the decoded struct: zero when the document lacks it. */
  function DecodeField(d: DocStore.Doc, f: Field): (r: Result<Val, DecodeError>)
    ensures r.Ok? ==> HasKind(r.value, f.kind)
  {
    match Lookup(d, f)
    case None => Ok(ZeroOf(f.kind))
    case Some(b) => BsonVal(f, b)
  }

  function FieldsFrom(schema: Schema, d: DocStore.Doc, k: nat): (r: Result<seq<Val>, DecodeError>)
    requires k <= |schema|
    ensures r.Ok? ==> |r.value| == |schema| - k
    decreases |schema| - k
  {
    if k == |schema| then Ok([])
    else
      match (DecodeField(d, schema[k]), FieldsFrom(schema, d, k + 1))
      case (Ok(v), Ok(rest)) => Ok([v] + rest)
      case (Err(e), _) => Err(e)
      case (_, Err(e)) => Err(e)
  }

  lemma {:induction false} FieldsFromSpec(schema: Schema, d: DocStore.Doc, k: nat)
    requires k <= |schema|
    ensures FieldsFrom(schema, d, k).Ok? <==> forall i | k <= i < |schema| :: DecodeField(d, schema[i]).Ok?
    ensures FieldsFrom(schema, d, k).Ok? ==>
              forall i | k <= i < |schema| :: FieldsFrom(schema, d, k).value[i - k] == DecodeField(d, schema[i]).value
    decreases |schema| - k
  {
    if k < |schema| {
      FieldsFromSpec(schema, d, k + 1);
    }
  }

  /**
   * The driver's decoding of a document into a zero struct. Its meaning is
   * stated by `FromDocSpec`, kept apart so that a caller's proof about a
   * long literal schema does not pay for every field at once.
   */
  function FromDoc(schema: Schema, d: DocStore.Doc): (r: Result<seq<Val>, DecodeError>)
    ensures r.Ok? ==> |r.value| == |schema|
  {
    FieldsFrom(schema, d, 0)
  }

  /** Decoding succeeds exactly when every field decodes, and then each field is decoded on its own from the document. */
  lemma FromDocSpec(schema: Schema, d: DocStore.Doc)
    ensures FromDoc(schema, d).Ok? <==> forall i | 0 <= i < |schema| :: DecodeField(d, schema[i]).Ok?
    ensures FromDoc(schema, d).Ok? ==> Conforms(schema, FromDoc(schema, d).value)
    ensures FromDoc(schema, d).Ok? ==>
              forall i | 0 <= i < |schema| :: FromDoc(schema, d).value[i] == DecodeField(d, schema[i]).value
  {
    FieldsFromSpec(schema, d, 0);
  }

  /** A document decodes to `vals` when each field decodes to its value on its own. */
  lemma FromDocOfFields(schema: Schema, d: DocStore.Doc, vals: seq<Val>)
    requires |vals| == |schema|
    requires forall i | 0 <= i < |schema| :: DecodeField(d, schema[i]) == Ok(vals[i])
    ensures FromDoc(schema, d) == Ok(vals)
  {
    FromDocSpec(schema, d);
    assert FromDoc(schema, d).value == vals;
  }

  /** A field without alias whose key holds the rendering of a non-null value decodes to that value. */
  lemma DecodePresent(d: DocStore.Doc, f: Field, v: Val)
    requires f.alias.None? && f.name in d && d[f.name] == ValBson(v)
    requires HasKind(v, f.kind) && !ValBson(v).BNull?
    ensures DecodeField(d, f) == Ok(v)
  {
    BsonValOf(f, v);
  }

  /** A decoded value rendered back decodes to itself. */
  lemma BsonValOf(f: Field, v: Val)
    requires HasKind(v, f.kind)
    ensures BsonVal(f, ValBson(v)) == Ok(if ValBson(v).BNull? then ZeroOf(f.kind) else v)
  {
    match v
    case VOids(ids) =>
      var items := seq(|ids|, j requires 0 <= j < |ids| => DocStore.BOid(ids[j]));
      assert seq(|items|, j requires 0 <= j < |items| && items[j].BOid? => items[j].id) == ids;
    case _ =>
  }

  /** What `ToDoc` writes, `FromDoc` reads back. */
  lemma FromToDoc(schema: Schema, vals: seq<Val>)
    requires KeysDistinct(schema) && Conforms(schema, vals)
    ensures FromDoc(schema, ToDoc(schema, vals)) == Ok(vals)
  {
    var d := ToDoc(schema, vals);
    forall i | 0 <= i < |schema|
      ensures DecodeField(d, schema[i]) == Ok(vals[i])
    {
      var f := schema[i];
      if f.name in d {
        BsonValOf(f, vals[i]);
        EmptyIsZero(vals[i], f.kind);
      } else {
        EmptyIsZero(vals[i], f.kind);
      }
    }
    FromDocSpec(schema, d);
    var r := FromDoc(schema, d);
    assert r.value == vals;
  }

  /** Writing a field's alias key changes that field alone in the decoded struct. */
  lemma FromDocSetAlias(schema: Schema, d: DocStore.Doc, k: nat, b: DocStore.Bson)
    requires k < |schema| && schema[k].alias.Some?
    requires forall i | 0 <= i < |schema| && i != k :: schema[i].name != schema[k].alias.value && schema[i].alias != schema[k].alias
    requires FromDoc(schema, d).Ok? && BsonVal(schema[k], b).Ok?
    ensures FromDoc(schema, d[schema[k].alias.value := b]) == Ok(FromDoc(schema, d).value[k := BsonVal(schema[k], b).value])
  {
    var d' := d[schema[k].alias.value := b];
    FromDocSpec(schema, d);
    FromDocSpec(schema, d');
    assert DecodeField(d', schema[k]) == BsonVal(schema[k], b);
    assert forall i | 0 <= i < |schema| && i != k :: DecodeField(d', schema[i]) == DecodeField(d, schema[i]);
    var r := FromDoc(schema, d');
    assert r.value == FromDoc(schema, d).value[k := BsonVal(schema[k], b).value];
  }
}
