/** The records both search back ends share: the document sent to the index,
    a hit as the index hands it back, and the result item a hit is mapped
    to (db/models.go, db/searchdb/models.go). */
module SearchModels {
  import opened Wrappers

  /** A document to index; the modification time is an abstract ordered
      number. */
  datatype Document = Document(id: string, path: string, name: string, content: string, size: int, modTime: int)

  /** A stored field value as the index returns it: JSON strings and JSON
      numbers (float64), or a value of some other type. */
  datatype FieldValue = StringValue(s: string) | NumberValue(x: real) | OtherValue

  /** A term location in the content field, as byte offsets. */
  datatype Location = Location(start: nat, end: nat)

  /** One hit: its id, its score, the stored fields that were requested,
      and, per field, the locations of each matched term (each term's list
      in the order the index's map yields the terms; a `None` entry is a nil
      location). */
  datatype Hit = Hit(
    id: string,
    score: real,
    fields: map<string, FieldValue>,
    locations: map<string, seq<seq<Option<Location>>>>)

  /** What the index returns for a search request. */
  datatype IndexResult = IndexResult(hits: seq<Hit>, total: nat, maxScore: real)

  /** A result item, with the fields of a hit copied over. */
  datatype Item = Item(id: string, path: string, name: string, score: real, size: int, modTime: string)

  const FieldContent: string := "content"
  const FieldName: string := "name"
  const FieldPath: string := "path"
  const FieldSize: string := "size"
  const FieldModTime: string := "mod_time"

  /** Go's conversion of a float64 to an integer: truncation toward zero. */
  function TruncateToInt(x: real): (n: int)
    ensures 0.0 <= x ==> n as real <= x < n as real + 1.0
    ensures x < 0.0 ==> n as real - 1.0 < x <= n as real
  {
    if x >= 0.0 then x.Floor else -((-x).Floor)
  }

  /** The string under `key`, or "" when it is absent or not a string. */
  function StringField(fields: map<string, FieldValue>, key: string): string
  {
    if key in fields && fields[key].StringValue? then fields[key].s else ""
  }

  /** The size field as an integer, or 0 when it is absent or not a number. */
  function SizeField(fields: map<string, FieldValue>): int
  {
    if FieldSize in fields && fields[FieldSize].NumberValue? then TruncateToInt(fields[FieldSize].x) else 0
  }

  /** The item for a hit: id and score always, and each stored field only
      when it has the expected type, otherwise its zero value. */
  function ItemOf(hit: Hit): Item
  {
    Item(hit.id, StringField(hit.fields, FieldPath), StringField(hit.fields, FieldName), hit.score,
         SizeField(hit.fields), StringField(hit.fields, FieldModTime))
  }

  /** The stored fields the index keeps for an item's values. */
  function StoredFields(path: string, name: string, size: int, modTime: string): map<string, FieldValue>
  {
    map[FieldPath := StringValue(path), FieldName := StringValue(name),
        FieldSize := NumberValue(size as real), FieldModTime := StringValue(modTime)]
  }

  lemma {:induction false} TruncateIntegral(n: int)
    ensures TruncateToInt(n as real) == n
  {
    var m := TruncateToInt(n as real);
    assert m as real - 1.0 < n as real < m as real + 1.0;
  }

  /** Mapping a hit whose fields are stored with their expected types gives
      back exactly those values. */
  lemma {:induction false} ItemOfStoredFields(id: string, score: real, path: string, name: string, size: int, modTime: string,
                                              locations: map<string, seq<seq<Option<Location>>>>)
    ensures ItemOf(Hit(id, score, StoredFields(path, name, size, modTime), locations))
            == Item(id, path, name, score, size, modTime)
  {
    TruncateIntegral(size);
  }

  /** A field that is missing or of another type leaves the item's field at
      its zero value; the id and score are copied regardless. */
  lemma {:induction false} ItemOfUntypedFields(hit: Hit)
    requires forall key :: key in hit.fields ==> hit.fields[key].OtherValue?
    ensures ItemOf(hit) == Item(hit.id, "", "", hit.score, 0, "")
  {
  }

  /** The hits mapped one by one, in order, into a slice of the same length. */
  method MapHits(hits: seq<Hit>) returns (items: seq<Item>)
    ensures |items| == |hits|
    ensures forall k :: 0 <= k < |hits| ==> items[k] == ItemOf(hits[k])
  {
    var results := new Item[|hits|];
    var i := 0;
    while i < |hits|
      invariant 0 <= i <= |hits|
      invariant forall k :: 0 <= k < i ==> results[k] == ItemOf(hits[k])
    {
      results[i] := ItemOf(hits[i]);
      i := i + 1;
    }
    items := results[..];
  }
}
