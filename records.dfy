/**
 * `getMinifiedRecord(s)` (src/index.ts): a table row is flattened into one
 * field map holding its id and its fields. The spread comes after the id, so
 * a field that is itself called "id" wins over the row's id.
 */
module Records {

  /** The values a table cell can hold. */
  datatype FieldValue = Text(text: string) | Number(number: int) | Links(ids: seq<string>)

  /** A row as the table returns it: an id and a map of named fields. */
  datatype TableRecord = TableRecord(id: string, fields: map<string, FieldValue>)

  /** `{ id: record.id, ...record.fields }`. */
  function Minified(r: TableRecord): (m: map<string, FieldValue>)
    ensures m.Keys == r.fields.Keys + {"id"}
    ensures forall k :: k in r.fields ==> m[k] == r.fields[k]
    ensures "id" !in r.fields ==> m["id"] == Text(r.id)
  {
    map["id" := Text(r.id)] + r.fields
  }

  /** `records.map(getMinifiedRecord)`. */
  function MinifiedRecords(rs: seq<TableRecord>): (ms: seq<map<string, FieldValue>>)
    ensures |ms| == |rs|
    ensures forall i :: 0 <= i < |rs| ==> ms[i] == Minified(rs[i])
  {
    seq(|rs|, i requires 0 <= i < |rs| => Minified(rs[i]))
  }

  /**
   * Flattening loses nothing and adds only the id: a row without an "id" field
   * can be recovered from its flattened form.
   */
  lemma MinifiedRoundTrip(r: TableRecord)
    requires "id" !in r.fields
    ensures Minified(r)["id"] == Text(r.id)
    ensures (map k | k in Minified(r) && k != "id" :: Minified(r)[k]) == r.fields
  {
    var m := Minified(r);
    var back := map k | k in m && k != "id" :: m[k];
    assert back.Keys == r.fields.Keys;
  }

  /** A field named "id" shadows the row's id. */
  lemma FieldIdShadowsRecordId(r: TableRecord)
    requires "id" in r.fields
    ensures Minified(r)["id"] == r.fields["id"]
  {
  }

  /** Flattening a list of rows keeps, row by row, each row's id and fields. */
  lemma MinifiedRecordsKeepRows(rs: seq<TableRecord>)
    requires forall i :: 0 <= i < |rs| ==> "id" !in rs[i].fields
    ensures forall i :: 0 <= i < |rs| ==>
      MinifiedRecords(rs)[i]["id"] == Text(rs[i].id)
      && (map k | k in MinifiedRecords(rs)[i] && k != "id" :: MinifiedRecords(rs)[i][k]) == rs[i].fields
  {
    forall i | 0 <= i < |rs|
      ensures MinifiedRecords(rs)[i]["id"] == Text(rs[i].id)
      ensures (map k | k in MinifiedRecords(rs)[i] && k != "id" :: MinifiedRecords(rs)[i][k]) == rs[i].fields
    {
      MinifiedRoundTrip(rs[i]);
    }
  }
}
