/** JSON documents as trees. Text is bytes; printing and parsing the text itself is a parameter elsewhere. */
module JsonTree {
  import opened Bytes

  datatype Json =
    | Null
    | Boolean(b: bool)
    | Number(n: int)
    | Text(text: bytes)
    | Array(items: seq<Json>)
    | Object(fields: seq<(string, Json)>)

  /** cJSON_GetObjectItemCaseSensitive: the first field of that name, of anything that is an object. */
  function Get(j: Option<Json>, key: string): Option<Json> {
    if j.None? || !j.value.Object? then None else Find(j.value.fields, key)
  }

  function Find(fields: seq<(string, Json)>, key: string): Option<Json> {
    if fields == [] then None
    else if fields[0].0 == key then Some(fields[0].1)
    else Find(fields[1..], key)
  }

  /** RestoreManager's getString: a string member, or the fallback. */
  function GetText(j: Option<Json>, key: string, fallback: bytes): bytes {
    var item := Get(j, key);
    if item.Some? && item.value.Text? then item.value.text else fallback
  }
}
