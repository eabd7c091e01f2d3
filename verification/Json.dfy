/** JSON documents, as far as the adapters and the hook installer look into them. */
module Json {
  import opened Common

  datatype Json =
    | Null
    | Bool(flag: bool)
    | Number(number: int)
    | Str(text: string)
    | Arr(items: seq<Json>)
    | Obj(fields: map<string, Json>)

  function Get(value: Json, key: string): Option<Json> {
    if value.Obj? && key in value.fields then Some(value.fields[key]) else None
  }

  function GetStr(value: Json, key: string): Option<string> {
    match Get(value, key)
    case Some(Str(text)) => Some(text)
    case _ => None
  }

  /** A missing field serializes as null. */
  function OrNull(value: Option<Json>): Json {
    if value.Some? then value.value else Null
  }
}
