/** JSON values. Object keys are unordered and unique; numbers keep their text. */
module Json {
  import opened Wrappers

  datatype Json =
    | JNull
    | JBool(b: bool)
    | JNumber(text: string)
    | JString(s: string)
    | JArray(items: seq<Json>)
    | JObject(fields: map<string, Json>)
  {
    /** Member lookup: only an object that has the key answers. */
    function Get(key: string): Option<Json> {
      if JObject? && key in fields then Some(fields[key]) else None
    }

    function GetString(key: string): Option<string> {
      match Get(key)
      case Some(JString(s)) => Some(s)
      case _ => None
    }

    function GetArray(key: string): Option<seq<Json>> {
      match Get(key)
      case Some(JArray(items)) => Some(items)
      case _ => None
    }

    function GetBool(key: string): Option<bool> {
      match Get(key)
      case Some(JBool(b)) => Some(b)
      case _ => None
    }
  }
}
