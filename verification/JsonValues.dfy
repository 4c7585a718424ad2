/** Parsed JSON values. Objects are unordered, as their equality is. */
module JsonValues {
  import opened Wrappers

  datatype Json =
    | JNull | JBool(flag: bool) | JInt(number: int) | JReal(fraction: real) | JText(text: string)
    | JList(items: seq<Json>) | JObject(fields: map<string, Json>)
  {
    function At(key: string): Option<Json> {
      if JObject? && key in fields then Some(fields[key]) else None
    }

    function IntAt(key: string): Option<int> {
      if At(key).Some? && At(key).value.JInt? then Some(At(key).value.number) else None
    }

    function TextAt(key: string): Option<string> {
      if At(key).Some? && At(key).value.JText? then Some(At(key).value.text) else None
    }
  }
}
