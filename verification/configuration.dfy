/** The `template_cfg.json` file both loaders read: a JSON object of string settings. */
module Configuration {

  import opened Options

  /** What `JsonSerializer.Deserialize<Dictionary<string, string>>` makes of a text: it throws, yields `null`, or yields a dictionary. */
  datatype Json = Malformed | Null | Object(entries: map<string, string>)

  /** The settings the loaders keep: a `null` document becomes an empty dictionary (`?? new Dictionary`), a malformed one is an exception. */
  function Parse(j: Json): (r: Option<map<string, string>>)
    ensures r.None? <==> j.Malformed?
    ensures j.Object? ==> r == Some(j.entries)
    ensures j.Null? ==> r == Some(map[])
  {
    match j
    case Malformed => None
    case Null => Some(map[])
    case Object(entries) => Some(entries)
  }
}
