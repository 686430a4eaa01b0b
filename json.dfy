/**
 * The JavaScript values the device registry receives and forwards: device
 * queries given as objects, the filters handed to the simulator utility and
 * the device records whose `os.version` is ranked.
 */
module JsonValues {

  datatype Value =
    | JUndefined
    | JNull
    | JBool(b: bool)
    | JNumber(n: int)
    | JString(s: string)
    | JObject(fields: map<string, Value>)

  /** The object literal `{ os: { version } }` the suite builds its devices with. */
  function WithVersion(version: Value): (device: Value)
    ensures device.JObject? && device.fields.Keys == {"os"}
    ensures device.fields["os"].JObject? && device.fields["os"].fields.Keys == {"version"}
    ensures device.fields["os"].fields["version"] == version
  {
    JObject(map["os" := JObject(map["version" := version])])
  }
}
