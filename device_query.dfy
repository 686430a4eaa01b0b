/**
 * What `SimulatorDeviceRegistry.acquireDevice` does to its query before it
 * asks the simulator utility for matching devices: a shorthand string
 * becomes a filter object, an object is forwarded as it is.
 */
module DeviceQuery {

  import opened JsonValues
  import opened Text

  /** The two shapes a caller may pass to `acquireDevice`. */
  datatype Query = Str(s: string) | Obj(fields: map<string, Value>)

  /** The object handed to the utility's `getDevicesWithProperties`. */
  datatype Filter = Filter(fields: map<string, Value>)

  /** `{ name }` */
  function NameFilter(name: string): Filter
  {
    Filter(map["name" := JString(name)])
  }

  /** `{ name, os: { version } }` */
  function NameVersionFilter(name: string, version: string): Filter
  {
    Filter(map["name" := JString(name), "os" := JObject(map["version" := JString(version)])])
  }

  /** A filter a string query can produce: a trimmed, comma-free name and, optionally, a trimmed version. */
  predicate IsShorthandFilter(f: Filter, withVersion: bool)
  {
    && "name" in f.fields
    && f.fields["name"].JString?
    && IsTrimmed(f.fields["name"].s)
    && ',' !in f.fields["name"].s
    && (if withVersion then
          && f.fields.Keys == {"name", "os"}
          && f.fields["os"].JObject?
          && f.fields["os"].fields.Keys == {"version"}
          && f.fields["os"].fields["version"].JString?
          && IsTrimmed(f.fields["os"].fields["version"].s)
        else f.fields.Keys == {"name"})
  }

  lemma NameFilterShape(name: string)
    requires IsTrimmed(name) && ',' !in name
    ensures IsShorthandFilter(NameFilter(name), false)
  {
  }

  lemma NameVersionFilterShape(name: string, version: string)
    requires IsTrimmed(name) && ',' !in name && IsTrimmed(version)
    ensures IsShorthandFilter(NameVersionFilter(name, version), true)
  {
  }

  /** A shorthand string split at its first comma into a trimmed name and, after the comma, a trimmed version. */
  function NormalizeString(s: string): (f: Filter)
    ensures IsShorthandFilter(f, ',' in s)
  {
    var i := IndexOf(s, ',');
    if i == |s| then
      var name := Trim(s);
      NameFilterShape(name);
      NameFilter(name)
    else
      var name, version := Trim(s[..i]), Trim(s[i + 1..]);
      NameVersionFilterShape(name, version);
      NameVersionFilter(name, version)
  }

  /** The query `acquireDevice` issues: a string is read as shorthand, an object passes through. */
  function Normalize(q: Query): (f: Filter)
    ensures q.Obj? ==> f.fields == q.fields
    ensures q.Str? ==> IsShorthandFilter(f, ',' in q.s)
  {
    match q
    case Obj(fields) => Filter(fields)
    case Str(s) => NormalizeString(s)
  }

  /** A string without a comma becomes `{ name }`, the name being the trimmed string. */
  lemma NormalizeNameOnly(s: string)
    requires ',' !in s
    ensures Normalize(Str(s)) == NameFilter(Trim(s))
  {
  }

  /** `"<a>,<b>"` becomes `{ name: a.trim(), os: { version: b.trim() } }`; further commas stay in the version. */
  lemma NormalizeNameAndVersion(a: string, b: string)
    requires ',' !in a
    ensures Normalize(Str(a + "," + b)) == NameVersionFilter(Trim(a), Trim(b))
  {
    var s := a + "," + b;
    assert s == a + ("," + b);
    IndexOfAfterFree(a, "," + b, ',');
    assert s[..|a|] == a;
    assert s[|a| + 1..] == b;
  }

  /** The text a caller writes for a name: the shorthand `"name"` asks for exactly that name. */
  lemma NameRoundTrip(name: string)
    requires IsTrimmed(name) && ',' !in name
    ensures Normalize(Str(name)) == NameFilter(name)
  {
  }

  /** `"<name>, <version>"` asks for exactly that name and version, the space after the comma dropped. */
  lemma NameVersionRoundTrip(name: string, version: string)
    requires IsTrimmed(name) && ',' !in name && IsTrimmed(version)
    ensures Normalize(Str(name + ", " + version)) == NameVersionFilter(name, version)
  {
    var rest := [' '] + version;
    CommaSpace(name, version);
    NormalizeNameAndVersion(name, rest);
    TrimAfterSpace(version);
  }

  lemma CommaSpace(name: string, version: string)
    ensures name + ", " + version == name + "," + ([' '] + version)
  {
  }

  /** The normalized filter, passed again as an object query, is left as it is. */
  lemma NormalizeIdempotent(q: Query)
    ensures Normalize(Obj(Normalize(q).fields)) == Normalize(q)
  {
  }

  lemma ExampleName()
    ensures Normalize(Str("iPhone X")) == Filter(map["name" := JString("iPhone X")])
  {
    NameRoundTrip("iPhone X");
  }

  lemma ExampleNameAndVersion()
    ensures Normalize(Str("iPhone X, iOS 11.4"))
         == Filter(map["name" := JString("iPhone X"), "os" := JObject(map["version" := JString("iOS 11.4")])])
  {
    assert "iPhone X, iOS 11.4" == "iPhone X" + ", " + "iOS 11.4";
    NameVersionRoundTrip("iPhone X", "iOS 11.4");
  }

  lemma ExampleObjectPassesThrough()
    ensures Normalize(Obj(map["udid" := JString("240C26E6-FE33-41A3-8EF0-7858DA2F53B6")]))
         == Filter(map["udid" := JString("240C26E6-FE33-41A3-8EF0-7858DA2F53B6")])
  {
  }
}
