# Detox simulator device registry: query normalization and runtime-version ranking

This project models the two pure computations of Detox's `SimulatorDeviceRegistry`
(the component that hands out iOS simulators to end-to-end test runs) and proves
what its unit suite promises about them:

- **Query normalization** — `acquireDevice(query)` asks the simulator utility
  (`AppleSimUtils`) for the devices matching a filter. A comma-free string
  `"iPhone X"` becomes `{ name: "iPhone X" }`. A string `"iPhone X, iOS 11.4"`
  becomes `{ name: "iPhone X", os: { version: "iOS 11.4" } }`. An object such as
  `{ udid: … }` is passed through unchanged. Modelled by `DeviceQuery.Normalize`,
  a total function from a tagged `Query` (`Str` or `Obj`) to a `Filter`.
- **Runtime version** — `getRuntimeVersion(device)` turns the dotted
  `device.os.version` string into an integer sort key, and a missing version
  gives 0. The suite pins down only that nine versions sort in their numeric
  order and that the keys are "5-6 digit" numbers. The model splits the string
  on `.`, reads each component as a number and packs the first three as
  base-100 digits: `major * 10000 + minor * 100 + patch`. Missing trailing
  components count as 0. Modelled by `RuntimeVersion.GetRuntimeVersion`. The
  model proves that, for versions of at most three components with minor and
  patch below 100, comparing keys is exactly comparing versions numerically,
  component by component (`VersionLess`); a fourth component never changes
  the key, so `11.4.1.5` and `11.4.1.6` rank alike. It also proves that
  sorting any shuffle of the suite's nine-version list by the key gives the
  list back.

The implementation file `detox/src/devices/registries/SimulatorDeviceRegistry.js`
is not part of this model. The behaviour modelled is the one its suite
(`SimulatorDeviceRegistry.test.js`) pins down. Where the suite leaves a case
open, the model makes these choices:

- A string query is split at its **first** comma. Both halves are trimmed with
  JavaScript's `trim` white-space set. Any later commas stay in the version text.
- A comma always yields `os.version`, even when the text after it is empty.
- The version text is kept verbatim, `iOS ` prefix included. `getRuntimeVersion`
  strips no prefix. A component that is not all decimal digits (`"iOS 11"`, `"b"`)
  counts as 0. The empty component counts as 0, as `Number("")` does.
- A device whose `os.version` is absent, `undefined` or not a string ranks 0.
- The key packs exactly three components as base-100 digits,
  `major * 10000 + minor * 100 + patch`; missing trailing components count as
  0 and components after the third do not change the key.

Layout: `json.dfy` (JavaScript values), `wrappers.dfy` (`Option`), `text.dfy`
(`trim`, first index of a character, `split`, decimal digits), `device_query.dfy`,
`runtime_version.dfy`, `sort_key.dfy` (what `_.sortBy` guarantees) and
`golden_versions.dfy` (the suite's concrete cases).

## Model

| member | source | states |
|---|---|---|
| `DeviceQuery.Normalize` | detox/src/devices/registries/SimulatorDeviceRegistry.test.js:17-38 | an object query is forwarded with exactly its keys and values; a string query yields a filter with a trimmed, comma-free `name` and with `os: { version }` (trimmed) exactly when the string has a comma, and no other key |
| `DeviceQuery.NormalizeNameOnly` | detox/src/devices/registries/SimulatorDeviceRegistry.test.js:18-20 | a comma-free string `s` becomes `{ name: s.trim() }` |
| `DeviceQuery.NormalizeNameAndVersion` | detox/src/devices/registries/SimulatorDeviceRegistry.test.js:23-29 | `"<a>,<b>"` with a comma-free `a` becomes `{ name: a.trim(), os: { version: b.trim() } }` |
| `DeviceQuery.NameRoundTrip` | detox/src/devices/registries/SimulatorDeviceRegistry.test.js:18-20 | the shorthand for a trimmed, comma-free name asks for exactly that name |
| `DeviceQuery.NameVersionRoundTrip` | detox/src/devices/registries/SimulatorDeviceRegistry.test.js:23-29 | `"<name>, <version>"` asks for exactly that name and version: the space after the comma is dropped and the version text is kept verbatim |
| `DeviceQuery.NormalizeIdempotent` | detox/src/devices/registries/SimulatorDeviceRegistry.test.js:32-37 | a normalized filter passed again as an object is a fixed point |
| `DeviceQuery.ExampleName` | detox/src/devices/registries/SimulatorDeviceRegistry.test.js:18-20 | `'iPhone X'` becomes `{ name: 'iPhone X' }` |
| `DeviceQuery.ExampleNameAndVersion` | detox/src/devices/registries/SimulatorDeviceRegistry.test.js:23-29 | `'iPhone X, iOS 11.4'` becomes `{ name: 'iPhone X', os: { version: 'iOS 11.4' } }` |
| `DeviceQuery.ExampleObjectPassesThrough` | detox/src/devices/registries/SimulatorDeviceRegistry.test.js:32-37 | `{ udid: '240C26E6-…' }` is forwarded unchanged |
| `Text.Trim` | detox/src/devices/registries/SimulatorDeviceRegistry.test.js:23-29 | the result has no leading or trailing white space, adds no character, and trimmed text is left as it is |
| `Text.TrimStart` | detox/src/devices/registries/SimulatorDeviceRegistry.test.js:23-29 | the result is the suffix of the input that starts at its first non-space, everything removed being white space |
| `Text.TrimEnd` | detox/src/devices/registries/SimulatorDeviceRegistry.test.js:23-29 | the result is the prefix of the input that ends at its last non-space, everything removed being white space |
| `Text.TrimPadded` | detox/src/devices/registries/SimulatorDeviceRegistry.test.js:23-29 | trimming white space + trimmed text + white space gives exactly the trimmed text |
| `Text.IndexOf` | detox/src/devices/registries/SimulatorDeviceRegistry.test.js:23-29 | the index of the first occurrence, or the length when there is none (both directions); JavaScript's `indexOf` gives -1 there, which only ever decides whether a comma is present |
| `Text.Split` | detox/src/devices/registries/SimulatorDeviceRegistry.test.js:72-74 | at least one part, no part contains the separator, and joining the parts with it gives the input back |
| `Text.SplitJoin` | detox/src/devices/registries/SimulatorDeviceRegistry.test.js:72-74 | splitting joined separator-free parts gives the parts back |
| `Text.Decimal` | detox/src/devices/registries/SimulatorDeviceRegistry.test.js:72-74 | the rendering is non-empty, all digits, has no leading zero unless the number is 0, and reads back as the number |
| `JsonValues.WithVersion` | detox/src/devices/registries/SimulatorDeviceRegistry.test.js:64-66 | `withVersion(v)` is the object `{ os: { version: v } }` and nothing else |
| `RuntimeVersion.OsVersion` | detox/src/devices/registries/SimulatorDeviceRegistry.test.js:64-70 | a device has a version to rank exactly when it is an object whose `os` is an object whose `version` is a string, and that version is the string at `device.os.version` |
| `RuntimeVersion.OsVersionOfWithVersion` | detox/src/devices/registries/SimulatorDeviceRegistry.test.js:64-70 | the suite's `withVersion(v)` device carries `v` as its version exactly when `v` is a string, and none otherwise (as for `withVersion()`) |
| `RuntimeVersion.Padded` | detox/src/devices/registries/SimulatorDeviceRegistry.test.js:73-74 | the key sees exactly three components: with three or more, the first three; with fewer, those followed by zeros |
| `RuntimeVersion.ExtraComponentsIgnored` | detox/src/devices/registries/SimulatorDeviceRegistry.test.js:73-74 | components after the third never change the key |
| `RuntimeVersion.VersionTriple` | detox/src/devices/registries/SimulatorDeviceRegistry.test.js:73-74 | the triple is the version's components cut or zero-padded to three; a version without a dot (`'0'`, `'9'`, `'11'`) is a major version with minor and patch 0 |
| `RuntimeVersion.Pack` | detox/src/devices/registries/SimulatorDeviceRegistry.test.js:72-74 | every component contributes at least its positional weight, component × 100^(places to its right), to the key |
| `RuntimeVersion.GetRuntimeVersion` | detox/src/devices/registries/SimulatorDeviceRegistry.test.js:64-79 | a device without a string `os.version` ranks 0; otherwise, with minor and patch below 100, the key decodes to the version's (major, minor, patch) |
| `RuntimeVersion.Components` | detox/src/devices/registries/SimulatorDeviceRegistry.test.js:72-74 | one number per dot-separated part of the version: the part's decimal value when it is all digits (the empty part giving 0), and 0 otherwise |
| `RuntimeVersion.NonNumericMajor` | detox/src/devices/registries/SimulatorDeviceRegistry.test.js:72-74 | no prefix is stripped: `"<head>.<minor>"` with a non-numeric, dot-free head ranks `minor*100` |
| `RuntimeVersion.ComponentsOfRender` | detox/src/devices/registries/SimulatorDeviceRegistry.test.js:72-74 | parsing a dotted rendering of components gives the components back |
| `RuntimeVersion.Unpack` | detox/src/devices/registries/SimulatorDeviceRegistry.test.js:72 | decoding a key yields `w` components, all but the leading one below 100, and all of them below 100 when the key is below `100^w` |
| `RuntimeVersion.UnpackPack` | detox/src/devices/registries/SimulatorDeviceRegistry.test.js:72 | decoding an encoded key gives its components back when all but the leading one are below 100 |
| `RuntimeVersion.PackBelowPow` | detox/src/devices/registries/SimulatorDeviceRegistry.test.js:72 | `w` components below 100 pack below `100^w` |
| `RuntimeVersion.LexTrichotomy` | detox/src/devices/registries/SimulatorDeviceRegistry.test.js:76-79 | the numeric component order is total: less, equal or greater |
| `RuntimeVersion.PackMonotone` | detox/src/devices/registries/SimulatorDeviceRegistry.test.js:72-79 | a numerically smaller component sequence packs to a strictly smaller key |
| `RuntimeVersion.PackOrder` | detox/src/devices/registries/SimulatorDeviceRegistry.test.js:72-79 | key order is exactly the numeric component order (both directions) |
| `RuntimeVersion.RuntimeVersionOrder` | detox/src/devices/registries/SimulatorDeviceRegistry.test.js:72-79 | for minor and patch below 100, one device's key is smaller than another's exactly when its version is smaller in `VersionLess` |
| `RuntimeVersion.RuntimeVersionOfTriple` | detox/src/devices/registries/SimulatorDeviceRegistry.test.js:72-74 | `"major.minor.patch"` parses to those three numbers and ranks `major*10000 + minor*100 + patch` |
| `RuntimeVersion.RuntimeVersionOfPair` | detox/src/devices/registries/SimulatorDeviceRegistry.test.js:74 | `"major.minor"` counts its missing patch as 0 |
| `RuntimeVersion.RuntimeVersionOfMajor` | detox/src/devices/registries/SimulatorDeviceRegistry.test.js:74 | `"major"` counts its missing minor and patch as 0 |
| `RuntimeVersion.FiveOrSixDigits` | detox/src/devices/registries/SimulatorDeviceRegistry.test.js:72 | a version with major 1 to 99 and minor and patch below 100 has a key of 5 or 6 digits |
| `SortKey.SortedPermutationIsUnique` | detox/src/devices/registries/SimulatorDeviceRegistry.test.js:76-79 | a permutation of a list with strictly ascending keys that is sorted by the key is that list |
| `GoldenVersions.KeyOfEach` | detox/src/devices/registries/SimulatorDeviceRegistry.test.js:73-74 | each of the nine golden versions parses to its triple and ranks 0, 90000, 90101, 110000, 110300, 110401, 110410, 111001, 111010 |
| `GoldenVersions.GoldenAscending` | detox/src/devices/registries/SimulatorDeviceRegistry.test.js:73-79 | the golden devices are strictly ascending by runtime version |
| `GoldenVersions.GoldenVersionsAscending` | detox/src/devices/registries/SimulatorDeviceRegistry.test.js:73-74 | the golden versions are strictly ascending in the numeric component order |
| `GoldenVersions.SortRestoresGoldenOrder` | detox/src/devices/registries/SimulatorDeviceRegistry.test.js:76-79 | any shuffle of the golden devices, once sorted by runtime version, equals the golden list |
| `GoldenVersions.NumericNotTextual` | detox/src/devices/registries/SimulatorDeviceRegistry.test.js:74 | `11.4.1 < 11.4.10`, `11.4.10 < 11.10.1`, `11 < 11.3` and `9 < 9.1.1` |
| `GoldenVersions.UndefinedVersionIsZero` | detox/src/devices/registries/SimulatorDeviceRegistry.test.js:68-70 | the device `{ os: { version: undefined } }` ranks 0 |
| `GoldenVersions.PrefixedVersionRanksByMinor` | detox/src/devices/registries/SimulatorDeviceRegistry.test.js:72-74 | `"iOS 11.4"` parses to (0, 4, 0) and ranks 400 |

## Left out

- `createDeviceWithProperties` and `getDevicesWithProperties`: they hand their argument to the simulator utility and return its answer, and the utility is external code with no logic here to model.
- What `acquireDevice` does after issuing its query (selection, creation, locking): the suite discards its outcome, and the implementation is not part of this model. The query it issues is `Normalize(query)`.
- Promises, Jest mocks and lodash's `_.shuffle`: the shuffle is replaced by "any permutation", and `_.sortBy` by what its result must satisfy (a permutation sorted by the key).
- Prefix stripping in `getRuntimeVersion` (`"iOS 11.4"`): no case feeds one. A component that is not all digits is read as 0, so `"iOS 11.4"` ranks 400 (`NonNumericMajor`, `PrefixedVersionRanksByMinor`).
- `RuntimeVersion.GetRuntimeVersion`: the decoding and ordering guarantees hold only when minor and patch are below 100. Above that, positional packing collides (`11.100` ranks like `12.0`).
- JavaScript numbers are floating point; the key is modelled as an unbounded natural number. Keys stay far below 2^53 for components below 100, so this does not matter there.
- `getRuntimeVersion` is a function of the device alone, so it needs no utility and can be passed on its own as a sort key. The registry object that holds the utility is not modelled.
