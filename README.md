# Hue client core in Dafny

A model of the decision and bookkeeping logic of a small Philips Hue web client: the
API module `www/js/api/philips.js` and the bridge views `www/js/views/bridges.js`.
The model covers:

- the persisted list of paired bridges (`getStoredAccounts`, `addStoredAccount`);
- the link-button handshake `postAccount`, a polling loop with a two-minute window;
- the light listing `getLights`, including the brace repair of `correctResponse`;
- `toggleLight`, and `changeColor` behind its 200 ms `lastcall` gate;
- the `#rrggbb` text that `RGBtoXY` reads and `XYtoRGB` writes;
- the `bridge-list` element, the `add-bridge-dialog` form validation with its IP pattern,
  and the `connect-bridge-dialog` state.

Files and modules:

| file | module | contents |
|---|---|---|
| `js_values.dfy` | `Js` | JavaScript values, property access, `trim`, `find`, `Object.keys` |
| `hex_color.dfy` | `HexColor` | `parseInt(…, 16)`, `toString(16)`, the hex parse and format |
| `credential_store.dfy` | `CredentialStore` | the `bridgeAccounts` entry of `localStorage` |
| `pairing.dfy` | `Pairing` | `postAccount` |
| `lights.dfy` | `Lights` | `v1Url`, `correctResponse`, `getLights`, `toggleLight`, `changeColor` |
| `bridge_views.dfy` | `BridgeViews` | the three custom elements of `bridges.js` |

How state is modelled:

- Objects the code updates in place are classes with `modifies` clauses:
  - `Storage` for `localStorage`;
  - `Light`, a listed light;
  - `PhilipsApi`, holding the module variable `lastcall`;
  - `BridgeList`, `AddBridgeDialog` and `ConnectBridgeDialog`.
- Pure computations are functions:
  - parsing and formatting;
  - `correctResponse` and `v1Url`;
  - the classification of a pairing reply.
- The `while` loop of `postAccount` is a method with a loop invariant. It is proved
  against the recursive function `Pairing.Pairing`.
- `getBridges`'s `forEach` is a loop. It is proved against the fold `WithBridges`.

The outside world is passed in as parameters:

- `JSON.parse` is `parse: string -> Result<JsValue>`.
- `Number.prototype.toString` is `numberText`.
- The floating-point colour stages are the record `ColorMath`, which bundles:
  - `toXy`, the gamma, the matrix and the xy division of `RGBtoXY`;
  - `linearize`, the xy-to-RGB matrix of `XYtoRGB`;
  - `pow`, `Math.pow(v, 1/2.4)`.
- `error.message` of an engine error is `engineMessage`.
- The clock readings of `changeColor` are the arguments `checkTime` and `stampTime`.
- A `fetch` is its outcome. For `getLights` it is the response text or the error that
  `fetch` or `text()` rejects with. For the `PUT` requests it is an optional error.
- `detectBridge` is a `Detection`: a detected UDN or an error.
- The bridge's replies to `postAccount` are a sequence of `Reply` values. Each carries
  its text and the clock reading after the sleep that reply may cause.

Where the code and other accounts of the program differ, the model follows the code:

- The store deduplicates by `uuid`; the view deduplicates by `ip`.
- The pairing loop never repairs braces: unparseable text is simply retried.
- `getLights` rejects when `fetch` or `text()` rejects. Once the text is in hand, any
  error inside its `try` gives `undefined` (here `None`).
- `changeColor` writes `state.x` and `state.y`, not `state.xy`.
- `XYtoRGB` clamps channels below 0 only. A channel above 255 therefore has its hex text
  wrap modulo 256 (`HexColor.ChannelAbove255`).

## Model

| member | source | states |
|---|---|---|
| Js.Lookup | www/js/api/philips.js:116-123 | reading a property of a plain object gives the first binding of that key, or `undefined` when there is none |
| Js.SetProp | www/js/api/philips.js:256-258 | writing a property keeps every key in its place and every other property unchanged; a new key is appended at the end, which is where JavaScript lists a key that is not an array index (`on`, `x`, `y`, `bri`), so the object grows by one exactly when the key was absent |
| Js.SetPropLookup | www/js/api/philips.js:256-258 | after a write, reading the written key gives the new value and every other key reads as before |
| Js.SetPropDistinct | www/js/api/philips.js:256-258 | writing a property keeps the keys of an object pairwise distinct |
| Js.SetPropTwice | www/js/api/philips.js:144 | writing a key twice is the same as writing it once with the last value |
| Js.SetPropSame | www/js/api/philips.js:144 | writing a key with the value it already holds leaves the object unchanged |
| Js.IndexKeys | www/js/api/philips.js:114 | an array or string of length `n` has `n` keys, and the `i`-th key reads back as the array index `i` |
| Js.KeysOfHasKey | www/js/api/philips.js:114 | an object's key list has one entry per own property, and a text is in it exactly when the object has that key |
| Js.KeysOfOrder | www/js/api/philips.js:114 | the `i`-th listed key is the key of the `i`-th own property: keys come in property order |
| Js.ObjectKeys | www/js/api/philips.js:114 | `Object.keys` throws a TypeError exactly on `undefined`/`null`, lists an object's own keys in order, lists as many keys as an array has items or a string has characters, and gives nothing for booleans and numbers |
| Js.ObjectKeysRead | www/js/api/philips.js:114-123 | reading back each key `Object.keys` lists gives that key's value: an object's property, an array's item, or a string's one-character text |
| Js.GetProperty | www/js/api/philips.js:87 | property access throws a TypeError exactly on `undefined`/`null` and reads an object's own property otherwise |
| Js.NamedKeyOfPrimitive | www/js/api/philips.js:116-123 | a key that is not `length` and does not start with a digit reads as `undefined` on arrays, strings, booleans and numbers |
| Js.TrimStartEmpty | www/js/views/bridges.js:48 | `trimStart` gives empty text exactly when every character is white space |
| Js.TrimEndEmpty | www/js/views/bridges.js:48 | `trimEnd` gives empty text exactly when every character is white space |
| Js.TrimNonEmpty | www/js/views/bridges.js:48 | `s.trim().length > 0` exactly when `s` holds a character that is not white space |
| Js.TrimStartSuffix | www/js/views/bridges.js:202 | `trimStart` gives a suffix of its input, and every character it drops is white space |
| Js.DecimalDigit | www/js/views/bridges.js:75 | a digit below 10 is written as the ASCII digit of that value |
| Js.Decimal | www/js/views/bridges.js:75 | an index is written as at least one decimal digit, with no leading zero from 10 up |
| Js.DecimalValueOf | www/js/views/bridges.js:75 | the decimal text of an index reads back as that index |
| Js.ParseIndexDecimal | www/js/api/philips.js:87 | the array index key `"0"`, `"1"`, … reads back as the index it was written from |
| Js.FindFirst | www/js/api/philips.js:55-57 | `find` gives the first element meeting the test, and none exactly when no element does |
| Js.MapResults | www/js/api/philips.js:114-126 | a `map` whose callback may throw succeeds exactly when every element's callback does, and then holds each callback's result in order |
| HexColor.ParseInt16 | www/js/api/philips.js:152-154 | `parseInt(s, 16)` is `NaN` for blank text and for text starting with a character that is neither white space, a sign nor a hex digit; text starting with a hex digit and no `0x` gives the value of its longest hex prefix (further cases: `ParseUnsigned`, `SignedGroupIsNegative`) |
| HexColor.HexValue | www/js/api/philips.js:152-154 | a hex digit's value lies below 16 |
| HexColor.Substr | www/js/api/philips.js:152-154 | `substr(start, length)` gives the `length` characters at `start`, clipped to the end of the text, and empty text from the end on; characters are code points, which agree with JavaScript's code units on BMP text such as `#rrggbb` |
| HexColor.HexPrefixLength | www/js/api/philips.js:152-154 | `parseInt` reads the longest prefix made of hex digits and stops at the first other character |
| HexColor.ParseUnsigned | www/js/api/philips.js:152-154 | without blanks, sign or `0x`, `parseInt(s, 16)` is `NaN` for an empty hex prefix and otherwise the prefix's value |
| HexColor.HexDigitStartsNumeral | www/js/api/philips.js:152-154 | a text starting with a hex digit has no leading white space to skip |
| HexColor.AllHexPrefix | www/js/api/philips.js:152-154 | on a run of hex digits, `parseInt` reads the whole run |
| HexColor.ParseHexDigits | www/js/api/philips.js:152-154 | `parseInt` of a run of hex digits is the numeral's value |
| HexColor.ParseTwoDigits | www/js/api/philips.js:152-154 | `parseInt` of a two-digit group is its value, which lies in 0..255 |
| HexColor.ParseOneDigit | www/js/api/philips.js:152-154 | `parseInt` of a single hex digit is its value |
| HexColor.HexBody | www/js/api/philips.js:148 | a well-formed colour's digits without the `#` are six hex digits |
| HexColor.PairValue | www/js/api/philips.js:152-154 | the value of a two-digit group lies in 0..255 |
| HexColor.ParseChannels | www/js/api/philips.js:148-155 | the channel reading of `RGBtoXY`; its lemmas state it: `ParseWellFormed` for a colour text, `UnreadableGroupsAreNaN`, `ShortTextReadsPartialGroup` and `SignedGroupIsNegative` for text that is not one |
| HexColor.ParseWellFormed | www/js/api/philips.js:148-155 | for six hex digits after an optional `#`, each channel is the value of the two-character slice at offset 0, 2 or 4, so it lies in 0..255 |
| HexColor.RgbToXy | www/js/api/philips.js:147-181 | `RGBtoXY`; its lemmas state it: `RgbToXyReadsGroups` and `RgbToXyOfFormatted` |
| HexColor.RgbToXyReadsGroups | www/js/api/philips.js:147-155 | on a well-formed colour, the float stage receives exactly the three two-digit group values |
| HexColor.RgbToXyOfFormatted | www/js/api/philips.js:147-155 | the `#rrggbb` text written for channels in 0..255 reaches the float stage as those same channels |
| HexColor.UnreadableGroupsAreNaN | www/js/api/philips.js:152-154 | text that is not a colour is not rejected: `zzz` and the empty text give three `NaN` channels |
| HexColor.FiveDigitText | www/js/api/philips.js:148-155 | after `#`, five digits give two full groups and a one-digit last group |
| HexColor.ShortTextReadsPartialGroup | www/js/api/philips.js:148-155 | `#12345` reads as 0x12, 0x34 and 0x5 |
| HexColor.SignedGroupIsNegative | www/js/api/philips.js:152 | `parseInt` accepts a sign, so `-1ffff` reads its red channel as -1 |
| HexColor.HexDigitChar | www/js/api/philips.js:225-227 | a value below 16 is written as a lower-case hex digit of that value |
| HexColor.ToHexString | www/js/api/philips.js:225-227 | `toString(16)` of a non-negative integer is lower-case hex digits ending with the digit of `n % 16`, preceded by that of `(n / 16) % 16` from 16 up |
| HexColor.LastN | www/js/api/philips.js:225-227 | `slice(-n)` gives the last `n` characters, or the whole text when it is shorter |
| HexColor.ChannelHex | www/js/api/philips.js:225-227 | one channel's two hex digits; its lemmas state it: `ChannelHexDigits` and `ChannelHexValue` |
| HexColor.ChannelHexDigits | www/js/api/philips.js:225-227 | for a non-negative channel, each group is two lower-case digits encoding the channel modulo 256, zero-padded on the left |
| HexColor.ChannelHexValue | www/js/api/philips.js:225-227 | each group is two hex digits whose value is the channel modulo 256 |
| HexColor.FormatHex | www/js/api/philips.js:224-227 | the `#rrggbb` text; its lemmas state it: `FormatHexChars`, `FormatThenParse`, `FormatRoundTrip` and `FormatPairs` |
| HexColor.FormatHexChars | www/js/api/philips.js:224-227 | the formatted colour is seven characters: `#`, then each group's two digits |
| HexColor.ParseGroups | www/js/api/philips.js:148-155 | a `#` and three two-digit groups is well-formed and reads back as the groups' values |
| HexColor.FormatThenParse | www/js/api/philips.js:224-227 | formatting non-negative channels and reading the text back gives each channel modulo 256 |
| HexColor.FormatRoundTrip | www/js/api/philips.js:224-227 | for channels in 0..255, formatting then parsing gives back the same three integers |
| HexColor.ParseRoundTrip | www/js/api/philips.js:148-155 | reading lower-case colour text and formatting it again gives back the text, with `#` |
| HexColor.FormatPairs | www/js/api/philips.js:224-227 | formatting the values of six lower-case hex digits gives `#` and those same digits |
| HexColor.PairFormat | www/js/api/philips.js:225-227 | a channel read from two lower-case digits is formatted back as those two digits |
| HexColor.JsRound | www/js/api/philips.js:220-222 | `Math.round` gives the integer within one half of its argument, halves rounded up |
| HexColor.EncodeChannelNonNegative | www/js/api/philips.js:209-222 | the lower clamp and gamma keep every output channel non-negative |
| HexColor.XyToRgb | www/js/api/philips.js:183-230 | `XYtoRGB`; its lemmas state it: `EncodeChannelNonNegative`, `XyToRgbHex` and `ChannelAbove255` |
| HexColor.XyToRgbHex | www/js/api/philips.js:209-227 | for finite channels from the colour matrix, the `hex` of `XYtoRGB` is well-formed, starts with `#`, and reads back as its channels modulo 256 |
| HexColor.ChannelAbove255 | www/js/api/philips.js:209-227 | nothing clamps from above: a bright out-of-gamut channel exceeds 255 and its hex no longer reads back as the channel |
| CredentialStore.ReadAfterAdd | www/js/api/philips.js:41-62 | after `addStoredAccount(data)`, `getStoredAccounts()` reads the old list with `data` appended unless its uuid was stored (`[data]` on a store without the key); it holds `data`'s uuid, keeps uuids unique, and every other key is as it was |
| CredentialStore.WithAccount | www/js/api/philips.js:52-59 | `data` is appended exactly when no stored record has its uuid; otherwise the list is unchanged |
| CredentialStore.WithAccountInvariant | www/js/api/philips.js:52-59 | adding keeps earlier records in order, grows the list by at most one, leaves a record with `data`'s uuid, and keeps uuids unique |
| CredentialStore.WithAccountIdempotent | www/js/api/philips.js:52-59 | adding the same record twice is the same as adding it once |
| CredentialStore.AddStoredAccount | www/js/api/philips.js:52-62 | the key is always written back, with the items `ReadAfterAdd` describes; `getStoredAccounts` then reads the updated list, and no other key changes |
| Pairing.PairingLoop | www/js/api/philips.js:64-103 | the `while` loop computes the outcome and wait count of the recursive specification on the same replies |
| Pairing.PostAccount | www/js/api/philips.js:64-104 | on success the record is stored through `addStoredAccount`; otherwise the store is unchanged |
| Pairing.Pairing | www/js/api/philips.js:68-103 | the recursive account of the loop; its lemmas state it: `WaitStep`, `RetryStep`, `FinalStep`, `PairedSetsAccount`, `AtMost24Waits`, `NeverPressedTimesOut`, and `PairingLoop` computes it |
| Pairing.Classify | www/js/api/philips.js:74-102 | what one reply does; its lemmas state it: `RetryStep` and `GarbledRepliesNeverTimeOut` for empty or unparseable text, `WaitStep` for a type-101 error |
| Pairing.ClassifyParsed | www/js/api/philips.js:87-102 | what a parsed reply does; its lemmas state it: `LinkButtonReplyWaits`, `SuccessReplyYieldsUsername`, `EmptyReplyThrows`, `OtherErrorThrows` and `NullErrorThrows` |
| Pairing.PairedSetsAccount | www/js/api/philips.js:94-97 | a paired record is the item with `account` set to the username of some success reply, and ip, uuid and name unchanged |
| Pairing.WaitStep | www/js/api/philips.js:87-91 | a type-101 reply sleeps and re-measures `elapsed` from the clock, then loops |
| Pairing.RetryStep | www/js/api/philips.js:75-85 | an empty or unparseable reply loops again without touching `elapsed` |
| Pairing.FinalStep | www/js/api/philips.js:87-102 | a reply that is neither retried nor waited on, running out of replies, or the end of the window all end the loop with the waits counted so far |
| Pairing.AtMost24Waits | www/js/api/philips.js:68-91 | when every sleep lasts at least 5000 ms, the loop waits at most 24 times |
| Pairing.PairingWaitsBounded | www/js/api/philips.js:64-104 | the same bound from the start of `postAccount` |
| Pairing.GarbledRepliesNeverTimeOut | www/js/api/philips.js:75-85 | replies that are all empty or unparseable never advance `elapsed`, so the loop never times out on them |
| Pairing.NeverPressedTimesOut | www/js/api/philips.js:68-104 | if the button is never pressed and sleeps last exactly 5000 ms, the loop ends normally after exactly 24 waits, without an error |
| Pairing.ThreeWaitsThenSuccess | www/js/api/philips.js:87-98 | three type-101 replies and then a success pair the record after three waits |
| Pairing.FirstItem | www/js/api/philips.js:87 | `res[0]` on an array is its first element, or `undefined` when it is empty |
| Pairing.LinkButtonReplyWaits | www/js/api/philips.js:87-91 | `[{"error": {"type": 101}}]` makes the loop wait |
| Pairing.SuccessReplyYieldsUsername | www/js/api/philips.js:94-95 | `[{"success": {"username": u}}]` pairs with `u` |
| Pairing.EmptyReplyThrows | www/js/api/philips.js:87 | an empty array throws a TypeError on `res[0].error` |
| Pairing.OtherErrorThrows | www/js/api/philips.js:87-102 | an error of any type other than 101 reaches the explicit `throw` |
| Pairing.NullErrorThrows | www/js/api/philips.js:87 | a `null` error passes the `typeof` test and then throws on `.type` |
| Lights.V1Url | www/js/api/philips.js:273-275 | the URL starts with `http://`, the ip and `/api/`; a string account follows as it is, and a missing account is printed as `undefined` |
| Lights.PairedUrls | www/js/api/philips.js:107 | for a bridge paired as `u`, the listing URL is `http://<ip>/api/<u>/lights` and a light's state URL (lines 137 and 241) is `http://<ip>/api/<u>/lights/<id>/state` |
| Lights.NeedsBraceCharacters | www/js/api/philips.js:265 | the repair test holds exactly when the text ends in `}` and the character before it, if any, is not `}` |
| Lights.RepairOnce | www/js/api/philips.js:265-266 | after the repair the text ends in `}}`, so the rule never fires on its own output |
| Lights.CorrectResponse | www/js/api/philips.js:262-271 | a parse error propagates; objects, arrays and `null` pass unchanged; booleans and numbers throw a TypeError; a string is parsed again with one `}` appended exactly when it ends in `}` and the character before, if any, is not `}`, and stands as parsed otherwise |
| Lights.MapLight | www/js/api/philips.js:114-125 | a record is built exactly when the entry is an object whose `state` is an object holding an `xy` that is neither `undefined` nor `null`; it has the key as `id`, copies `state`, `type` and `name`, and its `rgb` is `XYtoRGB` of `state.xy[0]`, `state.xy[1]` and `state.bri` |
| Lights.MapLights | www/js/api/philips.js:114-126 | the listing exists exactly when no key's record throws, and then holds one record per key, in key order |
| Lights.MapLightsRecords | www/js/api/philips.js:114-126 | mapping over an object's own keys gives a listing exactly when every property is an object whose `state` is an object holding a non-null `xy`, and it then holds one record per property, in order, built from that property's entry |
| Lights.GetLights | www/js/api/philips.js:106-134 | requests `v1Url(bridge) + "/lights"`; a rejected `fetch` or `text()` rejects `getLights` with the same error, and a fetched text never rejects |
| Lights.GetLightsResolves | www/js/api/philips.js:109-133 | a fetched text resolves to what the `try` block lists, and to `undefined` when the text does not parse |
| Lights.GetLightsRecords | www/js/api/philips.js:111-126 | for a text that `correctResponse` turns into an object, the `try` block lists exactly when every own property is an object with an object `state` holding a non-null `xy`, and then gives one record per key, in order, with `id` the key, `state`, `type` and `name` copied and `rgb` converted from `xy` and `bri` |
| Lights.GetLightsFailure | www/js/api/philips.js:111-131 | text that does not parse, or parses to `null`, makes the `try` block give `undefined` and no list |
| Lights.ListedSwatch | www/js/api/philips.js:120-124 | for finite channels from the colour matrix, a listed light's swatch is the `#rrggbb` text of its channels modulo 256 |
| Lights.Light.constructor | www/js/api/philips.js:115-125 | a light holds the listed record's fields |
| Lights.ToggledState | www/js/api/philips.js:144 | `on` becomes `!on` and every other state field reads as before |
| Lights.SetPropLookupAll | www/js/api/philips.js:144 | writing one field leaves all other fields as they were |
| Lights.ToggleTwice | www/js/api/philips.js:141-144 | toggling a light whose `on` is a boolean twice gives back the very same state |
| Lights.ToggleLight | www/js/api/philips.js:136-145 | sends a `PUT` of `{"on": !on}` to the light's state URL; when the request succeeds only `state.on` flips, and when it rejects nothing changes |
| Lights.RecoloredFields | www/js/api/philips.js:242-258 | `x` and `y` hold the converted values; `bri` is the light's own with `lock` and the converted one without |
| Lights.RecolorKeepsOthers | www/js/api/philips.js:256-258 | every other field is unchanged, `on` and `xy` included: the state never receives the `xy` that was sent |
| Lights.PhilipsApi.constructor | www/js/api/philips.js:232 | `lastcall` starts at the load time |
| Lights.PhilipsApi.ChangeColor | www/js/api/philips.js:234-260 | a call within 200 ms of `lastcall` sends nothing and changes nothing; otherwise `lastcall` is stamped, the `PUT` carries xy and the chosen brightness, and on success the state and `rgb.hex` are updated |
| Lights.AdmittedCallsSpaced | www/js/api/philips.js:235-239 | with a clock that never runs backwards, the calls the gate admits are at least 200 ms apart |
| Lights.GateExamples | www/js/api/philips.js:235-239 | calls 50 ms apart: the second is dropped; calls 250 ms apart: both pass |
| BridgeViews.LeadingDigits | www/js/views/bridges.js:250 | the length of the run of ASCII digits the pattern's character class consumes |
| BridgeViews.FirstDot | www/js/views/bridges.js:250 | the first `.` of the text, and none exactly when there is none |
| BridgeViews.Fields | www/js/views/bridges.js:250 | splitting at dots gives at least one field |
| BridgeViews.LeadingDigitsAll | www/js/views/bridges.js:250 | on a text of digits the digit run is the whole text |
| BridgeViews.LeadingDigitsUpTo | www/js/views/bridges.js:250 | the digit run ends at the first character that is not a digit |
| BridgeViews.MatchAtDot | www/js/views/bridges.js:250 | with a dot in the text, a group matches exactly when the text before the first dot has 1 to 3 digits and the rest matches one group fewer |
| BridgeViews.FieldsAtDot | www/js/views/bridges.js:250 | with a dot in the text, its fields are 1-3 digit fields exactly when the first field is and the rest's fields are |
| BridgeViews.NoDotField | www/js/views/bridges.js:250 | without a dot, the matcher and the field test agree |
| BridgeViews.NoMatchPastDot | www/js/views/bridges.js:250 | after the last group, a dot in the rest makes both the matcher and the field test fail |
| BridgeViews.MatchesIpPattern | www/js/views/bridges.js:250 | the `pattern` attribute's test; its lemmas state it: `IpPatternFields`, `PatternAcceptsOutOfRange`, `PatternRejectsExamples` and `PatternRejectsLeadingWhitespace` |
| BridgeViews.GroupAt | www/js/views/bridges.js:250 | 1 to 3 digits followed by a dot are consumed as one group |
| BridgeViews.LastGroup | www/js/views/bridges.js:250 | 1 to 3 digits and nothing else match the final group |
| BridgeViews.JoinedGroup | www/js/views/bridges.js:250 | a field of 1 to 3 digits and a dot in front of a text consume one group |
| BridgeViews.MatchGroupsFields | www/js/views/bridges.js:250 | the pattern matcher with `n` dotted groups accepts exactly texts of `n + 1` dot-separated fields of 1 to 3 digits |
| BridgeViews.DotFields | www/js/views/bridges.js:250 | the same equivalence, for a text that contains a dot |
| BridgeViews.IpPatternFields | www/js/views/bridges.js:250 | the IP pattern accepts exactly four dot-separated fields of 1 to 3 digits |
| BridgeViews.FourGroupsMatch | www/js/views/bridges.js:250 | four digit fields of 1 to 3 digits joined by dots match |
| BridgeViews.PatternAcceptsOutOfRange | www/js/views/bridges.js:250 | there is no octet range check: `999.999.999.999` matches |
| BridgeViews.PatternRejectsExamples | www/js/views/bridges.js:250 | three groups (`10.0.1`) and a four-digit group (`1000.0.0.1`) do not match |
| BridgeViews.PatternRejectsLeadingWhitespace | www/js/views/bridges.js:250 | a value starting with white space does not match |
| BridgeViews.Icon | www/js/views/bridges.js:98 | the check icon shows exactly when the account is a string holding a character that is not white space; the question icon shows exactly when the bridge needs pairing |
| BridgeViews.IsPaired | www/js/views/bridges.js:48 | the account test of the click handler and the icon; its lemmas state it: `Icon` and `ClickAgreesWithIcon` |
| BridgeViews.ClickAgreesWithIcon | www/js/views/bridges.js:48 | a click starts pairing exactly when the icon shows the bridge as unpaired; the same account test drives both |
| BridgeViews.WithBridge | www/js/views/bridges.js:34-38 | `data` is appended exactly when no listed bridge has its ip; otherwise the list is unchanged |
| BridgeViews.WithBridgeInvariant | www/js/views/bridges.js:34-38 | adding keeps earlier bridges in order, grows the list by at most one, leaves `data`'s ip listed, and keeps ips unique |
| BridgeViews.WithBridgesPrefix | www/js/views/bridges.js:26-29 | loading keeps the bridges already listed as a prefix and keeps ips unique |
| BridgeViews.WithBridgesCovers | www/js/views/bridges.js:26-29 | after loading, every stored ip is listed |
| BridgeViews.WithBridgesFrom | www/js/views/bridges.js:26-29 | loading lists nothing that was neither listed nor stored |
| BridgeViews.WithBridgesInvariant | www/js/views/bridges.js:26-29 | the four loading facts together |
| BridgeViews.SameIpStoredTwice | www/js/views/bridges.js:26-38 | two stored records with one ip and different uuids, which the store keeps both of, are listed once |
| BridgeViews.Validation | www/js/views/bridges.js:187-234 | the outcome of `validateForm`; its lemmas state it: `EmptyValueAsksForAddress`, `WhitespaceNeverReachesTrim`, `StaleMessageBlocks`, `ValidationOutcomes` and `EventOnlyAfterProbe` |
| BridgeViews.ConnectBridgeDialog.constructor | www/js/views/bridges.js:277-282 | no error, instruction "Detecting bridge...", empty message |
| BridgeViews.ConnectBridgeDialog.OpenDialog | www/js/views/bridges.js:284-288 | clears the error and message and shows the dialog; the instruction stays |
| BridgeViews.ConnectBridgeDialog.CloseDialog | www/js/views/bridges.js:290-292 | closes the dialog and changes no other field |
| BridgeViews.ConnectBridgeDialog.Cancel | www/js/views/bridges.js:330-332 | the Cancel button closes the dialog and changes no other field |
| BridgeViews.ConnectBridgeDialog.UpdateSuccess | www/js/views/bridges.js:294-296 | only closes the dialog |
| BridgeViews.ConnectBridgeDialog.UpdateError | www/js/views/bridges.js:298-301 | sets the message and the error flag and nothing else |
| BridgeViews.EmptyValueAsksForAddress | www/js/views/bridges.js:195-205 | an empty value passes the browser's checks and is refused with "Enter an IP address.", without a probe |
| BridgeViews.WhitespaceNeverReachesTrim | www/js/views/bridges.js:195-205 | a blank non-empty value fails the pattern, so the trim test never sees it and nothing is probed |
| BridgeViews.StaleMessageBlocks | www/js/views/bridges.js:141-146 | a custom message left from an earlier attempt blocks every later attempt until a key is pressed |
| BridgeViews.ValidationOutcomes | www/js/views/bridges.js:202-227 | a matching value is probed; a failed probe sets "Unable to connect to this address."; a successful one clears the message and dispatches `{ip, uuid, name: "Hue Bridge"}` |
| BridgeViews.EventOnlyAfterProbe | www/js/views/bridges.js:187-227 | `new-bridge` is dispatched exactly for a value that matches the pattern, with no custom message, whose probe succeeds |
| BridgeViews.TrimNonEmptyWhenMatching | www/js/views/bridges.js:202 | a value the pattern accepts is never blank after `trim` |
| BridgeViews.AddBridgeDialog.constructor | www/js/views/bridges.js:123-127 | the form starts with an empty ip |
| BridgeViews.AddBridgeDialog.ResetForm | www/js/views/bridges.js:180-185 | empties the form and clears the custom message |
| BridgeViews.AddBridgeDialog.OpenDialog | www/js/views/bridges.js:171-174 | resets the form and shows the dialog |
| BridgeViews.AddBridgeDialog.CloseDialog | www/js/views/bridges.js:176-178 | closes the dialog; the return value is set only if it was open, as `close()` on a closed dialog does nothing |
| BridgeViews.AddBridgeDialog.OnIpKeydown | www/js/views/bridges.js:141-146 | a key pressed in the ip field clears the custom message |
| BridgeViews.AddBridgeDialog.Cancel | www/js/views/bridges.js:135-137 | the cancel button closes the dialog, with an empty return value if it was open |
| BridgeViews.AddBridgeDialog.ValidateForm | www/js/views/bridges.js:187-234 | stores the value in the form, updates the custom message, probes and dispatches as validation decides; when it dispatches the dialog closes, with "OK" if it was open, and otherwise open state and return value stay |
| BridgeViews.AccountRoute | www/js/views/bridges.js:74-76 | the route is `/bridges/` followed by a text that reads back as the index |
| BridgeViews.AccountRouteInjective | www/js/views/bridges.js:74-76 | two indices give the same route exactly when they are equal |
| BridgeViews.BridgeList.constructor | www/js/views/bridges.js:15-19 | a new list holds the stored accounts, loaded through `addBridge` |
| BridgeViews.BridgeList.AddBridge | www/js/views/bridges.js:34-38 | the list becomes `WithBridge` of its old value |
| BridgeViews.BridgeList.GetBridges | www/js/views/bridges.js:26-29 | the `forEach` loop leaves the list equal to the fold of `addBridge` over the stored accounts, in stored order |
| BridgeViews.BridgeList.CreateBridgeAccount | www/js/views/bridges.js:56-72 | the state `AccountCreated` describes: the dialog opens; a failed detection shows its message; otherwise the instruction changes and pairing runs; a paired or timed-out run closes the dialog and routes to the LAST bridge; a rejected run shows its message; no other outcome leaves a message; a paired record replaces the clicked one and is stored, and otherwise list and store are unchanged |
| BridgeViews.BridgeList.AwaitAccount | www/js/views/bridges.js:62-71 | the part after detection: the paired record replaces the clicked one in the list and is stored, otherwise list and store are unchanged; only a rejected run writes the dialog's message |
| BridgeViews.BridgeList.BridgeClicked | www/js/views/bridges.js:44-54 | an index with no bridge throws a TypeError and changes nothing; an unpaired bridge leaves everything `CreateBridgeAccount` promises; a paired one routes to its own index and changes nothing |
| BridgeViews.BridgeList.SubmitAddDialog | www/js/views/bridges.js:21-23 | the dialog's form, message, open state and return value are what `validateForm` leaves; a `new-bridge` detail is added to the list through `addBridge`, and without one the list is unchanged |
| BridgeViews.AddKnownAddress | www/js/views/bridges.js:34-38 | adding by address an ip that is already listed leaves the list as it was |

## Left out

- Floating-point colour maths: parameters, not computed. This covers the gamma curves,
  both colour matrices, the xy division and its singularity at `y = 0`, and the rounding
  of float channels. `ColorMath` passes them in; only the clamp below 0, the gamma branch
  structure and the final `Math.round` are written out.
- `HexColor.XyToRgbHex`: `linearize` returns finite reals, so the channels are always
  finite. JavaScript's `NaN` and `Infinity` channels are not modelled. These come from
  `y = 0` in the xy division, a missing `state.bri`, or a non-numeric `xy`. They would
  print as `aN` and `ty` groups, giving a swatch such as `#aNaNty`.
- `Lights.ListedSwatch`: rests on the same finite channels. A listable entry with
  `y = 0`, no `bri` or a non-numeric `xy` gets a well-formed swatch in the model, but not
  in JavaScript.
- `NaN` from `parseInt` is a distinct `JsNumber` value. Dividing it by 255 belongs to the
  float stage and is not followed.
- `detectBridge` is a `Detection` value. Its `fetch`, content-type test and XML lookup
  are not modelled.
- `scanForBridges` is not modelled. It depends on an SSDP plugin and the DOM.
- `JSON.parse` is a parameter. `JSON.stringify` followed by `JSON.parse` is taken to
  give back the stored records.
- `sleep`, `setTimeout` and the clock are not modelled as such. The clock readings are
  inputs: the `wokeAt` of each reply, and `checkTime`/`stampTime` of `changeColor`.
- Async scheduling is not modelled. Each `await` is a sequential step, so no other event
  can interleave with `postAccount` or `changeColor`.
- A `postAccount` whose replies run out while the loop is still running ends as
  `StillPolling`. In the browser the promise would stay pending.
- A `parse` result may hold an object with a key twice, which `JSON.parse` never builds.
  `Js.ObjectKeysRead` therefore takes distinct keys as a hypothesis for objects.
- Keys that are array indices are kept in insertion order, not listed first as
  JavaScript lists them; the client writes no such key.
- Strings are sequences of Unicode code points. JavaScript's `length`, `substr`, `charAt`
  and `slice` count UTF-16 code units instead. The two agree on text inside the Basic
  Multilingual Plane, such as the colour picker's `#rrggbb`. On text holding a character
  outside it, such as an emoji, the model's offsets differ from JavaScript's.
- Only own properties are modelled. Inherited ones (`toString`, `constructor`) read as
  `undefined`.
- Engine error messages are the parameter `engineMessage`; their wording is not modelled.
- `Bridge` is a value. `postAccount` sets `item.account` on an object the list shares; the
  model writes the paired record back into the list at the clicked index instead.
- `BridgeViews.BridgeList.BridgeClicked`: the `key` attribute is taken as a natural
  number. A key that is not an array index is not modelled.
- Rendering is not modelled: Lit templates, `showModal`, `reportValidity`.
  `Router.go` is kept only as the route string it is given.
- The browser's own `validity.valid` is reduced to two tests: no custom message is set,
  and the value is empty or matches the pattern.
- `www/js/views/bridge.js`, `www/js/index.js` and `rollup.config.js` are not part of this
  model. They hold view glue, the router setup and the build configuration.
- `Pairing.PairingWaitsBounded`: the bound needs every sleep to last at least 5000 ms,
  which the model takes as a hypothesis on the clock readings.
