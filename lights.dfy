/**
 * Listing and changing lights: `correctResponse`, `getLights`, `toggleLight`,
 * `changeColor` with its module-wide 200 ms gate, and `v1Url`.
 *
 * Network calls become their observable part: the `Request` a call sends, and whether
 * `fetch` resolved (`fetchError == None`) or rejected. `JSON.parse` is the parameter
 * `parse`; the floating-point colour maths is the record `ColorMath`.
 */
module Lights {
  import opened Js
  import opened HexColor
  import opened CredentialStore

  /** The floating-point stages of the colour conversions. */
  datatype ColorMath = ColorMath(
    toXy: Channels -> XyColor,        // RGBtoXY after the channels are read
    linearize: XyInput -> LinearRgb,  // XYtoRGB up to its colour matrix
    pow: real -> real)                // Math.pow(v, 1 / 2.4)

  /** The body of a `PUT` to a light's state endpoint. */
  datatype Body =
    | OnBody(on: bool)                       // {"on": ...}
    | ColorBody(x: real, y: real, bri: JsValue) // {"xy": [x, y], "bri": ...}

  datatype Request = Put(url: string, body: Body)

  /** One element of the list `getLights` resolves to. */
  datatype LightRecord = LightRecord(state: Props, id: string, kind: JsValue, name: JsValue, rgb: Rgb)

  /**
   * `v1Url(bridge)`: `http://<ip>/api/` followed by the account as string concatenation
   * prints it. A paired bridge's username goes in as it is; a bridge not yet paired
   * sends requests to `/api/undefined`.
   */
  function V1Url(bridge: Bridge, numberText: real -> string): (url: string)
    ensures var base := "http://" + bridge.ip + "/api/"; |base| <= |url| && url[..|base|] == base
    ensures bridge.account.Str? ==> url == "http://" + bridge.ip + "/api/" + bridge.account.s
    ensures bridge.account.Undefined? ==> url == "http://" + bridge.ip + "/api/undefined"
  {
    var base := "http://" + bridge.ip + "/api/";
    var url := base + ToJsString(bridge.account, numberText);
    assert url[..|base|] == base;
    url
  }

  /** `v1Url(bridge) + "/lights"`, the listing `getLights` fetches. */
  function LightsUrl(bridge: Bridge, numberText: real -> string): string
  {
    V1Url(bridge, numberText) + "/lights"
  }

  /** `v1Url(bridge) + "/lights/" + light.id + "/state"`, the target of every `PUT`. */
  function StateUrl(bridge: Bridge, id: string, numberText: real -> string): string
  {
    V1Url(bridge, numberText) + "/lights/" + id + "/state"
  }

  /** For a bridge paired with username `u`, the URLs the light calls use, spelled out. */
  lemma PairedUrls(bridge: Bridge, u: string, id: string, numberText: real -> string)
    requires bridge.account == Str(u)
    ensures LightsUrl(bridge, numberText) == "http://" + bridge.ip + "/api/" + u + "/lights"
    ensures StateUrl(bridge, id, numberText) == "http://" + bridge.ip + "/api/" + u + "/lights/" + id + "/state"
  {
  }

  // ---------------------------------------------------------------------------
  // correctResponse and getLights

  /** The suffix test of `correctResponse`: ends in `}` but not in `}}`. */
  predicate NeedsBrace(s: string)
  {
    LastN(s, 2) != "}}" && LastN(s, 1) == "}"
  }

  /** The suffix test, stated on the last two characters. */
  lemma NeedsBraceCharacters(s: string)
    ensures NeedsBrace(s) <==> |s| >= 1 && s[|s| - 1] == '}' && (|s| == 1 || s[|s| - 2] != '}')
  {
    if |s| == 0 {
      assert LastN(s, 1) == [];
    } else {
      var last := LastN(s, 1);
      assert last == [s[|s| - 1]];
      assert last == "}" <==> s[|s| - 1] == '}';
      if |s| == 1 {
        assert |LastN(s, 2)| == 1;
      } else {
        var two := LastN(s, 2);
        assert two == [s[|s| - 2], s[|s| - 1]];
        assert two == "}}" <==> s[|s| - 2] == '}' && s[|s| - 1] == '}';
      }
    }
  }

  /** After the repair the text ends in `}}`, so the rule never fires twice on its own output. */
  lemma RepairOnce(s: string)
    requires NeedsBrace(s)
    ensures !NeedsBrace(s + "}")
  {
    NeedsBraceCharacters(s);
    NeedsBraceCharacters(s + "}");
  }

  /**
   * `correctResponse(data)`: parse; a value whose `typeof` is not `"object"` must be a
   * string (`substr` is not a function on numbers and booleans), and a string ending in a
   * single `}` gets one more `}` and is parsed again.
   */
  function CorrectResponse(data: string, parse: string -> Result<JsValue>): (r: Result<JsValue>)
    ensures parse(data).Err? ==> r == parse(data)
    ensures parse(data).Ok? && (parse(data).value.Obj? || parse(data).value.Arr? || parse(data).value.Null?) ==> r == parse(data)
    ensures parse(data).Ok? && (parse(data).value.Bool? || parse(data).value.Number?) ==> r == Err(TypeError)
    ensures parse(data).Ok? && parse(data).value.Str? ==>
      var s := parse(data).value.s;
      r == if |s| >= 1 && s[|s| - 1] == '}' && (|s| == 1 || s[|s| - 2] != '}') then parse(s + "}") else parse(data)
  {
    match parse(data)
    case Err(e) => Err(e)
    case Ok(v) =>
      if v.Obj? || v.Arr? || v.Null? then Ok(v)
      else if v.Str? then
        NeedsBraceCharacters(v.s);
        if NeedsBrace(v.s) then parse(v.s + "}") else Ok(v)
      else Err(TypeError)
  }

  /**
   * An entry `getLights` can turn into a record: an object whose `state` is an object
   * holding an `xy` that is neither `undefined` nor `null`.
   */
  predicate ListableEntry(entry: JsValue)
  {
    entry.Obj? && Lookup(entry.props, "state").Obj? &&
    var xy := Lookup(Lookup(entry.props, "state").props, "xy"); !xy.Undefined? && !xy.Null?
  }

  /**
   * The record `getLights` builds for one key, reading `data[key].state.xy[0]`,
   * `.xy[1]` and `.state.bri`; any access on `undefined` or `null` throws. A record is
   * built exactly for a listable entry, and its swatch is `XYtoRGB` of those three reads.
   */
  function MapLight(data: JsValue, key: string, math: ColorMath): (r: Result<LightRecord>)
    ensures r.Ok? <==> GetProperty(data, key).Ok? && ListableEntry(GetProperty(data, key).value)
    ensures r.Ok? ==> r.value.id == key
    ensures r.Ok? ==> (GetProperty(data, key).Ok? && GetProperty(data, key).value.Obj? &&
      var entry := GetProperty(data, key).value;
      Lookup(entry.props, "state") == Obj(r.value.state) &&
      r.value.kind == Lookup(entry.props, "type") && r.value.name == Lookup(entry.props, "name"))
    ensures r.Ok? ==> (var xy := Lookup(r.value.state, "xy");
      !xy.Undefined? && !xy.Null? &&
      r.value.rgb == XyToRgb(XyInput(GetProperty(xy, "0").value, GetProperty(xy, "1").value,
                                     Lookup(r.value.state, "bri")), math.linearize, math.pow))
  {
    match GetProperty(data, key)
    case Err(e) => Err(e)
    case Ok(entry) =>
      NamedKeyOfPrimitive(entry, "state");
      match GetProperty(entry, "state")
      case Err(e) => Err(e)
      case Ok(state) =>
        NamedKeyOfPrimitive(state, "xy");
        var kind := GetProperty(entry, "type").value;
        var name := GetProperty(entry, "name").value;
        match GetProperty(state, "xy")
        case Err(e) => Err(e)
        case Ok(xy) =>
          match GetProperty(xy, "0")
          case Err(e) => Err(e)
          case Ok(x) =>
            var y := GetProperty(xy, "1").value;
            var bri := GetProperty(state, "bri").value;
            Ok(LightRecord(state.props, key, kind, name, XyToRgb(XyInput(x, y, bri), math.linearize, math.pow)))
  }

  /** The `map` over `Object.keys(data)`; the first throwing element ends it. */
  function MapLights(data: JsValue, keys: seq<string>, math: ColorMath): (r: Option<seq<LightRecord>>)
    ensures r.Some? <==> forall i :: 0 <= i < |keys| ==> MapLight(data, keys[i], math).Ok?
    ensures r.Some? ==> (|r.value| == |keys| &&
      forall i :: 0 <= i < |keys| ==> MapLight(data, keys[i], math) == Ok(r.value[i]))
  {
    MapResults(keys, (k: string) => MapLight(data, k, math))
  }

  /**
   * The `try` block of `getLights`, once the response text is in: `None` stands for the
   * `undefined` the function returns after logging any error thrown while repairing or
   * mapping.
   */
  function ListLights(text: string, parse: string -> Result<JsValue>, math: ColorMath): Option<seq<LightRecord>>
  {
    match CorrectResponse(text, parse)
    case Err(_) => None
    case Ok(data) =>
      match ObjectKeys(data)
      case Err(_) => None
      case Ok(keys) => MapLights(data, keys, math)
  }

  /**
   * `rec` is the record `getLights` builds from the listable `entry` under `key`: the key
   * as `id`, `state`, `type` and `name` copied, and the swatch `XYtoRGB` of
   * `state.xy[0]`, `state.xy[1]` and `state.bri`.
   */
  predicate RecordOf(rec: LightRecord, key: string, entry: JsValue, math: ColorMath)
  {
    ListableEntry(entry) && rec.id == key &&
    Obj(rec.state) == Lookup(entry.props, "state") &&
    rec.kind == Lookup(entry.props, "type") && rec.name == Lookup(entry.props, "name") &&
    var xy := Lookup(rec.state, "xy");
    rec.rgb == XyToRgb(XyInput(GetProperty(xy, "0").value, GetProperty(xy, "1").value,
                               Lookup(rec.state, "bri")), math.linearize, math.pow)
  }

  /**
   * A listing of a response object exists exactly when every own property is a listable
   * entry, and then has one record per key, in key order, built from that key's entry; if
   * any entry cannot be read, the result is `undefined`, not a shorter list.
   */
  lemma GetLightsRecords(text: string, parse: string -> Result<JsValue>, math: ColorMath, props: Props)
    requires CorrectResponse(text, parse) == Ok(Obj(props))
    ensures var lights := ListLights(text, parse, math);
      (lights.Some? <==> forall i :: 0 <= i < |props| ==> ListableEntry(Lookup(props, props[i].0))) &&
      (lights.Some? ==> (|lights.value| == |props| &&
        forall i :: 0 <= i < |props| ==> RecordOf(lights.value[i], props[i].0, Lookup(props, props[i].0), math)))
  {
    assert ObjectKeys(Obj(props)) == Ok(KeysOf(props));
    assert ListLights(text, parse, math) == MapLights(Obj(props), KeysOf(props), math);
    MapLightsRecords(props, math);
  }

  /** Mapping over an object's own keys: one record per listable property, in order. */
  lemma MapLightsRecords(props: Props, math: ColorMath)
    ensures var lights := MapLights(Obj(props), KeysOf(props), math);
      (lights.Some? <==> forall i :: 0 <= i < |props| ==> ListableEntry(Lookup(props, props[i].0))) &&
      (lights.Some? ==> (|lights.value| == |props| &&
        forall i :: 0 <= i < |props| ==> RecordOf(lights.value[i], props[i].0, Lookup(props, props[i].0), math)))
  {
    var keys := KeysOf(props);
    KeysOfOrder(props);
    var lights := MapLights(Obj(props), keys, math);
    forall i | 0 <= i < |props|
      ensures MapLight(Obj(props), keys[i], math).Ok? <==> ListableEntry(Lookup(props, props[i].0))
    {
    }
    if lights.Some? {
      forall i | 0 <= i < |props|
        ensures RecordOf(lights.value[i], props[i].0, Lookup(props, props[i].0), math)
      {
        assert MapLight(Obj(props), keys[i], math) == Ok(lights.value[i]);
      }
    }
  }

  /** A text that does not parse, or parses to `null`, gives `undefined`. */
  lemma GetLightsFailure(text: string, parse: string -> Result<JsValue>, math: ColorMath)
    requires parse(text).Err? || parse(text) == Ok(Null)
    ensures ListLights(text, parse, math) == None
  {
  }

  /** How a call of `getLights` settles: the URL it fetched and its promise's outcome. */
  datatype Listing = Listing(url: string, result: Result<Option<seq<LightRecord>>>)

  /**
   * `getLights(bridge)`. `fetched` is the response text, or the error `fetch` or
   * `response.text()` rejects with. Those two awaits come before the `try`, so their error
   * rejects the promise; an error inside the `try` resolves it to `undefined` instead.
   */
  function GetLights(bridge: Bridge, fetched: Result<string>, parse: string -> Result<JsValue>,
                     math: ColorMath, numberText: real -> string): (r: Listing)
    ensures r.url == LightsUrl(bridge, numberText)
    ensures r.result.Err? <==> fetched.Err?
    ensures fetched.Err? ==> r.result == Err(fetched.error)
  {
    match fetched
    case Err(e) => Listing(LightsUrl(bridge, numberText), Err(e))
    case Ok(text) => Listing(LightsUrl(bridge, numberText), Ok(ListLights(text, parse, math)))
  }

  /**
   * Once the text is in, `getLights` resolves to the listing of the `try` block; a text
   * that does not parse therefore gives `undefined`, never a rejection.
   */
  lemma GetLightsResolves(bridge: Bridge, text: string, parse: string -> Result<JsValue>,
                          math: ColorMath, numberText: real -> string)
    ensures GetLights(bridge, Ok(text), parse, math, numberText).result == Ok(ListLights(text, parse, math))
    ensures parse(text).Err? ==> GetLights(bridge, Ok(text), parse, math, numberText).result == Ok(None)
  {
    if parse(text).Err? {
      GetLightsFailure(text, parse, math);
    }
  }

  /**
   * A listed light's swatch is the `#rrggbb` text of its channels taken modulo 256, for
   * the finite channels `LinearRgb` holds.
   */
  lemma ListedSwatch(text: string, parse: string -> Result<JsValue>, math: ColorMath, i: nat)
    requires PowAboveOffset(math.pow)
    requires ListLights(text, parse, math).Some? && i < |ListLights(text, parse, math).value|
    ensures var rgb := ListLights(text, parse, math).value[i].rgb;
      rgb.r >= 0 && rgb.g >= 0 && rgb.b >= 0 && WellFormedHex(rgb.hex) &&
      ParseChannels(rgb.hex) == Channels(Num(rgb.r % 256), Num(rgb.g % 256), Num(rgb.b % 256))
  {
    var data := CorrectResponse(text, parse).value;
    var keys := ObjectKeys(data).value;
    var light := ListLights(text, parse, math).value[i];
    assert MapLight(data, keys[i], math) == Ok(light);
    var entry := GetProperty(data, keys[i]).value;
    var state := GetProperty(entry, "state").value;
    var xy := GetProperty(state, "xy").value;
    XyToRgbHex(XyInput(GetProperty(xy, "0").value, GetProperty(xy, "1").value, GetProperty(state, "bri").value),
               math.linearize, math.pow);
  }

  // ---------------------------------------------------------------------------
  // The light objects the view keeps and the calls that change them

  /** A light as `getLights` hands it to the view, which then mutates it in place. */
  class Light {
    var id: string
    var name: JsValue
    var kind: JsValue
    var state: Props
    var rgb: Rgb

    constructor(r: LightRecord)
      ensures id == r.id && name == r.name && kind == r.kind && state == r.state && rgb == r.rgb
    {
      id, name, kind, state, rgb := r.id, r.name, r.kind, r.state, r.rgb;
    }
  }

  /** The value `!light.state.on` takes. */
  function Flipped(state: Props): bool
  {
    !Truthy(Lookup(state, "on"))
  }

  /** `light.state.on = !light.state.on` */
  function ToggledState(state: Props): (r: Props)
    ensures Lookup(r, "on") == Bool(Flipped(state))
    ensures forall k :: k != "on" ==> Lookup(r, k) == Lookup(state, k)
  {
    var r := SetProp(state, "on", Bool(Flipped(state)));
    SetPropLookupAll(state, "on", Bool(Flipped(state)));
    r
  }

  lemma SetPropLookupAll(props: Props, key: string, v: JsValue)
    ensures Lookup(SetProp(props, key, v), key) == v
    ensures forall k :: k != key ==> Lookup(SetProp(props, key, v), k) == Lookup(props, k)
  {
    SetPropLookup(props, key, v, key);
    forall k | k != key
      ensures Lookup(SetProp(props, key, v), k) == Lookup(props, k)
    {
      SetPropLookup(props, key, v, k);
    }
  }

  /** Toggling a light whose `on` is a boolean twice gives back the very same state. */
  lemma ToggleTwice(state: Props)
    requires Lookup(state, "on").Bool?
    ensures ToggledState(ToggledState(state)) == state
  {
    var b := Lookup(state, "on").b;
    assert HasKey(state, "on");
    SetPropTwice(state, "on", Bool(!b), Bool(b));
    SetPropSame(state, "on");
  }

  /**
   * `toggleLight(bridge, light)`: PUT the negated `on`, and only once `fetch` resolves
   * negate `light.state.on`; no other field of the light changes.
   */
  method ToggleLight(bridge: Bridge, light: Light, fetchError: Option<JsError>, numberText: real -> string)
    returns (request: Request, error: Option<JsError>)
    modifies light`state
    ensures request == Put(StateUrl(bridge, light.id, numberText), OnBody(Flipped(old(light.state))))
    ensures error == fetchError
    ensures light.state == if fetchError.None? then ToggledState(old(light.state)) else old(light.state)
  {
    request := Put(StateUrl(bridge, light.id, numberText), OnBody(!Truthy(Lookup(light.state, "on"))));
    error := fetchError;
    if fetchError.None? {
      light.state := SetProp(light.state, "on", Bool(!Truthy(Lookup(light.state, "on"))));
    }
  }

  // ---------------------------------------------------------------------------
  // changeColor

  /** Calls closer than this many milliseconds to the last accepted one are dropped. */
  const MinInterval: int := 200

  /** `!(now - lastcall < 200)` */
  predicate Admits(lastcall: int, now: int)
  {
    now - lastcall >= MinInterval
  }

  /** The brightness `changeColor` sends and stores: the light's own with `lock`, else the colour's. */
  function SentBrightness(state: Props, hsv: XyColor, lock: bool): JsValue
  {
    if lock then Lookup(state, "bri") else Number(hsv.brightness as real)
  }

  /** `light.state.x = hsv.x; light.state.y = hsv.y; light.state.bri = bri` */
  function RecoloredState(state: Props, hsv: XyColor, lock: bool): Props
  {
    SetProp(SetProp(SetProp(state, "x", Number(hsv.x)), "y", Number(hsv.y)), "bri", SentBrightness(state, hsv, lock))
  }

  /**
   * After a colour change `x`, `y` and `bri` hold the values sent, and with `lock` the
   * brightness is what it was.
   */
  lemma RecoloredFields(state: Props, hsv: XyColor, lock: bool)
    ensures var r := RecoloredState(state, hsv, lock);
      Lookup(r, "x") == Number(hsv.x) && Lookup(r, "y") == Number(hsv.y) &&
      Lookup(r, "bri") == SentBrightness(state, hsv, lock) &&
      (lock ==> Lookup(r, "bri") == Lookup(state, "bri"))
  {
    assert "x" != "y" && "x" != "bri" && "y" != "bri";
    ThreeWrites(state, "x", Number(hsv.x), "y", Number(hsv.y), "bri", SentBrightness(state, hsv, lock));
  }

  /** A colour change leaves `on` and `xy`, and every property but `x`, `y` and `bri`, untouched. */
  lemma RecolorKeepsOthers(state: Props, hsv: XyColor, lock: bool)
    ensures var r := RecoloredState(state, hsv, lock);
      Lookup(r, "on") == Lookup(state, "on") && Lookup(r, "xy") == Lookup(state, "xy") &&
      forall k :: k != "x" && k != "y" && k != "bri" ==> Lookup(r, k) == Lookup(state, k)
  {
    assert "x" != "y" && "x" != "bri" && "y" != "bri";
    var bri := SentBrightness(state, hsv, lock);
    ThreeWrites(state, "x", Number(hsv.x), "y", Number(hsv.y), "bri", bri);
    assert "on" != "x" && "on" != "y" && "on" != "bri";
    UnwrittenKey(state, "x", Number(hsv.x), "y", Number(hsv.y), "bri", bri, "on");
    assert "xy" != "x" && "xy" != "y" && "xy" != "bri";
    UnwrittenKey(state, "x", Number(hsv.x), "y", Number(hsv.y), "bri", bri, "xy");
  }

  /** A key none of three writes touches reads as before. */
  lemma UnwrittenKey(props: Props, a: string, va: JsValue, b: string, vb: JsValue, c: string, vc: JsValue, k: string)
    requires k != a && k != b && k != c
    ensures Lookup(SetProp(SetProp(SetProp(props, a, va), b, vb), c, vc), k) == Lookup(props, k)
  {
    SetPropLookup(props, a, va, k);
    SetPropLookup(SetProp(props, a, va), b, vb, k);
    SetPropLookup(SetProp(SetProp(props, a, va), b, vb), c, vc, k);
  }

  /** Three writes to distinct keys: each written key reads its value, every other key as before. */
  lemma ThreeWrites(props: Props, a: string, va: JsValue, b: string, vb: JsValue, c: string, vc: JsValue)
    requires a != b && a != c && b != c
    ensures var r := SetProp(SetProp(SetProp(props, a, va), b, vb), c, vc);
      Lookup(r, a) == va && Lookup(r, b) == vb && Lookup(r, c) == vc &&
      forall k :: k != a && k != b && k != c ==> Lookup(r, k) == Lookup(props, k)
  {
    var s1 := SetProp(props, a, va);
    var s2 := SetProp(s1, b, vb);
    SetPropLookup(props, a, va, a);
    SetPropLookup(s1, b, vb, a);
    SetPropLookup(s2, c, vc, a);
    SetPropLookup(s1, b, vb, b);
    SetPropLookup(s2, c, vc, b);
    SetPropLookup(s2, c, vc, c);
    forall k | k != a && k != b && k != c
      ensures Lookup(SetProp(s2, c, vc), k) == Lookup(props, k)
    {
      SetPropLookup(props, a, va, k);
      SetPropLookup(s1, b, vb, k);
      SetPropLookup(s2, c, vc, k);
    }
  }

  /** The module of `philips.js`: its one piece of state is `lastcall`. */
  class PhilipsApi {
    var lastcall: int

    /** `let lastcall = new Date().getTime()` when the module loads. */
    constructor(loadTime: int)
      ensures lastcall == loadTime
    {
      lastcall := loadTime;
    }

    /**
     * `changeColor(bridge, light, color, lock)`. `checkTime` and `stampTime` are the two
     * clock readings (the gate test and the `lastcall` update). A dropped call sends
     * nothing and changes nothing; an admitted one moves `lastcall` even if `fetch` then
     * rejects, and only a resolved `fetch` updates the light.
     */
    method ChangeColor(bridge: Bridge, light: Light, color: string, lock: bool,
                       checkTime: int, stampTime: int, math: ColorMath,
                       fetchError: Option<JsError>, numberText: real -> string)
      returns (request: Option<Request>, error: Option<JsError>)
      modifies this`lastcall, light`state, light`rgb
      ensures request.Some? <==> Admits(old(lastcall), checkTime)
      ensures lastcall == if Admits(old(lastcall), checkTime) then stampTime else old(lastcall)
      ensures var hsv := RgbToXy(color, math.toXy);
        request.Some? ==>
          request.value == Put(StateUrl(bridge, light.id, numberText), ColorBody(hsv.x, hsv.y, SentBrightness(old(light.state), hsv, lock)))
      ensures error == if request.Some? then fetchError else None
      ensures request.Some? && fetchError.None? ==>
        (light.state == RecoloredState(old(light.state), RgbToXy(color, math.toXy), lock) &&
         light.rgb == old(light.rgb).(hex := color))
      ensures request.None? || fetchError.Some? ==> light.state == old(light.state) && light.rgb == old(light.rgb)
    {
      if checkTime - lastcall < MinInterval {
        return None, None;
      }
      lastcall := stampTime;
      var hsv := RgbToXy(color, math.toXy);
      var bri := if lock then Lookup(light.state, "bri") else Number(hsv.brightness as real);
      request := Some(Put(StateUrl(bridge, light.id, numberText), ColorBody(hsv.x, hsv.y, bri)));
      error := fetchError;
      if fetchError.Some? {
        return;
      }
      light.state := SetProp(light.state, "x", Number(hsv.x));
      light.state := SetProp(light.state, "y", Number(hsv.y));
      light.state := SetProp(light.state, "bri", bri);
      light.rgb := light.rgb.(hex := color);
    }
  }

  /** One call of `changeColor` as the gate sees it: its two clock readings. */
  datatype ColorCall = ColorCall(checkTime: int, stampTime: int)

  /** The `lastcall` values the admitted calls of a run write, in order. */
  function AdmittedStamps(lastcall: int, calls: seq<ColorCall>): seq<int>
    decreases |calls|
  {
    if calls == [] then []
    else if Admits(lastcall, calls[0].checkTime) then
      [calls[0].stampTime] + AdmittedStamps(calls[0].stampTime, calls[1..])
    else AdmittedStamps(lastcall, calls[1..])
  }

  /** The clock never runs backwards, within a call or from one call to the next. */
  ghost predicate MonotoneClock(calls: seq<ColorCall>)
  {
    (forall i :: 0 <= i < |calls| ==> calls[i].checkTime <= calls[i].stampTime) &&
    (forall i :: 0 < i < |calls| ==> calls[i - 1].stampTime <= calls[i].checkTime)
  }

  /**
   * With a clock that does not run backwards, the admitted calls are at least 200 ms
   * apart, and the first is at least 200 ms after the initial `lastcall`.
   */
  lemma {:induction false} AdmittedCallsSpaced(lastcall: int, calls: seq<ColorCall>)
    requires MonotoneClock(calls)
    ensures var s := AdmittedStamps(lastcall, calls);
      (|s| > 0 ==> s[0] - lastcall >= MinInterval) &&
      forall i :: 0 < i < |s| ==> s[i] - s[i - 1] >= MinInterval
    decreases |calls|
  {
    if calls != [] {
      var tail := calls[1..];
      assert MonotoneClock(tail) by {
        assert forall i :: 0 <= i < |tail| ==> tail[i] == calls[i + 1];
      }
      var next := if Admits(lastcall, calls[0].checkTime) then calls[0].stampTime else lastcall;
      AdmittedCallsSpaced(next, tail);
      var s := AdmittedStamps(lastcall, calls);
      var st := AdmittedStamps(next, tail);
      if Admits(lastcall, calls[0].checkTime) {
        assert s == [calls[0].stampTime] + st;
        forall i | 0 < i < |s| ensures s[i] - s[i - 1] >= MinInterval {
          if i > 1 {
            assert s[i] == st[i - 1] && s[i - 1] == st[i - 2];
          }
        }
      }
    }
  }

  /** Calls 50 ms apart: the second is dropped. Calls 250 ms apart: both go through. */
  lemma GateExamples(t: int)
    ensures AdmittedStamps(t - 200, [ColorCall(t, t), ColorCall(t + 50, t + 50)]) == [t]
    ensures AdmittedStamps(t - 200, [ColorCall(t, t), ColorCall(t + 250, t + 250)]) == [t, t + 250]
  {
    var slow := [ColorCall(t, t), ColorCall(t + 50, t + 50)];
    assert slow[1..][1..] == [];
    assert AdmittedStamps(t, slow[1..]) == AdmittedStamps(t, []);
    var spaced := [ColorCall(t, t), ColorCall(t + 250, t + 250)];
    assert spaced[1..][1..] == [];
    assert AdmittedStamps(t, spaced[1..]) == [t + 250] + AdmittedStamps(t + 250, []);
  }
}
