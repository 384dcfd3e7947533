/**
 * The bridge list screen: the list of known bridges (`BridgeList`), the dialog that adds
 * one by address (`AddBridgeDialog`) and the dialog shown while pairing
 * (`ConnectBridgeDialog`).
 *
 * Rendering is reduced to the state it reads (the icon, the dialog fields); `Router.go`
 * to the route string it is given; `detectBridge` to its outcome, a `Detection`; the
 * pairing requests to the replies `postAccount` receives.
 */
module BridgeViews {
  import opened Js
  import opened CredentialStore
  import opened Pairing

  // ---------------------------------------------------------------------------
  // The IP address pattern of the add dialog: ^(?:[0-9]{1,3}\.){3}[0-9]{1,3}$

  predicate IsDigit(c: char)
  {
    '0' <= c <= '9'
  }

  /** The length of the run of digits `s` starts with. */
  function LeadingDigits(s: string): (k: nat)
    ensures k <= |s|
    ensures forall j :: 0 <= j < k ==> IsDigit(s[j])
    ensures k < |s| ==> !IsDigit(s[k])
  {
    if s != [] && IsDigit(s[0]) then 1 + LeadingDigits(s[1..]) else 0
  }

  /**
   * The pattern as the regular expression engine runs it: `groups` more groups of one to
   * three digits and a dot, then one to three digits and the end of the text. Digits and
   * the dot are disjoint, so taking the whole run of digits never needs backtracking.
   */
  function MatchGroups(s: string, groups: nat): bool
    decreases groups
  {
    var k := LeadingDigits(s);
    1 <= k <= 3 &&
    if groups == 0 then k == |s|
    else k < |s| && s[k] == '.' && MatchGroups(s[k + 1..], groups - 1)
  }

  /** Whether the text satisfies the input's `pattern` attribute (which the browser anchors at both ends). */
  function MatchesIpPattern(s: string): bool
  {
    MatchGroups(s, 3)
  }

  predicate IsDot(c: char)
  {
    c == '.'
  }

  /** The index of the first dot of `s`, if any. */
  function FirstDot(s: string): (r: Option<nat>)
    ensures r.Some? ==> r.value < |s| && s[r.value] == '.' && forall j :: 0 <= j < r.value ==> s[j] != '.'
    ensures r.None? <==> forall j :: 0 <= j < |s| ==> s[j] != '.'
  {
    FindFirst(s, IsDot)
  }

  /** The fields of `s` between dots. */
  function Fields(s: string): (r: seq<string>)
    ensures |r| >= 1
    decreases |s|
  {
    match FirstDot(s)
    case None => [s]
    case Some(i) => [s[..i]] + Fields(s[i + 1..])
  }

  /** One to three decimal digits. */
  predicate Octet(f: string)
  {
    1 <= |f| <= 3 && forall j :: 0 <= j < |f| ==> IsDigit(f[j])
  }

  /** The reference reading of the pattern: `n` dot-separated fields, each of one to three digits. */
  predicate DottedDigits(s: string, n: nat)
  {
    var fs := Fields(s);
    |fs| == n && forall i :: 0 <= i < n ==> Octet(fs[i])
  }

  lemma LeadingDigitsAll(s: string)
    requires forall j :: 0 <= j < |s| ==> IsDigit(s[j])
    ensures LeadingDigits(s) == |s|
  {
  }

  /** Before the first dot, the matcher consumes exactly the field up to it. */
  lemma MatchAtDot(s: string, i: nat, groups: nat)
    requires FirstDot(s) == Some(i) && groups > 0
    ensures MatchGroups(s, groups) <==> Octet(s[..i]) && MatchGroups(s[i + 1..], groups - 1)
  {
    var k := LeadingDigits(s);
    assert !IsDigit(s[i]);
    assert k <= i;
    if MatchGroups(s, groups) {
      assert i == k;
    }
    if Octet(s[..i]) {
      assert forall j :: 0 <= j < i ==> IsDigit(s[..i][j]);
      assert k == i;
    }
  }

  /** The first field is the text before the first dot. */
  lemma FieldsAtDot(s: string, i: nat, groups: nat)
    requires FirstDot(s) == Some(i) && groups > 0
    ensures DottedDigits(s, groups + 1) <==> Octet(s[..i]) && DottedDigits(s[i + 1..], groups - 1 + 1)
  {
    var n := groups;
    var rest := s[i + 1..];
    var fs, fr := Fields(s), Fields(rest);
    assert fs == [s[..i]] + fr;
    if DottedDigits(s, n + 1) {
      assert Octet(fs[0]);
      forall j | 0 <= j < n
        ensures Octet(fr[j])
      {
        assert fr[j] == fs[j + 1];
      }
    }
    if Octet(s[..i]) && DottedDigits(rest, n) {
      forall j | 0 <= j < n + 1
        ensures Octet(fs[j])
      {
        if j > 0 {
          assert fs[j] == fr[j - 1];
        }
      }
    }
  }

  /** Without a dot, there is a single field, and only the last group can match it. */
  lemma NoDotField(s: string, groups: nat)
    requires FirstDot(s).None?
    ensures MatchGroups(s, groups) <==> DottedDigits(s, groups + 1)
  {
    var k := LeadingDigits(s);
    assert Fields(s) == [s];
    if groups == 0 {
      if Octet(s) {
        LeadingDigitsAll(s);
      }
      if MatchGroups(s, 0) {
        assert k == |s|;
        assert Octet(s);
      }
      assert Fields(s)[0] == s;
      assert DottedDigits(s, groups + 1) <==> Octet(s);
    } else {
      assert k < |s| ==> s[k] != '.';
      assert !MatchGroups(s, groups);
    }
  }

  /** The last group cannot stretch over a dot, and a text with a dot has more than one field. */
  lemma NoMatchPastDot(s: string, i: nat, groups: nat)
    requires FirstDot(s) == Some(i) && groups == 0
    ensures !MatchGroups(s, groups) && !DottedDigits(s, groups + 1)
  {
    assert !IsDigit(s[i]);
    assert Fields(s) == [s[..i]] + Fields(s[i + 1..]);
  }

  /** The matcher accepts exactly the texts made of `groups + 1` dot-separated digit fields of length 1 to 3. */
  lemma {:induction false} MatchGroupsFields(s: string, groups: nat)
    ensures MatchGroups(s, groups) <==> DottedDigits(s, groups + 1)
    decreases groups, 1
  {
    match FirstDot(s)
    case None =>
      NoDotField(s, groups);
    case Some(i) =>
      if groups == 0 {
        NoMatchPastDot(s, i, groups);
      } else {
        DotFields(s, i, groups);
      }
  }

  /** The inductive step: the first field is one group, the rest of the text the others. */
  lemma {:induction false} DotFields(s: string, i: nat, groups: nat)
    requires FirstDot(s) == Some(i) && groups > 0
    ensures MatchGroups(s, groups) <==> DottedDigits(s, groups + 1)
    decreases groups, 0
  {
    var rest := s[i + 1..];
    calc {
      MatchGroups(s, groups);
    <==> { MatchAtDot(s, i, groups); }
      Octet(s[..i]) && MatchGroups(rest, groups - 1);
    <==> { MatchGroupsFields(rest, groups - 1); }
      Octet(s[..i]) && DottedDigits(rest, groups - 1 + 1);
    <==> { FieldsAtDot(s, i, groups); }
      DottedDigits(s, groups + 1);
    }
  }

  /** The pattern accepts exactly four dot-separated fields of one to three digits. */
  lemma IpPatternFields(s: string)
    ensures MatchesIpPattern(s) <==> DottedDigits(s, 4)
  {
    MatchGroupsFields(s, 3);
  }

  /** The run of digits ends at the first non-digit. */
  lemma {:induction false} LeadingDigitsUpTo(s: string, k: nat)
    requires k <= |s| && (k == |s| || !IsDigit(s[k]))
    requires forall j :: 0 <= j < k ==> IsDigit(s[j])
    ensures LeadingDigits(s) == k
    decreases k
  {
    if k > 0 {
      LeadingDigitsUpTo(s[1..], k - 1);
    }
  }

  /** A leading group of one to three digits and a dot is consumed as one group. */
  lemma GroupAt(s: string, k: nat, groups: nat)
    requires 1 <= k <= 3 && k < |s| && s[k] == '.' && groups > 0
    requires forall j :: 0 <= j < k ==> IsDigit(s[j])
    ensures MatchGroups(s, groups) == MatchGroups(s[k + 1..], groups - 1)
  {
    LeadingDigitsUpTo(s, k);
  }

  /** A last group of one to three digits. */
  lemma LastGroup(s: string)
    requires Octet(s)
    ensures MatchGroups(s, 0)
  {
    LeadingDigitsUpTo(s, |s|);
  }

  /** A field and a dot in front of the rest are one group. */
  lemma JoinedGroup(a: string, rest: string, groups: nat)
    requires Octet(a) && groups > 0
    ensures MatchGroups(a + "." + rest, groups) == MatchGroups(rest, groups - 1)
  {
    var t := a + "." + rest;
    assert t[|a|] == '.';
    assert forall j :: 0 <= j < |a| ==> t[j] == a[j];
    assert t[|a| + 1..] == rest;
    GroupAt(t, |a|, groups);
  }

  /** Four fields of one to three digits joined by dots match. */
  lemma FourGroupsMatch(a: string, b: string, c: string, d: string)
    requires Octet(a) && Octet(b) && Octet(c) && Octet(d)
    ensures MatchesIpPattern(a + "." + (b + "." + (c + "." + d)))
  {
    var cd := c + "." + d;
    var bcd := b + "." + cd;
    calc {
      MatchGroups(a + "." + bcd, 3);
    == { JoinedGroup(a, bcd, 3); }
      MatchGroups(bcd, 2);
    == { JoinedGroup(b, cd, 2); }
      MatchGroups(cd, 1);
    == { JoinedGroup(c, d, 1); }
      MatchGroups(d, 0);
    == { LastGroup(d); }
      true;
    }
  }

  /** There is no range check on the numbers: `999.999.999.999` is accepted. */
  lemma PatternAcceptsOutOfRange(s: string)
    requires s == "999.999.999.999"
    ensures MatchesIpPattern(s)
  {
    var n := "999";
    assert Octet(n);
    assert n + "." + (n + "." + (n + "." + n)) == s;
    FourGroupsMatch(n, n, n, n);
  }

  /** Three fields, or a four-digit field, are refused. */
  lemma PatternRejectsExamples(three: string, wide: string)
    requires three == "10.0.1" && wide == "1000.0.0.1"
    ensures !MatchesIpPattern(three)
    ensures !MatchesIpPattern(wide)
  {
    GroupAt(three, 2, 3);
    var t1 := three[3..];
    GroupAt(t1, 1, 2);
    LeadingDigitsUpTo(t1[2..], 1);
    LeadingDigitsUpTo(wide, 4);
  }

  /** A text beginning with whitespace never matches, in particular one that is all whitespace. */
  lemma PatternRejectsLeadingWhitespace(s: string)
    requires |s| > 0 && IsJsWhitespace(s[0])
    ensures !MatchesIpPattern(s)
  {
  }

  // ---------------------------------------------------------------------------
  // The paired test and the list of bridges

  /** `typeof bridge.account === "string" && bridge.account.trim().length > 0` */
  predicate IsPaired(b: Bridge)
  {
    b.account.Str? && |Trim(b.account.s)| > 0
  }

  /** The test `bridgeClicked` uses to start pairing. */
  predicate NeedsPairing(b: Bridge)
  {
    !b.account.Str? || |Trim(b.account.s)| <= 0
  }

  const PairedIcon: string := "text-green-500 fa-check-circle"
  const UnpairedIcon: string := "text-blue-500 fa-question-circle"

  /**
   * The icon classes the list renders for a bridge: the check mark exactly when the
   * account is a string holding some character that is not white space, the question
   * mark exactly when a click would start pairing.
   */
  function Icon(b: Bridge): (icon: string)
    ensures icon == PairedIcon <==>
      b.account.Str? && exists i :: 0 <= i < |b.account.s| && !IsJsWhitespace(b.account.s[i])
    ensures icon == UnpairedIcon <==> NeedsPairing(b)
  {
    if b.account.Str? then
      TrimNonEmpty(b.account.s);
      if IsPaired(b) then PairedIcon else UnpairedIcon
    else UnpairedIcon
  }

  /**
   * A click starts pairing exactly when the list shows the question-mark icon, which is
   * when the account is not a string holding some non-whitespace character.
   */
  lemma ClickAgreesWithIcon(b: Bridge)
    ensures NeedsPairing(b) <==> Icon(b) == UnpairedIcon
    ensures NeedsPairing(b) <==>
      !(b.account.Str? && exists i :: 0 <= i < |b.account.s| && !IsJsWhitespace(b.account.s[i]))
  {
    if b.account.Str? {
      TrimNonEmpty(b.account.s);
    }
  }

  /** No two bridges of the list share an ip. */
  ghost predicate UniqueIps(bridges: seq<Bridge>)
  {
    forall i, j :: 0 <= i < j < |bridges| ==> bridges[i].ip != bridges[j].ip
  }

  ghost predicate HasIp(bridges: seq<Bridge>, ip: string)
  {
    exists i :: 0 <= i < |bridges| && bridges[i].ip == ip
  }

  /** The list `addBridge(data)` leaves: `data` appended unless `find` meets a bridge with its ip. */
  function WithBridge(bridges: seq<Bridge>, data: Bridge): (r: seq<Bridge>)
    ensures HasIp(bridges, data.ip) ==> r == bridges
    ensures !HasIp(bridges, data.ip) ==> r == bridges + [data]
  {
    if FindFirst(bridges, (b: Bridge) => b.ip == data.ip).Some? then bridges
    else bridges + [data]
  }

  /**
   * Adding keeps the earlier bridges in order, grows the list by at most one, leaves a
   * bridge with `data`'s ip in it, and keeps ips unique.
   */
  lemma WithBridgeInvariant(bridges: seq<Bridge>, data: Bridge)
    ensures var r := WithBridge(bridges, data);
      |bridges| <= |r| <= |bridges| + 1 && r[..|bridges|] == bridges && HasIp(r, data.ip)
    ensures UniqueIps(bridges) ==> UniqueIps(WithBridge(bridges, data))
  {
    var r := WithBridge(bridges, data);
    if !HasIp(bridges, data.ip) {
      assert r[|bridges|] == data;
      assert r[..|bridges|] == bridges;
    }
  }

  /** `getBridges`: every stored record passed to `addBridge`, in stored order. */
  function WithBridges(bridges: seq<Bridge>, items: seq<Bridge>): seq<Bridge>
    decreases |items|
  {
    if items == [] then bridges
    else WithBridge(WithBridges(bridges, items[..|items| - 1]), items[|items| - 1])
  }

  /** Loading keeps the bridges already listed as a prefix and keeps ips unique. */
  lemma {:induction false} WithBridgesPrefix(bridges: seq<Bridge>, items: seq<Bridge>)
    ensures var r := WithBridges(bridges, items);
      |bridges| <= |r| && r[..|bridges|] == bridges && (UniqueIps(bridges) ==> UniqueIps(r))
    decreases |items|
  {
    if items != [] {
      var mid := WithBridges(bridges, items[..|items| - 1]);
      WithBridgesPrefix(bridges, items[..|items| - 1]);
      WithBridgeInvariant(mid, items[|items| - 1]);
      var r := WithBridge(mid, items[|items| - 1]);
      assert r[..|bridges|] == r[..|mid|][..|bridges|];
    }
  }

  /** Every stored ip is listed after loading. */
  lemma {:induction false} WithBridgesCovers(bridges: seq<Bridge>, items: seq<Bridge>)
    ensures forall k :: 0 <= k < |items| ==> HasIp(WithBridges(bridges, items), items[k].ip)
    decreases |items|
  {
    if items != [] {
      var init := items[..|items| - 1];
      var mid := WithBridges(bridges, init);
      WithBridgesCovers(bridges, init);
      WithBridgeInvariant(mid, items[|items| - 1]);
      var r := WithBridges(bridges, items);
      forall k | 0 <= k < |items| - 1
        ensures HasIp(r, items[k].ip)
      {
        assert items[k] == init[k];
        var j :| 0 <= j < |mid| && mid[j].ip == items[k].ip;
        assert r[j] == r[..|mid|][j];
      }
    }
  }

  /** Loading lists nothing that was neither listed nor stored. */
  lemma {:induction false} WithBridgesFrom(bridges: seq<Bridge>, items: seq<Bridge>)
    ensures forall b :: b in WithBridges(bridges, items) ==> b in bridges || b in items
    decreases |items|
  {
    if items != [] {
      var init := items[..|items| - 1];
      WithBridgesFrom(bridges, init);
      assert forall b :: b in init ==> b in items;
    }
  }

  /**
   * Loading keeps the bridges already listed as a prefix, keeps ips unique, lists every
   * stored ip, and lists nothing that was neither there nor stored.
   */
  lemma WithBridgesInvariant(bridges: seq<Bridge>, items: seq<Bridge>)
    ensures var r := WithBridges(bridges, items);
      |bridges| <= |r| && r[..|bridges|] == bridges &&
      (UniqueIps(bridges) ==> UniqueIps(r)) &&
      (forall k :: 0 <= k < |items| ==> HasIp(r, items[k].ip)) &&
      (forall b :: b in r ==> b in bridges || b in items)
  {
    WithBridgesPrefix(bridges, items);
    WithBridgesCovers(bridges, items);
    WithBridgesFrom(bridges, items);
  }

  /** Stored records that share an ip (the store dedupes on uuid) show as one bridge, the first. */
  lemma SameIpStoredTwice(a: Bridge, b: Bridge)
    requires a.ip == b.ip && a.uuid != b.uuid
    ensures WithBridges([], [a, b]) == [a]
  {
    assert [a, b][..1] == [a];
    assert [a][..0] == [];
    assert WithBridges([], [a]) == [a];
    assert HasIp([a], b.ip);
  }

  // ---------------------------------------------------------------------------
  // ConnectBridgeDialog

  const DetectingInstruction: string := "Detecting bridge..."
  const PressButtonInstruction: string := "Please go and press the connect button on your Hue bridge."

  /** The pairing dialog: whether it shows an error, the instruction, the error text, and whether it is open. */
  class ConnectBridgeDialog {
    var isError: bool
    var instruction: string
    var message: string
    var open: bool

    constructor()
      ensures !isError && instruction == DetectingInstruction && message == "" && !open
    {
      isError, instruction, message, open := false, DetectingInstruction, "", false;
    }

    /** Clears the error (the instruction stays as it was) and shows the dialog. */
    method OpenDialog()
      modifies this
      ensures !isError && message == "" && open && instruction == old(instruction)
    {
      isError := false;
      message := "";
      open := true;
    }

    method CloseDialog()
      modifies this`open
      ensures !open
    {
      open := false;
    }

    /** The Cancel button is bound to `closeDialog` itself. */
    method Cancel()
      modifies this`open
      ensures !open
    {
      CloseDialog();
    }

    /** A successful pairing just closes the dialog. */
    method UpdateSuccess()
      modifies this`open
      ensures !open
    {
      CloseDialog();
    }

    /** Shows `m` as the error; the dialog stays open. */
    method UpdateError(m: string)
      modifies this`isError, this`message
      ensures isError && message == m
    {
      message := m;
      isError := true;
    }
  }

  // ---------------------------------------------------------------------------
  // AddBridgeDialog

  const EnterAddressMessage: string := "Enter an IP address."
  const UnreachableMessage: string := "Unable to connect to this address."
  const NewBridgeName: string := "Hue Bridge"

  /** What `detectBridge` resolves to (the bridge's UDN) or rejects with. */
  datatype Detection = Detected(uuid: string) | NotDetected(error: JsError)

  /** `this.form`. */
  datatype Form = Form(ip: string, uuid: Option<string>)

  /** The URL of a bridge's description document. */
  function DescriptionUrl(ip: string): string
  {
    "http://" + ip + "/description.xml"
  }

  /**
   * What one run of `validateForm` decides: the URL it probes with `detectBridge` if any,
   * the input's custom validity message afterwards, the form, and the `new-bridge` detail
   * it dispatches if any.
   */
  datatype Verdict = Verdict(probe: Option<string>, validity: string, form: Form, event: Option<Bridge>)

  /**
   * `validateForm` on the input's value and custom validity message. The browser's
   * `validity.valid` holds when no custom message is set and the pattern matches, which
   * an empty value always does.
   */
  function Validation(value: string, customValidity: string, detect: Detection): Verdict
  {
    var form := Form(value, None);
    if !(customValidity == "" && (value == "" || MatchesIpPattern(value))) then
      Verdict(None, customValidity, form, None)
    else if |Trim(value)| == 0 then
      Verdict(None, EnterAddressMessage, form, None)
    else
      match detect
      case NotDetected(_) => Verdict(Some(DescriptionUrl(value)), UnreachableMessage, form, None)
      case Detected(uuid) =>
        Verdict(Some(DescriptionUrl(value)), "", Form(value, Some(uuid)),
                Some(Bridge(value, Some(uuid), NewBridgeName, Undefined)))
  }

  /** An empty value passes the browser's checks and is refused with "Enter an IP address.", without a probe. */
  lemma EmptyValueAsksForAddress(detect: Detection)
    ensures Validation("", "", detect) == Verdict(None, EnterAddressMessage, Form("", None), None)
  {
  }

  /**
   * A non-empty value of whitespace only fails the pattern, so the trim test never sees
   * it: the browser's own message is reported and nothing is probed.
   */
  lemma WhitespaceNeverReachesTrim(value: string, customValidity: string, detect: Detection)
    requires value != [] && forall i :: 0 <= i < |value| ==> IsJsWhitespace(value[i])
    ensures Validation(value, customValidity, detect) == Verdict(None, customValidity, Form(value, None), None)
  {
    PatternRejectsLeadingWhitespace(value);
  }

  /** A custom message left from an earlier attempt blocks every later one until a key is pressed. */
  lemma StaleMessageBlocks(value: string, customValidity: string, detect: Detection)
    requires customValidity != ""
    ensures Validation(value, customValidity, detect).probe.None?
    ensures Validation(value, customValidity, detect).event.None?
  {
  }

  /**
   * The outcomes of a submission whose value the browser accepts: a probe of the typed
   * address, then "Unable to connect to this address." if it fails, or else the message
   * cleared and a `new-bridge` detail with the typed ip, the detected uuid and the name
   * "Hue Bridge".
   */
  lemma ValidationOutcomes(value: string, detect: Detection)
    requires MatchesIpPattern(value)
    ensures var v := Validation(value, "", detect);
      v.probe == Some(DescriptionUrl(value)) &&
      (detect.NotDetected? ==> v.validity == UnreachableMessage && v.event.None?) &&
      (detect.Detected? ==> v.validity == "" &&
                            v.event == Some(Bridge(value, Some(detect.uuid), NewBridgeName, Undefined)))
  {
    TrimNonEmptyWhenMatching(value);
  }

  /** A `new-bridge` event is dispatched only for a value matching the pattern that was probed successfully. */
  lemma EventOnlyAfterProbe(value: string, customValidity: string, detect: Detection)
    ensures var v := Validation(value, customValidity, detect);
      v.event.Some? <==> customValidity == "" && MatchesIpPattern(value) && detect.Detected?
  {
    if customValidity == "" && value == "" {
      assert Trim(value) == [];
    } else if customValidity == "" && MatchesIpPattern(value) {
      TrimNonEmptyWhenMatching(value);
    }
  }

  /** A value the pattern accepts starts with a digit, so it is not blank. */
  lemma TrimNonEmptyWhenMatching(value: string)
    requires MatchesIpPattern(value)
    ensures |Trim(value)| > 0
  {
    assert !IsJsWhitespace(value[0]);
    TrimNonEmpty(value);
  }

  /** The dialog for adding a bridge by address. */
  class AddBridgeDialog {
    var form: Form
    var customValidity: string
    var open: bool
    var returnValue: string

    constructor()
      ensures form == Form("", None) && customValidity == "" && !open && returnValue == ""
    {
      form, customValidity, open, returnValue := Form("", None), "", false, "";
    }

    /** `resetForm`: an empty form and no custom message. */
    method ResetForm()
      modifies this`form, this`customValidity
      ensures form == Form("", None) && customValidity == ""
    {
      form := Form("", None);
      customValidity := "";
    }

    /** `openDialog`: reset the form, then show the dialog. */
    method OpenDialog()
      modifies this`form, this`customValidity, this`open
      ensures form == Form("", None) && customValidity == "" && open
    {
      ResetForm();
      open := true;
    }

    /**
     * `closeDialog(value)`: an open dialog closes with `value` as its return value; on a
     * closed one `close` does nothing.
     */
    method CloseDialog(value: string)
      modifies this`open, this`returnValue
      ensures !open && returnValue == if old(open) then value else old(returnValue)
    {
      if open {
        open := false;
        returnValue := value;
      }
    }

    /** A key pressed in the address field clears its custom message. */
    method OnIpKeydown()
      modifies this`customValidity
      ensures customValidity == ""
    {
      customValidity := "";
    }

    /** The cancel button closes the dialog with an empty return value. */
    method Cancel()
      modifies this`open, this`returnValue
      ensures !open && returnValue == if old(open) then "" else old(returnValue)
    {
      CloseDialog("");
    }

    /**
     * `validateForm` with the address field holding `value`; `detect` is what
     * `detectBridge` would give. The dialog closes with `"OK"` exactly when the detail is
     * dispatched; otherwise the form's validity is reported and the dialog stays as it was.
     */
    method ValidateForm(value: string, detect: Detection) returns (probe: Option<string>, event: Option<Bridge>)
      modifies this
      ensures var v := Validation(value, old(customValidity), detect);
        probe == v.probe && event == v.event && form == v.form && customValidity == v.validity
      ensures event.Some? ==> !open && returnValue == if old(open) then "OK" else old(returnValue)
      ensures event.None? ==> open == old(open) && returnValue == old(returnValue)
    {
      form := Form(value, None);
      probe, event := None, None;
      if customValidity == "" && (value == "" || MatchesIpPattern(value)) {
        var isError := false;
        if |Trim(value)| == 0 {
          customValidity := EnterAddressMessage;
          isError := true;
        } else {
          probe := Some(DescriptionUrl(value));
          match detect {
            case Detected(uuid) =>
              form := form.(uuid := Some(uuid));
            case NotDetected(_) =>
              customValidity := UnreachableMessage;
              isError := true;
          }
        }
        if !isError {
          customValidity := "";
          CloseDialog("OK");
          event := Some(Bridge(form.ip, form.uuid, NewBridgeName, Undefined));
        }
      }
    }
  }

  // ---------------------------------------------------------------------------
  // BridgeList

  /** `error.message` for the errors the pairing flow can catch. */
  function ErrorMessage(e: JsError, engineMessage: JsError -> string): string
  {
    if e.Thrown? then e.message else engineMessage(e)
  }

  const RoutePrefix: string := "/bridges/"

  /** The route `navigateToAccount(index)` goes to: the prefix, then a text that reads back as `index`. */
  function AccountRoute(index: nat): (route: string)
    ensures |RoutePrefix| < |route| && route[..|RoutePrefix|] == RoutePrefix
    ensures ParseIndex(route[|RoutePrefix|..]) == Some(index)
  {
    var route := RoutePrefix + Decimal(index);
    assert route[..|RoutePrefix|] == RoutePrefix && route[|RoutePrefix|..] == Decimal(index);
    ParseIndexDecimal(index);
    route
  }

  /** Different bridges get different routes. */
  lemma AccountRouteInjective(i: nat, j: nat)
    ensures AccountRoute(i) == AccountRoute(j) <==> i == j
  {
  }

  /** The list screen: the bridges shown, the store they are loaded from, and its pairing dialog. */
  class BridgeList {
    var bridges: seq<Bridge>
    const store: Storage
    const connect: ConnectBridgeDialog

    /** The constructor starts empty and loads the stored bridges. */
    constructor(store: Storage, connect: ConnectBridgeDialog)
      modifies {}
      ensures this.store == store && this.connect == connect
      ensures bridges == WithBridges([], GetStoredAccounts(store))
    {
      this.store := store;
      this.connect := connect;
      bridges := [];
      new;
      GetBridges();
    }

    /** `addBridge(data)`, also the handler of `new-bridge` events. */
    method AddBridge(data: Bridge)
      modifies this`bridges
      ensures bridges == WithBridge(old(bridges), data)
    {
      if FindFirst(bridges, (b: Bridge) => b.ip == data.ip).None? {
        bridges := bridges + [data];
      }
    }

    /** `getBridges`: each stored record through `addBridge`, in stored order. */
    method GetBridges()
      modifies this`bridges
      ensures bridges == WithBridges(old(bridges), GetStoredAccounts(store))
    {
      var accounts := GetStoredAccounts(store);
      var i := 0;
      while i < |accounts|
        invariant 0 <= i <= |accounts|
        invariant bridges == WithBridges(old(bridges), accounts[..i])
      {
        AddBridge(accounts[i]);
        i := i + 1;
        assert accounts[..i][..i - 1] == accounts[..i - 1];
      }
      assert accounts[..i] == accounts;
    }

    /**
     * The state `createBridgeAccount` leaves for the bridge at `index`, with `route` where
     * it navigates. The dialog opens; a failed detection shows its message; otherwise the
     * instruction changes and `postAccount` runs. When it resolves, paired or timed out,
     * the dialog closes and the route is the LAST bridge's, not the clicked one's; when it
     * rejects, its message is shown. Only those two errors write a message: otherwise the
     * message `openDialog` cleared stays empty. A paired record replaces the clicked one in the list
     * (the list and `postAccount` share the same object) and is stored; otherwise list and
     * store are unchanged.
     */
    twostate predicate AccountCreated(index: nat, detect: Detection, start: int, replies: seq<Reply>,
                                      parse: string -> Result<JsValue>, engineMessage: JsError -> string,
                                      new route: Option<string>)
      reads this, store, connect
    {
      index < old(|bridges|) &&
      var run := Pairing.Pairing(old(bridges)[index], start, replies, parse, 0, 0);
      (detect.NotDetected? ==>
        route.None? && bridges == old(bridges) && store.items == old(store.items) &&
        connect.isError && connect.message == ErrorMessage(detect.error, engineMessage) &&
        connect.open && connect.instruction == old(connect.instruction)) &&
      (detect.Detected? ==>
        connect.instruction == PressButtonInstruction &&
        (run.outcome.Paired? ==>
          bridges == old(bridges)[index := run.outcome.bridge] &&
          store.items == old(store.items)[AccountsKey := WithAccount(old(GetStoredAccounts(store)), run.outcome.bridge)]) &&
        (!run.outcome.Paired? ==> bridges == old(bridges) && store.items == old(store.items)) &&
        (run.outcome.Paired? || run.outcome.TimedOut? ==>
          route == Some(AccountRoute(|bridges| - 1)) && !connect.open && !connect.isError && connect.message == "") &&
        (run.outcome.Failed? ==>
          route.None? && connect.open && connect.isError &&
          connect.message == ErrorMessage(run.outcome.error, engineMessage)) &&
        (run.outcome.StillPolling? ==> route.None? && connect.open && !connect.isError && connect.message == ""))
    }

    /** `createBridgeAccount` for the bridge at `index`, as `AccountCreated` describes it. */
    method CreateBridgeAccount(index: nat, detect: Detection, start: int, replies: seq<Reply>,
                               parse: string -> Result<JsValue>, engineMessage: JsError -> string)
      returns (route: Option<string>)
      requires index < |bridges|
      modifies this`bridges, store, connect
      ensures AccountCreated(index, detect, start, replies, parse, engineMessage, route)
    {
      connect.OpenDialog();
      match detect {
        case NotDetected(e) =>
          route := None;
          connect.UpdateError(ErrorMessage(e, engineMessage));
        case Detected(_) =>
          connect.instruction := PressButtonInstruction;
          var run;
          route, run := AwaitAccount(index, start, replies, parse, engineMessage);
      }
    }

    /** The part of `createBridgeAccount` after detection: run `postAccount` and settle the dialog. */
    method AwaitAccount(index: nat, start: int, replies: seq<Reply>,
                        parse: string -> Result<JsValue>, engineMessage: JsError -> string)
      returns (route: Option<string>, run: PairRun)
      requires index < |bridges|
      modifies this`bridges, store, connect`open, connect`isError, connect`message
      ensures run == Pairing.Pairing(old(bridges)[index], start, replies, parse, 0, 0)
      ensures run.outcome.Paired? ==>
        bridges == old(bridges)[index := run.outcome.bridge] &&
        store.items == old(store.items)[AccountsKey := WithAccount(old(GetStoredAccounts(store)), run.outcome.bridge)]
      ensures !run.outcome.Paired? ==> bridges == old(bridges) && store.items == old(store.items)
      ensures run.outcome.Paired? || run.outcome.TimedOut? ==>
        route == Some(AccountRoute(|bridges| - 1)) && !connect.open && connect.isError == old(connect.isError)
      ensures run.outcome.Failed? ==>
        route.None? && connect.open == old(connect.open) && connect.isError &&
        connect.message == ErrorMessage(run.outcome.error, engineMessage)
      ensures run.outcome.StillPolling? ==>
        route.None? && connect.open == old(connect.open) && connect.isError == old(connect.isError)
      ensures !run.outcome.Failed? ==> connect.message == old(connect.message)
    {
      route := None;
      run := PostAccount(store, bridges[index], start, replies, parse);
      match run.outcome {
        case Paired(b) =>
          bridges := bridges[index := b];
          connect.UpdateSuccess();
          route := Some(AccountRoute(|bridges| - 1));
        case TimedOut =>
          connect.UpdateSuccess();
          route := Some(AccountRoute(|bridges| - 1));
        case Failed(e) =>
          connect.UpdateError(ErrorMessage(e, engineMessage));
        case StillPolling(_) =>
      }
    }

    /**
     * `bridgeClicked` on the item rendered for `index`: an unpaired bridge starts pairing,
     * a paired one routes to its own page. An index with no bridge makes the `account`
     * read throw.
     */
    method BridgeClicked(index: nat, detect: Detection, start: int, replies: seq<Reply>,
                         parse: string -> Result<JsValue>, engineMessage: JsError -> string)
      returns (route: Option<string>, error: Option<JsError>)
      modifies this`bridges, store, connect
      ensures index >= old(|bridges|) ==>
        route.None? && error == Some(TypeError) && bridges == old(bridges) &&
        unchanged(store) && unchanged(connect)
      ensures index < old(|bridges|) ==> error.None?
      ensures index < old(|bridges|) && IsPaired(old(bridges)[index]) ==>
        route == Some(AccountRoute(index)) && bridges == old(bridges) &&
        unchanged(store) && unchanged(connect)
      ensures index < old(|bridges|) && !IsPaired(old(bridges)[index]) ==>
        AccountCreated(index, detect, start, replies, parse, engineMessage, route)
    {
      if index >= |bridges| {
        return None, Some(TypeError);
      }
      error := None;
      if NeedsPairing(bridges[index]) {
        route := CreateBridgeAccount(index, detect, start, replies, parse, engineMessage);
      } else {
        route := Some(AccountRoute(index));
      }
    }

    /**
     * A submission of the add dialog: `validateForm`, and the `new-bridge` event it may
     * dispatch handled by `addBridge`.
     */
    method SubmitAddDialog(dialog: AddBridgeDialog, value: string, detect: Detection)
      returns (probe: Option<string>, event: Option<Bridge>)
      modifies this`bridges, dialog
      ensures var v := Validation(value, old(dialog.customValidity), detect);
        probe == v.probe && event == v.event && dialog.customValidity == v.validity && dialog.form == v.form
      ensures event.Some? ==>
        !dialog.open && dialog.returnValue == if old(dialog.open) then "OK" else old(dialog.returnValue)
      ensures event.None? ==> dialog.open == old(dialog.open) && dialog.returnValue == old(dialog.returnValue)
      ensures bridges == if event.Some? then WithBridge(old(bridges), event.value) else old(bridges)
    {
      probe, event := dialog.ValidateForm(value, detect);
      if event.Some? {
        AddBridge(event.value);
      }
    }
  }

  /** A bridge added by address whose ip is already listed leaves the list as it was. */
  lemma AddKnownAddress(bridges: seq<Bridge>, value: string, detect: Detection)
    requires HasIp(bridges, value)
    ensures var v := Validation(value, "", detect);
      v.event.Some? ==> WithBridge(bridges, v.event.value) == bridges
  {
  }
}
