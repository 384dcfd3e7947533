/**
 * The link-button handshake `postAccount(item)`: POST to `/api` until the bridge issues a
 * username, waiting five seconds after every "link button not pressed" reply, for at most
 * two minutes of measured time.
 *
 * The network and the clock are inputs: the loop is driven by the sequence of replies the
 * bridge gives, and each reply carries the clock reading the loop would take after the
 * five-second sleep that reply may cause. `JSON.parse` is the parameter `parse`.
 */
module Pairing {
  import opened Js
  import opened CredentialStore

  /** The loop runs while `elapsed < 120 * 1000` milliseconds. */
  const PairingWindow: int := 120 * 1000
  /** `sleep(5000)` after each type-101 error. */
  const LinkButtonWait: int := 5000
  /** The Hue error type "link button not pressed". */
  const LinkButtonError: real := 101.0
  const PairingFailedMessage: string := "Something sure didn't work out."

  /** One round trip of the loop. */
  datatype Reply =
    | Rejected(error: JsError)       // `fetch` or `response.text()` rejects
    | Body(text: string, wokeAt: int) // the response text; the clock after a sleep it triggers

  /** What the loop does with a response text. */
  datatype Step =
    | Retry                      // empty text, or text `JSON.parse` rejects: `continue`
    | Wait                       // `res[0].error.type === 101`: sleep, then re-measure
    | Succeed(username: JsValue) // `res[0].success` is an object
    | Throw(error: JsError)      // a property access fails, or the explicit `throw`

  datatype PairOutcome =
    | Paired(bridge: Bridge)     // account set and stored; `postAccount` resolves
    | TimedOut                   // the loop test failed; `postAccount` resolves, nothing stored
    | Failed(error: JsError)     // `postAccount` rejects
    | StillPolling(elapsed: int) // the replies ran out while the loop was still running

  datatype PairRun = PairRun(outcome: PairOutcome, waits: nat)

  /** `typeof v === "object"`: objects, arrays and `null`. */
  predicate IsTypeofObject(v: JsValue)
  {
    v.Obj? || v.Arr? || v.Null?
  }

  /** The tests of lines 87-102 on a parsed reply, property accesses throwing as in JavaScript. */
  function ClassifyParsed(res: JsValue): Step
  {
    match GetProperty(res, "0")
    case Err(e) => Throw(e)
    case Ok(first) =>
      match GetProperty(first, "error")
      case Err(e) => Throw(e)
      case Ok(error) =>
        var isWait :=
          if IsTypeofObject(error) then
            (match GetProperty(error, "type")
             case Err(e) => Err(e)
             case Ok(t) => Ok(t == Number(LinkButtonError)))
          else Ok(false);
        match isWait
        case Err(e) => Throw(e)
        case Ok(true) => Wait
        case Ok(false) =>
          match GetProperty(first, "success")
          case Err(e) => Throw(e)
          case Ok(success) =>
            if IsTypeofObject(success) then
              (match GetProperty(success, "username")
               case Err(e) => Throw(e)
               case Ok(u) => Succeed(u))
            else Throw(Thrown(PairingFailedMessage))
  }

  /** Lines 74-85: empty text and unparseable text are retried at once; no brace repair. */
  function Classify(text: string, parse: string -> Result<JsValue>): Step
  {
    if |text| == 0 then Retry
    else match parse(text)
      case Err(_) => Retry
      case Ok(res) => ClassifyParsed(res)
  }

  /**
   * The loop from a given `elapsed` and wait count over the remaining replies. `elapsed`
   * changes only after a wait, to the clock reading minus `start`.
   */
  function Pairing(item: Bridge, start: int, replies: seq<Reply>, parse: string -> Result<JsValue>,
                   elapsed: int, waits: nat): PairRun
    decreases |replies|
  {
    if elapsed >= PairingWindow then PairRun(TimedOut, waits)
    else if replies == [] then PairRun(StillPolling(elapsed), waits)
    else match replies[0]
      case Rejected(e) => PairRun(Failed(e), waits)
      case Body(text, wokeAt) =>
        match Classify(text, parse)
        case Retry => Pairing(item, start, replies[1..], parse, elapsed, waits)
        case Wait => Pairing(item, start, replies[1..], parse, wokeAt - start, waits + 1)
        case Succeed(u) => PairRun(Paired(item.(account := u)), waits)
        case Throw(e) => PairRun(Failed(e), waits)
  }

  /** The `while` loop of `postAccount`, before the success branch stores the record. */
  method PairingLoop(item: Bridge, start: int, replies: seq<Reply>, parse: string -> Result<JsValue>)
    returns (run: PairRun)
    ensures run == Pairing(item, start, replies, parse, 0, 0)
  {
    var elapsed := 0;
    var waits: nat := 0;
    var i := 0;
    while elapsed < PairingWindow
      invariant 0 <= i <= |replies|
      invariant Pairing(item, start, replies[i..], parse, elapsed, waits) == Pairing(item, start, replies, parse, 0, 0)
      decreases |replies| - i
    {
      if i == |replies| {
        return PairRun(StillPolling(elapsed), waits);
      }
      var reply := replies[i];
      ghost var rest := replies[i..];
      assert rest[0] == reply && rest[1..] == replies[i + 1..];
      i := i + 1;
      match reply {
        case Rejected(e) =>
          return PairRun(Failed(e), waits);
        case Body(text, wokeAt) =>
          var step := Classify(text, parse);
          match step {
            case Retry =>
              RetryStep(item, start, rest, parse, elapsed, waits);
            case Wait =>
              WaitStep(item, start, rest, parse, elapsed, waits);
              elapsed := wokeAt - start;
              waits := waits + 1;
            case Succeed(u) =>
              return PairRun(Paired(item.(account := u)), waits);
            case Throw(e) =>
              return PairRun(Failed(e), waits);
          }
      }
    }
    run := PairRun(TimedOut, waits);
  }

  /** `postAccount(item)`: the loop, then on success `addStoredAccount` of the updated record. */
  method PostAccount(store: Storage, item: Bridge, start: int, replies: seq<Reply>, parse: string -> Result<JsValue>)
    returns (run: PairRun)
    modifies store
    ensures run == Pairing(item, start, replies, parse, 0, 0)
    ensures run.outcome.Paired? ==>
      store.items == old(store.items)[AccountsKey := WithAccount(old(GetStoredAccounts(store)), run.outcome.bridge)]
    ensures !run.outcome.Paired? ==> store.items == old(store.items)
  {
    run := PairingLoop(item, start, replies, parse);
    if run.outcome.Paired? {
      AddStoredAccount(store, run.outcome.bridge);
    }
  }

  // ---------------------------------------------------------------------------
  // Properties of the loop

  /**
   * A paired record is `item` with its `account` set to the username of a success reply;
   * its ip, uuid and name are `item`'s.
   */
  lemma {:induction false} PairedSetsAccount(item: Bridge, start: int, replies: seq<Reply>,
                                             parse: string -> Result<JsValue>, elapsed: int, waits: nat)
    ensures var out := Pairing(item, start, replies, parse, elapsed, waits).outcome;
      out.Paired? ==>
        out.bridge == item.(account := out.bridge.account) &&
        exists k :: 0 <= k < |replies| && replies[k].Body? &&
          Classify(replies[k].text, parse) == Succeed(out.bridge.account)
  {
    if elapsed < PairingWindow && replies != [] && replies[0].Body? {
      var step := Classify(replies[0].text, parse);
      if step.Retry? || step.Wait? {
        var e := if step.Wait? then replies[0].wokeAt - start else elapsed;
        var w := if step.Wait? then waits + 1 else waits;
        PairedSetsAccount(item, start, replies[1..], parse, e, w);
        var out := Pairing(item, start, replies, parse, elapsed, waits).outcome;
        if out.Paired? {
          var k :| 0 <= k < |replies[1..]| && replies[1..][k].Body? &&
            Classify(replies[1..][k].text, parse) == Succeed(out.bridge.account);
          assert replies[k + 1] == replies[1..][k];
        }
      }
    }
  }

  /** The clock readings after the 101 waits the replies cause, in order. */
  function WakeTimes(replies: seq<Reply>, parse: string -> Result<JsValue>): seq<int>
  {
    if replies == [] then []
    else if replies[0].Body? && Classify(replies[0].text, parse) == Wait then
      [replies[0].wokeAt] + WakeTimes(replies[1..], parse)
    else WakeTimes(replies[1..], parse)
  }

  /** Every sleep lasts at least 5000 ms: each wake-up is that much after the one before. */
  ghost predicate SleepsFrom(previous: int, wakes: seq<int>)
    decreases |wakes|
  {
    wakes == [] || (wakes[0] >= previous + LinkButtonWait && SleepsFrom(wakes[0], wakes[1..]))
  }

  /** One unfolding of the loop on a reply that says the link button was not pressed. */
  lemma WaitStep(item: Bridge, start: int, replies: seq<Reply>, parse: string -> Result<JsValue>,
                 elapsed: int, waits: nat)
    requires elapsed < PairingWindow && replies != [] && replies[0].Body?
    requires Classify(replies[0].text, parse) == Wait
    ensures Pairing(item, start, replies, parse, elapsed, waits)
         == Pairing(item, start, replies[1..], parse, replies[0].wokeAt - start, waits + 1)
  {
  }

  /** One unfolding of the loop on a reply that is retried without waiting. */
  lemma RetryStep(item: Bridge, start: int, replies: seq<Reply>, parse: string -> Result<JsValue>,
                  elapsed: int, waits: nat)
    requires elapsed < PairingWindow && replies != [] && replies[0].Body?
    requires Classify(replies[0].text, parse) == Retry
    ensures Pairing(item, start, replies, parse, elapsed, waits)
         == Pairing(item, start, replies[1..], parse, elapsed, waits)
  {
  }

  /** Every other case ends the loop with the count of waits it already had. */
  lemma FinalStep(item: Bridge, start: int, replies: seq<Reply>, parse: string -> Result<JsValue>,
                  elapsed: int, waits: nat)
    requires !(elapsed < PairingWindow && replies != [] && replies[0].Body? &&
               Classify(replies[0].text, parse) in {Wait, Retry})
    ensures Pairing(item, start, replies, parse, elapsed, waits).waits == waits
  {
  }

  /**
   * With sleeps of at least five seconds, the loop performs at most 24 waits: after the
   * 24th, at least 120000 ms have been measured and the loop test fails.
   */
  lemma {:induction false} AtMost24Waits(item: Bridge, start: int, replies: seq<Reply>,
                                         parse: string -> Result<JsValue>, elapsed: int, waits: nat)
    requires SleepsFrom(start + elapsed, WakeTimes(replies, parse))
    requires LinkButtonWait * waits <= elapsed && waits <= 24
    ensures Pairing(item, start, replies, parse, elapsed, waits).waits <= 24
    decreases |replies|
  {
    if elapsed < PairingWindow && replies != [] && replies[0].Body? && Classify(replies[0].text, parse) == Wait {
      var wokeAt := replies[0].wokeAt;
      var rest := WakeTimes(replies[1..], parse);
      assert WakeTimes(replies, parse) == [wokeAt] + rest;
      assert ([wokeAt] + rest)[1..] == rest;
      assert wokeAt >= start + elapsed + LinkButtonWait && SleepsFrom(wokeAt, rest);
      assert waits < 24;
      AtMost24Waits(item, start, replies[1..], parse, wokeAt - start, waits + 1);
      WaitStep(item, start, replies, parse, elapsed, waits);
    } else if elapsed < PairingWindow && replies != [] && replies[0].Body? && Classify(replies[0].text, parse) == Retry {
      assert WakeTimes(replies, parse) == WakeTimes(replies[1..], parse);
      AtMost24Waits(item, start, replies[1..], parse, elapsed, waits);
      RetryStep(item, start, replies, parse, elapsed, waits);
    } else {
      FinalStep(item, start, replies, parse, elapsed, waits);
    }
  }

  /** The bound from the start of `postAccount`. */
  lemma PairingWaitsBounded(item: Bridge, start: int, replies: seq<Reply>, parse: string -> Result<JsValue>)
    requires SleepsFrom(start, WakeTimes(replies, parse))
    ensures Pairing(item, start, replies, parse, 0, 0).waits <= 24
  {
    AtMost24Waits(item, start, replies, parse, 0, 0);
  }

  /**
   * Replies that are all empty or unparseable never advance `elapsed`: the loop does not
   * time out on them, it keeps polling.
   */
  lemma {:induction false} GarbledRepliesNeverTimeOut(item: Bridge, start: int, replies: seq<Reply>,
                                                       parse: string -> Result<JsValue>, elapsed: int, waits: nat)
    requires elapsed < PairingWindow
    requires forall k :: 0 <= k < |replies| ==> replies[k].Body? && Classify(replies[k].text, parse) == Retry
    ensures Pairing(item, start, replies, parse, elapsed, waits) == PairRun(StillPolling(elapsed), waits)
  {
    if replies != [] {
      assert forall k :: 0 <= k < |replies[1..]| ==> replies[1..][k] == replies[k + 1];
      GarbledRepliesNeverTimeOut(item, start, replies[1..], parse, elapsed, waits);
    }
  }

  /**
   * A bridge whose button is never pressed, with the clock reading exactly 5000 ms more
   * after each wait, ends the loop normally after exactly 24 waits, without an error.
   */
  lemma {:induction false} NeverPressedTimesOut(item: Bridge, start: int, replies: seq<Reply>,
                                                parse: string -> Result<JsValue>, done: nat)
    requires done <= 24 && |replies| >= 24 - done
    requires forall k :: 0 <= k < |replies| ==>
      replies[k].Body? && Classify(replies[k].text, parse) == Wait &&
      replies[k].wokeAt == start + LinkButtonWait * (done + k + 1)
    ensures Pairing(item, start, replies, parse, LinkButtonWait * done, done) == PairRun(TimedOut, 24)
    decreases 24 - done
  {
    if done < 24 {
      assert replies[0].wokeAt - start == LinkButtonWait * (done + 1);
      assert forall k :: 0 <= k < |replies[1..]| ==> replies[1..][k] == replies[k + 1];
      NeverPressedTimesOut(item, start, replies[1..], parse, done + 1);
      WaitStep(item, start, replies, parse, LinkButtonWait * done, done);
    }
  }

  /**
   * Three "link button not pressed" replies and then a success: the record is paired with
   * the issued username after exactly three waits.
   */
  lemma ThreeWaitsThenSuccess(item: Bridge, start: int, parse: string -> Result<JsValue>,
                              pending: string, granted: string, username: JsValue)
    requires Classify(pending, parse) == Wait && Classify(granted, parse) == Succeed(username)
    ensures var replies := [Body(pending, start + 5000), Body(pending, start + 10000),
                            Body(pending, start + 15000), Body(granted, start + 20000)];
      Pairing(item, start, replies, parse, 0, 0) == PairRun(Paired(item.(account := username)), 3)
  {
    var replies := [Body(pending, start + 5000), Body(pending, start + 10000),
                    Body(pending, start + 15000), Body(granted, start + 20000)];
    var p := PairRun(Paired(item.(account := username)), 3);
    assert Pairing(item, start, replies[3..], parse, 15000, 3) == p;
    assert Pairing(item, start, replies[2..], parse, 10000, 2) == p by {
      assert replies[2..][1..] == replies[3..];
    }
    assert Pairing(item, start, replies[1..], parse, 5000, 1) == p by {
      assert replies[1..][1..] == replies[2..];
    }
    assert Pairing(item, start, replies, parse, 0, 0) == p by {
      assert replies[1..] == replies[1..];
    }
  }

  // ---------------------------------------------------------------------------
  // How the bridge's replies are read

  /** `res[0]` on an array. */
  lemma FirstItem(items: seq<JsValue>)
    ensures GetProperty(Arr(items), "0") == if |items| > 0 then Ok(items[0]) else Ok(Undefined)
  {
    assert "0" != "length";
    assert ParseIndex("0") == Some(0);
  }

  /** `[{"error": {"type": 101, ...}}]` asks the loop to wait. */
  lemma LinkButtonReplyWaits(rest: Props)
    ensures ClassifyParsed(Arr([Obj([("error", Obj([("type", Number(101.0))] + rest))])])) == Wait
  {
    var err := Obj([("type", Number(101.0))] + rest);
    var first := Obj([("error", err)]);
    FirstItem([first]);
    assert GetProperty(first, "error") == Ok(err);
    assert GetProperty(err, "type") == Ok(Number(101.0));
  }

  /** `[{"success": {"username": u}}]` yields `u`. */
  lemma SuccessReplyYieldsUsername(u: JsValue)
    ensures ClassifyParsed(Arr([Obj([("success", Obj([("username", u)]))])])) == Succeed(u)
  {
    var success := Obj([("username", u)]);
    var first := Obj([("success", success)]);
    FirstItem([first]);
    assert GetProperty(first, "error") == Ok(Undefined);
    assert GetProperty(first, "success") == Ok(success);
    assert GetProperty(success, "username") == Ok(u);
  }

  /** An empty array fails on `res[0].error` with a `TypeError`. */
  lemma EmptyReplyThrows()
    ensures ClassifyParsed(Arr([])) == Throw(TypeError)
  {
    FirstItem([]);
  }

  /** An error of another type than 101 ends in the explicit `throw`. */
  lemma OtherErrorThrows(t: real)
    requires t != 101.0
    ensures ClassifyParsed(Arr([Obj([("error", Obj([("type", Number(t))]))])])) == Throw(Thrown(PairingFailedMessage))
  {
    var err := Obj([("type", Number(t))]);
    var first := Obj([("error", err)]);
    FirstItem([first]);
    assert GetProperty(first, "error") == Ok(err);
    assert GetProperty(err, "type") == Ok(Number(t));
    assert GetProperty(first, "success") == Ok(Undefined);
  }

  /** A `null` error passes the `typeof` test and then fails on `.type`. */
  lemma NullErrorThrows()
    ensures ClassifyParsed(Arr([Obj([("error", Null)])])) == Throw(TypeError)
  {
    var first := Obj([("error", Null)]);
    FirstItem([first]);
    assert GetProperty(first, "error") == Ok(Null);
  }
}
