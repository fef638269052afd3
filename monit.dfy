/**
 * The redis watchdog worker of bin/monit.js: one `errorCode` variable, reset by
 * every `connect` of the redis client and overwritten by every `error` whose
 * code differs from it, decides whether the mailer process is told about an
 * error. The mail itself (the master process) is not part of this model.
 */
module Monit {
  import opened Wrappers

  /** `err.code` as the handler sees it: a string code, or `undefined`; `errorCode` also starts as `null`. */
  datatype Code = NullCode | UndefinedCode | Named(name: string)

  /** The two events of the redis client the worker listens to. */
  datatype Event = Connect | Error(code: Code)

  /** The message sent to the master: its title, and the code of the error it reports. */
  datatype Alert = Alert(title: string, code: Code)

  /** The worker after one event: the new `errorCode` and the message sent, if any. */
  datatype Reaction = Reaction(errorCode: Code, alert: Option<Alert>)

  /** `a != b` in JavaScript for these values: `null` and `undefined` are loosely equal to each other only. */
  predicate LooseDiffers(a: Code, b: Code) {
    match (a, b)
    case (Named(x), Named(y)) => x != y
    case (Named(_), _) => true
    case (_, Named(_)) => true
    case (_, _) => false
  }

  /** The title for refused connections. */
  const RefusedTitle: string := "\U{6D88}\U{606F}\U{63A8}\U{9001}\U{7CFB}\U{7EDF}-\U{65E0}\U{6CD5}\U{8FDE}\U{63A5}redis\U{670D}\U{52A1}\U{5668}"

  /** The title for every other redis error. */
  const FaultTitle: string := "\U{6D88}\U{606F}\U{63A8}\U{9001}\U{7CFB}\U{7EDF}-redis\U{670D}\U{52A1}\U{5668}\U{5F02}\U{5E38}"

  /** `errorCode === 'ECONNREFUSED' ? … : …`, read after `errorCode` took the new code. */
  function Title(code: Code): string {
    if code == Named("ECONNREFUSED") then RefusedTitle else FaultTitle
  }

  /** The `connect` and `error` handlers (bin/monit.js:36-47). */
  function React(errorCode: Code, e: Event): Reaction {
    match e
    case Connect => Reaction(NullCode, None)
    case Error(code) =>
      if LooseDiffers(errorCode, code) then Reaction(code, Some(Alert(Title(code), code)))
      else Reaction(errorCode, None)
  }

  /** The `errorCode` after a run of events. */
  function Final(start: Code, events: seq<Event>): Code
    decreases |events|
  {
    if events == [] then start else React(Final(start, events[..|events| - 1]), events[|events| - 1]).errorCode
  }

  /** Every message sent during a run of events, oldest first. */
  function Alerts(start: Code, events: seq<Event>): seq<Alert>
    decreases |events|
  {
    if events == [] then []
    else
      var init := events[..|events| - 1];
      var r := React(Final(start, init), events[|events| - 1]);
      Alerts(start, init) + (if r.alert.Some? then [r.alert.value] else [])
  }

  /** The worker process's state. */
  class Watchdog {
    var errorCode: Code
    /** Every message sent to the master, oldest first. */
    var sent: seq<Alert>

    /** `var errorCode = null` before any event. */
    constructor ()
      ensures errorCode == NullCode && sent == []
    {
      errorCode := NullCode;
      sent := [];
    }

    /** `redisClient.on('connect', …)` (bin/monit.js:36-38). */
    method OnConnect()
      modifies this
      ensures errorCode == React(old(errorCode), Connect).errorCode && sent == old(sent)
    {
      errorCode := NullCode;
    }

    /** `redisClient.on('error', …)` (bin/monit.js:39-47), `code` being `err.code`. */
    method OnError(code: Code)
      modifies this
      ensures var r := React(old(errorCode), Error(code));
        errorCode == r.errorCode && sent == old(sent) + (if r.alert.Some? then [r.alert.value] else [])
    {
      if LooseDiffers(errorCode, code) {
        errorCode := code;
        sent := sent + [Alert(Title(errorCode), code)];
      }
    }
  }

  // ===== lemmas

  /**
   * An error is reported exactly when its code differs loosely from
   * `errorCode`, which then becomes that code; otherwise nothing changes.
   */
  lemma ReportedIffDiffers(errorCode: Code, code: Code)
    ensures React(errorCode, Error(code)).alert.Some? <==> LooseDiffers(errorCode, code)
    ensures LooseDiffers(errorCode, code) ==> React(errorCode, Error(code)).errorCode == code
    ensures !LooseDiffers(errorCode, code) ==> React(errorCode, Error(code)).errorCode == errorCode
  {
  }

  /** The refusal title is chosen exactly for the code `ECONNREFUSED`. */
  lemma TitleChoice(errorCode: Code, code: Code)
    requires LooseDiffers(errorCode, code)
    ensures React(errorCode, Error(code)).alert.value.title == RefusedTitle <==> code == Named("ECONNREFUSED")
  {
    assert RefusedTitle != FaultTitle by {
      assert RefusedTitle[7] != FaultTitle[7];
    }
  }

  /** The events `[Error(code)] * n`. */
  function Repeated(code: Code, n: nat): (r: seq<Event>)
    ensures |r| == n && forall i :: 0 <= i < n ==> r[i] == Error(code)
  {
    seq(n, i => Error(code))
  }

  /** After one error, any number of further errors with the same code report nothing. */
  lemma {:induction false} RepeatsSilent(start: Code, code: Code, n: nat)
    ensures Alerts(React(start, Error(code)).errorCode, Repeated(code, n)) == []
    ensures Final(React(start, Error(code)).errorCode, Repeated(code, n)) == React(start, Error(code)).errorCode
  {
    if n > 0 {
      assert Repeated(code, n)[..n - 1] == Repeated(code, n - 1);
      RepeatsSilent(start, code, n - 1);
    }
  }

  /** A connect resets `errorCode`, so the next error with a string code is reported again. */
  lemma ConnectRearms(start: Code, events: seq<Event>, name: string)
    ensures var run := events + [Connect, Error(Named(name))];
      |Alerts(start, run)| == |Alerts(start, events)| + 1 &&
      Alerts(start, run)[|Alerts(start, events)|] == Alert(Title(Named(name)), Named(name))
  {
    var run := events + [Connect, Error(Named(name))];
    assert run[..|run| - 1] == events + [Connect];
    assert (events + [Connect])[..|events|] == events;
  }

  /** Right after `null` (the start, or a connect), an error without a code is not reported. */
  lemma UndefinedAfterNullSilent(events: seq<Event>)
    requires events == [] || events[|events| - 1] == Connect
    ensures Alerts(NullCode, events + [Error(UndefinedCode)]) == Alerts(NullCode, events)
  {
    var run := events + [Error(UndefinedCode)];
    assert run[..|run| - 1] == events;
  }
}
