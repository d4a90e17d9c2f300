/** The alert handler: a reading outside the allowed band produces one
    notification, published once to a topic; a publish failure is passed on to
    the caller. */
module Alerts {
  import opened Common
  import opened Text

  const MinTemperature: int := 8
  const MaxTemperature: int := 40

  datatype AlertType = Low | High

  /** The Finnish word the notification uses for the alert type. */
  function Label(t: AlertType): string
  {
    match t
    case Low => "MATALA"
    case High => "KORKEA"
  }

  /** `None` when `min <= temperature <= max`, otherwise the alert type. */
  function Classify(temperature: real): Option<AlertType>
  {
    if temperature < MinTemperature as real || temperature > MaxTemperature as real then
      Some(if temperature < MinTemperature as real then Low else High)
    else None
  }

  /** An alert goes out exactly outside `[8, 40]`; it is `MATALA` exactly below
      the band and `KORKEA` exactly above it. */
  lemma ClassifyIff(temperature: real)
    ensures Classify(temperature).Some? <==> temperature < 8.0 || temperature > 40.0
    ensures Classify(temperature) == Some(Low) <==> temperature < 8.0
    ensures Classify(temperature) == Some(High) <==> temperature > 40.0
  {
  }

  /** The template literal of the subject, piece by piece. */
  function SubjectPieces(t: AlertType, temperature: real): seq<string>
  {
    ["⚠️ Lämpötilahälytys: ", Fixed1(temperature), "°C (", Label(t), ")"]
  }

  /** `⚠️ Lämpötilahälytys: ${temperature.toFixed(1)}°C (${alertType})`. */
  function Subject(t: AlertType, temperature: real): string
  {
    Concat(SubjectPieces(t, temperature))
  }

  /** The template literal of the message, piece by piece, without the
      leading and trailing padding. */
  function MessagePieces(t: AlertType, deviceId: string, temperature: real, humidity: real, isoTime: string): seq<string>
  {
    ["LÄMPÖTILAHÄLYTYS!\n\nTyyppi: ", Label(t), " LÄMPÖTILA\nLaite: ", deviceId,
     "\nLämpötila: ", Fixed1(temperature), "°C\nKosteus: ", Fixed1(humidity),
     "%\nAika: ", isoTime, "\n\nHälytysrajat:\n- ",
     "Alaraja: " + IntToString(MinTemperature) + "°C", "\n- ",
     "Yläraja: " + IntToString(MaxTemperature) + "°C"]
  }

  /** The message as the template literal produces it, before `.trim()`: it
      opens with a line break and closes with a line break and four spaces. */
  function MessageTemplate(t: AlertType, deviceId: string, temperature: real, humidity: real, isoTime: string): string
  {
    "\n" + Concat(MessagePieces(t, deviceId, temperature, humidity, isoTime)) + "\n    "
  }

  function Message(t: AlertType, deviceId: string, temperature: real, humidity: real, isoTime: string): string
  {
    Trim(MessageTemplate(t, deviceId, temperature, humidity, isoTime))
  }

  /** `.trim()` removes only the template's padding. */
  lemma MessageTrimmed(t: AlertType, deviceId: string, temperature: real, humidity: real, isoTime: string)
    ensures Message(t, deviceId, temperature, humidity, isoTime) ==
      Concat(MessagePieces(t, deviceId, temperature, humidity, isoTime))
  {
    var pieces := MessagePieces(t, deviceId, temperature, humidity, isoTime);
    ConcatFirst(pieces);
    ConcatLast(pieces);
    TrimPadded("\n", Concat(pieces), "\n    ");
  }

  datatype Notification = Notification(subject: string, message: string)

  /** What the handler decides for a reading: nothing, one notification, or the
      `RangeError` that `new Date(timestamp).toISOString()` throws for a time
      value beyond ±8.64e15 ms. `isoTime` stands for that ISO rendering. */
  datatype Decision = InRange | Publish(notification: Notification) | Throws(error: Failure)

  function Evaluate(event: Measurement, isoTime: string): Decision
  {
    match Classify(event.temperature)
    case None => InRange
    case Some(t) =>
      if !ValidTimeValue(event.timestamp) then
        Throws(ErrorObject("Invalid time value"))
      else
        Publish(Notification(Subject(t, event.temperature),
                             Message(t, event.deviceId, event.temperature, event.humidity, isoTime)))
  }

  /** The subject names the temperature to one decimal and the alert type. */
  lemma SubjectContents(t: AlertType, temperature: real)
    ensures Contains(Subject(t, temperature), Fixed1(temperature))
    ensures Contains(Subject(t, temperature), Label(t))
  {
    ConcatContains(SubjectPieces(t, temperature), 1);
    ConcatContains(SubjectPieces(t, temperature), 3);
  }

  /** The two limit lines render the constants as `8` and `40`. */
  lemma LimitLines()
    ensures "Alaraja: " + IntToString(MinTemperature) + "°C" == "Alaraja: 8°C"
    ensures "Yläraja: " + IntToString(MaxTemperature) + "°C" == "Yläraja: 40°C"
  {
    assert NatToString(8) == "8";
    assert NatToString(4) == "4" && DigitChar(0) == '0';
    assert NatToString(40) == "40";
  }

  /** The message names the alert type, the device, the temperature, the
      humidity, the time and both limits. */
  lemma MessageContents(t: AlertType, deviceId: string, temperature: real, humidity: real, isoTime: string)
    ensures var m := Message(t, deviceId, temperature, humidity, isoTime);
      Contains(m, Label(t)) && Contains(m, deviceId) && Contains(m, Fixed1(temperature)) &&
      Contains(m, Fixed1(humidity)) && Contains(m, isoTime) &&
      Contains(m, "Alaraja: 8°C") && Contains(m, "Yläraja: 40°C")
  {
    MessageTrimmed(t, deviceId, temperature, humidity, isoTime);
    var pieces := MessagePieces(t, deviceId, temperature, humidity, isoTime);
    LimitLines();
    ConcatContains(pieces, 1);
    ConcatContains(pieces, 3);
    ConcatContains(pieces, 5);
    ConcatContains(pieces, 7);
    ConcatContains(pieces, 9);
    ConcatContains(pieces, 11);
    ConcatContains(pieces, 13);
  }

  /** A notification topic: what it has delivered, every publish attempt made
      on it, and whether the next publish succeeds or fails with `failure`. */
  class Topic {
    var delivered: seq<Notification>
    ghost var attempts: nat
    var reachable: bool
    var failure: Failure

    constructor (reachable: bool, failure: Failure)
      ensures this.delivered == [] && this.attempts == 0
      ensures this.reachable == reachable && this.failure == failure
    {
      this.delivered := [];
      this.attempts := 0;
      this.reachable := reachable;
      this.failure := failure;
    }

    /** `snsClient.send(new PublishCommand(...))`: `None` when the topic took the
        notification, `Some(failure)` when the call threw. */
    method Publish(n: Notification) returns (error: Option<Failure>)
      modifies this
      ensures attempts == old(attempts) + 1
      ensures reachable == old(reachable) && failure == old(failure)
      ensures old(reachable) ==> error == None && delivered == old(delivered) + [n]
      ensures !old(reachable) ==> error == Some(old(failure)) && delivered == old(delivered)
    {
      attempts := attempts + 1;
      if reachable {
        delivered := delivered + [n];
        error := None;
      } else {
        error := Some(failure);
      }
    }
  }

  /** How an invocation ends: normally, or by throwing. */
  datatype Completion = Returned | Threw(error: Failure)

  /** `handler(event)`. At most one publish; none when the reading is in range
      or its time cannot be rendered; a publish failure is re-thrown unchanged. */
  method Handler(topic: Topic, event: Measurement, isoTime: string) returns (result: Completion)
    modifies topic
    ensures topic.reachable == old(topic.reachable) && topic.failure == old(topic.failure)
    ensures match Evaluate(event, isoTime)
      case InRange =>
        result == Returned && topic.delivered == old(topic.delivered) && topic.attempts == old(topic.attempts)
      case Throws(e) =>
        result == Threw(e) && topic.delivered == old(topic.delivered) && topic.attempts == old(topic.attempts)
      case Publish(n) =>
        topic.attempts == old(topic.attempts) + 1 &&
        (old(topic.reachable) ==> result == Returned && topic.delivered == old(topic.delivered) + [n]) &&
        (!old(topic.reachable) ==> result == Threw(old(topic.failure)) && topic.delivered == old(topic.delivered))
  {
    match Evaluate(event, isoTime)
    case InRange =>
      result := Returned;
    case Throws(e) =>
      result := Threw(e);
    case Publish(n) =>
      var error := topic.Publish(n);
      if error.Some? {
        result := Threw(error.value);
      } else {
        result := Returned;
      }
  }

  /** Only readings outside the band are ever published, with the subject and
      message built from the reading. */
  lemma EvaluatePublishes(event: Measurement, isoTime: string)
    ensures Evaluate(event, isoTime).Publish? ==>
      (event.temperature < 8.0 || event.temperature > 40.0) &&
      Contains(Evaluate(event, isoTime).notification.subject, Fixed1(event.temperature)) &&
      Contains(Evaluate(event, isoTime).notification.message, event.deviceId) &&
      Contains(Evaluate(event, isoTime).notification.message, isoTime)
    ensures (event.temperature < 8.0 || event.temperature > 40.0) && ValidTimeValue(event.timestamp) ==>
      Evaluate(event, isoTime).Publish?
    ensures (event.temperature < 8.0 || event.temperature > 40.0) && !ValidTimeValue(event.timestamp) ==>
      Evaluate(event, isoTime) == Throws(ErrorObject("Invalid time value"))
    ensures 8.0 <= event.temperature <= 40.0 ==> Evaluate(event, isoTime) == InRange
  {
    match Classify(event.temperature)
    case None =>
    case Some(t) =>
      SubjectContents(t, event.temperature);
      MessageContents(t, event.deviceId, event.temperature, event.humidity, isoTime);
  }
}
