/** The sensor loop of the firmware: every 2 s it reads temperature and
    humidity and keeps the last valid pair; every 5 min it publishes the kept
    pair. Times are `millis()` values, 32-bit unsigned integers that wrap. */
module Sht30 {
  import opened Common

  newtype u32 = x: int | 0 <= x < 0x1_0000_0000

  const ReadInterval: u32 := 2000
  const PublishInterval: u32 := 300000

  /** `now - since` in `unsigned long` arithmetic: the difference modulo 2^32. */
  function Elapsed(now: u32, since: u32): u32
  {
    ((now as int - since as int) % 0x1_0000_0000) as u32
  }

  /** The elapsed time is the forward distance from `since` to `now` on the
      32-bit clock: adding it to `since` gives `now` modulo 2^32, and it is
      the plain difference when the clock has not wrapped in between. */
  lemma ElapsedForward(now: u32, since: u32)
    ensures (since as int + Elapsed(now, since) as int) % 0x1_0000_0000 == now as int
    ensures now >= since ==> Elapsed(now, since) as int == now as int - since as int
    ensures now < since ==> Elapsed(now, since) as int == now as int - since as int + 0x1_0000_0000
  {
    if now < since {
      DivUnique(now as int - since as int, 0x1_0000_0000, -1, now as int - since as int + 0x1_0000_0000);
      DivUnique(since as int + Elapsed(now, since) as int, 0x1_0000_0000, 1, now as int);
    } else {
      DivUnique(now as int - since as int, 0x1_0000_0000, 0, now as int - since as int);
    }
  }

  /** A `float` the sensor returns: NaN or a number. */
  datatype Sample = NaN | Value(x: real)

  /** The four module-level variables of the handler. */
  datatype State = State(lastReadTime: u32, lastPublishTime: u32, sensorTemperature: real, sensorHumidity: real)

  /** The state after one call and the pair it published, if any. */
  datatype StepResult = StepResult(next: State, published: Option<(real, real)>)

  predicate ReadDue(s: State, now: u32) {
    Elapsed(now, s.lastReadTime) >= ReadInterval
  }

  predicate PublishDue(s: State, now: u32) {
    Elapsed(now, s.lastPublishTime) >= PublishInterval
  }

  /** The read step: when due, restart the read timer and keep the pair if
      both samples are numbers. */
  function AfterRead(s: State, now: u32, t: Sample, h: Sample): State
  {
    if !ReadDue(s, now) then s
    else if t.Value? && h.Value? then State(now, s.lastPublishTime, t.x, h.x)
    else s.(lastReadTime := now)
  }

  /** One call of `updateSHT30Data()` at time `now`; `t` and `h` are what the
      sensor would return if it is read. */
  function Step(s: State, now: u32, t: Sample, h: Sample): StepResult
  {
    var r := AfterRead(s, now, t, h);
    if PublishDue(s, now) then
      StepResult(r.(lastPublishTime := now), Some((r.sensorTemperature, r.sensorHumidity)))
    else StepResult(r, None)
  }

  /** A read happens exactly when 2000 ms have elapsed since the last one, and
      then the read timer restarts at `now`. */
  lemma ReadIff(s: State, now: u32, t: Sample, h: Sample)
    ensures Step(s, now, t, h).next.lastReadTime == (if Elapsed(now, s.lastReadTime) >= 2000 then now else s.lastReadTime)
  {
  }

  /** The kept pair changes only on a due read whose samples are both numbers;
      after a failed read the previous pair stays. */
  lemma KeepsLastValid(s: State, now: u32, t: Sample, h: Sample)
    ensures var n := Step(s, now, t, h).next;
      if ReadDue(s, now) && t.Value? && h.Value? then n.sensorTemperature == t.x && n.sensorHumidity == h.x
      else n.sensorTemperature == s.sensorTemperature && n.sensorHumidity == s.sensorHumidity
  {
  }

  /** A publish happens exactly when 300000 ms have elapsed since the last one,
      and then the publish timer restarts at `now`. */
  lemma PublishIff(s: State, now: u32, t: Sample, h: Sample)
    ensures Step(s, now, t, h).published.Some? <==> Elapsed(now, s.lastPublishTime) >= 300000
    ensures Step(s, now, t, h).next.lastPublishTime == (if Elapsed(now, s.lastPublishTime) >= 300000 then now else s.lastPublishTime)
  {
  }

  /** The published pair is the kept pair after the read, so a valid reading
      taken in the same call is the one published. */
  lemma PublishesKeptPair(s: State, now: u32, t: Sample, h: Sample)
    requires PublishDue(s, now)
    ensures Step(s, now, t, h).published ==
      Some((Step(s, now, t, h).next.sensorTemperature, Step(s, now, t, h).next.sensorHumidity))
    ensures ReadDue(s, now) && t.Value? && h.Value? ==> Step(s, now, t, h).published == Some((t.x, h.x))
    ensures !(ReadDue(s, now) && t.Value? && h.Value?) ==>
      Step(s, now, t, h).published == Some((s.sensorTemperature, s.sensorHumidity))
  {
  }

  /** When neither interval has elapsed nothing changes and nothing is published. */
  lemma QuietStep(s: State, now: u32, t: Sample, h: Sample)
    requires Elapsed(now, s.lastReadTime) < 2000 && Elapsed(now, s.lastPublishTime) < 300000
    ensures Step(s, now, t, h) == StepResult(s, None)
  {
  }

  /** Calling again at the same instant does nothing: each timer was either
      not due and is still not due, or was just restarted at `now`. */
  lemma SameInstantQuiet(s: State, now: u32, t: Sample, h: Sample, t': Sample, h': Sample)
    ensures Step(Step(s, now, t, h).next, now, t', h') == StepResult(Step(s, now, t, h).next, None)
  {
    var n := Step(s, now, t, h).next;
    assert Elapsed(now, now) == 0;
    QuietStep(n, now, t', h');
  }

  class Sht30Handler {
    var lastReadTime: u32
    var lastPublishTime: u32
    var sensorTemperature: real
    var sensorHumidity: real
    /** Every pair handed to `publishMeasurement`, oldest first. */
    ghost var published: seq<(real, real)>

    function Current(): State
      reads this
    {
      State(lastReadTime, lastPublishTime, sensorTemperature, sensorHumidity)
    }

    /** The static initial values (0 ms, 0 °C, 0 %) followed by the
        successful `initSHT30()`, which sets `lastReadTime = millis()`. */
    constructor Init(now: u32)
      ensures Current() == State(now, 0, 0.0, 0.0) && published == []
    {
      lastReadTime := now;
      lastPublishTime := 0;
      sensorTemperature := 0.0;
      sensorHumidity := 0.0;
      published := [];
    }

    /** `updateSHT30Data()` at `currentTime`; `t` and `h` are what
        `readTemperature()` and `readHumidity()` return if called. */
    method Update(currentTime: u32, t: Sample, h: Sample)
      modifies this
      ensures Current() == Step(old(Current()), currentTime, t, h).next
      ensures published == old(published) +
        (match Step(old(Current()), currentTime, t, h).published
         case None => []
         case Some(p) => [p])
    {
      if Elapsed(currentTime, lastReadTime) >= ReadInterval {
        lastReadTime := currentTime;
        if t.Value? && h.Value? {
          sensorTemperature := t.x;
          sensorHumidity := h.x;
        }
      }
      if Elapsed(currentTime, lastPublishTime) >= PublishInterval {
        lastPublishTime := currentTime;
        published := published + [(sensorTemperature, sensorHumidity)];
      }
    }
  }

  /** The first call after start-up publishes at once when `millis()` has
      passed 300000 ms, and the first read waits 2000 ms from `initSHT30()`. */
  lemma StartUp(now: u32, later: u32, t: Sample, h: Sample)
    ensures Step(State(now, 0, 0.0, 0.0), later, t, h).published.Some? <==> later >= 300000
    ensures ReadDue(State(now, 0, 0.0, 0.0), later) <==> Elapsed(later, now) >= 2000
  {
    ElapsedForward(later, 0);
  }

  /** Until the first valid read the kept pair is the static initial 0 °C and
      0 %, and a due publish sends it. */
  lemma PlaceholderPublished(now: u32, later: u32, t: Sample, h: Sample)
    requires later >= 300000 && !(t.Value? && h.Value?)
    ensures Step(State(now, 0, 0.0, 0.0), later, t, h).published == Some((0.0, 0.0))
  {
    StartUp(now, later, t, h);
  }
}
