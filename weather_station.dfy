/**
 * `WeatherStation` (src/weather_station.cpp): the scheduler that ties the
 * clients together.  Four hardware timers give binary semaphores; each
 * `loop` takes them, turns them into bits of the 16-bit `tasks` set, reads
 * the sensors whose bits are set, and, once Wi-Fi is up, runs the publisher
 * and starts the time update, the weather update and the MQTT push whose
 * bits are set.  Every bit is cleared just before its work starts; the
 * time and weather callbacks set their bit again on failure.
 *
 * The collaborators are parameters: the sensors' `measure` results and
 * `enabled()` flags, `isConnected()`, the RSSI, the answer an update's
 * callback gives before `update` returns, and TimeLib's `now()`.  The ghost
 * fields record what the station asks of the collaborators: display
 * frames, humidity compensations, update requests, publisher loops and the
 * payloads published.
 */
module Station {
  import opened Wrappers
  import Wireless
  import WundergroundClient
  import WundergroundConditions

  type Tasks = bv16

  const Idle: Tasks := 0
  const UpdateDateAndTime: Tasks := 1
  const UpdateWeatherReport: Tasks := 2
  const UpdateEnvironmentSensor: Tasks := 4
  const UpdateAirQualitySensor: Tasks := 8
  const PushTemperature: Tasks := 16

  /** Every flag, as `onConnectedToWireless` sets them. */
  const AllTasks: Tasks := UpdateDateAndTime | UpdateWeatherReport | UpdateEnvironmentSensor | UpdateAirQualitySensor | PushTemperature

  /** Whether `flag` is set in `t`: `t & flag` in the source's conditions. */
  predicate Has(t: Tasks, flag: Tasks)
  {
    t & flag != 0
  }

  /** The `tasks` bits after the timer semaphores taken in one `loop` have set their flags. */
  function Raised(t: Tasks, superShort: bool, short: bool, medium: bool, long: bool): Tasks
  {
    var t1 := if superShort then t | UpdateEnvironmentSensor | UpdateAirQualitySensor else t;
    var t2 := if short then t1 | PushTemperature else t1;
    var t3 := if medium then t2 | UpdateWeatherReport else t2;
    if long then t3 | UpdateDateAndTime else t3
  }

  /**
   * Each timer sets its own flags and no other: the 10 s timer the two
   * sensor flags, 60 s the push, 5 min the weather report and 1 h the time.
   */
  lemma RaisedFlags(t: Tasks, superShort: bool, short: bool, medium: bool, long: bool)
    ensures var r := Raised(t, superShort, short, medium, long);
      && (Has(r, UpdateEnvironmentSensor) <==> Has(t, UpdateEnvironmentSensor) || superShort)
      && (Has(r, UpdateAirQualitySensor) <==> Has(t, UpdateAirQualitySensor) || superShort)
      && (Has(r, PushTemperature) <==> Has(t, PushTemperature) || short)
      && (Has(r, UpdateWeatherReport) <==> Has(t, UpdateWeatherReport) || medium)
      && (Has(r, UpdateDateAndTime) <==> Has(t, UpdateDateAndTime) || long)
      && r & !AllTasks == t & !AllTasks
  {
  }

  /** `Sensors::Environment::Measurement`. */
  datatype EnvironmentMeasurement = EnvironmentMeasurement(temperature: real, pressure: real, humidity: real)

  /** `Sensors::AirQuality::Measurement`: two `uint16_t` readings. */
  datatype AirQualityMeasurement = AirQualityMeasurement(eCo2: nat, tVoc: nat)

  /** The display frames the station adds. */
  datatype Frame = IndoorSensors | TimeAndDate | WeatherReport

  /** A JSON value in the MQTT payload. */
  datatype Value = Count(n: int) | Reading(r: real)

  /** One member of the payload object, in insertion order. */
  datatype Field = Field(key: string, value: Value)

  /**
   * The payload object of the push: the time, then the environment readings
   * when that sensor is enabled, then the air quality readings when that
   * one is.
   */
  function Payload(time: int, envEnabled: bool, env: EnvironmentMeasurement,
                   aqEnabled: bool, aq: AirQualityMeasurement): seq<Field>
  {
    [Field("time", Count(time))]
    + (if envEnabled then [Field("temperature", Reading(env.temperature)), Field("humidity", Reading(env.humidity)),
                           Field("pressure", Reading(env.pressure))] else [])
    + (if aqEnabled then [Field("eco2", Count(aq.eCo2)), Field("tvoc", Count(aq.tVoc))] else [])
  }

  /** The keys of a payload, in order. */
  function Keys(p: seq<Field>): (ks: seq<string>)
    ensures |ks| == |p| && forall i :: 0 <= i < |p| ==> ks[i] == p[i].key
  {
    seq(|p|, i requires 0 <= i < |p| => p[i].key)
  }

  /**
   * The payload always starts with the time; the environment keys appear
   * exactly when that sensor is enabled, the air quality keys exactly when
   * that one is, and no key appears twice.
   */
  lemma PayloadKeys(time: int, envEnabled: bool, env: EnvironmentMeasurement,
                    aqEnabled: bool, aq: AirQualityMeasurement)
    ensures var p := Payload(time, envEnabled, env, aqEnabled, aq);
      && p[0] == Field("time", Count(time))
      && |p| == 1 + (if envEnabled then 3 else 0) + (if aqEnabled then 2 else 0)
      && ("temperature" in Keys(p) <==> envEnabled) && ("humidity" in Keys(p) <==> envEnabled)
      && ("pressure" in Keys(p) <==> envEnabled)
      && ("eco2" in Keys(p) <==> aqEnabled) && ("tvoc" in Keys(p) <==> aqEnabled)
      && forall i, j :: 0 <= i < j < |p| ==> Keys(p)[i] != Keys(p)[j]
  {
    var p := Payload(time, envEnabled, env, aqEnabled, aq);
    var ks := Keys(p);
    var e: seq<string> := if envEnabled then ["temperature", "humidity", "pressure"] else [];
    var a: seq<string> := if aqEnabled then ["eco2", "tvoc"] else [];
    assert ks == ["time"] + e + a;
  }

  class WeatherStation {
    var tasks: Tasks
    /** The four timer semaphores. */
    var superShortToken: bool
    var shortToken: bool
    var mediumToken: bool
    var longToken: bool
    var environmentMeasurement: EnvironmentMeasurement
    var airQualityMeasurement: AirQualityMeasurement
    /** The Wi-Fi quality handed to the display. */
    var wifiQuality: int
    var conditions: WundergroundClient.Report
    ghost var frames: seq<Frame>
    ghost var compensations: seq<real>
    ghost var baseline: Option<AirQualityMeasurement>
    ghost var timeRequests: nat
    ghost var weatherRequests: nat
    ghost var wifiLoops: nat
    ghost var publisherLoops: nat
    ghost var published: seq<seq<Field>>

    /** Only the five flags are ever set. */
    ghost predicate Valid()
      reads this
    {
      tasks & !AllTasks == 0
    }

    constructor ()
      ensures Valid() && tasks == Idle
      ensures !superShortToken && !shortToken && !mediumToken && !longToken
      ensures frames == [] && published == [] && timeRequests == 0 && weatherRequests == 0
    {
      tasks := Idle;
      superShortToken, shortToken, mediumToken, longToken := false, false, false, false;
      environmentMeasurement := EnvironmentMeasurement(0.0, 0.0, 0.0);
      airQualityMeasurement := AirQualityMeasurement(0, 0);
      wifiQuality := 0;
      conditions := WundergroundClient.Report(WundergroundConditions.Observation(0.0, "", "", ""), []);
      frames, compensations, baseline := [], [], None;
      timeRequests, weatherRequests, wifiLoops, publisherLoops, published := 0, 0, 0, 0, [];
    }

    /**
     * `setup()`: the air quality baseline read from the store (each value 0
     * when absent) goes to the sensor only when both readings are positive;
     * the `tasks` set starts empty.
     */
    method Setup(storedECo2: nat, storedTVoc: nat)
      modifies this`tasks, this`baseline
      ensures Valid() && tasks == Idle
      ensures baseline == if storedECo2 > 0 && storedTVoc > 0 then Some(AirQualityMeasurement(storedECo2, storedTVoc))
                          else old(baseline)
    {
      var measurement := AirQualityMeasurement(storedECo2, storedTVoc);
      if measurement.eCo2 > 0 && measurement.tVoc > 0 {
        baseline := Some(measurement);
      }
      tasks := Idle;
    }

    /** `onConnectedToWireless()`: everything is due at once; the set is overwritten. */
    method OnConnectedToWireless()
      modifies this`tasks
      ensures Valid() && tasks == AllTasks
      ensures Has(tasks, UpdateDateAndTime) && Has(tasks, UpdateWeatherReport) && Has(tasks, UpdateEnvironmentSensor)
      ensures Has(tasks, UpdateAirQualitySensor) && Has(tasks, PushTemperature)
    {
      tasks := UpdateDateAndTime | UpdateWeatherReport | UpdateEnvironmentSensor | UpdateAirQualitySensor | PushTemperature;
    }

    /** The timer interrupts: each gives its semaphore. */
    method OnSuperShortIntervalTimer()
      modifies this`superShortToken
      ensures superShortToken
    {
      superShortToken := true;
    }

    method OnShortIntervalTimer()
      modifies this`shortToken
      ensures shortToken
    {
      shortToken := true;
    }

    method OnMediumIntervalTimer()
      modifies this`mediumToken
      ensures mediumToken
    {
      mediumToken := true;
    }

    method OnLongIntervalTimer()
      modifies this`longToken
      ensures longToken
    {
      longToken := true;
    }

    /** The NTP update's callback: success adds the time frame, failure asks for the update again. */
    method OnTimeUpdated(success: bool)
      requires Valid()
      modifies this`tasks, this`frames
      ensures Valid()
      ensures success ==> tasks == old(tasks) && frames == old(frames) + [TimeAndDate]
      ensures !success ==> tasks == old(tasks) | UpdateDateAndTime && frames == old(frames)
    {
      if success {
        frames := frames + [TimeAndDate];
      } else {
        tasks := tasks | UpdateDateAndTime;
      }
    }

    /** The weather update's callback: success keeps the conditions and adds the report frame, failure retries. */
    method OnWeatherUpdated(success: bool, report: WundergroundClient.Report)
      requires Valid()
      modifies this`tasks, this`frames, this`conditions
      ensures Valid()
      ensures success ==> conditions == report && tasks == old(tasks) && frames == old(frames) + [WeatherReport]
      ensures !success ==>
        conditions == old(conditions) && tasks == old(tasks) | UpdateWeatherReport && frames == old(frames)
    {
      if success {
        conditions := report;
        frames := frames + [WeatherReport];
      } else {
        tasks := tasks | UpdateWeatherReport;
      }
    }

    /** Takes the four semaphores and sets their flags. */
    method TakeTokens()
      requires Valid()
      modifies this`tasks, this`superShortToken, this`shortToken, this`mediumToken, this`longToken
      ensures Valid()
      ensures tasks == Raised(old(tasks), old(superShortToken), old(shortToken), old(mediumToken), old(longToken))
      ensures !superShortToken && !shortToken && !mediumToken && !longToken
    {
      RaisedFlags(tasks, superShortToken, shortToken, mediumToken, longToken);
      if superShortToken {
        superShortToken := false;
        tasks := tasks | UpdateEnvironmentSensor;
        tasks := tasks | UpdateAirQualitySensor;
      }
      if shortToken {
        shortToken := false;
        tasks := tasks | PushTemperature;
      }
      if mediumToken {
        mediumToken := false;
        tasks := tasks | UpdateWeatherReport;
      }
      if longToken {
        longToken := false;
        tasks := tasks | UpdateDateAndTime;
      }
    }

    /**
     * The environment step: with its flag set, the flag is cleared and a
     * successful measurement is kept, its humidity handed to the air
     * quality sensor and the indoor frame added.
     */
    method MeasureEnvironment(ok: bool, reading: EnvironmentMeasurement)
      requires Valid()
      modifies this`tasks, this`environmentMeasurement, this`compensations, this`frames
      ensures Valid()
      ensures tasks == old(tasks) & !UpdateEnvironmentSensor
      ensures Has(old(tasks), UpdateEnvironmentSensor) && ok ==>
        && environmentMeasurement == reading && compensations == old(compensations) + [reading.humidity]
        && frames == old(frames) + [IndoorSensors]
      ensures !(Has(old(tasks), UpdateEnvironmentSensor) && ok) ==>
        && environmentMeasurement == old(environmentMeasurement) && compensations == old(compensations)
        && frames == old(frames)
    {
      if tasks & UpdateEnvironmentSensor != 0 {
        tasks := tasks & !UpdateEnvironmentSensor;
        if ok {
          environmentMeasurement := reading;
          compensations := compensations + [environmentMeasurement.humidity];
          frames := frames + [IndoorSensors];
        }
      }
    }

    /** The air quality step: with its flag set, the flag is cleared and a successful measurement is kept. */
    method MeasureAirQuality(ok: bool, reading: AirQualityMeasurement)
      requires Valid()
      modifies this`tasks, this`airQualityMeasurement
      ensures Valid()
      ensures tasks == old(tasks) & !UpdateAirQualitySensor
      ensures airQualityMeasurement == if Has(old(tasks), UpdateAirQualitySensor) && ok then reading
                                       else old(airQualityMeasurement)
    {
      if tasks & UpdateAirQualitySensor != 0 {
        tasks := tasks & !UpdateAirQualitySensor;
        if ok {
          airQualityMeasurement := reading;
        }
      }
    }

    /**
     * The time step: with its flag set, the flag is cleared and the NTP
     * update is started; `answer` is what its callback reported before
     * `update` returned, if anything.
     */
    method UpdateTime(answer: Option<bool>)
      requires Valid()
      modifies this`tasks, this`frames, this`timeRequests
      ensures Valid()
      ensures tasks == TimeStep(old(tasks), answer == Some(false))
      ensures timeRequests == old(timeRequests) + if Has(old(tasks), UpdateDateAndTime) then 1 else 0
      ensures frames == old(frames) + if Has(old(tasks), UpdateDateAndTime) && answer == Some(true) then [TimeAndDate] else []
    {
      if tasks & UpdateDateAndTime != 0 {
        tasks := tasks & !UpdateDateAndTime;
        timeRequests := timeRequests + 1;
        if answer.Some? {
          OnTimeUpdated(answer.value);
        }
      }
    }

    /** The weather step: with its flag set, the flag is cleared and the synchronous update runs its callback. */
    method UpdateWeather(success: bool, report: WundergroundClient.Report)
      requires Valid()
      modifies this`tasks, this`frames, this`conditions, this`weatherRequests
      ensures Valid()
      ensures tasks == WeatherStep(old(tasks), success)
      ensures weatherRequests == old(weatherRequests) + if Has(old(tasks), UpdateWeatherReport) then 1 else 0
      ensures conditions == if Has(old(tasks), UpdateWeatherReport) && success then report else old(conditions)
      ensures frames == old(frames) + if Has(old(tasks), UpdateWeatherReport) && success then [WeatherReport] else []
    {
      if tasks & UpdateWeatherReport != 0 {
        tasks := tasks & !UpdateWeatherReport;
        weatherRequests := weatherRequests + 1;
        OnWeatherUpdated(success, report);
      }
    }

    /**
     * The push step: runs only with its flag set and some sensor enabled,
     * and clears the flag.  With the time synchronised the payload is
     * published; otherwise the flag is set again.
     */
    method Push(envEnabled: bool, aqEnabled: bool, synced: bool, now: int)
      requires Valid()
      modifies this`tasks, this`published
      ensures Valid()
      ensures tasks == PushStep(old(tasks), envEnabled || aqEnabled, synced)
      ensures published == old(published)
        + if Has(old(tasks), PushTemperature) && (envEnabled || aqEnabled) && synced
          then [Payload(now, envEnabled, environmentMeasurement, aqEnabled, airQualityMeasurement)] else []
    {
      if tasks & PushTemperature != 0 && (envEnabled || aqEnabled) {
        tasks := tasks & !PushTemperature;
        if synced {
          var root := [Field("time", Count(now))];
          if envEnabled {
            root := root + [Field("temperature", Reading(environmentMeasurement.temperature)),
                            Field("humidity", Reading(environmentMeasurement.humidity)),
                            Field("pressure", Reading(environmentMeasurement.pressure))];
          }
          if aqEnabled {
            root := root + [Field("eco2", Count(airQualityMeasurement.eCo2)), Field("tvoc", Count(airQualityMeasurement.tVoc))];
          }
          assert root == Payload(now, envEnabled, environmentMeasurement, aqEnabled, airQualityMeasurement);
          published := published + [root];
        } else {
          tasks := tasks | PushTemperature;
        }
      }
    }

    /** The sensor half of `loop`: Wi-Fi, the semaphores and the two measurements. */
    method Sense(link: bool, dbm: int,
                 envOk: bool, envReading: EnvironmentMeasurement, aqOk: bool, aqReading: AirQualityMeasurement)
      requires Valid()
      modifies this`tasks, this`superShortToken, this`shortToken, this`mediumToken, this`longToken,
        this`wifiLoops, this`wifiQuality, this`environmentMeasurement, this`airQualityMeasurement,
        this`compensations, this`frames
      ensures Valid()
      ensures !superShortToken && !shortToken && !mediumToken && !longToken
      ensures wifiQuality == Wireless.Quality(link, dbm) && wifiLoops == old(wifiLoops) + 1
      ensures var t := Raised(old(tasks), old(superShortToken), old(shortToken), old(mediumToken), old(longToken));
        && tasks == Measured(t)
        && environmentMeasurement == (if Has(t, UpdateEnvironmentSensor) && envOk then envReading else old(environmentMeasurement))
        && airQualityMeasurement == (if Has(t, UpdateAirQualitySensor) && aqOk then aqReading else old(airQualityMeasurement))
        && frames == old(frames) + (if Has(t, UpdateEnvironmentSensor) && envOk then [IndoorSensors] else [])
    {
      wifiLoops := wifiLoops + 1;
      wifiQuality := Wireless.Quality(link, dbm);
      TakeTokens();
      MeasureEnvironment(envOk, envReading);
      MeasureAirQuality(aqOk, aqReading);
    }

    /**
     * The network half of `loop`, run only with Wi-Fi up: the publisher's
     * loop, then the time, weather and push steps in that order.
     */
    method Dispatch(timeAnswer: Option<bool>, weatherOk: bool, report: WundergroundClient.Report,
                    envEnabled: bool, aqEnabled: bool, synced: bool, now: int)
      requires Valid()
      modifies this`tasks, this`frames, this`conditions, this`timeRequests, this`weatherRequests,
        this`published, this`publisherLoops
      ensures Valid()
      ensures tasks == PushStep(WeatherStep(TimeStep(old(tasks), timeAnswer == Some(false)), weatherOk), envEnabled || aqEnabled, synced)
      ensures publisherLoops == old(publisherLoops) + 1
      ensures timeRequests == old(timeRequests) + (if Has(old(tasks), UpdateDateAndTime) then 1 else 0)
      ensures weatherRequests == old(weatherRequests) + (if Has(old(tasks), UpdateWeatherReport) then 1 else 0)
      ensures conditions == if Has(old(tasks), UpdateWeatherReport) && weatherOk then report else old(conditions)
      ensures published == old(published)
        + if Has(old(tasks), PushTemperature) && (envEnabled || aqEnabled) && synced
          then [Payload(now, envEnabled, environmentMeasurement, aqEnabled, airQualityMeasurement)] else []
    {
      publisherLoops := publisherLoops + 1;
      TimeStepFlags(tasks, timeAnswer == Some(false));
      UpdateTime(timeAnswer);
      WeatherStepFlags(tasks, weatherOk);
      UpdateWeather(weatherOk, report);
      Push(envEnabled, aqEnabled, synced, now);
    }

    /**
     * `loop()`.  The Wi-Fi manager runs and its quality goes to the display;
     * the semaphores set their flags; the sensor steps run whether or not
     * Wi-Fi is up.  Offline the loop stops there.  Online the publisher
     * runs, then the time, weather and push steps.  The `tasks` set that
     * results is `LoopTasks`, whose flags `LoopTasksFlags` describes.
     */
    method Loop(link: bool, dbm: int,
                envOk: bool, envReading: EnvironmentMeasurement, aqOk: bool, aqReading: AirQualityMeasurement,
                online: bool, timeAnswer: Option<bool>, weatherOk: bool, report: WundergroundClient.Report,
                envEnabled: bool, aqEnabled: bool, synced: bool, now: int)
      requires Valid()
      modifies this
      ensures Valid()
      ensures !superShortToken && !shortToken && !mediumToken && !longToken
      ensures wifiQuality == Wireless.Quality(link, dbm) && wifiLoops == old(wifiLoops) + 1
      ensures var t := Raised(old(tasks), old(superShortToken), old(shortToken), old(mediumToken), old(longToken));
        && tasks == LoopTasks(t, online, timeAnswer == Some(false), weatherOk, envEnabled || aqEnabled, synced)
        && environmentMeasurement == (if Has(t, UpdateEnvironmentSensor) && envOk then envReading else old(environmentMeasurement))
        && airQualityMeasurement == (if Has(t, UpdateAirQualitySensor) && aqOk then aqReading else old(airQualityMeasurement))
        && publisherLoops == old(publisherLoops) + (if online then 1 else 0)
        && timeRequests == old(timeRequests) + (if online && Has(t, UpdateDateAndTime) then 1 else 0)
        && weatherRequests == old(weatherRequests) + (if online && Has(t, UpdateWeatherReport) then 1 else 0)
        && conditions == (if online && Has(t, UpdateWeatherReport) && weatherOk then report else old(conditions))
        && published == old(published)
             + (if online && Has(t, PushTemperature) && (envEnabled || aqEnabled) && synced
                then [Payload(now, envEnabled, environmentMeasurement, aqEnabled, airQualityMeasurement)] else [])
    {
      Sense(link, dbm, envOk, envReading, aqOk, aqReading);
      MeasuredFlags(Raised(old(tasks), old(superShortToken), old(shortToken), old(mediumToken), old(longToken)));
      if online {
        Dispatch(timeAnswer, weatherOk, report, envEnabled, aqEnabled, synced, now);
      }
    }

    /** `displayTaskLoop()`: waits out a positive budget from the display's `update` and always goes on. */
    method DisplayTaskLoop(budget: int) returns (ok: bool, waited: nat)
      ensures ok
      ensures budget > 0 ==> waited == budget
      ensures budget <= 0 ==> waited == 0
    {
      waited := 0;
      if budget > 0 {
        waited := budget;
      }
      ok := true;
    }
  }

  /** The sensor steps clear both sensor flags, measured or not. */
  function Measured(t: Tasks): Tasks
  {
    t & !UpdateEnvironmentSensor & !UpdateAirQualitySensor
  }

  /** The time step on the `tasks` set: its flag is cleared, and set again by a failure reported at once. */
  function TimeStep(t: Tasks, failed: bool): Tasks
  {
    if Has(t, UpdateDateAndTime) then
      var cleared := t & !UpdateDateAndTime;
      if failed then cleared | UpdateDateAndTime else cleared
    else t
  }

  /** The weather step: its flag is cleared, and set again when the update fails. */
  function WeatherStep(t: Tasks, success: bool): Tasks
  {
    if Has(t, UpdateWeatherReport) then
      var cleared := t & !UpdateWeatherReport;
      if success then cleared else cleared | UpdateWeatherReport
    else t
  }

  /** The push step: with some sensor enabled its flag is cleared, and set again while the time is unknown. */
  function PushStep(t: Tasks, sensorEnabled: bool, synced: bool): Tasks
  {
    if Has(t, PushTemperature) && sensorEnabled then
      var cleared := t & !PushTemperature;
      if synced then cleared else cleared | PushTemperature
    else t
  }

  /** The `tasks` set a `loop` leaves, from the set after the semaphores. */
  function LoopTasks(t: Tasks, online: bool, timeFailed: bool, weatherOk: bool, sensorEnabled: bool, synced: bool): Tasks
  {
    var m := Measured(t);
    if online then PushStep(WeatherStep(TimeStep(m, timeFailed), weatherOk), sensorEnabled, synced) else m
  }

  lemma MeasuredKeeps(t: Tasks, other: Tasks)
    requires other == UpdateDateAndTime || other == UpdateWeatherReport || other == PushTemperature
    ensures Has(Measured(t), other) == Has(t, other)
  {
  }

  lemma MeasuredOutside(t: Tasks)
    ensures Measured(t) & !AllTasks == t & !AllTasks
  {
  }

  /** Clearing the sensor flags touches no other bit. */
  lemma MeasuredFlags(t: Tasks)
    ensures var r := Measured(t);
      && !Has(r, UpdateEnvironmentSensor) && !Has(r, UpdateAirQualitySensor)
      && Has(r, UpdateDateAndTime) == Has(t, UpdateDateAndTime)
      && Has(r, UpdateWeatherReport) == Has(t, UpdateWeatherReport)
      && Has(r, PushTemperature) == Has(t, PushTemperature)
      && r & !AllTasks == t & !AllTasks
  {
    assert !Has(Measured(t), UpdateEnvironmentSensor);
    assert !Has(Measured(t), UpdateAirQualitySensor);
    MeasuredKeeps(t, UpdateDateAndTime);
    MeasuredKeeps(t, UpdateWeatherReport);
    MeasuredKeeps(t, PushTemperature);
    MeasuredOutside(t);
  }

  lemma TimeStepOwn(t: Tasks, failed: bool)
    ensures Has(TimeStep(t, failed), UpdateDateAndTime) <==> Has(t, UpdateDateAndTime) && failed
  {
  }

  lemma TimeStepKeeps(t: Tasks, failed: bool, other: Tasks)
    requires other == UpdateWeatherReport || other == UpdateEnvironmentSensor || other == UpdateAirQualitySensor || other == PushTemperature
    ensures Has(TimeStep(t, failed), other) == Has(t, other)
  {
  }

  lemma TimeStepOutside(t: Tasks, failed: bool)
    ensures TimeStep(t, failed) & !AllTasks == t & !AllTasks
  {
  }

  /** The time step decides the time flag and leaves every other bit. */
  lemma TimeStepFlags(t: Tasks, failed: bool)
    ensures var r := TimeStep(t, failed);
      && (Has(r, UpdateDateAndTime) <==> Has(t, UpdateDateAndTime) && failed)
      && Has(r, UpdateWeatherReport) == Has(t, UpdateWeatherReport)
      && Has(r, UpdateEnvironmentSensor) == Has(t, UpdateEnvironmentSensor)
      && Has(r, UpdateAirQualitySensor) == Has(t, UpdateAirQualitySensor)
      && Has(r, PushTemperature) == Has(t, PushTemperature)
      && r & !AllTasks == t & !AllTasks
  {
    TimeStepOwn(t, failed);
    TimeStepKeeps(t, failed, UpdateWeatherReport);
    TimeStepKeeps(t, failed, UpdateEnvironmentSensor);
    TimeStepKeeps(t, failed, UpdateAirQualitySensor);
    TimeStepKeeps(t, failed, PushTemperature);
    TimeStepOutside(t, failed);
  }

  lemma WeatherStepOwn(t: Tasks, success: bool)
    ensures Has(WeatherStep(t, success), UpdateWeatherReport) <==> Has(t, UpdateWeatherReport) && !success
  {
  }

  lemma WeatherStepKeeps(t: Tasks, success: bool, other: Tasks)
    requires other == UpdateDateAndTime || other == UpdateEnvironmentSensor || other == UpdateAirQualitySensor || other == PushTemperature
    ensures Has(WeatherStep(t, success), other) == Has(t, other)
  {
  }

  lemma WeatherStepOutside(t: Tasks, success: bool)
    ensures WeatherStep(t, success) & !AllTasks == t & !AllTasks
  {
  }

  /** The weather step decides the weather flag and leaves every other bit. */
  lemma WeatherStepFlags(t: Tasks, success: bool)
    ensures var r := WeatherStep(t, success);
      && (Has(r, UpdateWeatherReport) <==> Has(t, UpdateWeatherReport) && !success)
      && Has(r, UpdateDateAndTime) == Has(t, UpdateDateAndTime)
      && Has(r, UpdateEnvironmentSensor) == Has(t, UpdateEnvironmentSensor)
      && Has(r, UpdateAirQualitySensor) == Has(t, UpdateAirQualitySensor)
      && Has(r, PushTemperature) == Has(t, PushTemperature)
      && r & !AllTasks == t & !AllTasks
  {
    WeatherStepOwn(t, success);
    WeatherStepKeeps(t, success, UpdateDateAndTime);
    WeatherStepKeeps(t, success, UpdateEnvironmentSensor);
    WeatherStepKeeps(t, success, UpdateAirQualitySensor);
    WeatherStepKeeps(t, success, PushTemperature);
    WeatherStepOutside(t, success);
  }

  lemma PushStepOwn(t: Tasks, sensorEnabled: bool, synced: bool)
    ensures Has(PushStep(t, sensorEnabled, synced), PushTemperature) <==> Has(t, PushTemperature) && !(sensorEnabled && synced)
  {
  }

  lemma PushStepKeeps(t: Tasks, sensorEnabled: bool, synced: bool, other: Tasks)
    requires other == UpdateDateAndTime || other == UpdateWeatherReport || other == UpdateEnvironmentSensor || other == UpdateAirQualitySensor
    ensures Has(PushStep(t, sensorEnabled, synced), other) == Has(t, other)
  {
  }

  lemma PushStepOutside(t: Tasks, sensorEnabled: bool, synced: bool)
    ensures PushStep(t, sensorEnabled, synced) & !AllTasks == t & !AllTasks
  {
  }

  /** The push step decides the push flag and leaves every other bit. */
  lemma PushStepFlags(t: Tasks, sensorEnabled: bool, synced: bool)
    ensures var r := PushStep(t, sensorEnabled, synced);
      && (Has(r, PushTemperature) <==> Has(t, PushTemperature) && !(sensorEnabled && synced))
      && Has(r, UpdateDateAndTime) == Has(t, UpdateDateAndTime)
      && Has(r, UpdateWeatherReport) == Has(t, UpdateWeatherReport)
      && Has(r, UpdateEnvironmentSensor) == Has(t, UpdateEnvironmentSensor)
      && Has(r, UpdateAirQualitySensor) == Has(t, UpdateAirQualitySensor)
      && r & !AllTasks == t & !AllTasks
  {
    PushStepOwn(t, sensorEnabled, synced);
    PushStepKeeps(t, sensorEnabled, synced, UpdateDateAndTime);
    PushStepKeeps(t, sensorEnabled, synced, UpdateWeatherReport);
    PushStepKeeps(t, sensorEnabled, synced, UpdateEnvironmentSensor);
    PushStepKeeps(t, sensorEnabled, synced, UpdateAirQualitySensor);
    PushStepOutside(t, sensorEnabled, synced);
  }

  /** Offline, only the sensor flags are cleared. */
  lemma LoopTasksOffline(t: Tasks, timeFailed: bool, weatherOk: bool, sensorEnabled: bool, synced: bool)
    ensures var r := LoopTasks(t, false, timeFailed, weatherOk, sensorEnabled, synced);
      && !Has(r, UpdateEnvironmentSensor) && !Has(r, UpdateAirQualitySensor)
      && (Has(r, UpdateDateAndTime) <==> Has(t, UpdateDateAndTime))
      && (Has(r, UpdateWeatherReport) <==> Has(t, UpdateWeatherReport))
      && (Has(r, PushTemperature) <==> Has(t, PushTemperature))
      && r & !AllTasks == t & !AllTasks
  {
    MeasuredFlags(t);
  }

  /** Online, each network step decides its own flag. */
  lemma LoopTasksOnline(t: Tasks, timeFailed: bool, weatherOk: bool, sensorEnabled: bool, synced: bool)
    ensures var r := LoopTasks(t, true, timeFailed, weatherOk, sensorEnabled, synced);
      && !Has(r, UpdateEnvironmentSensor) && !Has(r, UpdateAirQualitySensor)
      && (Has(r, UpdateDateAndTime) <==> Has(t, UpdateDateAndTime) && timeFailed)
      && (Has(r, UpdateWeatherReport) <==> Has(t, UpdateWeatherReport) && !weatherOk)
      && (Has(r, PushTemperature) <==> Has(t, PushTemperature) && !(sensorEnabled && synced))
      && r & !AllTasks == t & !AllTasks
  {
    var m := Measured(t);
    MeasuredFlags(t);
    var a := TimeStep(m, timeFailed);
    TimeStepFlags(m, timeFailed);
    var b := WeatherStep(a, weatherOk);
    WeatherStepFlags(a, weatherOk);
    PushStepFlags(b, sensorEnabled, synced);
    assert LoopTasks(t, true, timeFailed, weatherOk, sensorEnabled, synced) == PushStep(b, sensorEnabled, synced);
  }

  /**
   * The flags a `loop` leaves: the sensor flags always cleared; offline,
   * the time, weather and push flags kept; online, the time flag set only
   * after a failure reported at once, the weather flag only after a failed
   * update, and the push flag kept when no sensor is enabled and set again
   * while the time is unknown.  No other bit is ever set.
   */
  lemma LoopTasksFlags(t: Tasks, online: bool, timeFailed: bool, weatherOk: bool, sensorEnabled: bool, synced: bool)
    ensures var r := LoopTasks(t, online, timeFailed, weatherOk, sensorEnabled, synced);
      && !Has(r, UpdateEnvironmentSensor) && !Has(r, UpdateAirQualitySensor)
      && r & !AllTasks == t & !AllTasks
      && (!online ==>
            && (Has(r, UpdateDateAndTime) <==> Has(t, UpdateDateAndTime))
            && (Has(r, UpdateWeatherReport) <==> Has(t, UpdateWeatherReport))
            && (Has(r, PushTemperature) <==> Has(t, PushTemperature)))
      && (online ==>
            && (Has(r, UpdateDateAndTime) <==> Has(t, UpdateDateAndTime) && timeFailed)
            && (Has(r, UpdateWeatherReport) <==> Has(t, UpdateWeatherReport) && !weatherOk)
            && (Has(r, PushTemperature) <==> Has(t, PushTemperature) && !(sensorEnabled && synced)))
  {
    if online {
      LoopTasksOnline(t, timeFailed, weatherOk, sensorEnabled, synced);
    } else {
      LoopTasksOffline(t, timeFailed, weatherOk, sensorEnabled, synced);
    }
  }
}
