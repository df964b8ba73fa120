/**
 * Properties of the alarm decision engine, stated over the value-level model
 * in module AlarmModel: what each operation writes into the repository, what
 * it announces to listeners, and how the alarm status moves.
 */
module AlarmProperties {
  import opened AlarmModel

  // ---------------------------------------------------------------------
  // The logs are read left to right, so appending distributes over them

  lemma {:induction false} AlarmWritesAppend(a: seq<RepoCall>, b: seq<RepoCall>)
    ensures AlarmWrites(a + b) == AlarmWrites(a) + AlarmWrites(b)
  {
    if a == [] {
      assert a + b == b;
    } else {
      var head := if a[0].AlarmWrite? then [a[0].alarm] else [];
      assert (a + b)[0] == a[0];
      assert (a + b)[1..] == a[1..] + b;
      AlarmWritesAppend(a[1..], b);
      assert AlarmWrites(a + b) == head + AlarmWrites(a[1..] + b);
      assert AlarmWrites(a) == head + AlarmWrites(a[1..]);
    }
  }

  lemma {:induction false} SensorUpdatesAppend(a: seq<RepoCall>, b: seq<RepoCall>)
    ensures SensorUpdates(a + b) == SensorUpdates(a) + SensorUpdates(b)
  {
    if a == [] {
      assert a + b == b;
    } else {
      var head := if a[0].SensorWrite? then [a[0].key] else [];
      assert (a + b)[0] == a[0];
      assert (a + b)[1..] == a[1..] + b;
      SensorUpdatesAppend(a[1..], b);
      assert SensorUpdates(a + b) == head + SensorUpdates(a[1..] + b);
      assert SensorUpdates(a) == head + SensorUpdates(a[1..]);
    }
  }

  lemma {:induction false} StatusNoticesAppend(a: seq<Broadcast>, b: seq<Broadcast>)
    ensures StatusNotices(a + b) == StatusNotices(a) + StatusNotices(b)
  {
    if a == [] {
      assert a + b == b;
    } else {
      var head := if a[0].notice.StatusChanged? then [a[0].notice.status] else [];
      assert (a + b)[0] == a[0];
      assert (a + b)[1..] == a[1..] + b;
      StatusNoticesAppend(a[1..], b);
      assert StatusNotices(a + b) == head + StatusNotices(a[1..] + b);
      assert StatusNotices(a) == head + StatusNotices(a[1..]);
    }
  }

  lemma {:induction false} SensorNoticeCountAppend(a: seq<Broadcast>, b: seq<Broadcast>)
    ensures SensorNoticeCount(a + b) == SensorNoticeCount(a) + SensorNoticeCount(b)
  {
    if a == [] {
      assert a + b == b;
    } else {
      var head := if a[0].notice.SensorStatusChanged? then 1 else 0;
      assert (a + b)[0] == a[0];
      assert (a + b)[1..] == a[1..] + b;
      SensorNoticeCountAppend(a[1..], b);
      assert SensorNoticeCount(a + b) == head + SensorNoticeCount(a[1..] + b);
      assert SensorNoticeCount(a) == head + SensorNoticeCount(a[1..]);
    }
  }

  // ---------------------------------------------------------------------
  // setAlarmStatus

  /** One repository write of `a`, one notify(a) to the current listeners, nothing else. */
  lemma SetAlarmStatusWritesOnce(s: State, a: AlarmStatus)
    ensures var r := SetAlarmStatus(s, a);
      && r.alarm == a
      && AlarmWrites(r.repoLog) == AlarmWrites(s.repoLog) + [a]
      && StatusNotices(r.notices) == StatusNotices(s.notices) + [a]
      && r.notices[|r.notices| - 1] == Broadcast(s.listeners, StatusChanged(a))
      && SensorUpdates(r.repoLog) == SensorUpdates(s.repoLog)
      && SensorNoticeCount(r.notices) == SensorNoticeCount(s.notices)
      && r.arming == s.arming && r.catFound == s.catFound
      && r.sensors == s.sensors && r.listeners == s.listeners
      && |r.repoLog| == |s.repoLog| + 1 && |r.notices| == |s.notices| + 1
  {
    AlarmWritesAppend(s.repoLog, [AlarmWrite(a)]);
    SensorUpdatesAppend(s.repoLog, [AlarmWrite(a)]);
    StatusNoticesAppend(s.notices, [Broadcast(s.listeners, StatusChanged(a))]);
    SensorNoticeCountAppend(s.notices, [Broadcast(s.listeners, StatusChanged(a))]);
  }

  lemma SetAlarmStatusConsistent(s: State, a: AlarmStatus)
    requires Consistent(s)
    ensures Consistent(SetAlarmStatus(s, a))
  {
    SetAlarmStatusWritesOnce(s, a);
  }

  // ---------------------------------------------------------------------
  // changeSensorActivationStatus

  /**
   * The alarm rule touches only the alarm status, through at most one call of
   * setAlarmStatus: sensors, flags, listeners and the sensor side of the logs
   * are as they were, and a consistent state stays consistent.
   */
  lemma AlarmRuleKeeps(s: State, k: SensorKey, active: bool)
    ensures var s1 := AlarmRule(s, k, active);
      && s1.sensors == s.sensors && s1.listeners == s.listeners
      && s1.arming == s.arming && s1.catFound == s.catFound
      && SensorUpdates(s1.repoLog) == SensorUpdates(s.repoLog)
      && SensorNoticeCount(s1.notices) == SensorNoticeCount(s.notices)
      && (s1 == s || s1 == SetAlarmStatus(s, s1.alarm))
      && (Consistent(s) ==> Consistent(s1))
  {
    var s1 := AlarmRule(s, k, active);
    if s1 != s {
      assert s1 == SetAlarmStatus(s, s1.alarm);
      SetAlarmStatusWritesOnce(s, s1.alarm);
    }
  }

  /**
   * Whatever the alarm rule did: the sensor ends with the requested flag, no
   * other sensor changes, the sensor is passed to updateSensor exactly once and
   * one sensorStatusChanged goes to the listeners, last.
   */
  lemma ChangeSensorEffects(s: State, k: SensorKey, active: bool)
    ensures var r := ChangeSensorActivationStatus(s, k, active);
      && r.sensors.Keys == s.sensors.Keys + {k}
      && r.sensors[k] == active
      && (forall k' :: k' in s.sensors && k' != k ==> r.sensors[k'] == s.sensors[k'])
      && SensorUpdates(r.repoLog) == SensorUpdates(s.repoLog) + [k]
      && SensorNoticeCount(r.notices) == SensorNoticeCount(s.notices) + 1
      && r.notices[|r.notices| - 1] == Broadcast(s.listeners, SensorStatusChanged)
      && r.arming == s.arming && r.catFound == s.catFound && r.listeners == s.listeners
      && var n := |AlarmWrites(r.repoLog)| - |AlarmWrites(s.repoLog)|;
         0 <= n <= 1 && |r.repoLog| == |s.repoLog| + n + 1 && |r.notices| == |s.notices| + n + 1
  {
    var s1 := AlarmRule(s, k, active);
    AlarmRuleKeeps(s, k, active);
    if s1 != s {
      SetAlarmStatusWritesOnce(s, s1.alarm);
    }
    AlarmWritesAppend(s1.repoLog, [SensorWrite(k, active)]);
    SensorUpdatesAppend(s1.repoLog, [SensorWrite(k, active)]);
    SensorNoticeCountAppend(s1.notices, [Broadcast(s1.listeners, SensorStatusChanged)]);
  }

  /**
   * The activation rule. Disarmed: the alarm is left alone and nothing is
   * written. Armed: NO_ALARM becomes PENDING_ALARM for a sensor that is not yet
   * active and ALARM for one that already is; PENDING_ALARM becomes ALARM; ALARM
   * is left alone without a write. Exactly one status is written otherwise.
   */
  lemma ActivationRule(s: State, k: SensorKey)
    ensures var r := ChangeSensorActivationStatus(s, k, true);
      var written :=
        if s.arming == Disarmed || s.alarm == Alarm then []
        else if s.alarm == NoAlarm && !IsActive(s.sensors, k) then [PendingAlarm]
        else [Alarm];
      && AlarmWrites(r.repoLog) == AlarmWrites(s.repoLog) + written
      && r.alarm == (if written == [] then s.alarm else written[0])
  {
    var s1 := AlarmRule(s, k, true);
    if s1 != s {
      SetAlarmStatusWritesOnce(s, s1.alarm);
    }
    AlarmWritesAppend(s1.repoLog, [SensorWrite(k, true)]);
  }

  /**
   * The deactivation rule: NO_ALARM is written exactly when the sensor was
   * active, the alarm was pending and every other stored sensor is inactive;
   * otherwise nothing is written and the alarm status stays as it was.
   */
  lemma DeactivationRule(s: State, k: SensorKey)
    ensures var r := ChangeSensorActivationStatus(s, k, false);
      var clears := IsActive(s.sensors, k) && s.alarm == PendingAlarm && OthersInactive(s.sensors, k);
      && AlarmWrites(r.repoLog) == AlarmWrites(s.repoLog) + (if clears then [NoAlarm] else [])
      && r.alarm == (if clears then NoAlarm else s.alarm)
  {
    var s1 := AlarmRule(s, k, false);
    if s1 != s {
      SetAlarmStatusWritesOnce(s, NoAlarm);
    }
    AlarmWritesAppend(s1.repoLog, [SensorWrite(k, false)]);
  }

  /** Neither activating nor deactivating a sensor touches an ALARM status. */
  lemma SensorsNeverLowerAlarm(s: State, k: SensorKey, active: bool)
    requires s.alarm == Alarm
    ensures var r := ChangeSensorActivationStatus(s, k, active);
      r.alarm == Alarm && AlarmWrites(r.repoLog) == AlarmWrites(s.repoLog)
  {
    if active { ActivationRule(s, k); } else { DeactivationRule(s, k); }
  }

  /** Deactivating a sensor that is already inactive writes no alarm status. */
  lemma DeactivatingInactiveIsNoOp(s: State, k: SensorKey)
    requires !IsActive(s.sensors, k)
    ensures var r := ChangeSensorActivationStatus(s, k, false);
      r.alarm == s.alarm && AlarmWrites(r.repoLog) == AlarmWrites(s.repoLog)
  {
    DeactivationRule(s, k);
  }

  lemma ChangeSensorConsistent(s: State, k: SensorKey, active: bool)
    requires Consistent(s)
    ensures Consistent(ChangeSensorActivationStatus(s, k, active))
  {
    var s1 := AlarmRule(s, k, active);
    AlarmRuleKeeps(s, k, active);
    var call := SensorWrite(k, active);
    var note := Broadcast(s1.listeners, SensorStatusChanged);
    AlarmWritesAppend(s1.repoLog, [call]);
    SensorUpdatesAppend(s1.repoLog, [call]);
    StatusNoticesAppend(s1.notices, [note]);
    SensorNoticeCountAppend(s1.notices, [note]);
  }

  // ---------------------------------------------------------------------
  // The reset of every sensor when arming

  /** Some sensor of `p` is active. */
  predicate SomeActiveIn(sensors: map<SensorKey, bool>, p: seq<SensorKey>)
  {
    exists k :: k in p && IsActive(sensors, k)
  }

  /** Every stored sensor that `p` does not list is inactive. */
  predicate InactiveOutside(sensors: map<SensorKey, bool>, p: seq<SensorKey>)
  {
    forall k :: k in sensors && k !in p ==> !sensors[k]
  }

  /**
   * Deactivating the stored sensors `p` one after the other leaves exactly
   * those inactive, passes each to updateSensor in turn with one
   * sensorStatusChanged each, and changes neither the arming status, the cat
   * flag nor the listeners.
   */
  lemma {:induction false} ResetSensorsFlags(s: State, p: seq<SensorKey>)
    requires forall k :: k in p ==> k in s.sensors
    ensures var r := ResetSensors(s, p);
      && r.sensors.Keys == s.sensors.Keys
      && (forall k :: k in r.sensors ==> r.sensors[k] == (k !in p && s.sensors[k]))
      && SensorUpdates(r.repoLog) == SensorUpdates(s.repoLog) + p
      && SensorNoticeCount(r.notices) == SensorNoticeCount(s.notices) + |p|
      && r.arming == s.arming && r.catFound == s.catFound && r.listeners == s.listeners
    decreases |p|
  {
    if p != [] {
      var init, k := p[..|p| - 1], p[|p| - 1];
      assert p == init + [k];
      ResetSensorsFlags(s, init);
      ChangeSensorEffects(ResetSensors(s, init), k, false);
    }
  }

  /**
   * The reset lowers a pending alarm to NO_ALARM, with a single write, exactly
   * when it deactivates the last active sensor; every other alarm status is
   * left alone without a write.
   */
  lemma {:induction false} ResetSensorsAlarm(s: State, p: seq<SensorKey>)
    requires Distinct(p)
    requires forall k :: k in p ==> k in s.sensors
    ensures var r := ResetSensors(s, p);
      var drops := s.alarm == PendingAlarm && SomeActiveIn(s.sensors, p) && InactiveOutside(s.sensors, p);
      && r.alarm == (if drops then NoAlarm else s.alarm)
      && AlarmWrites(r.repoLog) == AlarmWrites(s.repoLog) + (if drops then [NoAlarm] else [])
    decreases |p|
  {
    if p != [] {
      var init, k := p[..|p| - 1], p[|p| - 1];
      assert p == init + [k];
      forall i | 0 <= i < |init| ensures init[i] != k {
        assert init[i] == p[i];
      }
      ResetSensorsAlarm(s, init);
      ResetSensorsFlags(s, init);
      var mid := ResetSensors(s, init);
      DeactivationRule(mid, k);
      var dropsBefore := s.alarm == PendingAlarm && SomeActiveIn(s.sensors, init) && InactiveOutside(s.sensors, init);
      var drops := s.alarm == PendingAlarm && SomeActiveIn(s.sensors, p) && InactiveOutside(s.sensors, p);
      var clears := IsActive(mid.sensors, k) && mid.alarm == PendingAlarm && OthersInactive(mid.sensors, k);
      assert IsActive(mid.sensors, k) == IsActive(s.sensors, k);
      if IsActive(s.sensors, k) {
        // k is still active after `init`, so no earlier step could clear the alarm
        assert !dropsBefore;
        assert OthersInactive(mid.sensors, k) == InactiveOutside(s.sensors, p);
        assert clears == drops;
      } else {
        assert !clears;
        assert SomeActiveIn(s.sensors, p) == SomeActiveIn(s.sensors, init);
        assert InactiveOutside(s.sensors, p) == InactiveOutside(s.sensors, init);
        assert dropsBefore == drops;
      }
    }
  }

  /**
   * Besides one repository call and one broadcast per listed sensor, the reset
   * adds only its alarm writes, each with its broadcast.
   */
  lemma {:induction false} ResetSensorsCounts(s: State, p: seq<SensorKey>)
    ensures var r := ResetSensors(s, p);
      var n := |AlarmWrites(r.repoLog)| - |AlarmWrites(s.repoLog)|;
      && n >= 0
      && |r.repoLog| == |s.repoLog| + n + |p|
      && |r.notices| == |s.notices| + n + |p|
    decreases |p|
  {
    if p != [] {
      var init := p[..|p| - 1];
      ResetSensorsCounts(s, init);
      ChangeSensorEffects(ResetSensors(s, init), p[|p| - 1], false);
    }
  }

  lemma {:induction false} ResetSensorsConsistent(s: State, p: seq<SensorKey>)
    requires Consistent(s)
    ensures Consistent(ResetSensors(s, p))
    decreases |p|
  {
    if p != [] {
      ResetSensorsConsistent(s, p[..|p| - 1]);
      ChangeSensorConsistent(ResetSensors(s, p[..|p| - 1]), p[|p| - 1], false);
    }
  }

  /** A key listed once by a sequence occurs in it exactly once. */
  lemma {:induction false} DistinctOccursOnce(order: seq<SensorKey>, k: SensorKey)
    requires Distinct(order)
    ensures multiset(order)[k] == (if k in order then 1 else 0)
    decreases |order|
  {
    if order != [] {
      var rest := order[1..];
      assert order == [order[0]] + rest;
      assert Distinct(rest) by {
        forall i, j | 0 <= i < j < |rest| ensures rest[i] != rest[j] {
          assert rest[i] == order[i + 1] && rest[j] == order[j + 1];
        }
      }
      DistinctOccursOnce(rest, k);
      forall j | 0 <= j < |rest| ensures rest[j] != order[0] {
        assert rest[j] == order[j + 1];
      }
    }
  }

  // ---------------------------------------------------------------------
  // setArmingStatus

  /**
   * Disarming writes NO_ALARM once, whatever the previous alarm status, leaves
   * every sensor alone and then persists DISARMED.
   */
  lemma DisarmClearsAlarm(s: State, order: seq<SensorKey>)
    ensures var r := SetArmingStatus(s, Disarmed, order);
      && r.alarm == NoAlarm
      && r.arming == Disarmed
      && AlarmWrites(r.repoLog) == AlarmWrites(s.repoLog) + [NoAlarm]
      && r.repoLog == s.repoLog + [AlarmWrite(NoAlarm), ArmingWrite(Disarmed)]
      && r.notices == s.notices + [Broadcast(s.listeners, StatusChanged(NoAlarm))]
      && r.sensors == s.sensors && r.catFound == s.catFound && r.listeners == s.listeners
  {
    var mid := SetAlarmStatus(s, NoAlarm);
    SetAlarmStatusWritesOnce(s, NoAlarm);
    AlarmWritesAppend(mid.repoLog, [ArmingWrite(Disarmed)]);
    assert mid.repoLog + [ArmingWrite(Disarmed)] == s.repoLog + [AlarmWrite(NoAlarm), ArmingWrite(Disarmed)];
  }

  /**
   * Arming (home or away) with `order` visiting every stored sensor once:
   * afterwards every sensor is inactive, each one was passed to updateSensor
   * exactly once more than before, with one sensorStatusChanged each, and the
   * last repository write persists the new arming status.
   */
  lemma ArmingResetsSensors(s: State, a: ArmingStatus, order: seq<SensorKey>)
    requires a != Disarmed
    requires Enumerates(order, s.sensors.Keys)
    ensures var r := SetArmingStatus(s, a, order);
      && r.sensors.Keys == s.sensors.Keys
      && AllInactive(r.sensors)
      && SensorUpdates(r.repoLog) == SensorUpdates(s.repoLog) + order
      && SensorNoticeCount(r.notices) == SensorNoticeCount(s.notices) + |s.sensors|
      && r.arming == a
      && r.repoLog[|r.repoLog| - 1] == ArmingWrite(a)
      && r.catFound == s.catFound && r.listeners == s.listeners
      && var n := |AlarmWrites(r.repoLog)| - |AlarmWrites(s.repoLog)|;
         |r.repoLog| == |s.repoLog| + n + |order| + 1 && |r.notices| == |s.notices| + n + |order|
  {
    ArmingCounts(s, a, order);
    var s0 := if a == ArmedHome && s.catFound then SetAlarmStatus(s, Alarm) else s;
    SetAlarmStatusWritesOnce(s, Alarm);
    assert s0.sensors == s.sensors;
    assert SensorUpdates(s0.repoLog) == SensorUpdates(s.repoLog);
    assert SensorNoticeCount(s0.notices) == SensorNoticeCount(s.notices);
    ResetSensorsFlags(s0, order);
    var mid := ResetSensors(s0, order);
    SensorUpdatesAppend(mid.repoLog, [ArmingWrite(a)]);
    DistinctSize(order, s.sensors.Keys);
  }

  /** Every key of the listed set occurs exactly once in an enumeration of it. */
  /** Arming adds its alarm writes with one broadcast each, one call and one notice per sensor, and one arming write. */
  lemma ArmingCounts(s: State, a: ArmingStatus, order: seq<SensorKey>)
    requires a != Disarmed
    ensures var r := SetArmingStatus(s, a, order);
      && var n := |AlarmWrites(r.repoLog)| - |AlarmWrites(s.repoLog)|;
         |r.repoLog| == |s.repoLog| + n + |order| + 1 && |r.notices| == |s.notices| + n + |order|
  {
    var s0 := if a == ArmedHome && s.catFound then SetAlarmStatus(s, Alarm) else s;
    SetAlarmStatusWritesOnce(s, Alarm);
    ResetSensorsCounts(s0, order);
    var mid := ResetSensors(s0, order);
    AlarmWritesAppend(mid.repoLog, [ArmingWrite(a)]);
    assert AlarmWrites([ArmingWrite(a)]) == [];
  }

  lemma EnumerationListsOnce(order: seq<SensorKey>, keys: set<SensorKey>)
    requires Enumerates(order, keys)
    ensures |order| == |keys|
    ensures forall k :: k in keys ==> multiset(order)[k] == 1
  {
    DistinctSize(order, keys);
    forall k | k in keys ensures multiset(order)[k] == 1 {
      DistinctOccursOnce(order, k);
    }
  }

  /** A duplicate-free listing of a set is as long as the set is large. */
  lemma {:induction false} DistinctSize(order: seq<SensorKey>, keys: set<SensorKey>)
    requires Enumerates(order, keys)
    ensures |order| == |keys|
    decreases |order|
  {
    if order != [] {
      var init, k := order[..|order| - 1], order[|order| - 1];
      assert Enumerates(init, keys - {k}) by {
        forall x | x in keys - {k} ensures x in init {
          var i :| 0 <= i < |order| && order[i] == x;
          assert i != |order| - 1;
          assert init[i] == x;
        }
        forall x | x in init ensures x in keys - {k} {
          var i :| 0 <= i < |init| && init[i] == x;
          assert order[i] == x;
        }
      }
      DistinctSize(init, keys - {k});
    } else {
      assert forall k :: k !in keys;
      assert keys == {};
    }
  }

  /**
   * The alarm status after arming. Arming home while a cat is in view writes
   * ALARM first; otherwise the status is left as it was. The reset then lowers
   * a pending alarm to NO_ALARM (one write) when some sensor was active, since
   * the last active sensor is deactivated with every other sensor inactive.
   * No other status is written; in particular arming away never writes ALARM.
   */
  lemma ArmingAlarmOutcome(s: State, a: ArmingStatus, order: seq<SensorKey>)
    requires a != Disarmed
    requires Enumerates(order, s.sensors.Keys)
    ensures var r := SetArmingStatus(s, a, order);
      var raised := a == ArmedHome && s.catFound;
      var a0 := if raised then Alarm else s.alarm;
      var drops := a0 == PendingAlarm && !AllInactive(s.sensors);
      && r.alarm == (if drops then NoAlarm else a0)
      && AlarmWrites(r.repoLog)
         == AlarmWrites(s.repoLog) + (if raised then [Alarm] else []) + (if drops then [NoAlarm] else [])
  {
    var raised := a == ArmedHome && s.catFound;
    var s0 := if raised then SetAlarmStatus(s, Alarm) else s;
    SetAlarmStatusWritesOnce(s, Alarm);
    ResetSensorsAlarm(s0, order);
    var mid := ResetSensors(s0, order);
    AlarmWritesAppend(mid.repoLog, [ArmingWrite(a)]);
    assert InactiveOutside(s.sensors, order);
    assert SomeActiveIn(s.sensors, order) == !AllInactive(s.sensors);
  }

  /** Arming home while the last image showed a cat writes ALARM before anything else. */
  lemma ArmHomeWithCatAlarmsFirst(s: State, order: seq<SensorKey>)
    requires s.catFound
    requires Enumerates(order, s.sensors.Keys)
    ensures var r := SetArmingStatus(s, ArmedHome, order);
      && s.repoLog + [AlarmWrite(Alarm)] <= r.repoLog
      && r.alarm == Alarm
  {
    ArmingAlarmOutcome(s, ArmedHome, order);
  }

  /**
   * The order in which the snapshot is visited does not matter for the
   * outcome: any two complete orders leave the same sensors, alarm status,
   * arming status and sequence of alarm writes.
   */
  lemma ArmingOrderIrrelevant(s: State, a: ArmingStatus, o1: seq<SensorKey>, o2: seq<SensorKey>)
    requires Enumerates(o1, s.sensors.Keys) && Enumerates(o2, s.sensors.Keys)
    ensures var r1, r2 := SetArmingStatus(s, a, o1), SetArmingStatus(s, a, o2);
      && r1.sensors == r2.sensors
      && r1.alarm == r2.alarm
      && r1.arming == r2.arming
      && AlarmWrites(r1.repoLog) == AlarmWrites(r2.repoLog)
  {
    if a != Disarmed {
      ArmingResetsSensors(s, a, o1);
      ArmingResetsSensors(s, a, o2);
      ArmingAlarmOutcome(s, a, o1);
      ArmingAlarmOutcome(s, a, o2);
      var r1, r2 := SetArmingStatus(s, a, o1), SetArmingStatus(s, a, o2);
      assert r1.sensors == r2.sensors by {
        forall k | k in r1.sensors ensures r1.sensors[k] == r2.sensors[k] {
        }
      }
    }
  }

  lemma SetArmingConsistent(s: State, a: ArmingStatus, order: seq<SensorKey>)
    requires Consistent(s)
    ensures Consistent(SetArmingStatus(s, a, order))
  {
    var s1 :=
      if a == Disarmed then SetAlarmStatus(s, NoAlarm)
      else ResetSensors(if a == ArmedHome && s.catFound then SetAlarmStatus(s, Alarm) else s, order);
    SetAlarmStatusConsistent(s, NoAlarm);
    SetAlarmStatusConsistent(s, Alarm);
    if a != Disarmed {
      ResetSensorsConsistent(if a == ArmedHome && s.catFound then SetAlarmStatus(s, Alarm) else s, order);
    }
    AlarmWritesAppend(s1.repoLog, [ArmingWrite(a)]);
    SensorUpdatesAppend(s1.repoLog, [ArmingWrite(a)]);
  }

  // ---------------------------------------------------------------------
  // catDetected / processImage

  /**
   * A cat in view while armed home writes ALARM; no cat with every sensor
   * inactive writes NO_ALARM, whatever the arming status; anything else writes
   * nothing. The flag is recorded, and catDetected(cat) goes to every listener last.
   */
  lemma CatDetectedRule(s: State, cat: bool)
    ensures var r := CatDetected(s, cat);
      var written :=
        if cat && s.arming == ArmedHome then [Alarm]
        else if !cat && AllInactive(s.sensors) then [NoAlarm]
        else [];
      && r.catFound == cat
      && AlarmWrites(r.repoLog) == AlarmWrites(s.repoLog) + written
      && r.alarm == (if written == [] then s.alarm else written[0])
      && StatusNotices(r.notices) == StatusNotices(s.notices) + written
      && r.notices[|r.notices| - 1] == Broadcast(s.listeners, CatSighting(cat))
      && |r.repoLog| == |s.repoLog| + |written| && |r.notices| == |s.notices| + |written| + 1
      && r.sensors == s.sensors && r.arming == s.arming && r.listeners == s.listeners
  {
    var s1 := s.(catFound := cat);
    SetAlarmStatusWritesOnce(s1, Alarm);
    SetAlarmStatusWritesOnce(s1, NoAlarm);
    var s2 :=
      if cat && s1.arming == ArmedHome then SetAlarmStatus(s1, Alarm)
      else if !cat && AllInactive(s1.sensors) then SetAlarmStatus(s1, NoAlarm)
      else s1;
    StatusNoticesAppend(s2.notices, [Broadcast(s2.listeners, CatSighting(cat))]);
  }

  lemma CatDetectedConsistent(s: State, cat: bool)
    requires Consistent(s)
    ensures Consistent(CatDetected(s, cat))
  {
    var s1 := s.(catFound := cat);
    SetAlarmStatusConsistent(s1, Alarm);
    SetAlarmStatusConsistent(s1, NoAlarm);
    var s2 :=
      if cat && s1.arming == ArmedHome then SetAlarmStatus(s1, Alarm)
      else if !cat && AllInactive(s1.sensors) then SetAlarmStatus(s1, NoAlarm)
      else s1;
    StatusNoticesAppend(s2.notices, [Broadcast(s2.listeners, CatSighting(cat))]);
    SensorNoticeCountAppend(s2.notices, [Broadcast(s2.listeners, CatSighting(cat))]);
  }
}
