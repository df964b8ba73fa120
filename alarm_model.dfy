/**
 * Value-level model of the CatPoint alarm decision engine (SecurityService).
 *
 * The whole observable state of the engine and of its repository is one
 * `State` value. Every operation with alarm logic is a function from the
 * state before the call to the state after it; the imperative class in
 * module Service is proved to follow these functions step for step.
 *
 * Besides the repository contents (alarm status, arming status, sensors) the
 * state carries two append-only logs that make the calls a test can observe
 * explicit: `repoLog` records every write into the repository, in order, and
 * `notices` records every broadcast to the registered status listeners.
 */
module AlarmModel {

  datatype AlarmStatus = NoAlarm | PendingAlarm | Alarm

  datatype ArmingStatus = ArmedHome | ArmedAway | Disarmed

  datatype SensorType = Door | Window | Motion

  /** A sensor's identity: its name and its type, never its active flag. */
  datatype SensorKey = SensorKey(name: string, kind: SensorType)

  /** An opaque handle for a registered status listener. */
  datatype Listener = Listener(id: nat)

  /** One write into the security repository. */
  datatype RepoCall =
    | AlarmWrite(alarm: AlarmStatus)              // setAlarmStatus
    | SensorWrite(key: SensorKey, active: bool)   // updateSensor
    | ArmingWrite(arming: ArmingStatus)           // setArmingStatus

  /** What a broadcast tells each listener. */
  datatype Notice =
    | StatusChanged(status: AlarmStatus)   // notify(status)
    | CatSighting(cat: bool)               // catDetected(cat)
    | SensorStatusChanged                  // sensorStatusChanged()

  /** One notice delivered to every listener registered at that moment. */
  datatype Broadcast = Broadcast(to: set<Listener>, notice: Notice)

  datatype State = State(
    alarm: AlarmStatus,
    arming: ArmingStatus,
    catFound: bool,
    sensors: map<SensorKey, bool>,
    listeners: set<Listener>,
    repoLog: seq<RepoCall>,
    notices: seq<Broadcast>)

  // ---------------------------------------------------------------------
  // Reading the sensors and the logs

  /** The current flag of a sensor; a sensor the repository does not hold is inactive. */
  predicate IsActive(sensors: map<SensorKey, bool>, k: SensorKey)
  {
    k in sensors && sensors[k]
  }

  predicate AllInactive(sensors: map<SensorKey, bool>)
  {
    forall k :: k in sensors ==> !sensors[k]
  }

  /** Every stored sensor other than `k` is inactive. */
  predicate OthersInactive(sensors: map<SensorKey, bool>, k: SensorKey)
  {
    forall k' :: k' in sensors && k' != k ==> !sensors[k']
  }

  /** The alarm statuses written into the repository, in order. */
  function AlarmWrites(log: seq<RepoCall>): seq<AlarmStatus>
  {
    if log == [] then []
    else (if log[0].AlarmWrite? then [log[0].alarm] else []) + AlarmWrites(log[1..])
  }

  /** The sensors passed to updateSensor, in order. */
  function SensorUpdates(log: seq<RepoCall>): seq<SensorKey>
  {
    if log == [] then []
    else (if log[0].SensorWrite? then [log[0].key] else []) + SensorUpdates(log[1..])
  }

  /** The statuses announced to listeners through notify, in order. */
  function StatusNotices(notices: seq<Broadcast>): seq<AlarmStatus>
  {
    if notices == [] then []
    else (if notices[0].notice.StatusChanged? then [notices[0].notice.status] else [])
         + StatusNotices(notices[1..])
  }

  /** How many sensorStatusChanged broadcasts were made. */
  function SensorNoticeCount(notices: seq<Broadcast>): nat
  {
    if notices == [] then 0
    else (if notices[0].notice.SensorStatusChanged? then 1 else 0) + SensorNoticeCount(notices[1..])
  }

  /**
   * No silent writes: the alarm statuses written are exactly those announced,
   * and there are as many sensorStatusChanged broadcasts as sensor updates.
   */
  predicate Consistent(s: State)
  {
    && AlarmWrites(s.repoLog) == StatusNotices(s.notices)
    && |SensorUpdates(s.repoLog)| == SensorNoticeCount(s.notices)
  }

  // ---------------------------------------------------------------------
  // The operations

  /** The single write path for the alarm status: persist, then notify every listener. */
  function SetAlarmStatus(s: State, a: AlarmStatus): State
  {
    s.(alarm := a,
       repoLog := s.repoLog + [AlarmWrite(a)],
       notices := s.notices + [Broadcast(s.listeners, StatusChanged(a))])
  }

  /**
   * Alarm rule for an activation, applied before the flag is changed. The
   * `break` of the NO_ALARM case sits inside its `if`, so only a sensor that is
   * already active falls through into the PENDING_ALARM case.
   */
  function HandleSensorActivated(s: State, k: SensorKey): State
  {
    if s.arming == Disarmed then s
    else match s.alarm
      case NoAlarm =>
        if !IsActive(s.sensors, k) then SetAlarmStatus(s, PendingAlarm)
        else SetAlarmStatus(s, Alarm)
      case PendingAlarm => SetAlarmStatus(s, Alarm)
      case Alarm => s
  }

  /** Alarm rule for a deactivation, applied before the flag is changed. */
  function HandleSensorDeactivated(s: State, k: SensorKey): State
  {
    if s.alarm == PendingAlarm && OthersInactive(s.sensors, k) then SetAlarmStatus(s, NoAlarm)
    else s
  }

  /**
   * The alarm rule that a change of a sensor runs first: activation always,
   * deactivation only for a sensor whose current flag is set.
   */
  function AlarmRule(s: State, k: SensorKey, active: bool): (r: State)
    ensures r == s || r == SetAlarmStatus(s, r.alarm)
    ensures !active && !IsActive(s.sensors, k) ==> r == s
  {
    if active then HandleSensorActivated(s, k)
    else if IsActive(s.sensors, k) then HandleSensorDeactivated(s, k)
    else s
  }

  function ChangeSensorActivationStatus(s: State, k: SensorKey, active: bool): State
  {
    var s1 := AlarmRule(s, k, active);
    s1.(sensors := s1.sensors[k := active],
        repoLog := s1.repoLog + [SensorWrite(k, active)],
        notices := s1.notices + [Broadcast(s1.listeners, SensorStatusChanged)])
  }

  /** Deactivate the sensors of `order`, one after the other, in that order. */
  function ResetSensors(s: State, order: seq<SensorKey>): (r: State)
    ensures r.arming == s.arming && r.catFound == s.catFound && r.listeners == s.listeners
    ensures s.repoLog <= r.repoLog && |r.repoLog| >= |s.repoLog| + |order|
    ensures s.notices <= r.notices && |r.notices| >= |s.notices| + |order|
    decreases |order|
  {
    if order == [] then s
    else ChangeSensorActivationStatus(ResetSensors(s, order[..|order| - 1]), order[|order| - 1], false)
  }

  /**
   * Set the arming status. `order` is the order in which the snapshot of the
   * sensor set happens to be visited when arming; it is not used when disarming.
   */
  function SetArmingStatus(s: State, a: ArmingStatus, order: seq<SensorKey>): State
  {
    var s1 :=
      if a == Disarmed then SetAlarmStatus(s, NoAlarm)
      else ResetSensors(if a == ArmedHome && s.catFound then SetAlarmStatus(s, Alarm) else s, order);
    s1.(arming := a, repoLog := s1.repoLog + [ArmingWrite(a)])
  }

  /** Record what the camera showed and react to it; processImage feeds the classifier's answer here. */
  function CatDetected(s: State, cat: bool): State
  {
    var s1 := s.(catFound := cat);
    var s2 :=
      if cat && s1.arming == ArmedHome then SetAlarmStatus(s1, Alarm)
      else if !cat && AllInactive(s1.sensors) then SetAlarmStatus(s1, NoAlarm)
      else s1;
    s2.(notices := s2.notices + [Broadcast(s2.listeners, CatSighting(cat))])
  }

  // ---------------------------------------------------------------------
  // Sequences of sensor keys

  predicate Distinct(order: seq<SensorKey>)
  {
    forall i, j :: 0 <= i < j < |order| ==> order[i] != order[j]
  }

  /** `order` lists every key of `keys` exactly once and nothing else. */
  predicate Enumerates(order: seq<SensorKey>, keys: set<SensorKey>)
  {
    && Distinct(order)
    && (forall k :: k in order ==> k in keys)
    && (forall k :: k in keys ==> k in order)
  }
}
