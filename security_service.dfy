/**
 * The SecurityService class: the alarm decision engine as the source writes it,
 * a sequence of reads and writes of mutable state. The repository the service
 * is built over is held in the fields `alarm`, `arming` and `sensors`; the
 * registered listeners in `listeners`. The ghost logs `repoLog` and `notices`
 * record the repository writes and the listener broadcasts as they happen.
 *
 * Every operation with alarm logic is proved to move the state exactly as its
 * function in module AlarmModel says, so that the properties proved there in
 * module AlarmProperties hold of the class; the listener and sensor registry
 * methods replace only the listener set or the sensor map.
 */
module Service {
  import opened AlarmModel
  import AlarmProperties

  /**
   * A copy of the sensor set taken before it is walked; the set has no order,
   * so the order of the copy is whatever the choice below makes it.
   */
  method Snapshot(keys: set<SensorKey>) returns (order: seq<SensorKey>)
    ensures Enumerates(order, keys)
  {
    order := [];
    var rest := keys;
    while rest != {}
      invariant rest <= keys
      invariant Distinct(order)
      invariant forall k :: k in order ==> k in keys && k !in rest
      invariant forall k :: k in keys && k !in rest ==> k in order
      decreases rest
    {
      var k :| k in rest;
      order := order + [k];
      rest := rest - {k};
    }
  }

  class SecurityService {
    var alarm: AlarmStatus
    var arming: ArmingStatus
    var catFound: bool
    var sensors: map<SensorKey, bool>
    var listeners: set<Listener>
    ghost var repoLog: seq<RepoCall>
    ghost var notices: seq<Broadcast>

    /** The whole state as a value of the model. */
    ghost function Model(): State
      reads this
    {
      State(alarm, arming, catFound, sensors, listeners, repoLog, notices)
    }

    /** No alarm status was written without being announced; as many sensor notices as sensor updates. */
    ghost predicate Valid()
      reads this
    {
      Consistent(Model())
    }

    /** A service over a repository holding the given statuses and sensors. */
    constructor (alarm0: AlarmStatus, arming0: ArmingStatus, sensors0: map<SensorKey, bool>)
      ensures Valid()
      ensures Model() == State(alarm0, arming0, false, sensors0, {}, [], [])
    {
      alarm, arming, catFound, sensors := alarm0, arming0, false, sensors0;
      listeners := {};
      repoLog, notices := [], [];
    }

    /** The alarm status the repository holds. */
    function GetAlarmStatus(): (r: AlarmStatus)
      reads this
      ensures r == Model().alarm
    {
      alarm
    }

    /** The arming status the repository holds. */
    function GetArmingStatus(): (r: ArmingStatus)
      reads this
      ensures r == Model().arming
    {
      arming
    }

    /** The stored sensors with their flags. */
    function GetSensors(): (r: map<SensorKey, bool>)
      reads this
      ensures r == Model().sensors
    {
      sensors
    }

    method AddSensor(k: SensorKey, active: bool)
      requires Valid()
      modifies this
      ensures Valid()
      ensures Model() == old(Model()).(sensors := if k in old(sensors) then old(sensors) else old(sensors)[k := active])
    {
      if k !in sensors {
        sensors := sensors[k := active];
      }
    }

    method RemoveSensor(k: SensorKey)
      requires Valid()
      modifies this
      ensures Valid()
      ensures Model() == old(Model()).(sensors := old(sensors) - {k})
    {
      sensors := sensors - {k};
    }

    method AddStatusListener(l: Listener)
      requires Valid()
      modifies this
      ensures Valid()
      ensures Model() == old(Model()).(listeners := old(listeners) + {l})
    {
      listeners := listeners + {l};
    }

    method RemoveStatusListener(l: Listener)
      requires Valid()
      modifies this
      ensures Valid()
      ensures Model() == old(Model()).(listeners := old(listeners) - {l})
    {
      listeners := listeners - {l};
    }

    /** Persist the status, then tell every listener. */
    method SetAlarmStatus(a: AlarmStatus)
      requires Valid()
      modifies this
      ensures Valid()
      ensures Model() == AlarmModel.SetAlarmStatus(old(Model()), a)
    {
      AlarmProperties.SetAlarmStatusConsistent(Model(), a);
      alarm := a;
      repoLog := repoLog + [AlarmWrite(a)];
      notices := notices + [Broadcast(listeners, StatusChanged(a))];
    }

    /** True exactly when no stored sensor is active. */
    method CheckIfAllSensorsInactive() returns (allInactive: bool)
      ensures allInactive == AllInactive(sensors)
    {
      allInactive := true;
      var rest := sensors.Keys;
      while rest != {}
        invariant rest <= sensors.Keys
        invariant allInactive
        invariant forall k :: k in sensors && k !in rest ==> !sensors[k]
        decreases rest
      {
        var k :| k in rest;
        if sensors[k] {
          allInactive := false;
          break;
        }
        rest := rest - {k};
      }
    }

    method HandleSensorActivated(k: SensorKey)
      requires Valid()
      modifies this
      ensures Valid()
      ensures Model() == AlarmModel.HandleSensorActivated(old(Model()), k)
    {
      if arming == Disarmed {
        return;
      }
      match alarm
      case NoAlarm =>
        if !(k in sensors && sensors[k]) {
          SetAlarmStatus(PendingAlarm);
        } else {
          // the source's NO_ALARM case falls through into PENDING_ALARM here
          SetAlarmStatus(Alarm);
        }
      case PendingAlarm =>
        SetAlarmStatus(Alarm);
      case Alarm =>
    }

    method HandleSensorDeactivated(k: SensorKey)
      requires Valid()
      modifies this
      ensures Valid()
      ensures Model() == AlarmModel.HandleSensorDeactivated(old(Model()), k)
    {
      if alarm == PendingAlarm {
        var allInactive := true;
        var rest := sensors.Keys;
        while rest != {}
          invariant rest <= sensors.Keys
          invariant allInactive
          invariant forall k' :: k' in sensors && k' !in rest && k' != k ==> !sensors[k']
          decreases rest
        {
          var other :| other in rest;
          rest := rest - {other};
          if other == k {
            continue;
          }
          if sensors[other] {
            allInactive := false;
            break;
          }
        }
        if allInactive {
          SetAlarmStatus(NoAlarm);
        }
      }
    }

    method ChangeSensorActivationStatus(k: SensorKey, active: bool)
      requires Valid()
      modifies this
      ensures Valid()
      ensures Model() == AlarmModel.ChangeSensorActivationStatus(old(Model()), k, active)
    {
      AlarmProperties.ChangeSensorConsistent(Model(), k, active);
      if active {
        HandleSensorActivated(k);
      } else if k in sensors && sensors[k] {
        HandleSensorDeactivated(k);
      }
      sensors := sensors[k := active];
      repoLog := repoLog + [SensorWrite(k, active)];
      notices := notices + [Broadcast(listeners, SensorStatusChanged)];
    }

    /**
     * Set the arming status. When arming, every sensor of a snapshot of the
     * sensor set is deactivated through ChangeSensorActivationStatus; `order`
     * is the order the snapshot was walked in.
     */
    method SetArmingStatus(a: ArmingStatus) returns (ghost order: seq<SensorKey>)
      requires Valid()
      modifies this
      ensures Valid()
      ensures a != Disarmed ==> Enumerates(order, old(sensors).Keys)
      ensures Model() == AlarmModel.SetArmingStatus(old(Model()), a, order)
    {
      order := [];
      if a == Disarmed {
        SetAlarmStatus(NoAlarm);
      } else {
        if a == ArmedHome && catFound {
          SetAlarmStatus(Alarm);
        }
        var all := Snapshot(sensors.Keys);
        order := all;
        ghost var start := Model();
        var i := 0;
        while i < |all|
          invariant 0 <= i <= |all|
          invariant Valid()
          invariant Model() == ResetSensors(start, all[..i])
        {
          ChangeSensorActivationStatus(all[i], false);
          assert all[..i + 1][..i] == all[..i];
          i := i + 1;
        }
        assert all[..|all|] == all;
      }
      AlarmProperties.SetArmingConsistent(old(Model()), a, order);
      arming := a;
      repoLog := repoLog + [ArmingWrite(a)];
    }

    /** React to the classifier's verdict on the latest camera image. */
    method CatDetected(cat: bool)
      requires Valid()
      modifies this
      ensures Valid()
      ensures Model() == AlarmModel.CatDetected(old(Model()), cat)
    {
      AlarmProperties.CatDetectedConsistent(Model(), cat);
      catFound := cat;
      if cat && arming == ArmedHome {
        SetAlarmStatus(Alarm);
      } else if !cat {
        var allInactive := CheckIfAllSensorsInactive();
        if allInactive {
          SetAlarmStatus(NoAlarm);
        }
      }
      notices := notices + [Broadcast(listeners, CatSighting(cat))];
    }

    /**
     * Process a camera image; `containsCat` is the image classifier's answer
     * for it at the fixed confidence threshold.
     */
    method ProcessImage(containsCat: bool)
      requires Valid()
      modifies this
      ensures Valid()
      ensures Model() == AlarmModel.CatDetected(old(Model()), containsCat)
    {
      CatDetected(containsCat);
    }
  }
}
