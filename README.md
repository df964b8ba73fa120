# CatPoint alarm decision engine in Dafny

This project models `SecurityService`, the decision core of the CatPoint home
security monitor. The engine takes sensor activations, the arming mode the user
sets (ARMED_HOME, ARMED_AWAY, DISARMED) and the camera's cat/no-cat verdict. From
these it decides the alarm status (NO_ALARM, PENDING_ALARM, ALARM). It writes
that status into the security repository and notifies the registered status
listeners.

The project has three files:

- `alarm_model.dfy` (module `AlarmModel`) holds the value-level model.
  - The whole observable state is one `State` value: alarm status, arming status,
    the transient `catFound` flag, the sensors (a map from sensor identity to
    active flag) and the listener set.
  - It also holds two append-only logs. `repoLog` records the repository writes
    `setAlarmStatus`, `updateSensor` and `setArmingStatus`, in order.
    `notices` records each broadcast to the listeners, with the listener set that
    received it.
  - Each operation with alarm logic (setAlarmStatus, the two sensor rules,
    changeSensorActivationStatus, setArmingStatus, catDetected) is a function from
    the state before a call to the state after it.
- `alarm_properties.dfy` (module `AlarmProperties`) proves the rules the source
  code states and its unit tests check, over those functions.
- `security_service.dfy` (module `Service`) is the class `SecurityService`,
  written imperatively as the source is.
  - Its fields stand in for the repository.
  - The two scans over the sensor set are loops.
  - Arming walks a snapshot of the sensor set and calls
    `ChangeSensorActivationStatus` on each sensor.
  - Each state-changing method is proved to give exactly the new state that its
    `AlarmModel` function gives (`ProcessImage` that of `AlarmModel.CatDetected`),
    or, for the listener and sensor registry methods, which have no alarm logic,
    the old state with only the listener set or the sensor map replaced. Each
    also keeps the invariant `Valid()`.
  - `Snapshot` and `CheckIfAllSensorsInactive` change no state; their contracts
    say what they return.
  - `Valid()` means no silent writes: the alarm statuses written are exactly the
    statuses announced to listeners, and there are as many
    `sensorStatusChanged` broadcasts as sensor updates.

A sensor is identified by its name and type (`SensorKey`). Its active flag is
the map's value, never part of its identity. The getters `GetAlarmStatus`,
`GetArmingStatus` and `GetSensors` are plain reads of the repository fields.

Two details of the code decide behaviour that is easy to get wrong:

- **Activation at NO_ALARM.** The `break` of the NO_ALARM case sits inside its
  `if` (`SecurityService.java:116-122`). So activating an inactive sensor at
  NO_ALARM only moves the status to PENDING_ALARM, with one write; the status
  does not go on to ALARM in the same call. Only a sensor that is already active
  falls through to the PENDING_ALARM case and raises ALARM. The unit test at
  `SecurityServiceTest.java:74-79` expects PENDING_ALARM.
- **Unknown sensors.** `changeSensorActivationStatus` does not check that the
  sensor is stored: it reads the flag of the sensor object it was given, then
  calls `updateSensor`. The model treats a sensor the repository does not hold
  as inactive, and `updateSensor` stores it.

## Model

| member | source | states |
|---|---|---|
| `AlarmProperties.SetAlarmStatusWritesOnce` | starter/catpoint-parent/securityService/src/main/java/com/udacity/catpoint/securityService/service/SecurityService.java:104-107 | setAlarmStatus writes the status once into the repository and announces that same status once to the current listeners: exactly one repository call and one broadcast are added; nothing else changes |
| `AlarmProperties.SetAlarmStatusConsistent` | starter/catpoint-parent/securityService/src/main/java/com/udacity/catpoint/securityService/service/SecurityService.java:104-107 | the single write path keeps "every written status was announced" |
| `AlarmProperties.AlarmRuleKeeps` | starter/catpoint-parent/securityService/src/main/java/com/udacity/catpoint/securityService/service/SecurityService.java:112-146 | the activation and deactivation rules change only the alarm status: the state is either unchanged or exactly one setAlarmStatus applied to it; sensors, flags, listeners and sensor logs are untouched |
| `AlarmProperties.ChangeSensorEffects` | starter/catpoint-parent/securityService/src/main/java/com/udacity/catpoint/securityService/service/SecurityService.java:153-162 | afterwards the sensor has the requested flag and no other sensor changed; the sensor went to updateSensor exactly once; one sensorStatusChanged went to the listeners, last; besides these, at most one status write and its broadcast were added |
| `AlarmProperties.ActivationRule` | starter/catpoint-parent/securityService/src/main/java/com/udacity/catpoint/securityService/service/SecurityService.java:112-123 | activation: DISARMED or ALARM means no write and no change; otherwise exactly one write, PENDING_ALARM for a not-yet-active sensor at NO_ALARM and ALARM for an already-active one or at PENDING_ALARM |
| `AlarmProperties.DeactivationRule` | starter/catpoint-parent/securityService/src/main/java/com/udacity/catpoint/securityService/service/SecurityService.java:128-157 | deactivation writes NO_ALARM (once) if and only if the sensor was active, the status was PENDING_ALARM and every other stored sensor is inactive; otherwise nothing is written and the status stays |
| `AlarmProperties.SensorsNeverLowerAlarm` | starter/catpoint-parent/securityService/src/main/java/com/udacity/catpoint/securityService/service/SecurityService.java:116-145 | activating or deactivating any sensor at ALARM leaves ALARM with no status write |
| `AlarmModel.AlarmRule` | starter/catpoint-parent/securityService/src/main/java/com/udacity/catpoint/securityService/service/SecurityService.java:154-158 | the rule run before a flag change leaves the state unchanged or applies exactly one setAlarmStatus; deactivating a sensor that is not active runs no rule |
| `AlarmProperties.DeactivatingInactiveIsNoOp` | starter/catpoint-parent/securityService/src/main/java/com/udacity/catpoint/securityService/service/SecurityService.java:154-158 | deactivating a sensor that is already inactive writes no status and leaves it unchanged |
| `AlarmProperties.ChangeSensorConsistent` | starter/catpoint-parent/securityService/src/main/java/com/udacity/catpoint/securityService/service/SecurityService.java:153-162 | a sensor change keeps "no silent status write, as many sensorStatusChanged notices as sensor updates" |
| `AlarmModel.ResetSensors` | starter/catpoint-parent/securityService/src/main/java/com/udacity/catpoint/securityService/service/SecurityService.java:49-50 | deactivating sensors one after the other only appends to both logs, at least one repository call and one broadcast per listed sensor, and keeps arming, cat flag and listeners |
| `AlarmProperties.ResetSensorsFlags` | starter/catpoint-parent/securityService/src/main/java/com/udacity/catpoint/securityService/service/SecurityService.java:49-50 | deactivating the listed stored sensors one by one leaves the listed sensors inactive and every other flag as it was, passes them to updateSensor in that order with one notice each, and keeps arming, cat flag and listeners |
| `AlarmProperties.ResetSensorsAlarm` | starter/catpoint-parent/securityService/src/main/java/com/udacity/catpoint/securityService/service/SecurityService.java:49-50 | during the reset, a pending alarm drops to NO_ALARM (one write) if and only if some listed sensor is active and every unlisted one inactive; any other status is untouched |
| `AlarmProperties.ResetSensorsCounts` | starter/catpoint-parent/securityService/src/main/java/com/udacity/catpoint/securityService/service/SecurityService.java:49-50 | besides one repository call and one broadcast per listed sensor, the reset adds only its alarm writes, each with one broadcast |
| `AlarmProperties.ResetSensorsConsistent` | starter/catpoint-parent/securityService/src/main/java/com/udacity/catpoint/securityService/service/SecurityService.java:49-50 | the reset keeps the no-silent-writes invariant |
| `AlarmProperties.EnumerationListsOnce` | starter/catpoint-parent/securityService/src/main/java/com/udacity/catpoint/securityService/service/SecurityService.java:49 | a walk over the snapshot visits every sensor exactly once |
| `AlarmProperties.DisarmClearsAlarm` | starter/catpoint-parent/securityService/src/main/java/com/udacity/catpoint/securityService/service/SecurityService.java:41-53 | disarming, whatever the prior state, writes NO_ALARM once and then DISARMED, exactly those two repository writes, and makes the one NO_ALARM broadcast to the current listeners; sensors, cat flag and listeners are untouched |
| `AlarmProperties.ArmingCounts` | starter/catpoint-parent/securityService/src/main/java/com/udacity/catpoint/securityService/service/SecurityService.java:44-53 | arming grows the repository log by its alarm writes, one call per walked sensor and one arming write, and the broadcasts by one per alarm write and one per sensor |
| `AlarmProperties.ArmingResetsSensors` | starter/catpoint-parent/securityService/src/main/java/com/udacity/catpoint/securityService/service/SecurityService.java:44-53 | arming home or away leaves every stored sensor inactive, the sensor set unchanged, each sensor passed to updateSensor once in walk order with one notice each, and the arming status as the last write; cat flag and listeners are kept; beyond the alarm writes and sensor updates, the only repository call is that single arming write, and the only broadcasts are one per alarm write and one per sensor |
| `AlarmProperties.ArmingAlarmOutcome` | starter/catpoint-parent/securityService/src/main/java/com/udacity/catpoint/securityService/service/SecurityService.java:44-53 | the status after arming: ALARM written first only when arming home with a cat in view; a pending alarm with some active sensor drops to NO_ALARM during the reset; no other write, so arming away never writes ALARM |
| `AlarmProperties.ArmHomeWithCatAlarmsFirst` | starter/catpoint-parent/securityService/src/main/java/com/udacity/catpoint/securityService/service/SecurityService.java:45-47 | arming home while catFound is set writes ALARM before any sensor is reset, and the system ends in ALARM |
| `AlarmProperties.ArmingOrderIrrelevant` | starter/catpoint-parent/securityService/src/main/java/com/udacity/catpoint/securityService/service/SecurityService.java:48-50 | any two walk orders of the snapshot give the same sensors, alarm status, arming status and alarm writes |
| `AlarmProperties.SetArmingConsistent` | starter/catpoint-parent/securityService/src/main/java/com/udacity/catpoint/securityService/service/SecurityService.java:41-54 | setting the arming status keeps the no-silent-writes invariant |
| `AlarmProperties.CatDetectedRule` | starter/catpoint-parent/securityService/src/main/java/com/udacity/catpoint/securityService/service/SecurityService.java:77-86 | catFound becomes the verdict; a cat while ARMED_HOME writes ALARM; no cat with all sensors inactive writes NO_ALARM in any mode; otherwise no write; catDetected(verdict) goes to every listener last; the logs grow by exactly the status writes and broadcasts listed, plus that one notice |
| `AlarmProperties.CatDetectedConsistent` | starter/catpoint-parent/securityService/src/main/java/com/udacity/catpoint/securityService/service/SecurityService.java:77-86 | cat detection keeps the no-silent-writes invariant |
| `Service.Snapshot` | starter/catpoint-parent/securityService/src/main/java/com/udacity/catpoint/securityService/service/SecurityService.java:49 | the copy of the sensor set lists every sensor exactly once and nothing else |
| `Service.SecurityService.constructor` | starter/catpoint-parent/securityService/src/main/java/com/udacity/catpoint/securityService/service/SecurityService.java:26-34 | a new service sits over the given repository state with no cat seen, no listeners and empty logs |
| `Service.SecurityService.CheckIfAllSensorsInactive` | starter/catpoint-parent/securityService/src/main/java/com/udacity/catpoint/securityService/service/SecurityService.java:60-70 | returns true exactly when no stored sensor is active |
| `Service.SecurityService.SetAlarmStatus` | starter/catpoint-parent/securityService/src/main/java/com/udacity/catpoint/securityService/service/SecurityService.java:104-107 | persists the status and then notifies every listener, as `AlarmModel.SetAlarmStatus`; keeps `Valid()` |
| `Service.SecurityService.HandleSensorActivated` | starter/catpoint-parent/securityService/src/main/java/com/udacity/catpoint/securityService/service/SecurityService.java:112-123 | applies the activation rule, including the fall-through of an already-active sensor at NO_ALARM |
| `Service.SecurityService.HandleSensorDeactivated` | starter/catpoint-parent/securityService/src/main/java/com/udacity/catpoint/securityService/service/SecurityService.java:128-146 | its scan, which skips the sensor being deactivated, decides exactly "every other stored sensor is inactive"; it then applies the deactivation rule |
| `Service.SecurityService.ChangeSensorActivationStatus` | starter/catpoint-parent/securityService/src/main/java/com/udacity/catpoint/securityService/service/SecurityService.java:153-162 | runs the rule on the pre-change flag, then sets the flag, calls updateSensor and notifies, as `AlarmModel.ChangeSensorActivationStatus` |
| `Service.SecurityService.SetArmingStatus` | starter/catpoint-parent/securityService/src/main/java/com/udacity/catpoint/securityService/service/SecurityService.java:41-54 | when arming, its loop over the snapshot yields `AlarmModel.SetArmingStatus` for the walk order it returns, which enumerates the old sensor set |
| `Service.SecurityService.CatDetected` | starter/catpoint-parent/securityService/src/main/java/com/udacity/catpoint/securityService/service/SecurityService.java:77-86 | records the verdict, applies the cat rule and notifies, as `AlarmModel.CatDetected` |
| `Service.SecurityService.ProcessImage` | starter/catpoint-parent/securityService/src/main/java/com/udacity/catpoint/securityService/service/SecurityService.java:169-171 | feeds the classifier's verdict to catDetected |
| `Service.SecurityService.AddStatusListener` | starter/catpoint-parent/securityService/src/main/java/com/udacity/catpoint/securityService/service/SecurityService.java:92-94 | adds the listener to the set (idempotent); nothing else changes |
| `Service.SecurityService.RemoveStatusListener` | starter/catpoint-parent/securityService/src/main/java/com/udacity/catpoint/securityService/service/SecurityService.java:96-98 | removes the listener from the set (no-op for a non-member); nothing else changes |
| `Service.SecurityService.GetAlarmStatus` | starter/catpoint-parent/securityService/src/main/java/com/udacity/catpoint/securityService/service/SecurityService.java:173-175 | a pure read: returns the alarm status the repository holds |
| `Service.SecurityService.GetSensors` | starter/catpoint-parent/securityService/src/main/java/com/udacity/catpoint/securityService/service/SecurityService.java:177-179 | a pure read: returns the stored sensors with their flags |
| `Service.SecurityService.GetArmingStatus` | starter/catpoint-parent/securityService/src/main/java/com/udacity/catpoint/securityService/service/SecurityService.java:189-191 | a pure read: returns the arming status the repository holds |
| `Service.SecurityService.AddSensor` | starter/catpoint-parent/securityService/src/main/java/com/udacity/catpoint/securityService/service/SecurityService.java:181-183 | stores a sensor the repository does not yet hold; no alarm logic runs |
| `Service.SecurityService.RemoveSensor` | starter/catpoint-parent/securityService/src/main/java/com/udacity/catpoint/securityService/service/SecurityService.java:185-187 | drops the sensor from the repository; no alarm logic runs |

## Left out

- The image classifier (`imageContainsCat` with its 50.0 threshold on a `BufferedImage`) is a foreign call. `ProcessImage` takes its boolean answer as a parameter.
- The real `SecurityRepository` and the `StatusListener` implementations are not part of this model. The repository is a set of fields. `updateSensor` is a map update. A listener is an opaque handle, and a notification is a `Broadcast` record naming the listener set it went to.
- `Service.SecurityService.AddSensor`: the repository's own add and remove are not part of this model. Adding a sensor the repository already holds is modelled as a no-op, as a set `add` is. Neither call is recorded in `repoLog`.
- The `ConcurrentSkipListSet` copy walks the sensors in its comparator's order. `Sensor.compareTo` is not part of this model, so the walk order is left arbitrary. Arming is proved for every order that lists each sensor once.
- Concurrency, the GUI-thread concern behind the snapshot, and any locking are left out. The model is sequential.
- Object identity and aliasing of `Sensor` objects are not modelled. The caller's sensor object and the stored one are treated as the same entry, keyed by name and type. So the "current flag" the handlers read is the stored flag.
- A `Sensor` object the repository does not hold but whose own flag is already true is not modelled: the model reads such a sensor as inactive. The code reads the object's own flag (`SecurityService.java:117`, `:156`), so it differs in two cases. Armed at NO_ALARM, activating that sensor writes ALARM in the code and PENDING_ALARM in the model. At PENDING_ALARM with every other stored sensor inactive, deactivating it writes NO_ALARM in the code and nothing in the model.
- The commented-out ALARM to PENDING_ALARM branch of the deactivation rule is inert code and is not modelled.
- Null `ArmingStatus`, `AlarmStatus` or `Boolean` values cannot be expressed. The unit tests that rely on a mocked null arming status correspond to any armed status here.
- Exceptions thrown by collaborators are not modelled. Every collaborator call here succeeds.
