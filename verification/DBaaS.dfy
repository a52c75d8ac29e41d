/** The PostgreSQL and MySQL controllers: mapping a service back to parameters, deciding whether it is up to
    date, building the update, and whether repeating Update and Observe settles. */
module DBaaS {
  import opened Wrappers
  import opened Settings
  import opened Mapper
  import TimeOfDay
  import Versions

  datatype Engine = PostgreSQL | MySQL

  datatype Params = Params(
    maintenanceDay: string, maintenanceTime: string, backupTime: string, zone: string,
    terminationProtection: bool, plan: string, ipFilter: seq<string>, version: string, settings: Raw)

  /** A service as the provider reports it; optional parts may be missing from the report. */
  datatype Maintenance = Maintenance(day: string, time: string)
  datatype Schedule = Schedule(hour: int, minute: int)
  datatype Service = Service(
    maintenance: Option<Maintenance>, schedule: Option<Schedule>, terminationProtection: Option<bool>,
    plan: string, ipFilter: seq<string>, version: string, settings: Fields)

  /** The service of a resource is called after its external name, or after the resource if it has none. */
  datatype Resource = Resource(name: string, externalName: string, params: Params)
  {
    function InstanceName(): string {
      if externalName != "" then externalName else name
    }
  }

  // ---- Mapping the service back ----

  function ToBackupSpec(schedule: Option<Schedule>): string {
    match schedule
    case None => ""
    case Some(s) => TimeOfDay.Print(s.hour, s.minute)
  }

  /** None stands for the crash on a missing part: both engines read the maintenance window unconditionally,
      MySQL the termination protection too. */
  function MapParameters(engine: Engine, svc: Service, zone: string): Option<Params> {
    if svc.maintenance.None? || (engine.MySQL? && svc.terminationProtection.None?) then None
    else
      var protected := svc.terminationProtection == Some(true);
      Some(Params(svc.maintenance.value.day, svc.maintenance.value.time, ToBackupSpec(svc.schedule), zone,
                  protected, svc.plan, svc.ipFilter, svc.version, ToRawExtension(Mapping(svc.settings))))
  }

  // ---- The up-to-date check ----

  function Lower(c: char): char {
    if 'A' <= c <= 'Z' then c - 'A' + 'a' else c
  }

  predicate EqualFold(a: string, b: string) {
    |a| == |b| && forall i :: 0 <= i < |a| ==> Lower(a[i]) == Lower(b[i])
  }

  function Upper(c: char): char {
    if 'a' <= c <= 'z' then c - 'a' + 'A' else c
  }

  function UpperCase(s: string): string {
    seq(|s|, i requires 0 <= i < |s| => Upper(s[i]))
  }

  lemma FoldsIff(c: char, d: char)
    ensures Lower(c) == Lower(d) <==> Upper(c) == Upper(d)
  {
  }

  /** Plans are equal exactly if they are equal in upper case; so the case of letters is the only thing that may
      differ. */
  lemma EqualFoldIff(a: string, b: string)
    ensures EqualFold(a, b) <==> UpperCase(a) == UpperCase(b)
    ensures EqualFold(a, UpperCase(a))
  {
    if EqualFold(a, b) {
      forall i | 0 <= i < |a|
        ensures UpperCase(a)[i] == UpperCase(b)[i]
      {
        FoldsIff(a[i], b[i]);
      }
    } else if |a| == |b| {
      var i :| 0 <= i < |a| && Lower(a[i]) != Lower(b[i]);
      FoldsIff(a[i], b[i]);
      assert UpperCase(a)[i] != UpperCase(b)[i];
    } else {
      assert |UpperCase(a)| != |UpperCase(b)|;
    }
  }

  datatype Check =
    | FilterCheck | MaintenanceCheck | SizeCheck | ProtectionCheck
    | VersionCheck | BackupCheck | ZoneCheck | SettingsCheck

  /** The named checks; `sameFilter` and `sameSettings` are the answers of the two set comparisons. */
  function Checks(engine: Engine, current: Params, external: Params, sameFilter: bool, sameSettings: bool)
    : map<Check, bool>
  {
    var sameMajor := Versions.CompareMajorVersion(current.version, external.version) == Ok(true);
    var sameMaintenance :=
      current.maintenanceDay == external.maintenanceDay && current.maintenanceTime == external.maintenanceTime;
    var sameBackup := current.backupTime == external.backupTime;
    var shared := map[
      FilterCheck := sameFilter, MaintenanceCheck := sameMaintenance,
      SizeCheck := EqualFold(current.plan, external.plan),
      ProtectionCheck := current.terminationProtection == external.terminationProtection,
      VersionCheck := sameMajor, BackupCheck := sameBackup, SettingsCheck := sameSettings];
    match engine
    case PostgreSQL => shared
    case MySQL => shared[ZoneCheck := current.zone == external.zone]
  }

  /** Everything but the settings agrees. */
  ghost predicate Agrees(engine: Engine, current: Params, external: Params) {
    && SameElements(current.ipFilter, external.ipFilter)
    && Versions.SameMajor(current.version, external.version)
    && current.maintenanceDay == external.maintenanceDay && current.maintenanceTime == external.maintenanceTime
    && current.backupTime == external.backupTime
    && EqualFold(current.plan, external.plan)
    && current.terminationProtection == external.terminationProtection
    && (engine.MySQL? ==> current.zone == external.zone)
  }

  /** The answers that some iteration order can give. */
  ghost predicate PossibleAnswer(engine: Engine, current: Params, external: Params, v: Verdict) {
    exists c :: Possible(current.settings, external.settings, c) &&
      v == (if c.Panics? then Panics else if c.Same? && Agrees(engine, current, external) then Same else Different)
  }

  lemma AllChecksIff(engine: Engine, current: Params, external: Params, sameFilter: bool, sameSettings: bool)
    requires sameFilter <==> SameElements(current.ipFilter, external.ipFilter)
    ensures var checks := Checks(engine, current, external, sameFilter, sameSettings);
            (forall k :: k in checks ==> checks[k]) <==> sameSettings && Agrees(engine, current, external)
  {
    Versions.SameMajorIff(current.version, external.version);
    match engine
    case PostgreSQL => PostgreSQLChecksIff(current, external, sameFilter, sameSettings);
    case MySQL => MySQLChecksIff(current, external, sameFilter, sameSettings);
  }

  /** What the checks of both engines have in common. */
  predicate SharedChecks(current: Params, external: Params) {
    && Versions.CompareMajorVersion(current.version, external.version) == Ok(true)
    && current.maintenanceDay == external.maintenanceDay && current.maintenanceTime == external.maintenanceTime
    && current.backupTime == external.backupTime && EqualFold(current.plan, external.plan)
    && current.terminationProtection == external.terminationProtection
  }

  lemma PostgreSQLChecksIff(current: Params, external: Params, sameFilter: bool, sameSettings: bool)
    ensures var checks := Checks(PostgreSQL, current, external, sameFilter, sameSettings);
            (forall k :: k in checks ==> checks[k]) <==>
            sameFilter && sameSettings && SharedChecks(current, external)
  {
    var checks := Checks(PostgreSQL, current, external, sameFilter, sameSettings);
    if forall k :: k in checks ==> checks[k] {
      assert checks[FilterCheck] && checks[MaintenanceCheck] && checks[SizeCheck] && checks[ProtectionCheck];
      assert checks[VersionCheck] && checks[BackupCheck] && checks[SettingsCheck];
    }
  }

  lemma MySQLChecksIff(current: Params, external: Params, sameFilter: bool, sameSettings: bool)
    ensures var checks := Checks(MySQL, current, external, sameFilter, sameSettings);
            (forall k :: k in checks ==> checks[k]) <==>
            sameFilter && sameSettings && SharedChecks(current, external) && current.zone == external.zone
  {
    var checks := Checks(MySQL, current, external, sameFilter, sameSettings);
    if forall k :: k in checks ==> checks[k] {
      assert checks[FilterCheck] && checks[MaintenanceCheck] && checks[SizeCheck] && checks[ProtectionCheck];
      assert checks[VersionCheck] && checks[BackupCheck] && checks[ZoneCheck] && checks[SettingsCheck];
    }
  }

  /** Walks the checks in an arbitrary order. */
  method IsUpToDate(engine: Engine, current: Params, external: Option<Params>) returns (v: Verdict)
    ensures external.None? ==> v == Different
    ensures external.Some? ==> PossibleAnswer(engine, current, external.value, v)
  {
    if external.None? {
      return Different;
    }
    var sameFilter := IsSameStringSet(current.ipFilter, Some(external.value.ipFilter));
    var settings := CompareSettings(current.settings, external.value.settings);
    if settings.Panics? {
      return Panics;
    }
    var checks := Checks(engine, current, external.value, sameFilter, settings.Same?);
    AllChecksIff(engine, current, external.value, sameFilter, settings.Same?);
    var ok := true;
    var todo := checks.Keys;
    while todo != {}
      invariant todo <= checks.Keys
      invariant ok <==> forall k :: k in checks && k !in todo ==> checks[k]
      decreases todo
    {
      var k :| k in todo;
      if !checks[k] {
        ok := false;
      }
      todo := todo - {k};
    }
    return if ok then Same else Different;
  }

  /** For admitted settings the answer does not depend on the order, and it is yes exactly when the filters are
      equal as sets, the plans equal up to case, the majors, schedules and protection equal, and the settings
      are the same map. */
  lemma UpToDateIff(engine: Engine, current: Params, external: Params, v: Verdict)
    requires Admitted(current.settings) && PossibleAnswer(engine, current, external, v)
    ensures v == if Agrees(engine, current, external) && !ToMap(external.settings).DecodeError? &&
                    Contents(current.settings) == Contents(external.settings) then Same else Different
  {
    var c :| Possible(current.settings, external.settings, c) &&
      v == (if c.Panics? then Panics else if c.Same? && Agrees(engine, current, external) then Same else Different);
    ComparisonIsRight(current.settings, external.settings, c);
  }

  // ---- Reports with missing parts ----

  /** A service that reports no termination protection compares as unprotected, on PostgreSQL; one that reports no
      schedule is never up to date with a spec whose backup time is one. A missing maintenance window crashes both
      engines, and missing termination protection crashes MySQL; nothing else does. */
  lemma MissingParts(engine: Engine, svc: Service, p: Params, v: Verdict)
    ensures MapParameters(engine, svc, p.zone).None? <==>
            svc.maintenance.None? || (engine.MySQL? && svc.terminationProtection.None?)
    ensures engine.PostgreSQL? && svc.terminationProtection.None? ==>
              MapParameters(engine, svc, p.zone) ==
              MapParameters(engine, svc.(terminationProtection := Some(false)), p.zone)
    ensures svc.schedule.None? && MapParameters(engine, svc, p.zone).Some? && TimeOfDay.InPattern(p.backupTime) ==>
              PossibleAnswer(engine, p, MapParameters(engine, svc, p.zone).value, v) ==> v != Same
  {
    if TimeOfDay.InPattern(p.backupTime) {
      TimeOfDay.SubmatchIff(p.backupTime);
      assert p.backupTime != "";
    }
  }

  /** The service as reported is what the parameters ask for, field by field. */
  ghost predicate Matches(p: Params, svc: Service) {
    && svc.maintenance == Some(Maintenance(p.maintenanceDay, p.maintenanceTime))
    && p.backupTime == (match svc.schedule
                        case None => ""
                        case Some(s) => TimeOfDay.Joined(TimeOfDay.Pad2(s.hour), TimeOfDay.Pad2(s.minute), "00"))
    && p.terminationProtection == (svc.terminationProtection == Some(true))
    && UpperCase(p.plan) == UpperCase(svc.plan) && SameElements(p.ipFilter, svc.ipFilter)
    && Versions.SameMajor(p.version, svc.version)
    && Contents(p.settings) == RereadFields(svc.settings)
  }

  /** The up-to-date check in terms of the report: parameters with admitted settings are up to date with a complete
      report exactly if it matches them field by field. */
  lemma UpToDateWithReportIff(engine: Engine, p: Params, svc: Service, v: Verdict)
    requires Admitted(p.settings) && MapParameters(engine, svc, p.zone).Some?
    requires PossibleAnswer(engine, p, MapParameters(engine, svc, p.zone).value, v)
    ensures v == if Matches(p, svc) then Same else Different
  {
    UpToDateIff(engine, p, MapParameters(engine, svc, p.zone).value, v);
    EqualFoldIff(p.plan, svc.plan);
  }

  // ---- Observe ----

  datatype Outcome = NotFound | Crashed | UpToDate | OutOfDate

  function SchemaName(engine: Engine): string {
    match engine
    case PostgreSQL => "pg"
    case MySQL => "mysql"
  }

  /** The parameters compared with the service: with schema defaults filled in, or as given when the schema
      cannot be had. None stands for the crash of the defaulting. */
  function CurrentParams(engine: Engine, p: Params, schemas: Option<Schemas>): Option<Params> {
    if schemas.None? then Some(p)
    else match DefaultRaw(schemas.value, SchemaName(engine), p.settings)
      case Output(raw) => Some(p.(settings := raw))
      case NilMapWrite => None
      case _ => Some(p)
  }

  type Services = map<string, Service>

  function ToOutcome(v: Verdict): Outcome {
    match v
    case Same => UpToDate
    case Different => OutOfDate
    case Panics => Crashed
  }

  ghost predicate PossibleObservation(
    engine: Engine, r: Resource, services: Services, schemas: Option<Schemas>, o: Outcome)
  {
    if r.InstanceName() !in services then o == NotFound
    else
      var external := MapParameters(engine, services[r.InstanceName()], r.params.zone);
      var current := CurrentParams(engine, r.params, schemas);
      if external.None? || current.None? then o == Crashed
      else exists v :: PossibleAnswer(engine, current.value, external.value, v) && o == ToOutcome(v)
  }

  method Observe(engine: Engine, r: Resource, services: Services, schemas: Option<Schemas>) returns (o: Outcome)
    ensures PossibleObservation(engine, r, services, schemas, o)
  {
    if r.InstanceName() !in services {
      return NotFound;
    }
    var external := MapParameters(engine, services[r.InstanceName()], r.params.zone);
    if external.None? {
      return Crashed;
    }
    var current := r.params;
    if schemas.Some? {
      var defaulted := SetDefaultsRaw(schemas.value, SchemaName(engine), r.params.settings);
      if defaulted.NilMapWrite? {
        return Crashed;
      }
      if defaulted.Output? {
        current := current.(settings := defaulted.raw);
      }
    }
    var v := IsUpToDate(engine, current, external);
    return ToOutcome(v);
  }

  // ---- Update ----

  datatype Body = Body(maintenance: Maintenance, schedule: Schedule, terminationProtection: bool, plan: string,
                       ipFilter: seq<string>, settings: Fields)

  datatype UpdateError = BadSchedule | BadSettings | NoSuchService

  /** The version is not part of the body. */
  function UpdateBody(p: Params): Result<Body, UpdateError> {
    match TimeOfDay.ParseTime(p.backupTime)
    case Err(_) => Err(BadSchedule)
    case Ok(time) =>
      if ToMap(p.settings).DecodeError? then Err(BadSettings)
      else Ok(Body(Maintenance(p.maintenanceDay, p.maintenanceTime), Schedule(time.hour, time.minute),
                   p.terminationProtection, p.plan, p.ipFilter, Contents(p.settings)))
  }

  /** PostgreSQL updates the service called after the resource, MySQL the one called after its external name. */
  function UpdateTarget(engine: Engine, r: Resource): string {
    match engine
    case PostgreSQL => r.name
    case MySQL => r.InstanceName()
  }

  /** A provider that stores the body as sent and reports schema defaults; it keeps the version. */
  function Stored(sc: Schema, svc: Service, body: Body): Service {
    Service(Some(body.maintenance), Some(body.schedule), Some(body.terminationProtection),
            body.plan, body.ipFilter, svc.version, Defaulted(sc, body.settings))
  }

  function Update(engine: Engine, sc: Schema, r: Resource, services: Services): Services {
    var target := UpdateTarget(engine, r);
    match UpdateBody(r.params)
    case Ok(body) => if target in services then services[target := Stored(sc, services[target], body)] else services
    case Err(_) => services
  }

  function Rounds(engine: Engine, sc: Schema, r: Resource, services: Services, n: nat): Services {
    if n == 0 then services else Rounds(engine, sc, r, Update(engine, sc, r, services), n - 1)
  }

  // ---- Admission of a spec ----

  datatype SpecError = EmptyFilter | BadMaintenanceTime | UnsupportedSettings
  datatype Validator = FilterValidator | MaintenanceValidator | SettingsValidator

  /** The validators run in order and the first failure is reported; the backup time is not among them. */
  method ValidateSpec(p: Params) returns (r: Result<(), SpecError>)
    ensures r.Ok? <==> p.ipFilter != [] && TimeOfDay.InPattern(p.maintenanceTime) && Admitted(p.settings)
    ensures r.Err? ==> match r.error
                       case EmptyFilter => p.ipFilter == []
                       case BadMaintenanceTime => p.ipFilter != [] && !TimeOfDay.InPattern(p.maintenanceTime)
                       case UnsupportedSettings =>
                         p.ipFilter != [] && TimeOfDay.InPattern(p.maintenanceTime) && !Admitted(p.settings)
  {
    var validators := [FilterValidator, MaintenanceValidator, SettingsValidator];
    var i := 0;
    while i < |validators|
      invariant 0 <= i <= |validators|
      invariant i > 0 ==> p.ipFilter != []
      invariant i > 1 ==> TimeOfDay.InPattern(p.maintenanceTime)
      invariant i > 2 ==> Admitted(p.settings)
    {
      match validators[i] {
        case FilterValidator =>
          if |p.ipFilter| == 0 {
            return Err(EmptyFilter);
          }
        case MaintenanceValidator =>
          var time := TimeOfDay.Parse(p.maintenanceTime);
          if time.Err? {
            return Err(BadMaintenanceTime);
          }
        case SettingsValidator =>
          var ok := ValidateRawExtension(p.settings);
          if !ok {
            return Err(UnsupportedSettings);
          }
      }
      i := i + 1;
    }
    return Ok(());
  }

  // ---- Convergence ----

  lemma UpdateSettles(engine: Engine, sc: Schema, r: Resource, services: Services)
    ensures Update(engine, sc, r, Update(engine, sc, r, services)) == Update(engine, sc, r, services)
  {
    var once := Update(engine, sc, r, services);
    var target := UpdateTarget(engine, r);
    if UpdateBody(r.params).Ok? && target in services {
      assert Stored(sc, once[target], UpdateBody(r.params).value) == once[target];
      assert Update(engine, sc, r, once) == once;
    }
  }

  /** Any number of updates does what one does. */
  lemma {:induction false} RoundsSettle(engine: Engine, sc: Schema, r: Resource, services: Services, n: nat)
    requires n >= 1
    ensures Rounds(engine, sc, r, services, n) == Update(engine, sc, r, services)
    decreases n
  {
    if n > 1 {
      UpdateSettles(engine, sc, r, services);
      RoundsSettle(engine, sc, r, Update(engine, sc, r, services), n - 1);
    }
  }

  lemma EqualFoldReflexive(s: string)
    ensures EqualFold(s, s)
  {
  }

  /** A service that stored an update reads back as the spec, but for the version, which it keeps, the backup time,
      which comes back as the schedule prints it, and the settings, which come back with the defaults. */
  lemma StoredReadsBack(engine: Engine, p: Params, sc: Schema, svc: Service, hour: int, minute: int, second: int)
    requires TimeOfDay.Writes(p.backupTime, hour, minute, second) && !ToMap(p.settings).DecodeError?
    ensures UpdateBody(p).Ok?
    ensures MapParameters(engine, Stored(sc, svc, UpdateBody(p).value), p.zone) == Some(p.(
              version := svc.version,
              backupTime := TimeOfDay.Joined(TimeOfDay.Pad2(hour), TimeOfDay.Pad2(minute), "00"),
              settings := Document(Obj(RereadFields(Defaulted(sc, Contents(p.settings)))))))
  {
    TimeOfDay.ParseIff(p.backupTime, hour, minute, second);
  }

  /** An update is sent exactly if the backup time and the settings parse. */
  lemma UpdateSentIff(p: Params)
    ensures UpdateBody(p).Ok? <==> TimeOfDay.InPattern(p.backupTime) && !ToMap(p.settings).DecodeError?
    ensures UpdateBody(p) == Err(BadSchedule) <==> !TimeOfDay.InPattern(p.backupTime)
  {
    TimeOfDay.ParseTimeInRange(p.backupTime);
  }

  /** The service after a successful update agrees with the spec up to the backup time and the version. */
  lemma AgreesAfterUpdate(engine: Engine, p: Params, raw: Raw, sc: Schema, svc: Service)
    requires UpdateBody(p).Ok?
    ensures var external := MapParameters(engine, Stored(sc, svc, UpdateBody(p).value), p.zone);
            external.Some? &&
            (Agrees(engine, p.(settings := raw), external.value) <==>
             TimeOfDay.Canonical(p.backupTime) && Versions.SameMajor(p.version, svc.version))
  {
    TimeOfDay.PrintOfParseIff(p.backupTime);
    EqualFoldReflexive(p.plan);
  }

  /** The settings compared after an update are the same document. */
  lemma SettingsAfterUpdate(engine: Engine, p: Params, schemas: Schemas, svc: Service)
    requires UpdateBody(p).Ok? && Admitted(p.settings)
    requires SchemaName(engine) in schemas && ScalarDefaults(schemas[SchemaName(engine)])
    requires CurrentParams(engine, p, Some(schemas)).Some?
    ensures var current := CurrentParams(engine, p, Some(schemas)).value;
            var sc := schemas[SchemaName(engine)];
            var external := MapParameters(engine, Stored(sc, svc, UpdateBody(p).value), p.zone).value;
            && current == p.(settings := current.settings)
            && Admitted(current.settings)
            && !ToMap(external.settings).DecodeError? && Contents(current.settings) == Contents(external.settings)
  {
    DefaultedSettingsAreAdmitted(schemas, SchemaName(engine), p.settings);
    assert RereadFields(map[]) == map[];
  }

  lemma AnswerAfterUpdate(engine: Engine, p: Params, schemas: Schemas, svc: Service, v: Verdict)
    requires UpdateBody(p).Ok? && Admitted(p.settings)
    requires SchemaName(engine) in schemas && ScalarDefaults(schemas[SchemaName(engine)])
    requires CurrentParams(engine, p, Some(schemas)).Some?
    requires var sc := schemas[SchemaName(engine)];
             var external := MapParameters(engine, Stored(sc, svc, UpdateBody(p).value), p.zone);
             PossibleAnswer(engine, CurrentParams(engine, p, Some(schemas)).value, external.value, v)
    ensures v == if TimeOfDay.Canonical(p.backupTime) &&
                    Versions.SameMajor(p.version, svc.version)
                 then Same else Different
  {
    var sc := schemas[SchemaName(engine)];
    var current := CurrentParams(engine, p, Some(schemas)).value;
    var external := MapParameters(engine, Stored(sc, svc, UpdateBody(p).value), p.zone).value;
    AgreesAfterUpdate(engine, p, current.settings, sc, svc);
    SettingsAfterUpdate(engine, p, schemas, svc);
    UpToDateIff(engine, current, external, v);
  }

  lemma CrashesIff(engine: Engine, p: Params, schemas: Schemas)
    requires SchemaName(engine) in schemas
    ensures CurrentParams(engine, p, Some(schemas)).None? <==>
            p.settings == Document(Null) && HasDefaults(schemas[SchemaName(engine)])
  {
    NilMapWriteIff(schemas, SchemaName(engine), p.settings);
  }

  /** The schema of the engine can be had. */
  predicate Fetched(engine: Engine, schemas: Option<Schemas>) {
    schemas.Some? && (if engine.PostgreSQL? then "pg" else "mysql") in schemas.value
  }

  function ServiceName(r: Resource): string {
    if r.externalName == "" then r.name else r.externalName
  }

  /** The update goes to the service that is observed. */
  predicate Reachable(engine: Engine, r: Resource) {
    engine.MySQL? || r.externalName == "" || r.externalName == r.name
  }

  /** Observe finds nothing exactly if there is no service of that name; and it crashes on a report without maintenance
      window, whatever else is there. */
  lemma ObserveFindsIff(engine: Engine, r: Resource, services: Services, schemas: Option<Schemas>, o: Outcome)
    requires PossibleObservation(engine, r, services, schemas, o)
    ensures o.NotFound? <==> ServiceName(r) !in services
    ensures ServiceName(r) in services && services[ServiceName(r)].maintenance.None? ==> o.Crashed?
  {
  }

  /** The settings already have every value the schema asks for, in the form in which they read back. */
  ghost predicate CompleteAsGiven(sc: Schema, settings: Raw) {
    Completes(sc, Contents(settings), Contents(settings)) && PlainNumbers(Contents(settings))
  }

  lemma SettingsWithoutSchema(engine: Engine, p: Params, sc: Schema, svc: Service)
    requires UpdateBody(p).Ok? && Admitted(p.settings) && ScalarDefaults(sc)
    ensures var external := MapParameters(engine, Stored(sc, svc, UpdateBody(p).value), p.zone).value;
            && !ToMap(external.settings).DecodeError?
            && (Contents(p.settings) == Contents(external.settings) <==> CompleteAsGiven(sc, p.settings))
  {
    var external := MapParameters(engine, Stored(sc, svc, UpdateBody(p).value), p.zone).value;
    assert Contents(external.settings) == RereadFields(Defaulted(sc, Contents(p.settings)));
    DefaultedRereadIff(sc, Contents(p.settings));
  }

  /** Without the schema the spec is compared as given. */
  lemma AnswerWithoutSchema(engine: Engine, p: Params, sc: Schema, svc: Service, v: Verdict)
    requires UpdateBody(p).Ok? && Admitted(p.settings) && ScalarDefaults(sc)
    requires var external := MapParameters(engine, Stored(sc, svc, UpdateBody(p).value), p.zone);
             PossibleAnswer(engine, p, external.value, v)
    ensures v == if TimeOfDay.Canonical(p.backupTime) &&
                    Versions.SameMajor(p.version, svc.version) && CompleteAsGiven(sc, p.settings)
                 then Same else Different
  {
    var external := MapParameters(engine, Stored(sc, svc, UpdateBody(p).value), p.zone).value;
    AgreesAfterUpdate(engine, p, p.settings, sc, svc);
    assert p == p.(settings := p.settings);
    SettingsWithoutSchema(engine, p, sc, svc);
    UpToDateIff(engine, p, external, v);
  }

  /** What Observe says after one or more updates of an existing service: for a spec with admitted settings and
      a backup time that parses, against a schema whose defaults are scalars, it says up to date if and only if
      the backup time is in canonical form, the versions share a major, and, where the schema cannot be fetched, the
      settings are complete as given. It crashes if and only if the schema is there with a default to fill in and
      the settings are the document `null`; and otherwise it stays out of date. */
  lemma ConvergenceIff(
    engine: Engine, r: Resource, services: Services, sc: Schema, schemas: Option<Schemas>, n: nat, o: Outcome)
    requires n >= 1 && ScalarDefaults(sc) && (Fetched(engine, schemas) ==> schemas.value[SchemaName(engine)] == sc)
    requires Admitted(r.params.settings) && TimeOfDay.InPattern(r.params.backupTime)
    requires ServiceName(r) in services && Reachable(engine, r)
    requires PossibleObservation(engine, r, Rounds(engine, sc, r, services, n), schemas, o)
    ensures var svc := services[ServiceName(r)];
            o == if Fetched(engine, schemas) && r.params.settings == Document(Null) && HasDefaults(sc) then Crashed
                 else if TimeOfDay.Canonical(r.params.backupTime) &&
                         Versions.SameMajor(r.params.version, svc.version) &&
                         (Fetched(engine, schemas) || CompleteAsGiven(sc, r.params.settings))
                 then UpToDate else OutOfDate
  {
    var p, svc := r.params, services[ServiceName(r)];
    StoredAfterRounds(engine, sc, r, services, n);
    var current := CurrentParams(engine, p, schemas);
    if Fetched(engine, schemas) {
      CrashesIff(engine, p, schemas.value);
    } else {
      assert current == Some(p);
    }
    if current.Some? {
      var external := MapParameters(engine, Stored(sc, svc, UpdateBody(p).value), p.zone);
      var v :| PossibleAnswer(engine, current.value, external.value, v) && o == ToOutcome(v);
      if Fetched(engine, schemas) {
        AnswerAfterUpdate(engine, p, schemas.value, svc, v);
      } else {
        AnswerWithoutSchema(engine, p, sc, svc, v);
      }
    }
  }

  /** After one or more rounds the observed service is the one that stored the update. */
  lemma StoredAfterRounds(engine: Engine, sc: Schema, r: Resource, services: Services, n: nat)
    requires n >= 1 && !ToMap(r.params.settings).DecodeError? && TimeOfDay.InPattern(r.params.backupTime)
    requires ServiceName(r) in services && Reachable(engine, r)
    ensures UpdateBody(r.params).Ok?
    ensures var after := Rounds(engine, sc, r, services, n);
            && r.InstanceName() == ServiceName(r) && ServiceName(r) in after
            && after[ServiceName(r)] == Stored(sc, services[ServiceName(r)], UpdateBody(r.params).value)
  {
    RoundsSettle(engine, sc, r, services, n);
    TimeOfDay.ParseTimeInRange(r.params.backupTime);
  }

  /** Where the update goes elsewhere, or cannot be built, no number of rounds changes what Observe sees: this is
      every PostgreSQL resource whose external name differs from its name, and every unparseable backup time. */
  lemma {:induction false} MisdirectedUpdatesChangeNothing(
    engine: Engine, sc: Schema, r: Resource, services: Services, n: nat)
    requires !Reachable(engine, r) || !TimeOfDay.InPattern(r.params.backupTime)
    ensures var after := Rounds(engine, sc, r, services, n);
            && after.Keys == services.Keys
            && (ServiceName(r) in services ==> after[ServiceName(r)] == services[ServiceName(r)])
            && forall schemas, o :: PossibleObservation(engine, r, after, schemas, o) <==>
                                    PossibleObservation(engine, r, services, schemas, o)
    decreases n
  {
    TimeOfDay.ParseTimeInRange(r.params.backupTime);
    if n > 0 {
      MisdirectedUpdatesChangeNothing(engine, sc, r, Update(engine, sc, r, services), n - 1);
    }
  }
}
