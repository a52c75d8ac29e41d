# Verified model of provider-exoscale

A Dafny model of the parts of the Exoscale Crossplane provider that carry state, loops or
protocols, and proofs of what they guarantee. Nothing here is executed; `dafny verify dfyconfig.toml`
checks everything.

## What is modelled

**Bucket ownership** (`Buckets`, `BucketController`, `BucketRuns`, `BucketLife`, `BucketViolations`). Any number of
Bucket resources share one storage. `Buckets` gives each controller operation as a function on values,
`BucketController` is the controller with its fields, maps and loops, each method proved equal to its
function, and `BucketRuns` is the transition system: API create, update and delete with the admission
webhook, reconciles with every kind of failure, objects coming and going, and other accounts making and
removing their own buckets. One reconcile is one step because the controller is set up with one worker
(operator/bucketcontroller/setup.go:33-36). Ownership is exclusive throughout a run if and only if every step spares
five things: the lock, the name, the bucket, the record of its removal and the deletion mark. `BucketViolations` gives,
for each of the five, a run that spares the other four and ends with two holders of one bucket. It also splits a
reconcile into Observe and Create and says exactly when a late Create does damage.

**IAM keys** (`IamRole`, `IamKeys`, `IamController`, `IamRuns`, `IamLife`). The rule list of a role with a
first-match evaluator, and the life of roles and keys for any number of resources over runs in which every
remote call may fail, fail after taking effect, or end without finishing.

**Settings** (`Settings`, `SettingsEngine`, `Mapper`). Schema defaulting as a pure function with its
least-extension law; the defaulting loop on heap objects, in place and in arbitrary iteration order; raw
settings with their `null` case; validation and comparison.

**Desired and observed state** (`TimeOfDay`, `Versions`, `DBaaS`). The time-of-day parser and printer, the
version order and the admission gate, and the Update/Observe loop of PostgreSQL and MySQL.

### The surroundings that the model assumes

The managed reconciler of Crossplane is not part of the repository. The model takes from it: a deleting
resource with deletion policy Orphan is released without connecting; a creation mark is written before Create
and cleared together with writing the annotations, and a resource whose mark stays is not reconciled further;
annotations set by Create are written even when Create fails; after Create the status is the stored one; a
Delete without error records Ready=False/Deleting and Synced=True/ReconcileSuccess; a failure to drop the
finalizer records Synced=False/ReconcileError. Status writes, annotation writes and finalizer removal may fail
wherever a theorem does not say otherwise. One Exoscale account is used; a bucket of another account or another
zone answers with an error. Ids of roles and keys are never reused, and role ids parse as UUIDs.

### What the proofs turned up

- For the document `null`, `ValidateRawExtension` answers yes and `SetDefaults` writes to a nil map as soon as there
  is a default to fill in (operator/mapper/alias.go:83-90, internal/settings/schema.go:80-82). This is about the two
  functions; whether a stored resource can carry that document is decided outside this repository.
  `Mapper.NilMapWriteIff` and `DBaaS.ConvergenceIff` say exactly when.
- A backup time such as `1:30:00` or `01:30:15` is accepted, but the service never counts as up to date
  (`DBaaS.ConvergenceIff`).
- PostgreSQL reads the service by its external name and updates the one called after the resource
  (operator/postgresqlcontroller/observe.go:31, operator/postgresqlcontroller/update.go:29); where the two names
  differ no update reaches the observed service (`DBaaS.MisdirectedUpdatesChangeNothing`). MySQL uses one name.
- The comment in operator/webhook/validate.go:54 says that a version change is allowed only to the observed
  version; the code admits every downgrade and everything up to the larger of old desired and observed
  (`Versions.GateIff`).
- apis/exoscale/v1/iam_types.go:25 says that the key has access to the listed buckets; with two different names
  the rule list gives access to none, and with an empty list to all (`IamRole.GrantsEveryListedIff`,
  `IamRole.KeepsToListedIff`). Creating a resource with an empty list is refused
  (operator/iamkeycontroller/webhook.go:24-27); an update before the key exists is not.
- Delete is not repeated once the key is gone: if the key deletion takes effect but is not reported as Success, as
  with an operation still pending, or if it is reported and the role deletion then fails, the role stays for good
  (`IamRuns.RoleStaysForGoodIff`). While deleting, any failed lookup of the key releases the resource
  (`IamRuns.ReleaseLeavesKeyIff`), and a credentials secret without the secret part keeps it from being deleted at
  all (`IamRuns.ReachesDeleteIff`).
- A key request that fails after making a key is repeated, so the resource gets two keys, and deleting its role leaves
  the first one without a role (`IamRuns.AtMostOnceKey`, `IamRuns.ReferentialIntegrity`).
- The old resource of a re-created bucket is kept off its successor by the deletion mark alone; if a failure to drop
  the finalizer overwrites the mark, it takes the successor's bucket (`BucketRuns.TakesBucketIff`,
  `BucketViolations.LostMarkHitsSuccessor`).
- CompareSettings is right for settings that pass validation and for no others (`Mapper.ValidationIsExact`).

## Model

| member | source | states |
|---|---|---|
| `Buckets.DeletedMarkIff` | operator/bucketcontroller/connector.go:80-94 | whatever conditions were recorded before, writing a Ready and a Synced condition makes the resource count as already deleted exactly for the one combination of four criteria |
| `Buckets.DeleteSucceedsIff` | operator/bucketcontroller/delete.go:28-89 | Delete reports success iff the bucket is reachable, the removal goes through and nothing is left in it (empty, or DeleteAll with every object listed and none failing); success removes exactly that bucket |
| `Buckets.DeleteKeepsDataOnFailure` | operator/bucketcontroller/delete.go:38-89 | whatever the calls do, the bucket goes iff it can be emptied and the removal is not refused, so an error loses it only if the reply to the removal was lost; a bucket that stays keeps creator and zone and loses exactly the listed objects that the DeleteAll sweep gets to and that do not fail; other buckets are untouched |
| `Buckets.ListedKeysOfParts` | operator/bucketcontroller/delete.go:49-58 | the queue of a listing is made up part by part, in order, each listed entry once and error entries not at all |
| `Buckets.UpdateAdmittedIff` | operator/bucketcontroller/webhook.go:31-51 | an update is admitted iff a provider config is named and, once a name is recorded, the named bucket (the resource's own name if the spec gives none) and the zone stay; a create iff a provider config is named |
| `BucketController.FirstCondition` | operator/bucketcontroller/connector.go:96-103 | the first condition of the type, or none if there is none |
| `BucketController.Connect` | operator/bucketcontroller/connector.go:38-59 | the no-op client iff deletion was recorded, before credentials are needed |
| `BucketController.ProvisioningPipeline.ObserveBucket` | operator/bucketcontroller/observe.go:21-48 | computes `Buckets.Observe`: records the resolved name only under the lock, refuses to adopt |
| `BucketController.ProvisioningPipeline.CreateS3Bucket` | operator/bucketcontroller/create.go:38-53 | a taken name is left as it is and counts as success iff it can be confirmed as reachable; a free name gets an empty bucket of this resource unless the call is refused; success means that the bucket is there and reachable |
| `BucketController.ProvisioningPipeline.SetLock` | operator/bucketcontroller/create.go:57-63 | sets the lock annotation, keeps the other annotations, and copes with a nil map |
| `BucketController.ProvisioningPipeline.CreateBucket` | operator/bucketcontroller/create.go:17-33 | computes `Buckets.Create`: no lock after a failed bucket step |
| `BucketController.ProvisioningPipeline.QueueListed` | operator/bucketcontroller/delete.go:49-58 | exactly the listed keys, in order, without the error entries |
| `BucketController.ProvisioningPipeline.RemoveObjects` | operator/bucketcontroller/delete.go:65-67 | an object stays iff it is not among the processed keys or fails, and a failure is reported iff some processed key fails |
| `BucketController.ProvisioningPipeline.DeleteAll` | operator/bucketcontroller/delete.go:42-69 | computes `Buckets.DeleteAllObjects` and leaves the resource alone |
| `BucketController.ProvisioningPipeline.DeleteS3Bucket` | operator/bucketcontroller/delete.go:85-89 | only the bucket of the recorded name can go, iff it is reachable and empty and the call is not refused; an error changes nothing unless the reply was lost |
| `BucketController.ProvisioningPipeline.DeleteBucket` | operator/bucketcontroller/delete.go:19-36 | computes `Buckets.Delete`; success means that the recorded name is no longer in the storage |
| `BucketRuns.ReconcileRecordsResolvedName` | operator/bucketcontroller/observe.go:40-43 | no reconcile changes the spec or records another name than the resolved one |
| `BucketRuns.RecordedNameIsFrozen` | operator/bucketcontroller/webhook.go:36-45 | in every run a recorded name equals the resolved name, and from then on name and zone never change |
| `BucketRuns.CreateIsSafe` | operator/bucketcontroller/create.go:38-63 | a Create on a free name leaves every bucket that was there as it was, and a held lock only on the own bucket |
| `BucketRuns.DeleteKeepsOwnershipIff` | operator/bucketcontroller/delete.go:85-89 | a Delete of the own bucket keeps ownership iff it does not remove the bucket without the deletion mark being written |
| `BucketRuns.ReconcileKeepsOwnershipIff` | operator/bucketcontroller/connector.go:38-59 | a whole reconcile, with any failures, keeps the ownership of its resource iff it neither loses the bucket without record nor overwrites the deletion mark of a locked resource without a bucket |
| `BucketRuns.StepKeepsOwnershipIff` | operator/bucketcontroller/webhook.go:36-45 | from any state in which every holder owns its bucket and the marks are in order, a step of any kind keeps it so iff it spares lock, name, bucket, record and mark |
| `BucketRuns.ExclusiveOwnership` | operator/bucketcontroller/create.go:55-63 | throughout a run of any number of resources, two holders of a lock never resolve to the same bucket and each held bucket exists and was created for its holder, iff every step of the run spares lock, name, bucket, record and mark |
| `BucketRuns.TakesBucketIff` | operator/bucketcontroller/delete.go:28-89 | from any state and with any failures, a reconcile takes a bucket iff the resource resolves to it, is live, locked and deleting without the deletion mark, connects and observes, and the bucket can be emptied and is not refused; its objects change iff the sweep gets to one; who created the bucket plays no part |
| `BucketRuns.MakesBucketIff` | apis/exoscale/v1/bucket_types.go:94-100 | a reconcile makes a bucket iff it is the one the spec names, or else the one called like the resource, that name is free and the resource is live, not deleting, not blocked and unmarked, and no call on the way fails; it is empty, in the zone of the spec and owned by the resource |
| `BucketRuns.OutOfReachIsLeftAlone` | operator/bucketcontroller/observe.go:29-39 | a bucket of another account or in another zone is never changed, locked or recorded, whatever fails |
| `BucketRuns.HitsOtherIff` | operator/bucketcontroller/delete.go:28-89 | some reconcile of a resource can touch a bucket not created for it iff the resource is live, locked and deleting without the mark and resolves to a reachable bucket of another that is empty or may be emptied |
| `BucketRuns.SuccessorSafety` | operator/bucketcontroller/connector.go:45-48 | whenever ownership is exclusive, and so after every sparing run, a reconcile with any failures at all removes a bucket or its objects only if the bucket was created for that resource |
| `BucketRuns.SuccessorSurvives` | operator/bucketcontroller/noop.go:13-35 | from any state in which the deletion is recorded, through any run that does not overwrite the mark, every reconcile of the old resource leaves the storage as it is and releases the resource iff the finalizer can be dropped |
| `BucketRuns.RenameKeepsOwnershipIff` | operator/bucketcontroller/webhook.go:36-45 | an admitted update keeps ownership iff the lock is not held, the resolved name stays, or the new one names another own bucket |
| `BucketRuns.RecordedNameNeedsNoCare` | operator/bucketcontroller/webhook.go:36-45 | once the bucket name is recorded, the webhook alone ensures that an update which leaves the lock annotation as it is keeps ownership |
| `BucketLife.ClaimsItsTarget` | operator/bucketcontroller/create.go:17-63 | from any state, creating a resource with a free target (the spec's bucket name, or else its own name) and reconciling it once makes exactly that bucket, owned and empty, and takes the lock |
| `BucketLife.RecordsItsTarget` | operator/bucketcontroller/observe.go:40-43 | the next reconcile records exactly that name and reports the resource as available |
| `BucketLife.RemovesItsTarget` | operator/bucketcontroller/delete.go:19-36 | deleting it brings the storage back to what it was, under either policy, and the next reconcile lets it go; under Orphan it is let go at once and the bucket stays |
| `BucketLife.UnsetNamesStayApart` | apis/exoscale/v1/bucket_types.go:94-100 | after any run and with any failures, two resources that name no bucket never make the same one |
| `BucketViolations.EveryHypothesisIsNeeded` | operator/bucketcontroller/observe.go:40-47 | for each of lock, name, bucket, record and mark a run that spares the other four and ends with two resources holding the lock of one bucket |
| `BucketViolations.LostMarkHitsSuccessor` | operator/bucketcontroller/connector.go:80-94 | once the deletion mark is lost, the old resource removes the bucket of its successor |
| `BucketViolations.SplitBreaksOwnership` | operator/bucketcontroller/create.go:42-46 | with Observe and Create as separate steps two resources lock the same bucket |
| `BucketViolations.LateCreateKeepsOwnershipIff` | operator/bucketcontroller/create.go:42-46 | a late Create keeps ownership unless it finds a reachable bucket of another resource, confirms it and writes the lock |
| `Settings.EmptyObjectGrowsIff` | internal/settings/schema.go:60-73 | a missing nested key gets an object iff some usable default lies below it |
| `Settings.LeastExtension` | internal/settings/schema.go:56-87 | defaulting gives an extension with every value the schema asks for, contained in every other such extension, and is the only one that is both |
| `Settings.UnchangedIff` | internal/settings/schema.go:56-87 | nothing changes iff the input already has every value the schema asks for |
| `Settings.Idempotent` | internal/settings/schema.go:56-87 | a second pass changes nothing |
| `Settings.UserValuesSurvive` | internal/settings/schema.go:63-68 | every user-set path survives, objects as objects and everything else with its exact value |
| `Settings.DefaultsAppear` | internal/settings/schema.go:74-84 | at every path that is free in the input and leads to a property without properties, the default appears, except none and the text `null` |
| `SettingsEngine.FillMissing` | internal/settings/schema.go:61-73 | a missing nested key: the new object is attached iff it holds something |
| `SettingsEngine.FillExisting` | internal/settings/schema.go:63-73 | an existing nested object is filled in place and siblings are out of reach |
| `SettingsEngine.FillKey` | internal/settings/schema.go:59-85 | the loop body changes one key, to the entry that the pure function gives it |
| `SettingsEngine.SetDefaults` | internal/settings/schema.go:56-87 | for every schema, input and iteration order the final object is the pure result and the flag says whether it differs |
| `SettingsEngine.Decode` | operator/mapper/alias.go:83-90 | the heap object built for a JSON object stands for that object |
| `SettingsEngine.Encode` | operator/mapper/alias.go:92-98 | reading a heap object back gives the JSON object it stands for |
| `Mapper.SetDefaultsRaw` | internal/settings/schema.go:36-54 | computes `Mapper.DefaultRaw`: unknown schema, undecodable input, nil-map write or encoded result |
| `Mapper.SetDefaultsFailsIff` | internal/settings/schema.go:36-45 | fails iff the schema is unknown or the settings are neither absent, nor `null`, nor an object |
| `Mapper.UserValuesComeOut` | internal/settings/schema.go:47-53 | every value a user sets comes out of SetDefaults as the same value at the same path |
| `Mapper.DefaultsComeOut` | internal/settings/schema.go:47-53 | every usable default comes out as the same value at every path that is free in the settings; the text `null` and missing defaults never do |
| `Mapper.EncodingKeepsValues` | operator/mapper/alias.go:92-98 | encoding keeps every value: a number stays the same number, as an integer iff it is whole and fits 64 bits, and everything else keeps its form |
| `Mapper.NilMapWriteIff` | internal/settings/schema.go:42-47 | defaulting panics iff the input is the document `null` and the schema has a usable default |
| `Mapper.RereadStable` | operator/mapper/alias.go:92-98 | encoding and decoding again is stable |
| `Mapper.SetDefaultsIsIdempotent` | internal/settings/schema.go:36-54 | SetDefaults applied to its own encoded output gives that output again |
| `Mapper.ValidateRawExtension` | operator/webhook/validate.go:12-29 | accepts exactly decodable settings whose values are strings, numbers and booleans |
| `Mapper.AdmittedIff` | operator/webhook/validate.go:12-29 | accepted are exactly absent settings, the document `null`, and objects of strings, booleans and numbers |
| `Mapper.ClosedUnderDefaultingIff` | internal/settings/schema.go:74-84 | defaulting keeps all admitted settings admitted iff every default that reaches the top level is a scalar |
| `Mapper.DefaultedSettingsAreAdmitted` | internal/settings/schema.go:36-54 | for such schemas the output of SetDefaults passes validation |
| `Mapper.CompareSettings` | operator/mapper/dbaas.go:34-53 | answers only what some iteration order allows: same, different, or a panic on two maps or two slices |
| `Mapper.UndecodableIsDifferent` | operator/mapper/dbaas.go:34-43 | settings that do not decode are never the same as anything |
| `Mapper.ValidationIsExact` | operator/mapper/dbaas.go:44-51 | decodable settings pass validation iff comparing them with anything, in any order, answers true map equality |
| `Mapper.ComparisonIsAnEquivalence` | operator/mapper/dbaas.go:34-53 | reflexive, symmetric and transitive on admitted settings |
| `Mapper.ToSet` | operator/mapper/dbaas.go:26-32 | the set of the elements |
| `Mapper.IsSameStringSet` | operator/mapper/dbaas.go:9-24 | true iff both have the same elements; a missing list equals only the empty one |
| `TimeOfDay.SubmatchIff` | apis/exoscale/v1/dbaas_types.go:76 | the matcher accepts exactly the texts that split as hour, minute and second of the pattern |
| `TimeOfDay.ParseInt` | apis/exoscale/v1/dbaas_types.go:100-106 | the value of a group of digits |
| `TimeOfDay.Parse` | apis/exoscale/v1/dbaas_types.go:91-108 | succeeds iff the text is in the pattern, with parts in 0..23, 0..59, 0..59 that the text writes; the empty text has its own error |
| `TimeOfDay.ParseIff` | apis/exoscale/v1/dbaas_types.go:76-108 | a text parses to a time iff it writes that time, the hour with one digit or two, minute and second with two |
| `TimeOfDay.ParseOfPrintIff` | operator/mapper/alias.go:75-81 | printing a schedule and parsing it gives it back iff it is a real time of day |
| `TimeOfDay.PrintOfParseIff` | operator/postgresqlcontroller/observe.go:208-214 | parsing and printing gives the same text iff it has a two-digit hour and zero seconds |
| `TimeOfDay.CanonicalIff` | operator/mapper/alias.go:75-81 | the texts that survive are exactly two-digit hour, two-digit minute and 00 |
| `Versions.ParseOfDotted` | operator/webhook/validate.go:45 | a printed version parses to itself |
| `Versions.ParseVersionIff` | operator/webhook/validate.go:32-43 | exactly the dotted groups of digits parse, with or without a leading v, each segment to the number it writes |
| `Versions.CompareDecidesPrecedence` | operator/webhook/validate.go:50 | the comparison decides precedence by the first differing segment, missing segments being zero |
| `Versions.AtMostIsATotalPreorder` | operator/webhook/validate.go:50 | the order is reflexive, total and transitive |
| `Versions.ConstraintIsObserved` | operator/webhook/validate.go:45-48 | the constraint printed and parsed again bounds the same versions as the observed one |
| `Versions.GateIff` | operator/webhook/validate.go:31-56 | a change is admitted iff all three versions parse and the new one is at most the larger of old desired and observed |
| `Versions.GateErrors` | operator/webhook/validate.go:32-48 | the first text that does not parse is reported, in order; the constraint always parses |
| `Versions.UpdateGateIff` | operator/postgresqlcontroller/webhook.go:149-158 | an unchanged text passes; from an unset version exactly what is at most the observed one; otherwise exactly what is at most the larger of old desired and observed |
| `Versions.DesiredStaysBounded` | operator/postgresqlcontroller/webhook.go:149-158 | over any run with non-decreasing reports the desired version stays at most the larger of initial desired and observed, and once set is never unset |
| `Versions.SameMajorIff` | operator/mapper/dbaas.go:55-71 | majors are equal iff both texts spell versions whose first groups of digits write the same number; an error iff one text spells none |
| `Versions.SameMajorOfDotted` | operator/mapper/dbaas.go:55-71 | for printed versions the answer is whether the first numbers are equal, whatever follows and with or without a leading v |
| `DBaaS.IsUpToDate` | operator/postgresqlcontroller/observe.go:151-177 | a missing service is out of date; otherwise an answer that some order of the checks allows |
| `DBaaS.UpToDateIff` | operator/mysqlcontroller/observe.go:115-142 | for admitted settings the answer is yes iff filters are equal as sets, plans up to case, the texts of the versions begin with the same number, schedules, protection and settings equal, in any order |
| `DBaaS.UpToDateWithReportIff` | operator/postgresqlcontroller/observe.go:76-102 | told from the report: up to date iff maintenance, printed schedule, protection, plan up to case, filter as a set, first version number and settings match the spec field by field |
| `DBaaS.EqualFoldIff` | apis/exoscale/v1/dbaas_types.go:115-117 | plans are equal iff they are equal in upper case |
| `DBaaS.MissingParts` | operator/postgresqlcontroller/observe.go:76-102 | what is missing from a report: PostgreSQL without termination protection compares as unprotected, a service without schedule is never up to date with a proper backup time, and exactly a missing maintenance window or, on MySQL, missing protection crashes |
| `DBaaS.Observe` | operator/postgresqlcontroller/observe.go:25-73 | not found, crash, up to date or out of date, as the mapped service and the defaulted spec allow |
| `DBaaS.ObserveFindsIff` | operator/postgresqlcontroller/observe.go:30-37 | not found iff there is no service called after the external name, or after the resource if it has none |
| `DBaaS.ValidateSpec` | operator/postgresqlcontroller/webhook.go:103-114 | admits iff the filter is non-empty, the maintenance time parses and the settings are admitted, and reports the first failure |
| `DBaaS.AgreesAfterUpdate` | operator/mysqlcontroller/update.go:38-51 | a service that stored the update agrees with the spec iff the backup time is canonical and the versions begin with the same number |
| `DBaaS.StoredReadsBack` | operator/postgresqlcontroller/update.go:38-71 | a service that stored an update reads back as the spec, but for the version it keeps, the printed backup time and the settings with defaults |
| `DBaaS.UpdateSentIff` | operator/postgresqlcontroller/update.go:43-53 | an update is sent iff backup time and settings parse |
| `DBaaS.AnswerWithoutSchema` | operator/postgresqlcontroller/observe.go:63-67 | the fallback to the spec as given says up to date iff, besides, the settings already complete the schema and write whole numbers without a fraction |
| `DBaaS.RoundsSettle` | operator/postgresqlcontroller/update.go:18-35 | any number of updates does what one does |
| `DBaaS.ConvergenceIff` | operator/postgresqlcontroller/update.go:38-71 | after one or more rounds: crash iff `null` settings meet a default; up to date iff canonical backup time, versions that begin with the same number and, if the schema cannot be fetched, settings that already have every default and read back as written; otherwise out of date for good |
| `DBaaS.MisdirectedUpdatesChangeNothing` | operator/postgresqlcontroller/update.go:22-32 | for a PostgreSQL resource with another external name, or a backup time that does not parse, no number of rounds changes what Observe can say |
| `IamRole.CreateRole` | operator/iamkeycontroller/util.go:18-60 | builds the rule list, which allows a request iff it is neither list-buckets nor list-sos-buckets-usage and its bucket equals every listed name |
| `IamRole.RoleMeaning` | operator/iamkeycontroller/util.go:22-39 | the same for every bucket list and request, under first-match evaluation with default deny |
| `IamRole.KeepsToListedIff` | operator/iamkeycontroller/util.go:29-39 | the role keeps to listed buckets iff the list is not empty |
| `IamRole.GrantsEveryListedIff` | apis/exoscale/v1/iam_types.go:25-26 | every listed bucket is accessible iff all listed names are equal; two different names leave none |
| `IamController.IAMKeyPipeline.CreateRoleAndKey` | operator/iamkeycontroller/create.go:64-115 | computes `IamKeys.CreateIAMKey` with at most ten attempts; annotations are set iff a key came back |
| `IamController.IAMKeyPipeline.CreateKey` | operator/iamkeycontroller/create.go:29-61 | success means a key known before, or annotations that name an existing role and key and a written secret; the annotations change only to name such a key; computes `IamKeys.Create` |
| `IamController.IAMKeyPipeline.ObserveKey` | operator/iamkeycontroller/observe.go:21-93 | computes `IamKeys.Observe`: moves the ids and decides existence; unreadable connection details are an error even while deleting |
| `IamController.IAMKeyPipeline.DeleteKeyAndRole` | operator/iamkeycontroller/delete.go:38-54 | nothing but the two recorded ids disappears: the key iff its deletion takes effect, the role iff the key deletion is reported done and the role deletion takes effect, so never before the key; computes `IamKeys.Delete` |
| `IamRuns.AttemptMakes` | operator/iamkeycontroller/create.go:73-103 | one attempt makes nothing, or a role and then the stray keys and, iff it reports one, one more key, all of which refer to that role |
| `IamLife.AttemptEndsIff` | operator/iamkeycontroller/create.go:73-103 | a key is reported iff the role is done and one of at most ten requests returns a key after nothing but failures; no key and no error iff the role is unfinished or that request returns an empty key; an error iff the role request or all ten fail |
| `IamLife.CreateEndsIff` | operator/iamkeycontroller/create.go:29-61 | success iff the key was known, or the annotations hand over a new existing key and both secret steps went well; a crash iff the attempt ended without key and error and the secret could be read; otherwise an error |
| `IamLife.WithoutIdsIsAbsent` | operator/iamkeycontroller/observe.go:29-53 | a resource that lacks the role id or the key id in both places counts as absent |
| `IamLife.CreatesAndMovesIds` | operator/iamkeycontroller/create.go:64-115 | from any state, creating a resource and reconciling it makes exactly one role and one key for it, and the next reconcile moves their ids to the status |
| `IamLife.RemovesBoth` | operator/iamkeycontroller/delete.go:38-54 | deleting it removes exactly that key and that role, and the next reconcile lets it go; under Orphan both stay |
| `IamRuns.ObserveFindsIds` | operator/iamkeycontroller/observe.go:29-53 | with the ids in status or annotations, Observe works with them, takes them out of the annotations it moves them from, and every way of storing its result keeps them |
| `IamRuns.ReferentialIntegrity` | operator/iamkeycontroller/delete.go:44-51 | after any run, with failing calls of every kind, every key refers to an existing role iff for no resource a request of the attempt that made its key failed and yet made one and its role was removed; equivalently iff no reconcile on the way removed a role with a second key; never the case without such a request |
| `IamRuns.StepIntegrityIff` | operator/iamkeycontroller/delete.go:44-51 | in every reachable state, a step keeps integrity unless it removes a role with a second key, and no step restores it |
| `IamRuns.DeleteKeepsIntegrityIff` | operator/iamkeycontroller/delete.go:38-54 | Delete keeps integrity iff it does not both remove the role and leave another key that refers to it |
| `IamRuns.AtMostOnceKey` | operator/iamkeycontroller/create.go:91-112 | in every run the keys made for a resource are the one Create was told of plus one per reached failed request that made a key, which gives the exact condition for at most one; the stray ones are never removed; every later Observe uses exactly the ids Create produced |
| `IamRuns.ReleaseLeavesKeyIff` | operator/iamkeycontroller/observe.go:57-63 | after any run, a reconcile releases a resource iff it is deleting, the finalizer can be dropped, and its policy is Orphan or it is not blocked, connects and has no ids or a key that was not found; that changes nothing remotely, so the key outlives it iff it was there and the policy was Orphan or the lookup failed |
| `IamRuns.ReachesDeleteIff` | operator/iamkeycontroller/observe.go:57-93 | after any run, a reconcile gets to Delete iff the resource is deleting without the policy Orphan, has its ids, connects, its key is found and its connection details can be read |
| `IamRuns.RoleAccounting` | operator/iamkeycontroller/create.go:64-115 | in every run the roles held equal the attempts that made a role without handing it over, plus one if a role is recorded and not removed; counting by reported deletions is right iff no role deletion took effect unreported |
| `IamRuns.RoleStaysForGoodIff` | operator/iamkeycontroller/delete.go:44-51 | after a reconcile that called Delete, the role stays in every continuation iff the key deletion took effect unreported, or was reported and the role deletion failed; otherwise it is gone or a continuation removes it |
| `IamRuns.StrayKeyBreaksIntegrity` | operator/iamkeycontroller/create.go:91-99 | one failed key request that made a key leads to two keys for one resource and to a key without role |

## Left out

- Exoscale SDK, S3 and Kubernetes clients, credentials, connection details, URL parsing: only their outcomes appear, as parameters.
- The typed settings structs of the SDK: the provider is taken to store the settings object as sent, so keys unknown to the struct and dropped zero values do not appear.
- JSON byte syntax: raw settings are empty, a document or malformed; floats are reals, and a whole float re-reads as an integer.
- Sharing of a default that is itself an object between the schema and the filled-in settings: the model stores a copy.
- Version texts beyond an optional v and dotted numbers (pre-release, metadata, numbers beyond 64 bits).
- Case folding of plan names beyond ASCII.
- `resources.bucket` of requests that name no bucket, and quoting of bucket names inside rule expressions.
- IAMKey and provider-config admission checks, available-version lists, zone comparison: single comparisons.
- The credentials secret beyond whether its steps fail and whether it holds the secret part, the check of an existing role's policy, and Update of a role.
- Endpoint fields, events, logging, status conditions derived from the service state, node states, notifications.
- Channels and goroutines of the bulk removal: the listing is a sequence and the removal stops at any point after a failure.
- Kafka, Redis and OpenSearch controllers: the same shape as PostgreSQL and MySQL.
- Liveness: that a reconcile eventually happens.
