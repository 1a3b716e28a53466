# Kehrkraft: a Dafny model

Kehrkraft plans the *Kehrwoche*, the weekly stairwell duty of a house. A database of buildings,
apartments, owners and tenants feeds a scheduler that names one person per ISO week; the schedule is
published as an iCalendar feed and as a printed plan; the database is backed up to an object store.
This project models the parts in which several pieces of code have to fit together and proves what they
guarantee together.

- **The database as a guarded state machine.** One table of dated periods serves for ownerships, building
  owners and tenancies. Every statement runs the triggers in force after all migrations; a transaction runs
  its statements in order, checks the foreign keys at commit, and is rolled back as a whole on rejection.
  `Registry` gives the transactions as functions on a state, `Database` the same transactions as methods that
  change tables and roll back, `Periods` the guards, `Tiling` and `Closing` what the guards mean for one chain,
  `Acceptance` which transactions are committed and with which result, `Invariants` what they mean for every run, `Spans` and `Uncovering` when an apartment loses or gains its owner of a
  day or a week, `Forms` when the two forms of ownership meet, `Coverage` handovers of whole states and concrete edge cases.
- **Persons and periods together.** `People` has e-mail identity, the links between periods and persons, the
  administrators, and the cleanup of persons; `Records` composes it with the database into whole transactions, for which
  `Attendance` holds the conditions; `References` says which of them leave persons behind.
- **The scheduler.** `Scheduler` holds the week loop with majority owners, rotation and delegation;
  `Resolution` says when a week has an owner; `Handover`, `HandoverEdges`, `Delegation`, `Rotation` and `Seeds` carry
  the end-to-end theorems from the triggers to the published weeks; `Years` joins the years and the printed columns.
- **The calendar.** `Calendar` has day numbers, civil dates and the ISO weeks of section 2.2.10 of
  ISO 8601:2004. `Text` and `Calendar.TextOrderIsDayOrder` justify day numbers where the triggers compare text.
- **The backup protocol.** `Naming` has slots and object names, `Backup` the canary, the upload and the alias,
  stopped after any step.
- **The feed.** `Ical` and `Feed` print the calendar and read it back by sections 3.1 and 3.3.11 of RFC 5545; `Events`
  reads the events, their dates and whose week it is from what was printed.
- **Smaller stateful parts.** `Apartments` (reorder and rotation order), `Grouping` (joined rows to periods),
  `RateLimit`.

A day is an integer, day 1 being 0001-01-01. The current date, new ids, and clock readings are parameters.

## Where the code and its documentation differ

The model follows the code. Each of these has a concrete input and the exact condition.

- README.markdown:29 says the tiling is enforced on update. A middle period moved flush against an end of its
  chain passes every update trigger and leaves its old days without an owner: `Coverage.RelocatedMiddleWitness`;
  exactly when an update keeps the tiling: `Tiling.UpdateKeepsTiledIff`, over whole transactions
  `Invariants.ExecKeepsSeamlessIff`.
- README.markdown:21 and 29 say an apartment has an owner at any point in time. It always has an owner *record*
  (`Invariants.RunIsSafe`), not always an owner today: an edit can end the only period in the past
  (`Coverage.RecordWithoutOwnerWitness`), and an apartment can be created with a first ownership that has yet to start
  (`Uncovering.FutureOwnershipWitness`); exactly which transactions leave every apartment an owner of a day:
  `Uncovering.ExecKeepsAllOwnedIff`, over whole runs `Uncovering.RunStaysOwnedIff`.
- README.markdown:25 says the two forms of ownership exclude each other. The guard looks at the current date, and the
  forms can meet on other days: `Coverage.MixedFormsWitness`; exactly which transactions keep them apart:
  `Forms.ExecKeepsExclusiveIff`, over whole runs `Forms.RunIsExclusiveIff`.
- src/scheduler/mod.rs:153-159 and README.markdown:33 say every week from the first period on is resolved.
  Periods of 2, 3 and 2 days in one week defeat that (`Resolution.ThreeDayPeriodWitness`); a week is resolved exactly
  when some stored period has four of its days (`Handover.OwnerIsStored`), and with periods of at least four days exactly
  when the chain covers four of them (`Resolution.ResolvedIffFourDaysCovered`, `Handover.TiledChainResolvesWeek`).
- src/scheduler/mod.rs:179-181 says owner changes never shift the duty weeks of other apartments. A handover or an edit
  that leaves nobody four days of a week takes the apartment out of that week's rotation
  (`HandoverEdges.ShortHandoverShiftsDuty`, `HandoverEdges.EditShiftsDuty`); exactly when an owner change of any kind
  does that: `Handover.OwnerChangeShiftsDutyIff`, for handovers in terms of their dates `Handover.HandoverShiftsDutyIff`.
  Tenant changes indeed never do.
- src/web/admin.rs:903-908 says values beyond 0 .. n - 1 only repeat an equivalent rotation phase. A building that has
  grown from two to three apartments has duties that no offered value gives (`Seeds.UnofferedSeedWitness`); the
  offered values reach every schedule exactly when the least common multiple of the weekly covered counts is at most n
  (`Seeds.OfferedReachAllIff`).
- src/web/admin.rs:1500-1503 warns of an edit that ends the current period before today. An edit that moves its start
  past today uncovers today as well, without the warning: `Coverage.MovedStartWitness`; exactly when an edit uncovers
  today: `Closing.EditUncoversTodayIff`.
- src/backup/mod.rs:261-263 says a run is skipped when its slot was already backed up within the hour. A canary of the
  same name that is a day, a week or 52 weeks old skips the run too (`Backup.StaleSkipWitness`,
  `Backup.StaleDailySkipWitness`, `Backup.StaleWeeklySkipWitness`); exactly which clock hours share a name, and with it
  skip: `Naming.SameNameExactly`. And a skip does not mean that an object is stored (`Backup.SkippedIsNotStored`); it
  does exactly when the last run that wrote the canary got past the upload (`Backup.SkippedIsStoredIff`).
- migrations/0013_people_display_name_and_period_people.sql:26-29 says people without any reference are deleted
  automatically. The cleanup runs on deletes only: a tenancy that is given another person leaves the former one behind
  (`References.ForgottenTenantWitness`); exactly when an edit leaves nobody behind:
  `References.RetenantedKeepsReferencedIff`, for the administrator of a building
  `References.ReappointedKeepsReferencedIff`.

src/backup/naming.rs:4-7 bounds the stored objects by 24 hourly, 7 daily, 53 weekly and the yearly ones. That holds, but
is not tight: hour 4 is never hourly and Sunday never daily (`Naming.RetentionBound`). A new period that names one
address twice is rejected, because its links are inserted without the ON CONFLICT clause of an edit
(`Attendance.DistinctAddresses` is the condition).

## Model

| member | source | states |
|---|---|---|
| Calendar.TextOrderIsDayOrder | migrations/0004_validation_in_db.sql:206-216 | comparing two canonical YYYY-MM-DD texts, as the triggers do, is comparing the days, as the scheduler does, for every pair of four-digit years |
| Calendar.MondaysOfYear | src/scheduler/mod.rs:236-242 | a Monday has ISO year y exactly when it lies from y's first Monday up to, not including, the next year's: the loop condition |
| Calendar.FiftyTwoOrFiftyThree | src/scheduler/mod.rs:236-312 | an ISO year is 52 or 53 whole weeks, and which of the two |
| Calendar.WeekNumber | src/scheduler/mod.rs:297-301 | the i-th Monday of an ISO year starts its week i + 1 |
| Calendar.MondayFromIsoWeek | src/scheduler/mod.rs:236-242 | ISO year and week number determine the Monday, and the number lies in its year's range |
| Tiling.OverlapIsSharedDay | migrations/0004_validation_in_db.sql:223-232 | the COALESCE(end, 9999-12-31) comparison fires exactly when the two periods share a day |
| Tiling.InsertKeepsTiled | migrations/0004_validation_in_db.sql:223-296 | a period that passes the overlap and gap triggers leaves a tiled chain tiled |
| Tiling.DeleteKeepsTiled | migrations/0004_validation_in_db.sql:309-328 | deleting a period that the middle guard lets go leaves a tiled chain tiled |
| Tiling.UpdateKeepsTiledIff | migrations/0004_validation_in_db.sql:234-296 | an accepted update keeps the chain tiled if and only if the period was first or last, or its dates are unchanged |
| Tiling.MovedMiddleIsFlush | migrations/0004_validation_in_db.sql:234-296 | the only other accepted update of a middle period puts it next to one end of the chain |
| Tiling.MovedMiddleLeavesHole | migrations/0004_validation_in_db.sql:234-296 | and then every one of its old days is uncovered, between covered days |
| Closing.AcceptedKeepsDisjoint | migrations/0004_validation_in_db.sql:403-425 | an accepted insert or update leaves no day with two periods; all that the tenancy triggers promise |
| Acceptance.WellDatedIff | migrations/0004_validation_in_db.sql:182-216 | the date triggers accept four-digit years and no end before the start |
| Acceptance.InsertAcceptedIff | migrations/0004_validation_in_db.sql:223-296 | a row passes the overlap and gap triggers of a tiled chain if and only if the chain with it is tiled |
| Acceptance.UpdateAcceptedIff | migrations/0004_validation_in_db.sql:234-296 | new dates pass the triggers of a tiled chain if and only if the chain with them is tiled or they put a middle row flush against one of its ends |
| Acceptance.RestIsTiledIff | migrations/0004_validation_in_db.sql:309-328 | the middle guard lets a row go if and only if the rest of the chain is tiled |
| Acceptance.ExclusionIff | migrations/0010_mutually_exclusive_ownership.sql:34-73 | the exclusion triggers fire if and only if an owner of the building covers today, or an apartment of the building has an ownership record of any date |
| Acceptance.CreatePeriodCommitsIff | migrations/0012_validation_error_codes.sql:168-250 | a new period is committed if and only if its id is new, its parent exists, the parent's chain with it is tiled (for a tenancy: no day twice) and the other form does not stand in the way; the new state is given in full |
| Acceptance.UpdateCommitsIff | migrations/0012_validation_error_codes.sql:180-250 | new dates are committed if and only if the chain with them is tiled, or they put a middle period flush against an end of its chain; the new state is given in full |
| Acceptance.DeleteOwnershipCommitsIff | migrations/0011_guard_current_owner.sql:13-27 | an ownership is deleted if and only if the rest of its chain is tiled and either an owner of the building covers today, or the rest is not empty and the row does not cover today |
| Acceptance.DeleteBuildingOwnerCommitsIff | migrations/0011_guard_current_owner.sql:28-44 | a building owner is deleted if and only if the rest of the chain is tiled and either every apartment has an owner of its own today, or the rest is not empty and the row does not cover today |
| Acceptance.DeleteOthersCommits | src/db/queries.rs:1560-1566 | a tenancy can always be deleted; deleting a missing row changes nothing |
| Acceptance.CreateApartmentCommitsIff | src/db/queries.rs:454-531 | an apartment with its first ownership is created if and only if the ids are new, the building exists, the dates are in order and no owner of the building covers today |
| Acceptance.CreateDependentApartmentCommitsIff | src/db/queries.rs:533-572 | one without is created if and only if its id is new and an owner of the building covers today |
| Acceptance.CreateBuildingCommitsIff | src/db/queries.rs:224-319 | a building is created if and only if the ids are new and the dates of its owner are in order |
| Acceptance.DeleteApartmentCommits | src/db/queries.rs:605-611 | an apartment can always be deleted, and exactly its periods go with it |
| Acceptance.DeleteBuildingCommits | src/db/queries.rs:392-398 | a building can always be deleted, and exactly its owners, its apartments and their periods go with it |
| Closing.ClosingAcceptedIff | src/db/queries.rs:911-947 | on a tiled chain whose period p covers the new start, closing p and inserting passes the chain and date triggers if and only if p is the last period, the start lies strictly after p's, and the new end is absent or not before the start |
| Closing.ClosingEffect | src/db/queries.rs:911-947 | afterwards the chain is tiled, every earlier day has the period it had, and no old period covers a later day |
| Closing.EditUncoversTodayIff | src/web/admin.rs:1500-1517 | an accepted edit uncovers today if and only if the end-date warning is due or the period that covered today is moved to start later |
| Invariants.ExecKeepsSound | migrations/0012_validation_error_codes.sql:168-284 | every committed transaction keeps the foreign keys and at most one period per day, kind and parent |
| Invariants.ExecKeepsSeamlessIff | migrations/0012_validation_error_codes.sql:168-284 | every committed transaction keeps all ownership chains of apartments and buildings tiled, except exactly the update that gives a middle period other dates |
| Invariants.UpdateEndKeepsSeamless | src/db/queries.rs:911-947 | an accepted change of only the end of a period never opens a hole, which is why closing is safe |
| Invariants.ExecKeepsRecords | migrations/0005_building_owners.sql:191-267 | every committed transaction leaves each apartment an ownership record or its building an owner record, whatever the current date is |
| Invariants.ReorderKeepsInvariants | src/db/queries.rs:613-651 | a manual reorder of the apartments keeps all of these |
| Invariants.RunIsSafe | migrations/0005_building_owners.sql:191-267 | after any run from the empty database, with any sequence of current dates: the foreign keys, one period a day, and an owner record for every apartment |
| Invariants.RunIsSeamless | README.markdown:29 | over any run whose committed updates leave middle periods in place, every ownership chain tiles its timeline |
| Coverage.ClosingCommitsIff | src/db/queries.rs:911-947 | on a tiled chain, whatever the other chains look like, closing the covering period and inserting its successor commits if and only if that period is last, the start lies after its start, the end is in order and the other form of ownership does not apply; the new state is given in full, and a rejection changes nothing |
| Coverage.DeleteKeepsOwnedToday | migrations/0011_guard_current_owner.sql:13-44 | no committed delete of a period takes an apartment's owner away on the day it is made |
| Coverage.InsertsExcludeOtherForm | migrations/0010_mutually_exclusive_ownership.sql:34-72 | a committed ownership finds no building owner covering today, a committed building owner no apartment with any ownership record; on other days a committed ownership meets a building owner if and only if it overlaps one of the building's periods |
| Coverage.NewApartmentHasOneForm | migrations/0010_mutually_exclusive_ownership.sql:49-63 | an apartment created with an owner has no building owner today; one created without has one and no ownership record |
| Coverage.RelocatedMiddleWitness | README.markdown:29 | in a sound database with tiled chains, a committed update of the middle of three periods after which a day between covered days has no owner |
| Coverage.RecordWithoutOwnerWitness | README.markdown:21 | an accepted update after which the only owner record has ended before today |
| Coverage.MixedFormsWitness | README.markdown:25 | a committed ownership that covers days of an ended building owner, in a database whose forms were apart |
| Coverage.MovedStartWitness | src/web/admin.rs:1500-1517 | a committed edit that leaves the apartment without an owner today and is not warned of |
| Spans.OneRowMeets | src/scheduler/mod.rs:153-173 | of the rows of a disjoint chain at most one covers a day, and at most one has four days of a week |
| Uncovering.UpdateOwns | src/db/queries.rs:949-979 | after an accepted update of dates an apartment has an owner of the day or week if and only if the new dates meet it, or it had one and the period was not the only one that gave it |
| Uncovering.ExecOwnsIff | README.markdown:29 | after every committed transaction an apartment that was there before has an owner of a day or week, of either form, if and only if the transaction brings one or leaves the one it had |
| Uncovering.ExecUncoversIff | README.markdown:29 | an apartment that has an owner of a day or week loses it if and only if the one period that gives it is redated, deleted or closed and neither its new dates nor the successor meet the day or week |
| Uncovering.ExecKeepsAllOwnedIff | README.markdown:21 | a committed transaction leaves every apartment with an owner of the day if and only if it takes none away and an apartment it creates comes with one: its first ownership covers the day or its building's owner does |
| Uncovering.RunStaysOwnedIff | README.markdown:21 | over any run, every apartment has an owner of the day after every step if and only if every committed transaction met that condition |
| Uncovering.FutureOwnershipWitness | src/web/admin.rs:1160-1244 | a committed creation of an apartment that has no owner today |
| Forms.PutKeepsExclusiveIff | migrations/0010_mutually_exclusive_ownership.sql:1-32 | a row put into its table keeps every day free of a second form if and only if it overlaps no period of the other form |
| Forms.ExecKeepsExclusiveIff | README.markdown:25 | a committed transaction keeps the two forms apart on all days if and only if its new or redated rows overlap no period of the other form; an insert of a building owner always does |
| Forms.RunIsExclusiveIff | README.markdown:25 | over any run, the forms are apart after every step if and only if every committed transaction met that condition |
| Database.OwnerOn | src/db/queries.rs:777-803 | finds a period covering the date if and only if there is one |
| Database.Database.InsertPeriodRow | migrations/0004_validation_in_db.sql:223-296 | the INSERT with its triggers does to the tables what the specification says, or leaves them alone |
| Database.Database.UpdatePeriodRow | migrations/0004_validation_in_db.sql:234-296 | the same for the UPDATE of the dates; a missing id changes nothing |
| Database.Database.ReorderApartments | src/db/queries.rs:613-651 | succeeds if and only if the submitted ids are a permutation of the building's apartments; then position i belongs to the i-th id and nothing else changed, otherwise nothing changed at all |
| Database.LastEndBefore | src/db/queries.rs:805-827 | before an uncovered start the latest end is the last covered day |
| Records.Records.InsertPeople | src/db/queries.rs:871-901 | accepts a submission if and only if someone is named and no address twice; then the i-th person, with the data submitted, is at position i and nothing else changed |
| Records.Records.CreatePeriod | src/db/queries.rs:829-860 | for ownerships, building owners and tenancies: commits if and only if the persons are accepted and the triggers accept the period; then persons, links and period are recorded as submitted, otherwise nothing at all changed; every period keeps at least one person |
| Records.Records.CreatePeriodClosingPrevious | src/db/queries.rs:911-947 | the same with the previous period closed in the same transaction |
| Records.Records.UpdatePeriod | src/db/queries.rs:949-979 | commits if and only if someone is submitted for an existing period and the triggers accept the dates; exactly the submitted persons are linked, whoever lost the last reference is gone, otherwise nothing changed |
| Records.Records.UpdateTenancy | src/db/queries.rs:1525-1558 | the tenancy's person and dates change together or not at all; no person is removed |
| Records.Records.UpdateAdministrator | src/db/queries.rs:327-390 | the building's administrator row refers to the submitted person, and no person is removed |
| Records.Records.DeletePeriod | src/db/queries.rs:1027-1033 | for all three kinds: commits if and only if the delete guards let the row go; its links go with it, and exactly the persons without any other reference |
| Records.Records.CreateApartment | src/db/queries.rs:454-531 | apartment, first ownership and its persons, all or nothing; the new apartment is displayed last |
| Records.Records.CreateApartmentBuildingOwned | src/db/queries.rs:533-572 | commits only under a building owner covering today; the new apartment is displayed last and nothing else changed |
| Records.Records.Appoint | src/db/queries.rs:250-267 | a named administrator is resolved by address and has a row of its own; with both fields blank nothing changes |
| Records.Records.CreateBuilding | src/db/queries.rs:224-319 | the building with its optional administrator, its optional first owner and the owner's persons, all or nothing |
| Records.Records.DeleteApartment | src/db/queries.rs:605-611 | the apartment goes with its ownerships and tenancies, their links, and exactly the owners and tenants who had no other reference |
| Records.Records.DeleteBuilding | src/db/queries.rs:392-398 | the building goes with its owners, apartments, tenancies and administrators, and exactly the persons who had no other reference |
| Records.Records.OwnershipsCreate | src/web/admin.rs:1560-1725 | the form changes the database exactly when it reports success, by the one transaction that applies; it asks, declines, demands persons or names a gap exactly in the stated situations, and without a confirmation it fails only where the plain insert would; the gap it names is exactly the uncovered days before the start |
| References.RecordedKeepsReferenced | migrations/0013_people_display_name_and_period_people.sql:26-29 | a creation leaves no person without a reference |
| References.ReplacedKeepsReferenced | migrations/0013_people_display_name_and_period_people.sql:131-151 | nor does the replacement of a period's persons |
| References.DroppedKeepsReferenced | migrations/0013_people_display_name_and_period_people.sql:131-173 | nor a delete with everything that cascades |
| References.AppointedKeepsReferenced | src/db/queries.rs:250-267 | nor the appointment of an administrator |
| References.RetenantedKeepsReferencedIff | src/db/queries.rs:1525-1558 | an edit of a tenancy leaves no person without a reference if and only if the tenancy keeps its person or the former one has another reference |
| References.ReappointedKeepsReferencedIff | src/db/queries.rs:346-374 | the same for an edit of a building's administrator |
| References.ForgottenTenantWitness | migrations/0013_people_display_name_and_period_people.sql:26-29 | an edit of a tenancy after which the former tenant has no reference and is still there |
| Scheduler.Majority | src/scheduler/mod.rs:153-173 | an owner with at least four days of the week and no fewer than any other, or none when nobody has four |
| Scheduler.MajorityIsFirst | src/scheduler/mod.rs:153-173 | of owners with equally many days the earliest in the list wins |
| Scheduler.MajorityOwner | src/scheduler/mod.rs:160-173 | the loop computes that owner |
| Scheduler.GroupOwners | src/scheduler/mod.rs:228-234 | the map holds for every apartment exactly its own owners in list order |
| Scheduler.CoveredApartments | src/scheduler/mod.rs:245-257 | the covered list: apartments in rotation order with their own majority owner, else the building's |
| Scheduler.TenantFor | src/scheduler/mod.rs:276-280 | a tenant of the apartment whose tenancy contains the whole week, or none when there is none |
| Scheduler.WeekIndexIsExact | src/scheduler/mod.rs:132-140 | on Mondays before and after the epoch the truncating division is exact, so the index rises by one a week |
| Scheduler.EpochIsWeekTwo | src/scheduler/mod.rs:132-140 | the index is 0 in ISO week 2 of 2020, which begins on Monday 2020-01-06 |
| Scheduler.AssignWeek | src/scheduler/mod.rs:259-307 | one turn of the loop computes the week's assignment |
| Scheduler.WeekLoop | src/scheduler/mod.rs:236-314 | the loop terminates with one assignment for each week of the ISO year, in order |
| Scheduler.ScheduleForYear | src/scheduler/mod.rs:197-315 | the schedule of the building in rotation order, or the error for a missing building |
| Resolution.OverlapDaysCounts | src/scheduler/mod.rs:142-151 | the arithmetic counts the days of the week inside the period |
| Resolution.MajorityIffFourDays | src/scheduler/mod.rs:153-173 | among periods that share no day the owner of a week is whoever has four of its days: unique, ties impossible |
| Resolution.MajorityIgnoresOrder | src/scheduler/mod.rs:153-173 | and independent of the order of the list |
| Resolution.MajorityIsThursdaysOwner | src/scheduler/mod.rs:153-173 | with periods of at least four days the owner of a week is the owner of its Thursday, in both directions |
| Resolution.ResolvedIffFourDaysCovered | src/scheduler/mod.rs:153-159 | an unbroken chain of periods of at least four days resolves a week if and only if it covers four of its days |
| Resolution.ThreeDayPeriodWitness | src/scheduler/mod.rs:153-159 | in any week, periods of 2, 3 and 2 days leave it unresolved although every day is owned |
| Resolution.TenantIsUnique | src/scheduler/mod.rs:276-295 | with disjoint tenancies the delegate is the one tenancy present on all seven days |
| Resolution.TenantIgnoresOrder | src/scheduler/mod.rs:276-295 | whatever the row order |
| Handover.TiledChainResolvesWeek | src/scheduler/mod.rs:153-159 | from the database to the week: an apartment whose stored chain is tiled by periods of at least four days has an owner of its own in exactly the weeks of which the chain covers four days |
| Handover.OwnerIsStored | src/scheduler/mod.rs:245-257 | from the database to the week, without any assumption on the chain: the scheduler finds an owner of the apartment's week if and only if some stored period of it or of its building has four days of the week |
| Handover.SameChainSameOwner | src/scheduler/mod.rs:228-257 | an apartment's record of a week depends on its own chain only, not on other rows, on their order or on what people are called |
| Handover.AlignedDuty | src/scheduler/mod.rs:245-274 | two data sets under which the same apartments have an owner put the same apartment on duty |
| Handover.DutiesAgreeIff | src/scheduler/mod.rs:245-274 | two data sets give the same duty apartment for every seed if and only if the same apartments have an owner |
| Handover.HandoverShiftsDutyIff | src/scheduler/mod.rs:179-181 | after any committed handover of an apartment or a building that closes the period covering the new start, whatever the new end, every seed keeps the duties of a week if and only if no apartment loses its owner of the week (the closed period had four of its days, its rest and the new period have fewer, no owner of the other form steps in) and none gains one (the new period has four days of a week that had no owner) |
| Handover.OwnerChangeShiftsDutyIff | src/scheduler/mod.rs:179-181 | for every committed transaction that keeps the building's apartments: every seed keeps the duties of a week if and only if no apartment loses its owner of the week and none without one is brought one |
| Handover.HandoverNeverShiftsDuty | src/scheduler/mod.rs:241-295 | when the new period takes over the rest of the closed one and both parts last four days or more, every week of every year has the same apartment on duty in every building and is delegated as before; it is served under the same record, under another name only if its people were renamed, or else by the new owner, who then has four days of the week in a chain that was handed over and no tenant serving |
| HandoverEdges.ShortHandoverShiftsDuty | src/scheduler/mod.rs:179-181 | a committed handover that leaves three and two days of a week, after which another apartment has the week |
| HandoverEdges.EditShiftsDuty | src/scheduler/mod.rs:179-181 | a committed edit after which no period has four days of the week and another apartment has it |
| HandoverEdges.HandoverWitness | src/db/queries.rs:911-947 | a handover that meets all assumptions of the theorem |
| Delegation.DelegationIsSound | src/scheduler/mod.rs:276-295 | in every database that a run of transactions reaches, a week is delegated if and only if some tenancy of the duty apartment contains all seven days, and then to that tenant |
| Delegation.TenantIsWholeWeekRow | src/scheduler/mod.rs:342-347 | the delegate found is the stored tenancy that contains the week, in both directions |
| Delegation.DutyIsTurn | src/scheduler/mod.rs:245-274 | the duty apartment is, of the apartments with an owner for the week in rotation order, the one at the seed plus the weeks since Monday 2020-01-06, modulo their number |
| Delegation.WeekIsServed | src/scheduler/mod.rs:245-307 | the published week, complete, from the database: unassigned if no apartment has an owner for it; else that apartment's week is served by its tenant of all seven days, or by the stored ownership with four days of it, or by the stored owner of the building with four days, in this order |
| Delegation.PartWeekTenantDoesNotServe | src/scheduler/mod.rs:193-195 | with a tenant from Tuesday on, the week is the owner's |
| Delegation.UnassignedIffNoOwner | README.markdown:33 | a week is unassigned if and only if no apartment has an owner for it; who serves without delegation is an owner of the duty apartment with four days, or, if it has none, an owner of the building with four days |
| Rotation.HitsAreEven | src/scheduler/mod.rs:271-274 | of any consecutive numbers each residue takes its share, rounded down or up, for negative numbers too |
| Rotation.RotationIsFair | README.markdown:31 | over any consecutive weeks, across years, in which the same n apartments are covered, each serves its share rounded down or up, and exactly once in n weeks, for every seed |
| Rotation.OwnedBuildingIsFair | README.markdown:31-33 | when the database has an owner for every apartment of a building in each of some consecutive weeks, each serves its rounded share of them |
| Rotation.TiledBuildingIsFair | README.markdown:29-31 | so it does when every apartment's stored chain is tiled by periods of at least four days and covers the weeks |
| Rotation.SeedsAgreeInWeek | src/scheduler/mod.rs:271-274 | in a week with n covered apartments two seeds choose the same one if and only if they agree modulo n |
| Rotation.SeedPhases | src/web/admin.rs:903-908 | when the same n are covered in all weeks, two seeds give the same duties throughout if and only if they agree modulo n |
| Rotation.UncoveredWeekSplitsPhases | src/scheduler/mod.rs:271-274 | in a week with m covered apartments the seeds v and v + n choose the same one if and only if m divides n |
| Seeds.SameDutiesIff | src/scheduler/mod.rs:271-274 | two seeds give the same duties in all weeks if and only if they agree modulo the covered count of every week that covers anyone |
| Seeds.CycleExists | src/scheduler/mod.rs:271-274 | the covered counts of all weeks have a least common multiple |
| Seeds.SchedulesAreResidues | src/web/admin.rs:903-908 | the different schedules are exactly the residues modulo that least common multiple |
| Seeds.OfferedReachAllIff | src/web/admin.rs:903-916 | the values 0 .. n - 1 reach every schedule if and only if the least common multiple is at most n, otherwise the seed n is one they miss; they give each at most once if and only if it is at least n |
| Seeds.UnofferedSeedWitness | src/web/admin.rs:903-908 | with two covered apartments at first and three later the seed 3 gives duties that none of 0, 1 and 2 gives |
| Rotation.RotationSeedOptions | src/web/admin.rs:903-916 | the values 0 .. n - 1 in order, the stored seed exactly once and selected, and a representative of every residue modulo n |
| Rotation.ReorderKeepsSchedule | src/scheduler/mod.rs:219-226 | an accepted reorder changes no schedule of any year |
| Years.ScheduleIsIsoYear | src/scheduler/mod.rs:236-314 | 52 or 53 weeks numbered from 1, each a Monday to Sunday, a week apart |
| Years.YearsJoin | src/scheduler/mod.rs:132-140 | between two years no Monday is missing or repeated and the rotation counter rises by one |
| Years.MondayHasOnePlace | src/scheduler/mod.rs:236-314 | every Monday is in exactly one year's list, at one place |
| Years.BalancedColumns | src/web/pdf.rs:69-105 | two columns of equal length that together read as the year, padded by one week before and two after when it is odd |
| Years.PlanColumns | src/web/pdf.rs:136-170 | for the schedules of three years the columns show one run of consecutive weeks that contains the whole year |
| Apartments.ReorderChecksArePermutation | src/db/queries.rs:619-651 | row count, no duplicates and a hit for every id amount to a permutation, by the pigeonhole principle, in both directions |
| Apartments.ReorderIsListed | src/db/queries.rs:427-439 | listing after an accepted reorder returns the submitted order |
| Apartments.ListingOrder | src/db/queries.rs:427-439 | the listing orders apartments by position, then name, then id, in both directions |
| Apartments.RotationOrder | src/scheduler/mod.rs:219-226 | the same apartments sorted by creation time, then id |
| Apartments.RotationOrderIsUnique | src/scheduler/mod.rs:219-226 | there is only one such order |
| Apartments.RotationFollowsCreation | README.markdown:31 | of two apartments the one created earlier comes first, of two created in one second the one with the smaller id, in both directions |
| Apartments.NewestRotatesLast | src/scheduler/mod.rs:179-181 | an apartment created after all others is appended to the rotation, and the others keep their places |
| Apartments.ReorderKeepsRotation | src/web/admin.rs:143-155 | the rotation order is the same before and after a reorder, however the apartments are listed |
| Apartments.RankApartments | src/web/admin.rs:151-155 | the map gives each apartment its 1-based place in the rotation order |
| Apartments.ApartmentRows | src/web/admin.rs:143-173 | the rows in display order, each with its plate letter and its true place in the rotation |
| Grouping.PeriodsFromRows | src/db/queries.rs:671-717 | the index-backed loop equals filtering: periods in order of first appearance, each with exactly its own rows' persons in row order |
| Grouping.GroupingConserves | src/db/queries.rs:1053-1099 | no person is lost or duplicated, for rows in any order |
| Grouping.AdjacentRowsKeepOrder | src/db/queries.rs:671-717 | for rows sorted by period the periods read in sequence list the persons in row order |
| People.LookupMatchesTrigger | src/db/queries.rs:47-65 | the lookup by e-mail compares exactly what the unique triggers compare |
| People.TrimIsCore | src/db/queries.rs:53-59 | trimming leaves the part from the first to the last character that is not stripped |
| People.SqlTrimIsCore | migrations/0009_people_email_unique.sql:16-16 | the triggers' trim cuts off spaces only |
| People.RustTrimIsCore | src/db/queries.rs:53-59 | the query layer's trim cuts off exactly Unicode white space |
| People.LowerIff | migrations/0009_people_email_unique.sql:9-20 | two texts have the same lower case if and only if they are equal but for the case of ASCII letters |
| People.MatchesIff | src/db/queries.rs:60-64 | a stored person is found for a submission if and only if the addresses are equal but for white space at the ends and the case of ASCII letters |
| People.OnePersonIff | src/db/queries.rs:33-40 | two submissions resolve to one person if and only if their addresses are equal but for that |
| People.UniqueEmailsIff | migrations/0009_people_email_unique.sql:13-30 | the triggers keep any two stored addresses different beyond spaces at the ends and the case of ASCII letters |
| People.SubmittedIff | src/db/queries.rs:59-80 | a display name is stored without white space at its ends, and cleared if there is nothing else |
| Attendance.DistinctAddressesIff | src/db/queries.rs:871-901 | a new period's submission is accepted only if its addresses differ beyond white space at the ends and the case of ASCII letters |
| People.PeopleTables.ResolvePerson | src/db/queries.rs:33-90 | an existing person is found if and only if one has the address, but for white space at the ends and ASCII case; that person is refreshed, or a new one created; nobody else changes, and addresses stay unique |
| People.PeopleTables.EditPerson | src/db/queries.rs:1582-1610 | the edit is accepted if and only if the person exists and nobody else has the address; the data is stored without white space at its ends |
| People.PeopleTables.ResolvePeople | src/db/queries.rs:115-124 | each submission's person in order, with the contact data last submitted; other persons unchanged |
| People.PeopleTables.UpsertLinks | src/db/queries.rs:1003-1010 | every submitted person is linked at the last index of its submission; other periods unchanged |
| People.PeopleTables.DeleteLink | migrations/0013_people_display_name_and_period_people.sql:114-151 | refused if and only if it would leave an existing period without a person; the person goes if and only if nothing refers to it |
| People.PeopleTables.InsertLinks | src/db/queries.rs:871-901 | inserting links fails if and only if a person is submitted twice; otherwise person i is at position i |
| People.PeopleTables.CascadePeriods | migrations/0013_people_display_name_and_period_people.sql:131-164 | the links of deleted periods go, with exactly the persons who had no other reference |
| People.PeopleTables.CascadeAdministrators | migrations/0013_people_display_name_and_period_people.sql:166-173 | the administrators of deleted buildings go, with exactly the persons who had no other reference |
| People.PeopleTables.DropOthers | src/db/queries.rs:1011-1024 | leaves exactly the submitted links and removes exactly the persons that lose their last reference; with a non-empty submission no delete is ever refused |
| People.PeopleTables.ReplacePeriodPeople | src/db/queries.rs:981-1025 | leaves exactly the submitted persons, each at its last index and with its last contact data, other periods unchanged, addresses unique; always succeeds on a non-empty submission, and a rejection changes nothing |
| RateLimit.Limiter.Admit | src/app.rs:282-302 | the request is counted in its address's window, and passes while the count is at most 30 |
| RateLimit.AlwaysAccounted | src/app.rs:252-302 | the invariant of every run: which windows the passes of an interval can belong to |
| RateLimit.AtMostSixtyPass | src/app.rs:252-302 | over every interleaving of addresses at most 60 requests of one address pass in any half-open 60-second interval, less the time between a request's two clock readings |
| RateLimit.FirstThirtyPass | src/app.rs:252-302 | in one window exactly the first 30 requests of an address pass |
| RateLimit.PassesIff | src/app.rs:252-302 | a request passes if and only if it is among the first 30 of its address in its window, where a window opens with the address's first request or with one that comes 60 seconds or more after the opening of the window before |
| Naming.SameNameIff | src/backup/naming.rs:51-70 | two runs share an object name if and only if they share slot and slot key |
| Naming.AliasesDiffer | src/backup/naming.rs:54-61 | the slots have different aliases |
| Naming.AliasIsNoObject | src/backup/naming.rs:51-61 | an alias never overwrites a backup |
| Naming.OneYearlyDate | src/backup/naming.rs:72-83 | each calendar year has exactly one yearly date, the Sunday in its last seven days |
| Naming.SlotIff | src/backup/naming.rs:30-49 | a run is yearly exactly at hour 4 of the Sunday in the last seven days of its year, weekly at hour 4 of any other Sunday, daily at hour 4 of other days, hourly at every other hour |
| Naming.NamesAsDocumented | src/backup/naming.rs:51-70 | the names that the documentation gives as examples, among them ISO weeks 36 and 53 |
| Naming.RetentionHorizon | src/backup/naming.rs:30-70 | different clock hours with one object name are at least 24 hours, 7 days or 364 days apart by slot, and a yearly name never returns |
| Naming.SameNameExactly | src/backup/naming.rs:30-70 | two clock hours share an object name if and only if they share the slot and lie a multiple of 24 hours (hourly) or of 7 days (daily) apart, have the same ISO week number (weekly) or are the same hour (yearly) |
| Naming.RetentionBound | src/backup/naming.rs:4-7 | runs in Y calendar years write at most 23 + 6 + 53 + Y different objects |
| Backup.Runner.RunOnce | src/backup/mod.rs:239-312 | the canary and the store after a run stopped after any step, when it skips, and that "stored" means the object is there with this run's canary |
| Backup.RunsAreCrashSafe | src/backup/mod.rs:249-312 | after any runs, each stopped anywhere, under a clock that does not go back: every alias leads to a stored snapshot of its slot, every snapshot lies under the name of its own canary, and an alias never leads to a snapshot older than the run that wrote it |
| Backup.VerifyPassesWhileFresh | src/backup/mod.rs:335-409 | verification passes as long as the last run that wrote the hourly alias is within the maximum age, whatever stopped later runs |
| Backup.VerifiedIff | src/backup/mod.rs:335-409 | on any store verification passes if and only if the hourly alias leads to a stored snapshot sealed under the passphrase whose canary is at most the maximum age old |
| Backup.VerifyAfterRunsIff | src/backup/mod.rs:335-409 | after any runs, each stopped anywhere, under a clock that does not go back: it passes if and only if some run completed the hourly alias and its target's canary is within the maximum age; otherwise the alias is missing or the backup too old |
| Backup.SkipMeansSameHourOrStale | src/backup/mod.rs:261-268 | within 24 clock hours of the canary a run is skipped if and only if it is in the canary's hour; an older canary skips only a run of its own slot at least 24 hours, 7 days or 364 days later, and never a yearly one |
| Backup.StaleSkipWitness | src/backup/mod.rs:261-268 | an hourly run a day after the previous one is skipped and the day-old backup stays |
| Backup.StaleDailySkipWitness | src/backup/mod.rs:261-268 | a daily run a week after the previous one is skipped |
| Backup.StaleWeeklySkipWitness | src/backup/mod.rs:261-268 | a weekly run 52 weeks after the previous one is skipped, in every ISO year of 52 weeks |
| Backup.WeeklyRunExists | src/backup/naming.rs:30-49 | the run of Sunday 2024-01-14 at 04:00 is such a weekly run |
| Backup.SkippedIsNotStored | src/backup/mod.rs:261-270 | after a run that failed between canary and upload the next one is skipped with an empty store |
| Backup.CanaryIsStoredIff | src/backup/mod.rs:249-312 | after any runs under a clock that does not go back the canary is the last writing run's, and its snapshot is stored if and only if that run got past the upload |
| Backup.SkippedIsStoredIff | src/backup/mod.rs:261-268 | for a skipped run the object under its name is the snapshot of the canary if and only if the last run that wrote the canary got past the upload |
| Backup.RestOfHourIsSkipped | src/backup/mod.rs:261-268 | once a run got past the canary, no later run of its clock hour changes anything |
| Ical.EscapeIcal | src/web/ical.rs:156-170 | the loop escapes character by character |
| Ical.UnescapeEscape | src/web/ical.rs:156-170 | unescaping an escaped text recovers it |
| Ical.EscapedIsText | src/web/ical.rs:156-170 | an escaped value is TEXT of section 3.3.11 of RFC 5545: no bare semicolon, comma or line feed, and a backslash only before a character that may be escaped |
| Ical.Utf8RoundTrip | src/web/ical.rs:172-196 | the octet counts are those of an encoding that reads back |
| Ical.FoldLine | src/web/ical.rs:172-196 | the loop joins the pieces of the line by line break and space; a short line is one piece |
| Ical.PiecesFit | src/web/ical.rs:172-196 | the first piece has at most 75 octets, the others 74, each made of whole characters |
| Ical.PiecesAreFull | src/web/ical.rs:172-196 | a line is broken only where the next character would exceed 75 octets in the first line or 74 in the others |
| Ical.UnfoldJoined | src/web/ical.rs:172-196 | unfolding a folded line, whatever follows it, recovers the line |
| Feed.PushIcalLine | src/web/ical.rs:149-154 | appends the folded, escaped content line of the property |
| Feed.EventBlock | src/web/ical.rs:102-140 | the document of the event's properties |
| Feed.IcalDocument | src/web/ical.rs:69-100 | the document of the calendar's properties and of all weeks of all schedules in order |
| Feed.ReadDocument | src/web/ical.rs:149-196 | a reader that unfolds, splits and unescapes gets back exactly the properties written, for any values |
| Feed.PhysicalLinesFit | src/web/ical.rs:172-196 | every physical line of a document has at most 75 octets |
| Feed.FeedRoundTrip | src/web/ical.rs:69-196 | both, for the feed of every building name, slug, schedule and language |
| Feed.UidIdentifiesWeek | src/web/ical.rs:142-147 | within a building an event identifier determines year and week |
| Feed.UidAsDocumented | src/web/ical.rs:142-147 | the identifier in full for week 7 of 2026 |
| Events.DateValueReads | src/web/ical.rs:126-135 | the digits of DTSTART and DTEND read back as the day |
| Events.SummaryReads | src/web/ical.rs:105-109 | the summary reads back as week number and assignee, or the word for none |
| Events.DescriptionReads | src/web/ical.rs:110-116 | the description reads back as the building and the first and last day, for four-digit years |
| Events.EventTells | src/web/ical.rs:102-140 | the event's DTSTART reads as the week's Monday, its DTEND as the day after its Sunday, its SUMMARY as its number and assignee |
| Events.FeedTells | src/web/ical.rs:69-140 | read from the printed document: exactly one event a week, in order, each with these dates, number and assignee, in a calendar named after the building |
| Events.ReadEventsMeet | src/web/ical.rs:20-23 | in the printed feed of consecutive years each event ends where the next begins, seven days later, within a year and across years |

## Left out

- RateLimit.AtMostSixtyPass: the source reads the clock twice per request (`now`, then `elapsed()`), so the interval is 60 seconds less the longest time between the two readings; with equal readings it is 60 seconds.
- Handover.HandoverNeverShiftsDuty: is about a handover for the rest of the closed period; for a new period with another end, which covers other days, `Handover.HandoverShiftsDutyIff` says week by week whether duties shift.
- Invariants.RunIsSeamless: assumes that no committed update moves a middle period, which is the exact exception of `Invariants.ExecKeepsSeamlessIff`.
- Coverage.ClosingCommitsIff: is about ownerships and building owners; closing a tenancy goes through the same transaction with the overlap and date guards only, and `Invariants.ExecKeepsSound` covers it.
- Records.Records.OwnershipsCreate: an unparseable start date, which the database then reports, is not modelled.
- Records.Records.UpdateAdministrator: which of several administrator rows is the oldest is a parameter; the building's name and description are not modelled.
- Database.Database.InsertPeriodRow: is the period's row with its chain and exclusion triggers; the trigger that asks for a person is in `Records`.
- Renaming of buildings and apartments: per-row updates without a rule across rows.
- The name-length, e-mail-shape and date-format triggers: per-row checks; dates are well-formed days from 0000-01-01 to 9999-12-31, the range the format trigger admits, and unparseable dates with their error paths are not modelled.
- The forms for building owners and tenancies: they have the structure of the modelled ownership form.
- The order in which a query returns rows: the listings given to the scheduler are in any order, which is proved irrelevant; text is compared as SQLite's BINARY collation does.
- The calendar range of the date library and of 32-bit years: years are unbounded integers, so its panics at the ends of the range are not modelled. The rotation sum is computed in 128 bits in the source and cannot overflow.
- The 32-bit overflow of the rate limiter's count and requests without a client address, which pass uncounted.
- The snapshot, encryption and integrity check of a backup: a snapshot carries its canary, sealed under a passphrase that opens it again. The trimming of the alias text, unreadable canary timestamps, uploads that reach the store after their run timed out, and other writers of the canary are not modelled.
- HTTP routing, authentication, templates, translations other than the feed's, the typesetting of the plan and the QR codes.
