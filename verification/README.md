# Verified models of the sairedis metadata database and its companions

This project models, in Dafny, the state-keeping logic of SONiC's switch abstraction
layer client and proves that it does what the rest of the system relies on.

**The metadata database** (`Sai`, `Stored`, `Bags`, `MetaState`, `RefBags`,
`MetaInvariant`, `MetaSteps`, `MetaRuns`, `MetaReady`, `MetaDb`, `MetaFindings`,
`NullSlots`, `MetaRules`, `MetaKeys`, `MetaEffects`, `OidLayout`).
Every call to the switch first passes a validator; when the vendor has succeeded, a post
step updates four global maps without checking again: reference counts, stored
attributes, the index of key attributes and the objects each port brings along.
Notifications about forwarding entries update them too. `MetaDb.MetaDb` is a class with
those maps and a method per function. `MetaState` defines the status each validator
answers and the state each post step leaves as functions of the state before; the methods
are proved against them, `MetaSteps` proves that each step keeps the invariant of
`MetaInvariant`, `MetaReady` that an accepted call gives its post step everything it
trusts, so that no exception of a reference or existence check is reached, and `MetaRuns`
draws the conclusions for every run of calls and notifications in any order. `MetaRules`
says what the validators accept and which refusal each fault gets, `MetaKeys` what the key
texts tell apart, and `MetaEffects` what each call does to the maps, all written out from
the inputs and the maps alone.

The generated attribute metadata is an abstract finite table (`Sai.Meta`), and so are
`sai_object_type_query` and `sai_switch_id_query`; `Sai.Lawful` collects what the
generator's own consistency checks guarantee about the table. The vendor answers
nondeterministically; a create that succeeds returns a fresh oid of the requested type on
the requested switch, the lists a port is asked for hold non-null oids of allowed types,
and a consolidated flush carries an entry type (`MetaRuns.Admissible`). Of callers only
this is assumed: they set the union member that the type of an attribute names. `OidLayout` shows that the object id layout of the metadata tests,
with a small table, meets the laws.

**The serializer** (`IpMask`, `NumberText`, `CharData`, `CountedList`, `ValueText`,
`KeyName`, `StoreNames`, `TextRules`, `AttrList`, `Transfer`). Printers and parsers of attribute values,
lists of attributes and object keys, with the round trip proved for every value type that has a parser and the printed
keys proved one-to-one, so that the maps indexed by text are maps over structured keys.
`TextRules` says what each text looks like.
Prefix masks follow section 2.3 of RFC 4291 and section 3.1 of RFC 4632. `inet_ntop` and
`inet_pton` are parameters, assumed to be inverse pairs over the usual characters.

**Recursive discovery** (`Discovery`), **the timer watchdog** (`Watchdog`), **the replay
of a recording** (`Replay`) and **the dump and load of a redis database** (`DumpLoad`)
are one module each: a depth-first walk over a cyclic graph with a shared map, a
two-thread protocol over atomic stamps taken one load or store at a time, the pairing of
recorded and current object ids, and the batched pipeline loop.

## Findings

Where the code does not keep what its checks suggest, the model follows the code.

- A prefix whose mask has a hole passes validation, and the post step then throws while it
  copies the value by printing it (`MetaFindings.HoledMaskAccepted`). The only accepted
  values this happens to are such prefixes and address lists with an unknown address
  family (`MetaFindings.AcceptedPrints`). A set then changes no attribute and no count; a
  create leaves the object with the attributes before the bad one, its counts exact but its
  key attributes not indexed (`MetaRuns.InterruptedBy`, `MetaRuns.KeyIndexAgrees`).
- The assignment that stores the copy does not order its two sides under C++11. A compiler
  that makes the map slot first leaves a null pointer there when the copy throws, exactly
  where the object had no such attribute, and until the attribute is set or the object goes
  (`NullSlots.NullSlotBy`); the attributes stored are the same in both orders
  (`NullSlots.OrdersAgree`). Such an object can only go by a reset or by a removal that
  reads through the null pointer (`NullSlots.NullSlotLeaves`).
- The comparison of element types in an object list starts at the third element, so an
  accepted list is of one type exactly when its first two elements agree
  (`MetaFindings.ListUniform`, `MetaFindings.MixedPairAccepted`).
- A learned notification whose only attribute is the entry type is completed with a second
  one and then refused as a repetition (`MetaFindings.LearnedTypeOnlyDropped`).
- Removing a referenced switch empties the database during validation, even if the vendor
  then refuses; removing an unreferenced one leaves it stored (`MetaFindings.SwitchRemoval`).
- A related object removed on its own stays in its port's related set and, while it is gone,
  blocks the removal of the port: by an exception exactly when it is the first related
  object to fail its checks, in ascending order (`MetaRuns.PortRemovable`,
  `MetaRuns.PortThrowsExactly`).
- An unsigned 32-bit ACL field is transferred to a caller's buffer by its low half only
  (`Transfer.Field32Exact`).
- `local_to_redis` forgets an id when a recorded oid is paired again, so the two maps are
  inverse both ways exactly when none was (`Replay.InverseBothWays`, `Replay.PairedAgain`).
- The watchdog's exception needs the system clock to go back (`Watchdog.BackwardClockThrows`).

## Verifying

`dafny verify dfyconfig.toml` checks the whole project.

## Model

| member | source | states |
|---|---|---|
| `MetaRuns.ReferenceConservation` | src/sonic-sairedis/meta/sai_meta.cpp:313-438 | In every reachable state a counted oid's count is its number of occurrences in all stored values and entry keys, the counted oids are exactly the oid-typed keys of the store, and no stored non-null oid dangles |
| `MetaRuns.SwitchIsolation` | src/sonic-sairedis/meta/sai_meta.cpp:691-704 | In every reachable state whatever non-null oid an object holds, in an attribute or in its entry key, lies on that object's own switch |
| `MetaRuns.KeyIndexAgrees` | src/sonic-sairedis/meta/sai_meta.cpp:757-840 | In every reachable state each index entry belongs to a stored object and is the key text recomputed from its attributes, and no two objects share a non-empty key text, whatever the uninitialised flag held, unless an exception interrupted the create of one of them |
| `MetaRuns.MandatoryPersists` | src/sonic-sairedis/meta/sai_meta.cpp:1511-1611 | Every created object still stored has all its unconditional mandatory attributes but the two coded exceptions; so every stored fdb entry has the type a consolidated flush looks up |
| `MetaRuns.CreatedUntilRemoved` | src/sonic-sairedis/meta/sai_meta.cpp:2712-2983 | No call or notification makes the history forget a created object that is still stored |
| `MetaRuns.InterruptedBy` | src/sonic-sairedis/meta/sai_meta.cpp:2843-2975 | An object is left half-made exactly by an accepted, answered create one of whose attributes does not print |
| `MetaRuns.PostCreatePreserves` | src/sonic-sairedis/meta/sai_meta.cpp:2712-2983 | The post step of an accepted create keeps the invariant, interrupted by an exception or not |
| `MetaRuns.PortCascade` | src/sonic-sairedis/meta/sai_meta.cpp:2988-3028 | An accepted removal of a port deletes it and exactly its related objects, leaves no reference to any of them, changes no other count, and re-establishes the invariant |
| `MetaRuns.PortRemovable` | src/sonic-sairedis/meta/sai_meta.cpp:1811-1867 | A port with related objects is accepted for removal exactly when it and all of them are unreferenced, stored and in default state; the check throws exactly when the port itself passes and the first related object that fails its checks, in ascending order, is one that is gone; a referenced port is an invalid parameter |
| `MetaRuns.PortAcceptedExactly` | src/sonic-sairedis/meta/sai_meta.cpp:1811-1867 | The port check succeeds exactly when the port is in default state and all its related objects are unreferenced, stored and in default state |
| `MetaRuns.PortThrowsExactly` | src/sonic-sairedis/meta/sai_meta.cpp:1811-1867 | The port check throws exactly when the port is in default state and the first related object that fails its checks is one that is gone |
| `MetaRuns.FlushExact` | src/sonic-sairedis/meta/sai_meta.cpp:6335-6413 | A consolidated flush removes exactly the fdb entries matching type, optional bridge port and optional bv id, touches no other object, and lowers each count by exactly the removed occurrences |
| `MetaRuns.ApplyPreserves` | src/sonic-sairedis/meta/sai_meta.cpp:1009-3860 | Every call and every fdb notification keeps the whole invariant, whatever the outcome |
| `MetaRuns.RunPreserves` | src/sonic-sairedis/meta/sai_meta.cpp:1009-3860 | The invariant holds after every run of calls and notifications |
| `MetaRuns.NotifyPreserves` | src/sonic-sairedis/meta/sai_meta.cpp:6454-6596 | Every kind of fdb notification keeps the invariant |
| `MetaRuns.MovePreserves` | src/sonic-sairedis/meta/sai_meta.cpp:6454-6596 | A move that applies any list of attributes, stopping at an exception, keeps the invariant |
| `MetaRuns.GetPreserves` | src/sonic-sairedis/meta/sai_meta.cpp:3619-3860 | Snooping the oids of a get and updating the related map keeps the invariant |
| `MetaRuns.RemovePreserves` | src/sonic-sairedis/meta/sai_meta.cpp:3030-3211 | An accepted removal, port cascade included, keeps the invariant |
| `MetaRuns.RemoveErasable` | src/sonic-sairedis/meta/sai_meta.cpp:1869-1957 | An accepted removal concerns only stored objects with a count of zero, related objects included |
| `MetaRuns.DefaultHoldsNull` | src/sonic-sairedis/meta/sai_meta.cpp:1728-1809 | An object in default state refers to null oids only |
| `MetaSteps.CreateValidates` | src/sonic-sairedis/meta/sai_meta.cpp:1009-1726 | Accepting a create, with a sound vendor answer, establishes everything its post step trusts |
| `MetaSteps.CreatePreserves` | src/sonic-sairedis/meta/sai_meta.cpp:2712-2983 | The post step of an accepted create keeps the invariant |
| `MetaSteps.CreateConserves` | src/sonic-sairedis/meta/sai_meta.cpp:2712-2983 | Creating raises each count by exactly the occurrences the new object holds |
| `MetaSteps.CreateKeys` | src/sonic-sairedis/meta/sai_meta.cpp:2977-2982 | The index entry written on create agrees with the stored attributes and is new |
| `MetaSteps.InterruptPreserves` | src/sonic-sairedis/meta/sai_meta.cpp:2843-2975 | An exception in the attribute loop of create, at any attribute, leaves counts exact, contained and on one switch |
| `MetaSteps.FdbCreatePrints` | src/sonic-sairedis/meta/sai_meta.cpp:6503-6532 | Every attribute of an accepted fdb entry prints, so no notification is interrupted |
| `MetaSteps.SetAccepts` | src/sonic-sairedis/meta/sai_meta.cpp:1959-2404 | An accepted set is of a known non-key attribute and holds only null or counted oids of the object's switch |
| `MetaSteps.SetPreserves` | src/sonic-sairedis/meta/sai_meta.cpp:3213-3430 | The post step of an accepted set keeps the invariant |
| `MetaSteps.SetConserves` | src/sonic-sairedis/meta/sai_meta.cpp:3213-3430 | A set lowers the counts of the previous value and raises those of the new one, keeping conservation |
| `MetaSteps.ErasePreserves` | src/sonic-sairedis/meta/sai_meta.cpp:3030-3211 | Erasing any set of unreferenced objects together keeps the invariant |
| `MetaSteps.EraseTwice` | src/sonic-sairedis/meta/sai_meta.cpp:3030-3211 | Erasing in two rounds is erasing at once, which makes the cascade and the flush loop exact |
| `MetaSteps.SnoopsPreserve` | src/sonic-sairedis/meta/sai_meta.cpp:3432-3546 | Learning any list of vendor oids keeps the invariant |
| `MetaInvariant.OidListAccepted` | src/sonic-sairedis/meta/sai_meta.cpp:592-710 | An accepted object list holds only null oids and counted oids on the given, counted switch |
| `MetaInvariant.ValueAccepted` | src/sonic-sairedis/meta/sai_meta.cpp:1092-1500 | An accepted value refers only to null or counted oids of the right switch and has a type the post steps handle |
| `MetaInvariant.AttrsStatusAccepts` | src/sonic-sairedis/meta/sai_meta.cpp:1092-1500 | An accepted attribute list has no repetition, and all its values are accepted |
| `MetaInvariant.UncountedUnused` | src/sonic-sairedis/meta/sai_meta.cpp:440-460 | An oid that is not counted occurs nowhere in the store |
| `MetaReady.CreateBecomesReady` | src/sonic-sairedis/meta/sai_meta.cpp:1009-1726 | Validation of create is sufficient for its post step |
| `MetaReady.SetBecomesReady` | src/sonic-sairedis/meta/sai_meta.cpp:1959-2404 | Validation of set is sufficient for its post step |
| `MetaReady.RemoveBecomesReady` | src/sonic-sairedis/meta/sai_meta.cpp:1869-1957 | Validation of remove is sufficient for its post step, at every point of the port cascade |
| `MetaReady.FlushesReady` | src/sonic-sairedis/meta/sai_meta.cpp:6335-6413 | Every entry a consolidated flush has collected can be removed when its turn comes |
| `MetaReady.QueryAnswered` | src/sonic-sairedis/meta/sai_meta.cpp:2406-2699 | Validation of get leaves only attributes of known types its post step handles |
| `MetaRules.OidListRule` | src/sonic-sairedis/meta/sai_meta.cpp:592-710 | An object list is accepted exactly when it is null with count zero, or holds at most 4096 elements, each null where allowed or a counted oid of an allowed type on the counted switch, without repetition, and from the third on of the type of the nearest non-null one before it; otherwise it is an invalid parameter |
| `MetaRules.NameRule` | src/sonic-sairedis/meta/sai_meta.cpp:1145-1180 | A name is accepted exactly when one to fifteen printable characters are followed by a NUL |
| `MetaRules.ValueRule` | src/sonic-sairedis/meta/sai_meta.cpp:1135-1500 | For every value: a type that is not handled throws, an acceptable value is accepted, any other is an invalid parameter, each condition written out by the shape of the value |
| `MetaRules.AttrsRule` | src/sonic-sairedis/meta/sai_meta.cpp:1092-1500 | The first attribute that is unknown, repeated, read-only or of an unacceptable value decides the status of the list, with the status of its fault |
| `MetaRules.ExcusedRule` | src/sonic-sairedis/meta/sai_meta.cpp:1525-1600 | A missing dynamic or static threshold is let pass exactly when the profile passes a null pool or the pool's stored or default mode is not the dynamic or static one; a missing range type of an ACL table always is |
| `MetaRules.MandatoryRule` | src/sonic-sairedis/meta/sai_meta.cpp:1511-1611 | Nothing is lacking exactly when every mandatory attribute that is not conditional is passed or let pass |
| `MetaRules.ConditionalRule` | src/sonic-sairedis/meta/sai_meta.cpp:1613-1706 | A conditional attribute that is wanted and missing is a missing mandatory attribute, one that is passed and not wanted an invalid parameter; it is wanted exactly when, for some condition, the value passed or the default is the condition's boolean or number |
| `MetaRules.ConditionalsRule` | src/sonic-sairedis/meta/sai_meta.cpp:1613-1706 | The first conditional attribute of the metadata that is amiss decides |
| `MetaRules.ConditionalExact` | src/sonic-sairedis/meta/sai_meta.cpp:1613-1706 | An accepted create stores a conditional attribute exactly when, for some condition of its metadata, the value the list gives the condition's attribute, or the default, is the condition's |
| `MetaRules.KeyRule` | src/sonic-sairedis/meta/sai_meta.cpp:894-1007 | The oids in an entry key are accepted exactly when each is counted, of the type its place asks for and on the key's counted switch; null ones only in fdb keys |
| `MetaRules.CreateRule` | src/sonic-sairedis/meta/sai_meta.cpp:1009-1726 | The answer of create for every input, fault by fault in the order they are looked for, over conditions written out from the inputs |
| `MetaRules.CreateAcceptedExactly` | src/sonic-sairedis/meta/sai_meta.cpp:1009-1726 | Create is accepted exactly when none of the faults is there |
| `MetaRules.EntryRule` | src/sonic-sairedis/meta/sai_meta.cpp:5821-5900 | The check of a key before each call: which keys are sound, when an entry must and must not be stored, and which refusal each fault gets |
| `MetaRules.SetRule` | src/sonic-sairedis/meta/sai_meta.cpp:1959-2404 | The answer of set for every input: unknown, read-only, create-only and key attributes, uncounted switch, unhandled type, unacceptable value, missing or mistyped object |
| `MetaRules.QueriesRule` | src/sonic-sairedis/meta/sai_meta.cpp:2406-2560 | The first attribute of a query that is unknown, of a type that cannot be asked for or with an unsound buffer decides |
| `MetaRules.GetAcceptedExactly` | src/sonic-sairedis/meta/sai_meta.cpp:2406-2699 | Get is accepted exactly for one to 4096 attributes that can be asked for, of a stored object of its own type |
| `MetaRules.DefaultRule` | src/sonic-sairedis/meta/sai_meta.cpp:1728-1809 | An object is in default state exactly when it is counted and stored and its writable oid attributes are object ids or lists that mention only null |
| `MetaRules.RemoveRule` | src/sonic-sairedis/meta/sai_meta.cpp:1869-1957 | In a state that satisfies the invariant, removal is accepted exactly for a stored object of a known type that is a switch or unreferenced, and for a port with related objects when all of them are unreferenced and in default state; a missing or referenced object is an invalid parameter |
| `MetaKeys.PartTells` | src/sonic-sairedis/meta/sai_meta.cpp:757-840 | The part a key attribute adds to the key text tells its value |
| `MetaKeys.KeyTextTells` | src/sonic-sairedis/meta/sai_meta.cpp:757-840 | Two objects of one type with the same key attributes have the same key text exactly when each of those attributes has the same value |
| `MetaEffects.ObjectAddsUp` | src/sonic-sairedis/meta/sai_meta.cpp:2712-2983 | The occurrences in an object are those in its key and in each attribute, an ACL value counting only while enabled |
| `MetaEffects.StoreAddsUp` | src/sonic-sairedis/meta/sai_meta.cpp:313-438 | The occurrences in the store are those in each object |
| `MetaEffects.ZeroExactly` | src/sonic-sairedis/meta/sai_meta.cpp:403-438 | In every reachable state a count is zero exactly when no stored object holds the oid in its key or an attribute, and what is held is null or counted |
| `MetaEffects.CreateStores` | src/sonic-sairedis/meta/sai_meta.cpp:2712-2983 | The post step of a create whose attributes print adds one object that holds the stored form of exactly those attributes, and changes no other object |
| `MetaEffects.CreateCounts` | src/sonic-sairedis/meta/sai_meta.cpp:2712-2983 | It counts the new oid from zero and raises each count by what the object holds |
| `MetaEffects.CreateIndexes` | src/sonic-sairedis/meta/sai_meta.cpp:2841-2982 | It indexes the object under its key text exactly when a key attribute is passed or the uninitialised flag was set |
| `MetaEffects.InterruptStores` | src/sonic-sairedis/meta/sai_meta.cpp:2843-2975 | A create interrupted at the first attribute that does not print leaves the attributes before it and no index entry |
| `MetaEffects.SetStores` | src/sonic-sairedis/meta/sai_meta.cpp:3213-3430 | Set stores the canonical form of one attribute of one object and touches no other attribute or object |
| `MetaEffects.SetCounts` | src/sonic-sairedis/meta/sai_meta.cpp:3213-3430 | Each count falls by the occurrences in the previous value and rises by those in the new one |
| `MetaEffects.EraseStores` | src/sonic-sairedis/meta/sai_meta.cpp:3195-3211 | The post step of remove takes the object and its index entry, and no other |
| `MetaEffects.EraseCounts` | src/sonic-sairedis/meta/sai_meta.cpp:3047-3195 | It stops counting the object's oid and lowers each count by what the object held |
| `MetaEffects.RemoveTakes` | src/sonic-sairedis/meta/sai_meta.cpp:3030-3211 | After a removal of anything but a switch the object is neither stored, indexed nor counted |
| `MetaEffects.SnoopsEffect` | src/sonic-sairedis/meta/sai_meta.cpp:6415-6452 | Learning oids adds exactly the non-null ones of a known type that were not counted, from zero, each with an empty object of its type, and changes nothing else |
| `MetaEffects.ResultsHold` | src/sonic-sairedis/meta/sai_meta.cpp:3619-3860 | A get learns exactly the oids its values hold |
| `MetaEffects.GetRelates` | src/sonic-sairedis/meta/sai_meta.cpp:3556-3617 | A get of a port relates to it exactly the elements of its queue, scheduler group and priority group lists |
| `MetaEffects.NotifiedHold` | src/sonic-sairedis/meta/sai_meta.cpp:6480-6500 | A notification learns exactly the oids of its attributes of object id type |
| `MetaEffects.EntryGoes` | src/sonic-sairedis/meta/sai_meta.cpp:6534-6562 | An aged or single flushed entry is gone, every other object is unchanged, and each count falls by what the entry held |
| `MetaEffects.EntryLearned` | src/sonic-sairedis/meta/sai_meta.cpp:6503-6532 | A learned entry that was absent and is accepted holds exactly the notified attributes in stored form, with the dynamic type after a single one, and counts rise by what it holds |
| `MetaEffects.EntryNotLearned` | src/sonic-sairedis/meta/sai_meta.cpp:6503-6532 | A learned entry that is stored already or not accepted changes nothing |
| `MetaEffects.MoveSets` | src/sonic-sairedis/meta/sai_meta.cpp:6564-6588 | A move gives each attribute of the entry the last value that validates before one that throws |
| `MetaEffects.MoveLeaves` | src/sonic-sairedis/meta/sai_meta.cpp:6564-6588 | A move leaves an attribute without a value that validates as it was |
| `MetaEffects.MoveKeepsRest` | src/sonic-sairedis/meta/sai_meta.cpp:6564-6588 | A move changes no other object and starts or stops counting no oid |
| `MetaEffects.FlushTakes` | src/sonic-sairedis/meta/sai_meta.cpp:6335-6413 | A consolidated flush takes exactly the fdb entries of the notified type, on the notified bridge port and of the notified bridge or VLAN where those are given and not null |
| `MetaDb.MetaDb.constructor` | src/sonic-sairedis/meta/sai_meta.cpp:462-477 | A new database is empty and satisfies the invariant |
| `MetaDb.MetaDb.Init` | src/sonic-sairedis/meta/sai_meta.cpp:462-477 | Initialisation empties the four maps |
| `MetaDb.MetaDb.Inc` | src/sonic-sairedis/meta/sai_meta.cpp:313-335 | Raises one count; null is ignored; an uncounted oid throws |
| `MetaDb.MetaDb.Dec` | src/sonic-sairedis/meta/sai_meta.cpp:337-364 | Lowers one count; an uncounted oid throws and changes nothing, a count below zero throws with the count already lowered |
| `MetaDb.MetaDb.Insert` | src/sonic-sairedis/meta/sai_meta.cpp:388-401 | Starts counting an oid at zero; a counted one throws |
| `MetaDb.MetaDb.RemoveReference` | src/sonic-sairedis/meta/sai_meta.cpp:420-438 | Stops counting an oid; one with a positive count throws |
| `MetaDb.MetaDb.IncAll` | src/sonic-sairedis/meta/sai_meta.cpp:2712-2983 | Raises the counts of all oids of a value, each by its occurrences |
| `MetaDb.MetaDb.DecAll` | src/sonic-sairedis/meta/sai_meta.cpp:3030-3211 | Lowers the counts of all oids of a value, each by its occurrences |
| `MetaDb.MetaDb.CreateObject` | src/sonic-sairedis/meta/sai_meta.cpp:575-590 | Stores an empty object; an existing one throws |
| `MetaDb.MetaDb.SetObject` | src/sonic-sairedis/meta/sai_meta.cpp:515-532 | Stores the canonical form of a value; a missing object and a value that does not print throw and leave the stored attributes as they were (a null slot the throw may leave is told by `NullSlots.NullSlotBy`) |
| `MetaDb.MetaDb.RemoveObject` | src/sonic-sairedis/meta/sai_meta.cpp:558-573 | Deletes an object; a missing one throws |
| `MetaDb.MetaDb.ValidateOidList` | src/sonic-sairedis/meta/sai_meta.cpp:592-710 | The status of an object list for every list: count limit, null pointer, duplicates, null oids, type, existence and switch of each element |
| `MetaDb.MetaDb.ValidateValue` | src/sonic-sairedis/meta/sai_meta.cpp:1135-1500 | The status of one value for every value type, on create and on set |
| `MetaDb.MetaDb.ConstructKey` | src/sonic-sairedis/meta/sai_meta.cpp:757-840 | The key text of an attribute list, a function of the attributes alone and not of their order |
| `MetaDb.MetaDb.ValidateCreate` | src/sonic-sairedis/meta/sai_meta.cpp:1009-1726 | The status of a create for every key and attribute list, in the order of the checks |
| `MetaDb.MetaDb.ValidateAttrs` | src/sonic-sairedis/meta/sai_meta.cpp:1092-1500 | The status of the first rejected attribute, and whether any is a key |
| `MetaDb.MetaDb.ValidateMandatory` | src/sonic-sairedis/meta/sai_meta.cpp:1511-1611 | Whether all unconditional mandatory attributes are passed or excused |
| `MetaDb.MetaDb.ValidateConditionals` | src/sonic-sairedis/meta/sai_meta.cpp:1613-1706 | The status of the conditional attributes |
| `MetaDb.MetaDb.KeyTaken` | src/sonic-sairedis/meta/sai_meta.cpp:1708-1723 | Whether some object already has a key text |
| `MetaDb.MetaDb.PostCreate` | src/sonic-sairedis/meta/sai_meta.cpp:2712-2983 | After an accepted create the post step throws exactly when an attribute does not print, leaving the object with the attributes before it; otherwise the database is the specified state after create |
| `MetaDb.MetaDb.Fill` | src/sonic-sairedis/meta/sai_meta.cpp:2740-2975 | The new object is registered and given as many of its attributes as print, each with its references counted |
| `MetaDb.MetaDb.Register` | src/sonic-sairedis/meta/sai_meta.cpp:2740-2832 | References of an entry key are counted; a new oid is counted from zero exactly when the vendor answered one of the requested type on the requested, counted switch, and otherwise nothing changes; an oid already counted throws |
| `MetaDb.MetaDb.StoreAttrs` | src/sonic-sairedis/meta/sai_meta.cpp:2843-2975 | The attributes up to the first that does not print are stored and their references counted |
| `MetaDb.MetaDb.RaiseHasKeys` | src/sonic-sairedis/meta/sai_meta.cpp:2841-2857 | The key flag, true also when its uninitialised value was |
| `MetaDb.MetaDb.ValidateSet` | src/sonic-sairedis/meta/sai_meta.cpp:1959-2404 | The status of a set for every key and attribute |
| `MetaDb.MetaDb.PostSet` | src/sonic-sairedis/meta/sai_meta.cpp:3213-3430 | After an accepted set the post step throws exactly when the value does not print, and then changes no attribute and no count; otherwise previous references are released and new ones counted |
| `MetaDb.MetaDb.IsInDefaultState` | src/sonic-sairedis/meta/sai_meta.cpp:1728-1809 | Whether an object refers to nothing but null oids |
| `MetaDb.MetaDb.ValidatePortRemove` | src/sonic-sairedis/meta/sai_meta.cpp:1811-1867 | The status of a port removal, visiting related objects in ascending order |
| `MetaDb.MetaDb.ValidateRemove` | src/sonic-sairedis/meta/sai_meta.cpp:1869-1957 | The status of a removal; a referenced switch empties the database at once |
| `MetaDb.MetaDb.PostRemove` | src/sonic-sairedis/meta/sai_meta.cpp:3030-3211 | After an accepted removal no exception is thrown and the object, its references and a port's related objects are gone |
| `MetaDb.MetaDb.PostPortRemove` | src/sonic-sairedis/meta/sai_meta.cpp:2988-3028 | Every related object goes through the same post step, and the related set is emptied |
| `MetaDb.MetaDb.Snoop` | src/sonic-sairedis/meta/sai_meta.cpp:6415-6452 | A non-null oid of a known type that is not counted becomes a counted object without attributes |
| `MetaDb.MetaDb.SnoopList` | src/sonic-sairedis/meta/sai_meta.cpp:3432-3546 | The oids of a get are snooped in order, repetitions skipped |
| `MetaDb.MetaDb.ValidateGet` | src/sonic-sairedis/meta/sai_meta.cpp:2406-2699 | The status of a get for every query |
| `MetaDb.MetaDb.PostGet` | src/sonic-sairedis/meta/sai_meta.cpp:3619-3860 | After an accepted get no exception is thrown, its oids are snooped and a port's related set grows |
| `MetaDb.MetaDb.PostPortGet` | src/sonic-sairedis/meta/sai_meta.cpp:3573-3617 | The related set of a port grows by exactly the oids of its three lists |
| `MetaDb.MetaDb.AddRelated` | src/sonic-sairedis/meta/sai_meta.cpp:3556-3571 | A related set grows by a list; a null oid throws |
| `MetaDb.MetaDb.FlushConsolidated` | src/sonic-sairedis/meta/sai_meta.cpp:6335-6413 | The two-phase loop removes exactly the matching fdb entries |
| `MetaDb.MetaDb.CollectFlushed` | src/sonic-sairedis/meta/sai_meta.cpp:6335-6404 | The first phase collects each matching entry exactly once |
| `MetaDb.MetaDb.MatchesFlush` | src/sonic-sairedis/meta/sai_meta.cpp:6352-6396 | The tests of one key in the scan |
| `MetaDb.MetaDb.OnFdbEvent` | src/sonic-sairedis/meta/sai_meta.cpp:6454-6596 | A notification: how it ends, the state afterwards (for each kind see `MetaEffects.EntryGoes`, `EntryLearned`, `MoveSets`, `FlushTakes`), and the invariant |
| `MetaDb.MetaDb.MoveEntry` | src/sonic-sairedis/meta/sai_meta.cpp:6564-6588 | A move sets every attribute that validates, and throws exactly when validating one of them does |
| `MetaDb.MetaDb.Create` | src/sonic-sairedis/meta/sai_meta.cpp:5902-5965 | Create through the API: the status, which is success exactly when accepted, answered and printable; the state afterwards and the invariant; on success the attributes are stored, otherwise nothing changes but for an interrupted create |
| `MetaDb.MetaDb.Set` | src/sonic-sairedis/meta/sai_meta.cpp:6016-6064 | Set through the API: the status for every input; on success the canonical value is stored, otherwise nothing changes; the state afterwards and the invariant |
| `MetaDb.MetaDb.Remove` | src/sonic-sairedis/meta/sai_meta.cpp:5967-6014 | Remove through the API: the status for every input; on success anything but a switch is neither stored nor counted, otherwise nothing changes but for the reset of a referenced switch; the state afterwards and the invariant |
| `MetaDb.MetaDb.Get` | src/sonic-sairedis/meta/sai_meta.cpp:6066-6115 | Get through the API: the status for every input; a refusal changes nothing; the state afterwards and the invariant |
| `MetaFindings.HoledMaskAccepted` | src/sonic-sairedis/meta/sai_meta.cpp:172-200 | A prefix whose mask has a hole passes the validators of create and set, although printing it for the stored copy throws |
| `MetaFindings.AcceptedPrints` | src/sonic-sairedis/meta/sai_meta.cpp:1092-1500 | Printing an accepted value, as the post step does to copy it, throws exactly when the mask of its prefix has a zero bit before a one bit or an address of its list is neither IPv4 nor IPv6 |
| `MetaFindings.ListUniform` | src/sonic-sairedis/meta/sai_meta.cpp:677-689 | An accepted object list without nulls is of one type exactly when its first two elements, which are never compared, agree |
| `MetaFindings.MixedPairAccepted` | src/sonic-sairedis/meta/sai_meta.cpp:677-689 | Two elements of different allowed types are accepted |
| `MetaFindings.LearnedTypeOnlyDropped` | src/sonic-sairedis/meta/sai_meta.cpp:6503-6532 | A learned notification whose only attribute is the entry type never stores its entry |
| `MetaFindings.AcceptedDistinct` | src/sonic-sairedis/meta/sai_meta.cpp:1119-1124 | An accepted create names no attribute twice |
| `MetaFindings.SwitchRemoval` | src/sonic-sairedis/meta/sai_meta.cpp:1927-1942 | A validated removal of a switch empties the database when something refers to it, whatever the vendor answers, and changes nothing otherwise |
| `NullSlots.AssignStores` | src/sonic-sairedis/meta/sai_meta.cpp:515-532 | The storing assignment under both evaluation orders: the same attributes are stored; a copy that throws leaves a null slot exactly when the slot is made first and the object had no such attribute |
| `NullSlots.LoopStores` | src/sonic-sairedis/meta/sai_meta.cpp:2843-2975 | The attribute loop of create under both orders: the attributes before the one that throws are stored, and only that one may be left as a null slot |
| `NullSlots.OrdersAgree` | src/sonic-sairedis/meta/sai_meta.cpp:515-532 | After every run, under both orders, the stored objects and attributes are those of the model |
| `NullSlots.NullSlotBy` | src/sonic-sairedis/meta/sai_meta.cpp:515-532 | A null slot arises exactly by an accepted create or set whose copy throws after the slot was made, and stays exactly until the attribute is set or its object goes |
| `NullSlots.NullSlotLeaves` | src/sonic-sairedis/meta/sai_meta.cpp:3047-3050 | An object with a null slot leaves the database only when it is reset or by a removal that goes over its attributes |
| `NullSlots.NoNullSlots` | src/sonic-sairedis/meta/sai_meta.cpp:515-532 | No slot is null after any run when the copy is made first, or when every value passed prints |
| `OidLayout.QueriesInvert` | src/sonic-sairedis/meta/tests.cpp:31-157 | The queries read back the type and switch an oid was made of, and the switch of an oid is a switch that lies on itself |
| `OidLayout.TestMetaLawful` | src/sonic-sairedis/meta/tests.cpp:31-157 | The test layout with a small attribute table meets every law asked of the metadata |
| `Bags.SumUpdate` | src/sonic-sairedis/meta/sai_meta.cpp:313-364 | Replacing one object changes the total of occurrences by the difference of its own |
| `RefBags.StoreBagErase` | src/sonic-sairedis/meta/sai_meta.cpp:3030-3211 | The occurrences of a store are those of any part and of the rest |
| `RefBags.StoreStepBag` | src/sonic-sairedis/meta/sai_meta.cpp:2843-2975 | Storing one more attribute of a list without repetitions adds exactly its references |
| `RefBags.CanonRefs` | src/sonic-sairedis/meta/sai_meta.cpp:197-199 | Storing the reparsed value keeps its references |
| `IpMask.IsIpv6MaskValid` | src/sonic-sairedis/meta/sai_meta.cpp:120-153 | Accepts exactly the non-null masks in which no one bit follows a zero bit |
| `IpMask.GetIpMask` | src/sonic-sairedis/meta/saiserialize.cpp:447-476 | Throws exactly on masks that are not contiguous, and otherwise returns the length whose expansion is the mask |
| `IpMask.PopulateIpMask` | src/sonic-sairedis/meta/saiserialize.cpp:494-527 | Writes the mask of a length that fits the family; a longer one and a null buffer throw and write nothing |
| `IpMask.ContiguousIffExpanded` | src/sonic-sairedis/meta/saiserialize.cpp:494-527 | The masks both validators accept are exactly the expansions of a prefix length |
| `IpMask.MaskOfBits` | src/sonic-sairedis/meta/saiserialize.cpp:494-527 | The expansion of a length has ones exactly in its first places |
| `IpMask.MaskOfInjective` | src/sonic-sairedis/meta/saiserialize.cpp:494-527 | Different lengths expand to different masks |
| `IpMask.MaskLengthInverts` | src/sonic-sairedis/meta/saiserialize.cpp:447-476 | Expanding the measured length of a valid mask gives the mask back |
| `IpMask.MaskLengthExpanded` | src/sonic-sairedis/meta/saiserialize.cpp:447-476 | Measuring an expanded mask gives the length back |
| `IpMask.MeasureExpanded` | src/sonic-sairedis/meta/saiserialize.cpp:447-527 | `get_ip_mask` undoes `sai_populate_ip_mask` for both families |
| `NumberText.NumberRoundTrip` | src/sonic-sairedis/meta/saiserialize.cpp:1780-1797 | Numbers of every width and sign survive printing and parsing, decimal through negation modulo 2^64 and hexadecimal through sign extension |
| `NumberText.DecimalInjective` | src/sonic-sairedis/meta/saiserialize.cpp:591-607 | No two numbers print alike |
| `NumberText.StrToULLNegative` | src/sonic-sairedis/meta/saiserialize.cpp:1780-1797 | A negative decimal reads as its 64-bit pattern |
| `NumberText.CastPattern` | src/sonic-sairedis/meta/saiserialize.cpp:1780-1797 | Truncating the pattern of a number that fits gives the number |
| `CharData.SerializeChardata` | src/sonic-sairedis/meta/saiserialize.cpp:542-575 | The printed form of the bytes before the first NUL |
| `CharData.DeserializeChardata` | src/sonic-sairedis/meta/saiserialize.cpp:1719-1777 | What the escapes denote, padded with zeros, or an exception |
| `CharData.ChardataRoundTrip` | src/sonic-sairedis/meta/saiserialize.cpp:1719-1777 | For every 32-byte buffer decoding the printed form never throws and gives the bytes before the first NUL, padded |
| `CharData.EscapeInjective` | src/sonic-sairedis/meta/saiserialize.cpp:542-575 | Two byte strings print alike exactly when they are equal |
| `CharData.DeserializeMac` | src/sonic-sairedis/meta/saiserialize.cpp:1835-1857 | Six pairs of hexadecimal digits at fixed places, or an exception |
| `CharData.MacRoundTrip` | src/sonic-sairedis/meta/saiserialize.cpp:577-588 | MAC addresses survive printing and parsing |
| `CountedList.SerializeList` | src/sonic-sairedis/meta/saiserialize.cpp:1017-1050 | Count and items, count and null, or the exception of an item |
| `CountedList.DeserializeList` | src/sonic-sairedis/meta/saiserialize.cpp:1883-1930 | The list a text denotes, or an exception on a missing colon, a bad count, a count that does not match, or a bad item |
| `CountedList.Tokenize` | src/sonic-swss-common/common/tokenize.cpp:7-17 | The tokens `getline` yields |
| `CountedList.ListRoundTrip` | src/sonic-sairedis/meta/saiserialize.cpp:1883-1930 | A list whose items survive survives; an empty one comes back null with its count |
| `CountedList.JoinThrows` | src/sonic-sairedis/meta/saiserialize.cpp:1036-1047 | Printing a list throws exactly when printing some item does |
| `ValueText.SerializeEnum` | src/sonic-sairedis/meta/saiserialize.cpp:609-631 | The name at the first place that has the number, or the decimal number |
| `ValueText.DeserializeEnum` | src/sonic-sairedis/meta/saiserialize.cpp:1809-1833 | The number at the first place with the name, or what the text says as a number |
| `ValueText.EnumRoundTrip` | src/sonic-sairedis/meta/saiserialize.cpp:1809-1833 | Every number of an enumeration attribute survives, named or not |
| `ValueText.OidRoundTrip` | src/sonic-sairedis/meta/saiserialize.cpp:1859-1880 | Object ids survive printing and parsing |
| `ValueText.PrefixRoundTrip` | src/sonic-sairedis/meta/saiserialize.cpp:2162-2196 | A prefix prints exactly when its family is known and its mask contiguous, and then survives |
| `ValueText.RangeRoundTrip` | src/sonic-sairedis/meta/saiserialize.cpp:2209-2224 | Ranges survive |
| `ValueText.AddressListRoundTrip` | src/sonic-sairedis/meta/saiserialize.cpp:2198-2206 | An address list prints exactly when all its addresses do, and then survives |
| `ValueText.CapabilityRoundTrip` | src/sonic-sairedis/meta/saiserialize.cpp:2380-2398 | Action capabilities survive |
| `ValueText.FieldRoundTrip` | src/sonic-sairedis/meta/saiserialize.cpp:2226-2319 | ACL fields survive with their masks; disabled ones come back zeroed |
| `ValueText.ActionRoundTrip` | src/sonic-sairedis/meta/saiserialize.cpp:2321-2378 | ACL actions survive; disabled ones come back zeroed |
| `ValueText.DataRoundTrip` | src/sonic-sairedis/meta/saiserialize.cpp:2400-2541 | Plain data prints exactly when it is storable, and parses back to its canonical form |
| `ValueText.ValueRoundTrip` | src/sonic-sairedis/meta/saiserialize.cpp:2400-2541 | For every value type with a parser, printing throws exactly on values that are not storable, and what is printed parses back to the canonical form |
| `ValueText.SameTextSameValue` | src/sonic-sairedis/meta/saiserialize.cpp:1349-1487 | Values that print alike are stored alike |
| `ValueText.EnumNames` | src/sonic-sairedis/meta/saiserialize.cpp:609-631 | The text every printer uses for an enumeration is the first name of the number, or the number |
| `TextRules.DecimalRule` | src/sonic-sairedis/meta/saiserialize.cpp:591-607 | Decimal digits after a minus sign for negative numbers |
| `TextRules.HexRule` | src/sonic-sairedis/meta/saiserialize.cpp:591-607 | Lower-case hexadecimal digits after 0x |
| `TextRules.EscapeRule` | src/sonic-sairedis/meta/saiserialize.cpp:542-575 | Letters and digits stand for themselves, a backslash is doubled, other bytes are written with two upper-case hexadecimal digits |
| `TextRules.MacRule` | src/sonic-sairedis/meta/saiserialize.cpp:577-588 | Six pairs of upper-case hexadecimal digits between colons |
| `TextRules.ListRule` | src/sonic-sairedis/meta/saiserialize.cpp:1017-1050 | The count and the items between commas, or null when there are none |
| `TextRules.PlainTextRule` | src/sonic-sairedis/meta/saiserialize.cpp:1349-1487 | The text of every plain value that is not a list |
| `TextRules.PrefixRule4` | src/sonic-sairedis/meta/saiserialize.cpp:1489-1508 | An IPv4 prefix is its address, a slash and its length |
| `TextRules.PrefixRule6` | src/sonic-sairedis/meta/saiserialize.cpp:1489-1508 | An IPv6 prefix is its address, a slash and its length |
| `TextRules.NumberListRule` | src/sonic-sairedis/meta/saiserialize.cpp:1081-1120 | Number lists, with the names of enumerations |
| `TextRules.CapabilityRule` | src/sonic-sairedis/meta/saiserialize.cpp:1335-1347 | The mandatory flag, a colon and the list of actions |
| `TextRules.AclTextRule` | src/sonic-sairedis/meta/saiserialize.cpp:1220-1333 | A disabled ACL value is a word; an enabled one without a mask is its data |
| `TextRules.MaskedTextRule` | src/sonic-sairedis/meta/saiserialize.cpp:1276-1333 | An enabled field with a mask is the data, a marker and the mask, whose number is the hexadecimal of its 64-bit pattern |
| `Stored.CanonTyped` | src/sonic-sairedis/meta/sai_meta.cpp:197-199 | The stored form has the type and the references of the value |
| `Stored.CanonText` | src/sonic-sairedis/meta/sai_meta.cpp:197-199 | Stored text keeps its bytes up to the first NUL and is zero from there on |
| `Stored.CanonPlain` | src/sonic-sairedis/meta/sai_meta.cpp:197-199 | A stored empty list is null; other data is kept |
| `Stored.CanonAcl` | src/sonic-sairedis/meta/sai_meta.cpp:197-199 | Of a disabled ACL value only zeros are stored; of an enabled one the data, and the mask where fields of its kind have one |
| `KeyName.ObjectRoundTrip` | src/sonic-sairedis/meta/saiserialize.cpp:698-797 | Dumping a flat object of plain strings and parsing it gives its members back |
| `KeyName.KeyRoundTrip` | src/sonic-sairedis/meta/saiserialize.cpp:2694-2739 | Printing an object key throws exactly when it is not printable, and a printed key parses back to itself |
| `KeyName.KeyInjective` | src/sonic-sairedis/meta/saiserialize.cpp:1649-1694 | No two keys print alike |
| `KeyName.BvidOnlyInFdbKeys` | src/sonic-sairedis/meta/sai_meta.cpp:6352-6359 | "bvid" occurs in the text of a key exactly when it is the key of an fdb entry |
| `KeyName.FdbBody` | src/sonic-sairedis/meta/saiserialize.cpp:2621-2632 | Fdb entries survive printing and parsing |
| `KeyName.RouteBody` | src/sonic-sairedis/meta/saiserialize.cpp:2647-2658 | Routes with a valid mask survive |
| `KeyName.NeighborBody` | src/sonic-sairedis/meta/saiserialize.cpp:2634-2645 | Neighbors survive |
| `TextRules.OidKeyRule` | src/sonic-sairedis/meta/saiserialize.cpp:1649-1694 | The name of the object type, a colon and the oid |
| `TextRules.FdbKeyRule` | src/sonic-sairedis/meta/saiserialize.cpp:785-797 | The JSON object of an fdb key |
| `TextRules.RouteKeyRule` | src/sonic-sairedis/meta/saiserialize.cpp:712-724 | The JSON object of a route key |
| `TextRules.NeighborKeyRule` | src/sonic-sairedis/meta/saiserialize.cpp:698-710 | The JSON object of a neighbor key |
| `StoreNames.StoredKeysPrint` | src/sonic-sairedis/meta/sai_meta.cpp:515-590 | In every reachable state all stored keys print |
| `StoreNames.NamedLookup` | src/sonic-sairedis/meta/sai_meta.cpp:440-450 | A map indexed by key texts is looked up as the map over structured keys it represents |
| `StoreNames.NamedUpdate` | src/sonic-sairedis/meta/sai_meta.cpp:515-590 | Writing under a text writes under its key and nowhere else |
| `StoreNames.NamedRemove` | src/sonic-sairedis/meta/sai_meta.cpp:558-573 | Erasing a text erases its key and nothing else |
| `StoreNames.StoredIsReparsed` | src/sonic-sairedis/meta/sai_meta.cpp:172-200 | What the object map keeps of an attribute is what its printed value parses to |
| `AttrList.SerializeAttrList` | src/sonic-sairedis/meta/saiattributelist.cpp:89-120 | The pairs of all attributes, in order; an unknown attribute and a value that does not print throw |
| `AttrList.PairsWritten` | src/sonic-sairedis/meta/saiattributelist.cpp:89-120 | Each pair is the name of the attribute and its printed value; writing throws exactly when an attribute is unknown or does not print |
| `AttrList.SaiAttributeList.Fill` | src/sonic-sairedis/meta/saiattributelist.cpp:5-39 | The attributes the pairs denote, in order and with the value types of their metadata; an unknown name, an attribute of another type and a value that does not parse throw |
| `AttrList.AttrListRoundTrip` | src/sonic-sairedis/meta/saiattributelist.cpp:5-39 | Writing a list throws exactly when some value does not print, and reading back gives the canonical attributes in order |
| `AttrList.PlaceholdersSkipped` | src/sonic-sairedis/meta/saiattributelist.cpp:5-39 | Placeholder pairs add nothing, wherever they stand |
| `Transfer.TransferList` | src/sonic-sairedis/meta/saiserialize.cpp:79-120 | One list transfer on the caller's buffer: outcome, count and contents |
| `Transfer.TransferExact` | src/sonic-sairedis/meta/saiserialize.cpp:79-120 | A sufficient buffer receives the whole list and keeps its tail; an insufficient one keeps all its elements and learns the count |
| `Transfer.RetrySucceeds` | src/sonic-sairedis/meta/saiserialize.cpp:79-120 | A second call with a buffer of the count the first returned always succeeds and delivers the list |
| `Transfer.TransferAttributes` | src/sonic-sairedis/meta/saiserialize.cpp:411-443 | The attributes before the first failing one are transferred, that one partly, and those after it are untouched |
| `Transfer.HandledExactly` | src/sonic-sairedis/meta/saiserialize.cpp:129-409 | Exactly the listed types are transferred; any other answers not implemented |
| `Transfer.CountsLearned` | src/sonic-sairedis/meta/saiserialize.cpp:129-409 | Asking for counts never fails and returns the count of the list |
| `Transfer.SecondCallDelivers` | src/sonic-sairedis/meta/saiserialize.cpp:129-409 | With buffers of the learned counts the second call delivers every value |
| `Transfer.TwoCallsDeliver` | src/sonic-sairedis/meta/saiserialize.cpp:129-409 | Asking for counts and then receiving into buffers of those counts delivers a value of any transferred type but unsigned 32-bit fields |
| `Transfer.TwoCallsDeliverAll` | src/sonic-sairedis/meta/saiserialize.cpp:411-443 | The two calls on a whole attribute list: neither stops early, and every value arrives |
| `Transfer.Field32Exact` | src/sonic-sairedis/meta/saiserialize.cpp:290-294 | An unsigned 32-bit ACL field is transferred exactly when the caller's buffer already holds its high halves |
| `Discovery.Walk.Discover` | src/sonic-sairedis/saidiscovery/saidiscovery.cpp:69-323 | The recursion terminates on cyclic graphs; it touches nothing found before, finds every object root, and each new object is reachable, fully linked, fully recorded and expanded once |
| `Discovery.Walk.Expand` | src/sonic-sairedis/saidiscovery/saidiscovery.cpp:107-320 | The attribute loop records every successful get of an object and follows all its links |
| `Discovery.Walk.ExpandAttr` | src/sonic-sairedis/saidiscovery/saidiscovery.cpp:107-320 | One attribute: asked for unless worked around, recorded, and its oids followed |
| `Discovery.DiscoveryExact` | src/sonic-sairedis/saidiscovery/saidiscovery.cpp:69-323 | The final map is exactly the objects found before and those reachable from the root through object ids in answered attributes, each new one with exactly the texts of its answered attributes; the result is the number of gets attempted, each object expanded once |
| `Discovery.LinksExactly` | src/sonic-sairedis/saidiscovery/saidiscovery.cpp:107-320 | What is followed from an object is exactly what its answered attributes of object id or object list kind hold, but for the port lane list and the STP bridge id |
| `Discovery.TextsExactly` | src/sonic-sairedis/saidiscovery/saidiscovery.cpp:107-320 | The record of an object holds under a name the text of the last answered attribute of that name, and nothing else |
| `Discovery.CallsExactly` | src/sonic-sairedis/saidiscovery/saidiscovery.cpp:107-320 | The gets counted are one for each attribute that is asked for |
| `Discovery.FollowedTwice` | src/sonic-sairedis/saidiscovery/saidiscovery.cpp:229-232 | Two walks in a row are one walk from both lists of roots |
| `Discovery.FollowedExpand` | src/sonic-sairedis/saidiscovery/saidiscovery.cpp:99-320 | Expanding one object and walking its links is a walk from that object |
| `Watchdog.ReportsSound` | src/sonic-sairedis/syncd/TimerWatchdog.cpp:73-123 | In every interleaving: no exception, each start stamp reported at most once and in ascending order, and every report of an execution not ended when the end stamp was read and older than the limit |
| `Watchdog.OverdueReported` | src/sonic-sairedis/syncd/TimerWatchdog.cpp:73-123 | Once a poll has read a start, an end and a time that make an execution overdue, it reports it with that start and age unless it was reported already, and reports nothing else, whatever steps the clock and the stamping thread take before the decision and before the callback |
| `Watchdog.PollReports` | src/sonic-sairedis/syncd/TimerWatchdog.cpp:65-126 | A whole poll, in every interleaving: with the start it loads, the end loaded later and the time read after that, it reports exactly when the execution had not ended, is older than the limit and was not reported before |
| `Watchdog.CallerStamps` | src/sonic-sairedis/syncd/TimerWatchdog.cpp:34-55 | The loops of the two setters keep the stamps from going back and in the order each point needs |
| `Watchdog.PollerPreserves` | src/sonic-sairedis/syncd/TimerWatchdog.cpp:65-126 | Each step of the polling loop keeps what it relies on |
| `Watchdog.BackwardClockThrows` | src/sonic-sairedis/syncd/TimerWatchdog.cpp:100-103 | If the clock is set back, the exception is thrown exactly when the time read is before the start |
| `Replay.Replayer.Match` | src/sonic-sairedis/saiplayer/saiplayer.cpp:342-365 | One pair of oids: recorded when the oid got is new; a different recorded oid throws |
| `Replay.Replayer.MatchList` | src/sonic-sairedis/saiplayer/saiplayer.cpp:367-377 | Two lists are matched place by place until a mismatch |
| `Replay.Replayer.MatchAttrs` | src/sonic-sairedis/saiplayer/saiplayer.cpp:379-448 | Two attribute lists whose oid lists are of equal lengths are matched place by place; different attribute counts, unknown attributes and unhandled oid types throw |
| `Replay.Replayer.Translate` | src/sonic-sairedis/saiplayer/saiplayer.cpp:115-137 | Null stays null, a known oid is translated, an unknown one throws |
| `Replay.Replayer.TranslateList` | src/sonic-sairedis/saiplayer/saiplayer.cpp:140-149 | A list is translated in place; it throws exactly when some oid is unknown, and then the oids before the first unknown one are translated and the rest left |
| `Replay.Replayer.TranslateAttrs` | src/sonic-sairedis/saiplayer/saiplayer.cpp:151-212 | An attribute list is translated in place: only oids change, and it throws exactly when an attribute or an oid is unknown; then the attributes before it are translated, those after it are left, and it is translated up to its first unknown oid |
| `Replay.ReplayRightInverse` | src/sonic-sairedis/saiplayer/saiplayer.cpp:342-365 | Over every replay `redis_to_local` is write-once and undoes `local_to_redis` |
| `Replay.TranslationMirrors` | src/sonic-sairedis/saiplayer/saiplayer.cpp:151-212 | After any replay a translated attribute maps back to the recorded one, oid by oid, and nothing else of it changed |
| `Replay.InverseBothWays` | src/sonic-sairedis/saiplayer/saiplayer.cpp:353-354 | `local_to_redis` undoes `redis_to_local` exactly when no recorded oid was paired twice |
| `Replay.PairedAgain` | src/sonic-sairedis/saiplayer/saiplayer.cpp:353-354 | A replay after which the maps are not inverse both ways |
| `Replay.MatchSucceeds` | src/sonic-sairedis/saiplayer/saiplayer.cpp:342-448 | Matching throws exactly when some oid got would stand for two recorded oids |
| `Replay.MatchedPairs` | src/sonic-sairedis/saiplayer/saiplayer.cpp:379-448 | Matching attribute lists is matching the concatenation of the pairs each holds, in order, up to the first attribute that throws for its metadata; it succeeds exactly when there is none and the pairs match |
| `Replay.PairsPlaced` | src/sonic-sairedis/saiplayer/saiplayer.cpp:404-440 | The pairs of an oid attribute are its single oids or the elements of the two lists place by place, where the recorded value is plain or enabled |
| `Replay.KnownExactly` | src/sonic-sairedis/saiplayer/saiplayer.cpp:396-446 | An attribute throws for its metadata exactly when it has none, or names object types without being of an oid type |
| `Replay.MatchListLengths` | src/sonic-sairedis/saiplayer/saiplayer.cpp:253-340 | Accepts exactly lists of equal length whose known attributes have equal list counts |
| `Replay.CountsExactly` | src/sonic-sairedis/saiplayer/saiplayer.cpp:280-340 | The counts compared, type by type |
| `Replay.LengthsPair` | src/sonic-sairedis/saiplayer/saiplayer.cpp:253-340 | Equal counts make the oids of both sides of an attribute pair up |
| `Replay.LengthsSuffice` | src/sonic-sairedis/saiplayer/saiplayer.cpp:253-340 | Attribute lists that pass the length check can be matched without reading past either side |
| `Replay.Tokenize` | src/sonic-sairedis/saiplayer/saiplayer.cpp:930-955 | The tokens joined by the delimiter are the input, and none contains the delimiter |
| `DumpLoad.Server.Load` | src/redis-dump-load/redisdl.py:306-331 | Every key's commands are executed exactly once, in order, in batches of at most ten thousand keys; an unwritable key loses its batch and what follows |
| `DumpLoad.Server.LoadLoop` | src/redis-dump-load/redisdl.py:306-331 | The counter loop: full batches executed, the rest queued |
| `DumpLoad.BatchesBounded` | src/redis-dump-load/redisdl.py:306-331 | No batch is empty or over ten thousand keys, all but the last are full, and together they hold all keys |
| `DumpLoad.EntryRestores` | src/redis-dump-load/redisdl.py:465-492 | Whatever a key held, its commands leave it holding the dumped value until the dumped expiration, and deleted when that has passed |
| `DumpLoad.DumpDenotes` | src/redis-dump-load/redisdl.py:191-242 | A dump of a value denotes that value, for every type |
| `DumpLoad.LoadRestores` | src/redis-dump-load/redisdl.py:306-331 | Loading any number of dumped keys restores the type, value and expiration of each, deletes those whose expiration has passed, and leaves every other key alone |
| `DumpLoad.WholeDumpRestores` | src/redis-dump-load/redisdl.py:306-331 | Loading a whole dump by expiration times gives the target every value the source would hold by now, with its expiration; loading it by times to live loses no key and each keeps the time it had left; the target's other keys stay |
| `DumpLoad.ReadKey` | src/redis-dump-load/redisdl.py:278-300 | Among ten attempts the first undisturbed one decides; ten disturbed ones give up |

## Left out

- Entry types without a printer (mcast fdb, l2mc, ipmc, inseg, nat): printing their keys throws, so they never enter the store.
- `QOS_MAP_LIST` and `ACL_RESOURCE_LIST` values: JSON trees of a third-party library; no object reference is held in them.
- Values of `ACL_FIELD_DATA_UINT8_LIST`: printed but never parsed; only their transfer is modelled.
- Warm boot, the unit-test override of read-only attributes, statistics calls and null attribute pointers: side paths that only skip checks.
- MetaRuns.ReferenceConservation: counts are unbounded integers; the wrap of the 32-bit counter is not modelled.
- MetaRuns.RunPreserves: a vendor that answers a create with a wrong type or switch is excluded from runs; `MetaDb.MetaDb.Register` says what it leaves.
- MetaDb.MetaDb.SetObject: the fields of the class hold attributes only; the null slot that one evaluation order leaves when the copy throws is kept beside them, in `NullSlots`.
- MetaDb.MetaDb.PostSet: the same null slot is not part of the state it speaks of; `NullSlots` tells it.
- MetaDb.MetaDb.PostCreate: the same null slot is not part of the state it speaks of; `NullSlots` tells it.
- MetaDb.MetaDb.Fill: the same null slot is not part of the state it speaks of; `NullSlots` tells it.
- MetaDb.MetaDb.StoreAttrs: the same null slot is not part of the state it speaks of; `NullSlots` tells it.
- MetaSteps.InterruptPreserves: the same null slot is not part of the state it speaks of; `NullSlots` tells it.
- MetaRuns.InterruptedBy: the same null slot is not part of the state it speaks of; `NullSlots` tells it.
- NullSlots.NullSlotLeaves: reading through a null pointer is undefined in C++, so what a call does once it goes over a null slot (a removal, or a check for default state) is not modelled; `getattr` on one is taken to give an address that is only compared with null.
- MetaDb.MetaDb.PostPortGet: a vendor that answers a length-only query with a null list, or null oids in a port's lists, is excluded from runs.
- MetaDb.MetaDb.ValidateOidList: enumeration lists are not validated by the code (their loop starts at the count), so nothing is claimed of their elements.
- MetaDb.MetaDb.FlushConsolidated: the order in which the unordered map is scanned is arbitrary; the result does not depend on it. A notification without a type, on which the code reads a null pointer, is excluded.
- The order of the attribute conditions and the error text of validators: only their status is modelled.
- MetaKeys.KeyTextTells: attribute names are taken to have no semicolon, and the two objects to have the same key attributes.
- KeyName.ObjectRoundTrip: the JSON parser is modelled on the compact objects of plain strings that the printer writes, not on all of JSON.
- The whole of the generated metadata tables: an abstract table under laws.
- `inet_ntop` and `inet_pton`: parameters assumed to be inverse pairs.
- ValueText.ValueRoundTrip: with countOnly true only the count is printed; that mode is modelled for lists alone.
- Transfer.TransferAttributes: destination attributes are values, so buffers shared by two attributes are not captured; one list on the caller's array is.
- Discovery.Walk.Discover: printing a value that was got is taken not to throw, and recursion depth is not bounded.
- Watchdog.ReportsSound: assumes alternating start and end calls and a clock that does not go back; that the setters' loops end needs a clock that advances, which is not claimed. Thread start and join, sleeping and the null callback are left out.
- Replay.Replayer.MatchAttrs: oid lists of different lengths, on which the code reads past one of them, are excluded; its callers compare the lengths first.
- Replay.ReplayRightInverse: the API calls of the replay, pointers of notifications and file reading are left out; a replay is the sequence of its matches.
- Replay.Tokenize: an empty delimiter, for which the loop does not end, is excluded; its callers pass fixed delimiters.
- DumpLoad.WholeDumpRestores: the clock stands still while keys are dumped and while they are loaded, and the dumping client's agrees with the server's; times are real numbers, so rounding is not modelled, nor are servers before 2.6, which count whole seconds. JSON encoding, streaming parsers and the `empty` flag are left out.
- DumpLoad.ReadKey: what an attempt reads is given; the server's transaction is not modelled.
- AttrList.SaiAttributeList.Fill: with countOnly true, and from an unordered map, the same loop is not modelled again.
- Range checks of sai_extra files, minigraph parsing, platform classes, Lua-backed tables and other plumbing.
