# JSCallbackObject dispatch, modelled in Dafny

This project models `JSCallbackObject<Parent>`. It is the script object of the
JavaScriptCore C API whose behaviour comes from a host-registered chain of
class descriptors (`JSClassRef`, linked through `parentClass`). Every
operation of the object walks that chain from the instance's own class to the
root. At each class it:

1. selects the callback table from the class's ABI `version` (`0` is the
   legacy `v0` table, `1000` the extended `v1000` one);
2. consults the class's dynamic callback;
3. then its static-value table;
4. then its static-function table.

The first class that answers decides. When none does, the generic object
underneath (`Parent::`) decides.

How the model is built:

- **Chains and callbacks.** A chain is a `seq<Descriptor>`: `chain[0]` is the
  instance's class and the last element is the root. Host callbacks are
  uninterpreted function values. Each takes an `Option<ClassId>` first:
  `None` for a legacy callback, the class for an extended one.
- **Walks.** Each operation is specified by a pure walk `XFrom(chain, i, …)`
  built from one class's turn `XStep`. A turn either answers or passes on
  the callbacks it ran. Every callback run is recorded as an `Event`: the
  hook, chain depth, class, ABI, and whether the lock was dropped around it.
- **The object.** `CallbackObjects.CallbackObject` is a class. Its fields are
  the own properties (`storage`), the private data, the pending exception, a
  trace of callbacks run, and a counter of created function objects. Its
  methods run the loops of the implementation. Each is proved equal to the
  walk's specification function, and the properties of those functions are
  proved as lemmas.
- **Modules.**
  - `Values` and `GenericObject`: script values and the generic object's own
    properties.
  - `ClassDescriptor`: descriptors, static tables and events.
  - `Lifecycle`: `init`, the destructor, `inherits`, `className`.
  - `PropertyLookup`: `getOwnPropertySlot`, `getStaticValue`,
    `callbackGetter`, `staticFunctionGetter`.
  - `PropertyUpdate`: `put`, `putByIndex`, `deleteProperty`.
  - `Invocation`: call, construct, `customHasInstance`, `defaultValue`.
  - `Enumeration`: `getOwnNonIndexPropertyNames`.
  - `CallbackObjects`: the object.
  - `Scenarios`: concrete chains.

The behaviour follows the implementation as written, including where it
differs from a plain reading of the documented protocol:

- **`put`, class `setProperty`.** A class `setProperty` is not authoritative:
  a `false` answer without an exception passes the write on to the class's
  static tables.
- **`put`, static-value setter.** This setter is reached only when the class
  itself has a `setProperty` for the entry's version. It then always calls
  the entry's legacy setter.
- **Static values in `getOwnPropertySlot`.** The static-value branch calls
  `getStaticValue`, which walks again from the instance's own class. So with
  several classes declaring the same static value, getters are asked more
  than once (`Scenarios.StaticGettersAreAskedAgainPerClass`).
- **`deleteProperty`.**
  - A callback that declines (`false`, no exception) passes the delete on.
  - A callback that throws makes the delete report `true`.
  - Static entries never remove anything.
- **`putByIndex`.** Its static-value branch calls the class-level
  `setProperty` a second time instead of an entry setter. At a static
  function it checks the read-only flag before looking for an own property:
  a read-only one refuses even over a writable own property, and a writable
  one stops the walk and hands the write to the generic object. `put`, by
  contrast, first assigns an existing own property and otherwise installs an
  override (`Scenarios.IndexedWriteDivergesFromPut`).
- **The lock.** It is not dropped around `convertToType` (in
  `defaultValue`) or around `finalize` (in the destructor). It is dropped
  around every other callback.
- **ABI mixing.** Descriptors are not checked for mixing ABI generations.
  Each table is selected by the `version` tag exactly as the code does.

## Model

| member | source | states |
|---|---|---|
| Values.IndexName | Source/JavaScriptCore/API/JSCallbackObjectFunctions.h:366 | the identifier of an array index is a non-empty string of decimal digits |
| Values.TypeHint | Source/JavaScriptCore/API/JSCallbackObjectFunctions.h:260 | `convertToType` is asked for a string exactly when the preferred type is string, otherwise for a number |
| ClassDescriptor.FindStaticValueIsFirst | Source/JavaScriptCore/API/JSCallbackObjectFunctions.h:317 | the static-value table lookup finds the first entry with the name, and finds nothing exactly when no entry has it |
| ClassDescriptor.FindStaticFunctionIsFirst | Source/JavaScriptCore/API/JSCallbackObjectFunctions.h:340 | the static-function table lookup finds the first entry with the name, and finds nothing exactly when no entry has it |
| GenericObject.Put | Source/JavaScriptCore/API/JSCallbackObjectFunctions.h:352 | the generic put succeeds exactly when the own property is absent or writable; on success it stores the value, on failure nothing changes, other names are untouched |
| GenericObject.Delete | Source/JavaScriptCore/API/JSCallbackObjectFunctions.h:472 | the generic delete succeeds exactly when the property is absent or not DontDelete; on success the name is gone, on failure nothing changes, other names are untouched |
| GenericObject.PutDirect | Source/JavaScriptCore/API/JSCallbackObjectFunctions.h:742 | `putDirect` installs the value with the given attributes under the name and leaves every other own property as it was |
| GenericObject.Names | Source/JavaScriptCore/API/JSCallbackObjectFunctions.h:660 | the generic enumeration lists exactly the own names that are enumerable or allowed by the mode |
| Lifecycle.Inherits | Source/JavaScriptCore/API/JSCallbackObjectFunctions.h:676-683 | `inherits(c)` holds exactly when `c` is one of the classes of the chain |
| Lifecycle.ClassName | Source/JavaScriptCore/API/JSCallbackObjectFunctions.h:149-157 | the class name is the instance's own class name when it is non-empty, otherwise the generic object's |
| Lifecycle.InitializeReversesChainOrder | Source/JavaScriptCore/API/JSCallbackObjectFunctions.h:126-143 | the `initialize` calls of `init` are exactly the reverse of the calls listed in chain order |
| Lifecycle.InitializeCallsOnlyHooked | Source/JavaScriptCore/API/JSCallbackObjectFunctions.h:133-143 | every `initialize` call is made, with the lock dropped, on a class that has `initialize` for its version |
| Lifecycle.InitializeCallsEveryHooked | Source/JavaScriptCore/API/JSCallbackObjectFunctions.h:126-143 | every class that has `initialize` for its version is called |
| Lifecycle.InitializeRunsBaseToDerived | Source/JavaScriptCore/API/JSCallbackObjectFunctions.h:132-143 | the `initialize` calls run from the root towards the instance's class (strictly decreasing depth) |
| Lifecycle.FinalizeCallsOnlyHooked | Source/JavaScriptCore/API/JSCallbackObjectFunctions.h:90-97 | every `finalize` call is made, without dropping the lock, on a class that has `finalize` for its version |
| Lifecycle.FinalizeCallsEveryHooked | Source/JavaScriptCore/API/JSCallbackObjectFunctions.h:90-97 | every class that has `finalize` for its version is called |
| Lifecycle.FinalizeRunsDerivedToBase | Source/JavaScriptCore/API/JSCallbackObjectFunctions.h:90-97 | the `finalize` calls run from the instance's class towards the root (strictly increasing depth) |
| Lifecycle.ThreeLevelLifecycle | Source/JavaScriptCore/API/JSCallbackObjectFunctions.h:83-146 | for a leaf, mid, root chain with all callbacks, `initialize` runs root, mid, leaf and `finalize` runs leaf, mid, root |
| PropertyLookup.ParentSlot | Source/JavaScriptCore/API/JSCallbackObjectFunctions.h:242 | the generic object finds a slot exactly when the name is an own property |
| PropertyLookup.StaticValueWalk | Source/JavaScriptCore/API/JSCallbackObjectFunctions.h:694-717 | `getStaticValue` runs only getters of static values with that name, for the entry's version, with the lock dropped |
| PropertyLookup.StaticValueThrowGivesUndefined | Source/JavaScriptCore/API/JSCallbackObjectFunctions.h:708-711 | a static getter that throws makes `getStaticValue` return undefined |
| PropertyLookup.StaticValueAbsentIffAllDecline | Source/JavaScriptCore/API/JSCallbackObjectFunctions.h:694-720 | `getStaticValue` returns no value exactly when every static getter with that name yields nothing |
| PropertyLookup.FirstStaticAnswer | Source/JavaScriptCore/API/JSCallbackObjectFunctions.h:694-717 | the first class from a position whose static getter with that name yields a value or throws: no earlier one does |
| PropertyLookup.StaticValueIsFirstAnswer | Source/JavaScriptCore/API/JSCallbackObjectFunctions.h:686-720 | `getStaticValue` returns the first deciding static getter's value (undefined and its exception when it threw), or the empty value with no exception when none decides; its getters run from the instance's class towards the root and none after the first deciding one |
| PropertyLookup.FirstSlotAnswer | Source/JavaScriptCore/API/JSCallbackObjectFunctions.h:180-240 | the first class from a position whose turn answers: every earlier turn passes on |
| PropertyLookup.GetSlotIsFirstAnswer | Source/JavaScriptCore/API/JSCallbackObjectFunctions.h:169-243 | the slot and exception are those of the first class that answers, or the generic object's slot with no exception when none answers |
| PropertyLookup.SlotStepFacts | Source/JavaScriptCore/API/JSCallbackObjectFunctions.h:181-238 | one turn calls only its own class's `hasProperty`/`getProperty`; `getProperty` runs only without `hasProperty`; an answer is a read-only, DontEnum slot; with an exception it holds undefined |
| PropertyLookup.NoDynamicCallAfterResponder | Source/JavaScriptCore/API/JSCallbackObjectFunctions.h:196-198 | no `hasProperty` or `getProperty` of a class after the first responder is called |
| PropertyLookup.HasPropertyGuardsGetProperty | Source/JavaScriptCore/API/JSCallbackObjectFunctions.h:188-201 | a class's `getProperty` is called only when the class has no `hasProperty` |
| PropertyLookup.ChainSlotsAreReadOnly | Source/JavaScriptCore/API/JSCallbackObjectFunctions.h:197-235 | every slot a class answers is read-only and DontEnum, and an exception comes with undefined |
| PropertyLookup.CustomSlotIgnoresStorage | Source/JavaScriptCore/API/JSCallbackObjectFunctions.h:196-198 | a lazy (custom) slot is chosen by the chain alone, whatever the own properties are |
| PropertyLookup.FirstYield | Source/JavaScriptCore/API/JSCallbackObjectFunctions.h:770-790 | the first class whose `getProperty` yields a value or throws: no earlier one does |
| PropertyLookup.CallbackGetterFirstYield | Source/JavaScriptCore/API/JSCallbackObjectFunctions.h:759-795 | `callbackGetter` returns the first yielding `getProperty`'s value (undefined and the exception when it threw), calling only `getProperty` up to it; with none it throws the ReferenceError |
| PropertyLookup.FirstCallableEntry | Source/JavaScriptCore/API/JSCallbackObjectFunctions.h:737-752 | the first class with a static function of that name that has a callback for its version: no earlier one has |
| PropertyLookup.MaterializeWithoutCallback | Source/JavaScriptCore/API/JSCallbackObjectFunctions.h:755 | with no static function of that name that has a callback, `staticFunctionGetter` throws the ReferenceError and changes nothing |
| PropertyLookup.MaterializeFirstCallable | Source/JavaScriptCore/API/JSCallbackObjectFunctions.h:737-749 | the first callable entry yields a new function, bound to its class when extended, installed by `putDirect` with the entry's attributes |
| PropertyLookup.StaticFunctionReadIsCached | Source/JavaScriptCore/API/JSCallbackObjectFunctions.h:731-749 | after a successful `staticFunctionGetter`, a second one returns the same value, creates nothing and changes nothing |
| PropertyLookup.SecondReadReturnsSameFunction | Source/JavaScriptCore/API/JSCallbackObjectFunctions.h:233-236 | reading a static function twice gives the same function object, and the second read installs nothing |
| PropertyLookup.UnclaimedNameIsGeneric | Source/JavaScriptCore/API/JSCallbackObjectFunctions.h:240-242 | when no class answers for a name, the slot is the generic object's and nothing is thrown |
| PropertyLookup.ReadOfSlot | Source/JavaScriptCore/API/JSCallbackObjectFunctions.h:729-734 | a read through a static-function slot or through the generic object's slot returns the own property's value, throws nothing and installs nothing |
| PropertyLookup.OwnPropertyIsRead | Source/JavaScriptCore/API/JSCallbackObjectFunctions.h:729-734 | an own property is what a read returns, with no exception and nothing installed, when the slot is a static function's or no class claims the name |
| PropertyUpdate.FirstPutAnswer | Source/JavaScriptCore/API/JSCallbackObjectFunctions.h:295-349 | the first class from a position whose `put` turn answers: every earlier turn passes on |
| PropertyUpdate.PutPassesOver | Source/JavaScriptCore/API/JSCallbackObjectFunctions.h:295-349 | classes whose `put` turn passes on leave the result, exception and own properties to the classes after them |
| PropertyUpdate.PutIsFirstAnswer | Source/JavaScriptCore/API/JSCallbackObjectFunctions.h:283-353 | when a class answers, the result, exception and own properties of `put` are the first answering class's |
| PropertyUpdate.PutFallsBackToGeneric | Source/JavaScriptCore/API/JSCallbackObjectFunctions.h:352 | when no class answers, `put` is the generic object's put and throws nothing |
| PropertyUpdate.PutFrame | Source/JavaScriptCore/API/JSCallbackObjectFunctions.h:283-353 | `put` changes no own property other than the one named |
| PropertyUpdate.PutFailureChangesNothing | Source/JavaScriptCore/API/JSCallbackObjectFunctions.h:309-345 | a `put` that fails or throws leaves the own properties unchanged |
| PropertyUpdate.PutStoresValue | Source/JavaScriptCore/API/JSCallbackObjectFunctions.h:343-352 | when `put` changes the own properties, the name holds the value, with its former attributes or none |
| PropertyUpdate.ClassSetterDecides | Source/JavaScriptCore/API/JSCallbackObjectFunctions.h:299-313 | a class `setProperty` that says yes or throws decides the result and exception of `put`, which stores nothing |
| PropertyUpdate.ReadOnlyStaticValueRefuses | Source/JavaScriptCore/API/JSCallbackObjectFunctions.h:299-319 | at a read-only static value, after the class setter (if any) declined, the write is refused: false, no exception, nothing stored, and the class setter is the only callback of that class (no static-value setter) |
| PropertyUpdate.StaticFunctionOverride | Source/JavaScriptCore/API/JSCallbackObjectFunctions.h:299-347 | a write reaching a writable static function with no own property, the class setter (if any) having declined, installs the value as a plain own property and succeeds |
| PropertyUpdate.OverrideIsReadBack | Source/JavaScriptCore/API/JSCallbackObjectFunctions.h:339-346 | after such an override, reading the name returns the written value without an exception, whether through the static function's slot (which prefers the own property, lines 731-734) or the generic object's |
| PropertyUpdate.FirstPutByIndexAnswer | Source/JavaScriptCore/API/JSCallbackObjectFunctions.h:370-414 | the first class from a position whose `putByIndex` turn answers: every earlier turn passes on |
| PropertyUpdate.PutByIndexIsFirstAnswer | Source/JavaScriptCore/API/JSCallbackObjectFunctions.h:356-418 | when a class answers, the result, exception and own properties of `putByIndex` are the first answering class's |
| PropertyUpdate.PutByIndexFallsBackToGeneric | Source/JavaScriptCore/API/JSCallbackObjectFunctions.h:418 | when no class answers, `putByIndex` is the generic object's put of the index's identifier and throws nothing |
| PropertyUpdate.PutByIndexFrame | Source/JavaScriptCore/API/JSCallbackObjectFunctions.h:356-418 | `putByIndex` changes no own property other than the index's identifier, and one that fails or throws changes nothing |
| PropertyUpdate.IndexedReadOnlyFunctionRefuses | Source/JavaScriptCore/API/JSCallbackObjectFunctions.h:408-413 | at a read-only static function, with no static value and the class setter (if any) declining, an indexed write is refused and changes nothing, whatever the own properties are |
| PropertyUpdate.PutByIndexStepCalls | Source/JavaScriptCore/API/JSCallbackObjectFunctions.h:369-414 | every callback of one `putByIndex` turn is that class's own `setProperty` |
| PropertyUpdate.PutByIndexCallsOnlyClassSetters | Source/JavaScriptCore/API/JSCallbackObjectFunctions.h:368-416 | `putByIndex` never calls a static-value setter: only class `setProperty` callbacks, in chain order |
| PropertyUpdate.PutByIndexRepeatsClassSetter | Source/JavaScriptCore/API/JSCallbackObjectFunctions.h:393-404 | at a writable static value of matching version, a class `setProperty` that declined is called a second time |
| PropertyUpdate.FirstDeleteAnswer | Source/JavaScriptCore/API/JSCallbackObjectFunctions.h:433-469 | the first class from a position whose delete turn answers: every earlier turn passes on |
| PropertyUpdate.DeleteCallsUpToFirstAnswer | Source/JavaScriptCore/API/JSCallbackObjectFunctions.h:433-469 | only `deleteProperty` callbacks run, up to the first answering class and none after it |
| PropertyUpdate.DeleteIsFirstAnswer | Source/JavaScriptCore/API/JSCallbackObjectFunctions.h:422-473 | the first answering class decides the result and removes nothing; with no answer the generic delete decides |
| PropertyUpdate.DeleteThrowReportsTrue | Source/JavaScriptCore/API/JSCallbackObjectFunctions.h:447-450 | a delete during which a `deleteProperty` callback threw reports true |
| PropertyUpdate.StaticEntryDecidesDelete | Source/JavaScriptCore/API/JSCallbackObjectFunctions.h:454-468 | with no decisive callback, the class's static value (or else static function) decides: true exactly when it is not DontDelete; nothing is removed or thrown |
| Invocation.FirstCallable | Source/JavaScriptCore/API/JSCallbackObjectFunctions.h:586-607 | the first class with `callAsFunction` for its version: no earlier one has |
| Invocation.GetCallDataFromIsExists | Source/JavaScriptCore/API/JSCallbackObjectFunctions.h:564-574 | `getCallData` reports a host call exactly when some class has `callAsFunction` for its version |
| Invocation.CallFromIsFirstCallable | Source/JavaScriptCore/API/JSCallbackObjectFunctions.h:577-611 | `call` runs the first class's `callAsFunction` with the lock dropped and returns its result and exception; it reaches the end exactly when no class has one |
| Invocation.CallAgreesWithCallData | Source/JavaScriptCore/API/JSCallbackObjectFunctions.h:564-611 | `call` finds a callback exactly when `getCallData` reports a host call, so the not-reached assertion cannot fire |
| Invocation.FirstConstructible | Source/JavaScriptCore/API/JSCallbackObjectFunctions.h:505-526 | the first class with `callAsConstructor` for its version: no earlier one has |
| Invocation.GetConstructDataFromIsExists | Source/JavaScriptCore/API/JSCallbackObjectFunctions.h:483-493 | `getConstructData` reports a host constructor exactly when some class has `callAsConstructor` for its version |
| Invocation.ConstructFromIsFirstConstructible | Source/JavaScriptCore/API/JSCallbackObjectFunctions.h:496-530 | `construct` runs the first class's `callAsConstructor` with the lock dropped and returns its result and exception; it reaches the end exactly when no class has one |
| Invocation.ConstructAgreesWithConstructData | Source/JavaScriptCore/API/JSCallbackObjectFunctions.h:483-530 | `construct` finds a callback exactly when `getConstructData` reports a host constructor |
| Invocation.FirstInstanceChecker | Source/JavaScriptCore/API/JSCallbackObjectFunctions.h:542-559 | the first class with `hasInstance` for its version: no earlier one has |
| Invocation.HasInstanceIsFirstChecker | Source/JavaScriptCore/API/JSCallbackObjectFunctions.h:533-561 | exactly one `hasInstance`, the first, runs and decides, even when it throws; with none the answer is false, nothing thrown, nothing called |
| Invocation.DefaultValueCalls | Source/JavaScriptCore/API/JSCallbackObjectFunctions.h:252-280 | `defaultValue` runs only `convertToType` callbacks, without dropping the lock; a converted value is one some callback returned for the hint; a throw gives undefined |
| Invocation.FirstConversion | Source/JavaScriptCore/API/JSCallbackObjectFunctions.h:262-276 | the first class from a position whose `convertToType` yields a value or throws: no earlier one does |
| Invocation.DefaultValueIsFirstConversion | Source/JavaScriptCore/API/JSCallbackObjectFunctions.h:252-279 | `defaultValue` converts exactly when some `convertToType` decides, and then returns the first deciding one's value (undefined and its exception when it threw); its converters run from the instance's class towards the root and none after the first deciding one |
| Invocation.DecliningConvertersReachParent | Source/JavaScriptCore/API/JSCallbackObjectFunctions.h:262-279 | when every `convertToType` yields nothing, the generic object's conversion decides |
| Enumeration.AddName | Source/JavaScriptCore/API/JSCallbackObjectFunctions.h:640 | the name array's `add` appends a name only when it is not already present |
| Enumeration.AddNames | Source/JavaScriptCore/API/JSCallbackObjectFunctions.h:633-656 | adding names keeps what the array held in front and holds exactly the old and the added names |
| Enumeration.ListedValuesMembers | Source/JavaScriptCore/API/JSCallbackObjectFunctions.h:630-643 | the static-value loop adds exactly the names of entries with a getter for their version that are enumerable or allowed by the mode |
| Enumeration.ListedFunctionsMembers | Source/JavaScriptCore/API/JSCallbackObjectFunctions.h:645-657 | the static-function loop adds exactly the names of entries that are enumerable or allowed by the mode |
| Enumeration.ContributedFromIsExists | Source/JavaScriptCore/API/JSCallbackObjectFunctions.h:620-658 | a name is contributed from a position on exactly when some class from there contributes it |
| Enumeration.ContributionMembers | Source/JavaScriptCore/API/JSCallbackObjectFunctions.h:621-657 | a class contributes a name exactly when its callback adds it or one of its listed static entries has it |
| Enumeration.ChainNamesFromKeeps | Source/JavaScriptCore/API/JSCallbackObjectFunctions.h:620-658 | the chain walk keeps the names already in the array in front and never duplicates a name |
| Enumeration.ChainNamesFromMembers | Source/JavaScriptCore/API/JSCallbackObjectFunctions.h:620-658 | the chain walk adds exactly the names some class from the position on contributes |
| Enumeration.EnumerationSpec | Source/JavaScriptCore/API/JSCallbackObjectFunctions.h:614-661 | a name is listed exactly when it was already there, some class contributes it, or the generic object lists it; old names first, then the chain's, then the generic object's; no duplicates |
| Enumeration.DontEnumHidden | Source/JavaScriptCore/API/JSCallbackObjectFunctions.h:637-652 | a name whose static entries are all DontEnum, and which the callback does not add, is not listed unless the mode asks for DontEnum names |
| Enumeration.EnumerationCallsOnlyHooked | Source/JavaScriptCore/API/JSCallbackObjectFunctions.h:621-628 | every enumeration call is a `getPropertyNames` of a class that has one, with the lock dropped |
| Enumeration.EnumerationRunsDerivedToBase | Source/JavaScriptCore/API/JSCallbackObjectFunctions.h:620-628 | every class with `getPropertyNames` is called, once each, from the instance's class towards the root |
| CallbackObjects.Raise | Source/JavaScriptCore/API/JSCallbackObjectFunctions.h:309-310 | a callback's exception becomes the pending exception; without one the pending exception is kept |
| CallbackObjects.AddListedValues | Source/JavaScriptCore/API/JSCallbackObjectFunctions.h:630-643 | the static-value loop leaves the array equal to the array with the listed static values added in table order |
| CallbackObjects.AddListedFunctions | Source/JavaScriptCore/API/JSCallbackObjectFunctions.h:645-657 | the static-function loop leaves the array equal to the array with the listed static functions added in table order |
| CallbackObjects.WalkPut | Source/JavaScriptCore/API/JSCallbackObjectFunctions.h:294-352 | the loop of `put` computes exactly the `put` walk |
| CallbackObjects.WalkPutByIndex | Source/JavaScriptCore/API/JSCallbackObjectFunctions.h:368-418 | the loop of `putByIndex` computes exactly the `putByIndex` walk |
| CallbackObjects.WalkDelete | Source/JavaScriptCore/API/JSCallbackObjectFunctions.h:432-472 | the loop of `deleteProperty` computes exactly the delete walk |
| CallbackObjects.WalkStaticValue | Source/JavaScriptCore/API/JSCallbackObjectFunctions.h:693-720 | the loop of `getStaticValue` computes exactly its walk |
| CallbackObjects.WalkCallbackGetter | Source/JavaScriptCore/API/JSCallbackObjectFunctions.h:769-794 | the loop of `callbackGetter` computes exactly its walk |
| CallbackObjects.WalkDefaultValue | Source/JavaScriptCore/API/JSCallbackObjectFunctions.h:262-279 | the loop of `defaultValue` computes exactly its walk |
| CallbackObjects.WalkNames | Source/JavaScriptCore/API/JSCallbackObjectFunctions.h:620-658 | the chain loop of the enumeration yields the chain's names and makes exactly the `getPropertyNames` calls of the walk |
| CallbackObjects.CallbackObject.constructor | Source/JavaScriptCore/API/JSCallbackObjectFunctions.h:67-71 | a new instance holds its class chain and private data, no own properties, no pending exception, and has run no callback |
| CallbackObjects.CallbackObject.Global | Source/JavaScriptCore/API/JSCallbackObjectFunctions.h:76-80 | the global object's instance starts the same, with no private data |
| CallbackObjects.CallbackObject.Init | Source/JavaScriptCore/API/JSCallbackObjectFunctions.h:122-146 | `init` appends exactly the `initialize` calls, root first, to the trace and caches the class info |
| CallbackObjects.CallbackObject.FinishCreation | Source/JavaScriptCore/API/JSCallbackObjectFunctions.h:103-119 | `finishCreation` is `init` |
| CallbackObjects.CallbackObject.Destroy | Source/JavaScriptCore/API/JSCallbackObjectFunctions.h:83-100 | the destructor appends exactly the `finalize` calls, instance's class first, to the trace |
| CallbackObjects.CallbackObject.Inherits | Source/JavaScriptCore/API/JSCallbackObjectFunctions.h:676-683 | the loop answers true exactly when the class is in the chain |
| CallbackObjects.CallbackObject.GetCallData | Source/JavaScriptCore/API/JSCallbackObjectFunctions.h:564-574 | the loop reports a host call exactly when some class has `callAsFunction` |
| CallbackObjects.CallbackObject.GetConstructData | Source/JavaScriptCore/API/JSCallbackObjectFunctions.h:483-493 | the loop reports a host constructor exactly when some class has `callAsConstructor` |
| CallbackObjects.CallbackObject.GetStaticValue | Source/JavaScriptCore/API/JSCallbackObjectFunctions.h:686-721 | returns the walk's value, appends its calls to the trace and raises its exception |
| CallbackObjects.CallbackObject.GetOwnPropertySlot | Source/JavaScriptCore/API/JSCallbackObjectFunctions.h:169-243 | returns the walk's slot over the current own properties, appends its calls and raises its exception |
| CallbackObjects.CallbackObject.GetOwnPropertySlotByIndex | Source/JavaScriptCore/API/JSCallbackObjectFunctions.h:246-249 | the slot lookup of the index's identifier |
| CallbackObjects.CallbackObject.CallbackGetter | Source/JavaScriptCore/API/JSCallbackObjectFunctions.h:759-795 | returns the `callbackGetter` walk's value, appends its calls and raises its exception or the ReferenceError |
| CallbackObjects.CallbackObject.StaticFunctionGetter | Source/JavaScriptCore/API/JSCallbackObjectFunctions.h:724-756 | returns an existing own property untouched; otherwise materialises the first callable entry into the own properties, numbering it with the counter, or raises the ReferenceError |
| CallbackObjects.CallbackObject.Put | Source/JavaScriptCore/API/JSCallbackObjectFunctions.h:283-353 | result, calls, exception and new own properties are those of the `put` walk over the old own properties |
| CallbackObjects.CallbackObject.PutByIndex | Source/JavaScriptCore/API/JSCallbackObjectFunctions.h:356-419 | result, calls, exception and new own properties are those of the `putByIndex` walk |
| CallbackObjects.CallbackObject.DeleteProperty | Source/JavaScriptCore/API/JSCallbackObjectFunctions.h:422-473 | result, calls, exception and new own properties are those of the delete walk |
| CallbackObjects.CallbackObject.DeletePropertyByIndex | Source/JavaScriptCore/API/JSCallbackObjectFunctions.h:476-480 | the delete of the index's identifier |
| CallbackObjects.CallbackObject.DefaultValue | Source/JavaScriptCore/API/JSCallbackObjectFunctions.h:252-280 | returns the converted value (undefined after a throw) or defers to the generic conversion, appending the calls and raising the exception |
| CallbackObjects.CallbackObject.CustomHasInstance | Source/JavaScriptCore/API/JSCallbackObjectFunctions.h:533-561 | the loop's answer, call and exception are the first `hasInstance`'s, or false with no call |
| CallbackObjects.CallbackObject.Call | Source/JavaScriptCore/API/JSCallbackObjectFunctions.h:577-611 | on a callable object the loop runs the first `callAsFunction` and returns its result, raising its exception |
| CallbackObjects.CallbackObject.Construct | Source/JavaScriptCore/API/JSCallbackObjectFunctions.h:496-530 | on a constructor the loop runs the first `callAsConstructor` and returns its result, raising its exception |
| CallbackObjects.CallbackObject.GetOwnNonIndexPropertyNames | Source/JavaScriptCore/API/JSCallbackObjectFunctions.h:614-661 | the loops yield exactly the enumeration's names and append exactly its `getPropertyNames` calls |
| CallbackObjects.CallbackObject.SetPrivate | Source/JavaScriptCore/API/JSCallbackObjectFunctions.h:664-667 | the private data becomes the given pointer |
| CallbackObjects.CallbackObject.GetPrivate | Source/JavaScriptCore/API/JSCallbackObjectFunctions.h:670-673 | returns the stored private data |
| Scenarios.InheritedGetterAnswers | Source/JavaScriptCore/API/JSCallbackObjectFunctions.h:180-219 | a class without callbacks inheriting from a class whose getter gives 42 for `x` reads 42, calling only the parent's getter |
| Scenarios.ReadOnlyStaticValueIsNotWritten | Source/JavaScriptCore/API/JSCallbackObjectFunctions.h:316-319 | writing a read-only static value fails with no callback, no exception and no own property |
| Scenarios.ClaimWithoutGetterThrows | Source/JavaScriptCore/API/JSCallbackObjectFunctions.h:188-198 | `hasProperty` saying yes with no `getProperty` anywhere makes the read throw the ReferenceError |
| Scenarios.StaticGettersAreAskedAgainPerClass | Source/JavaScriptCore/API/JSCallbackObjectFunctions.h:223-230 | with two classes declaring the same declining static value, each getter is called twice and the lookup falls through |
| Scenarios.IndexedWriteRepeatsClassSetter | Source/JavaScriptCore/API/JSCallbackObjectFunctions.h:384-418 | an indexed write to a static value calls the declining class setter twice, then the generic object stores the value |
| Scenarios.OverrideOfStaticFunctionIsRead | Source/JavaScriptCore/API/JSCallbackObjectFunctions.h:339-346 | on a class with a static function `f`, assigning `f` succeeds and the next read of `f` returns the assigned value |
| Scenarios.IndexedWriteDivergesFromPut | Source/JavaScriptCore/API/JSCallbackObjectFunctions.h:339-413 | over a writable own property `0` and a read-only static function `0`, `put` assigns the own property while `putByIndex` refuses and changes nothing |
| Scenarios.StaticFunctionIsCreatedOnce | Source/JavaScriptCore/API/JSCallbackObjectFunctions.h:731-749 | on an object, two reads of a static function return function number 0 both times, and only one function is created |

## Left out

- Locking and reentrancy: `JSLock::DropAllLocks` is not modelled as a lock. Each event records only whether the lock was dropped around that callback.
- Callbacks as pure functions: host callbacks are functions of their arguments. They cannot observe or change the object during a call. So a repeated call in `putByIndex` gives the same answer twice, and the object reference, execution state and argument count are not passed.
- Trace timing: the callbacks of an operation are appended to the trace when the operation returns, not one at a time.
- Generic object: `Parent::` is a plain map of own properties with insertion order. Its prototype chain, getters and setters, indexed storage, structure transitions and `Parent::defaultValue` are not modelled. The generic conversion is the `None`/`ParentDefault` outcome, and `Parent::className` is a parameter.
- `putDirect` failures: `putDirect` always succeeds.
- Strict-mode writes: the `shouldThrow` flag of `putByIndex` and the `PutPropertySlot` that `put` passes to `Parent::put` are not modelled, so a refused generic write reports `false` and never throws a TypeError.
- Hash-table order: the static tables are sequences, and the iteration order of the hash tables is their sequence order.
- Names: `PropertyName` is a string. Symbols and the null `uid()` case (which skips the chain walk) are not modelled.
- Index identifiers: indices become decimal identifiers before the walk. `Parent::putByIndex` is the generic put of that identifier.
- Engine plumbing left out:
  - value encoding and the garbage collector;
  - `OpaqueJSString::tryCreate`;
  - `toRef`/`toJS`;
  - the `asCallbackObject` helpers (lines 52-64) and the `ASSERT`s, except the destructor's `ASSERT(m_classInfo)` (line 87), which is `CallbackObjects.CallbackObject.Destroy`'s requirement that the class info be cached;
  - the VM's `currentlyDestructingCallbackObject` bookkeeping in the destructor;
  - `toStringName` (lines 160-166), a method-table lookup of `className`.
- `JSCallbackFunction::create`: it yields a fresh `CallbackFunction` value numbered by the object's counter. The created function's own behaviour is not part of this model.
- Cyclic chains: a parent chain is a finite sequence here, so cycles, which the implementation does not guard against, cannot be expressed.
- Call/construct preconditions: `CallbackObjects.CallbackObject.Call` and `Construct` require `getCallData`/`getConstructData` to have reported a host callee. That is the engine's own guarantee, asserted as unreachable otherwise.
- `ResourceLoaderUltralight.cpp` (file-system I/O for the resource loader) is not part of this model.
