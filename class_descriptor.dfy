/**
 * Class descriptors (`JSClassRef`), their two callback ABI generations, their
 * static tables, and the events that record which host callback ran.
 *
 * A descriptor chain is a `seq<Descriptor>`: index 0 is the instance's own class,
 * each next element is the previous one's `parentClass`, the last is the root.
 */
module ClassDescriptor {
  import opened Wrappers
  import opened Values

  /** The `version` tag of the legacy (`v0`) callback table. */
  const LegacyVersion: int := 0
  /** The `version` tag of the extended (`v1000`, `...Ex`) callback table. */
  const ExtendedVersion: int := 1000

  datatype Abi = Legacy | Extended

  /** What a callback with a nullable value result and an exception out-parameter produced. */
  datatype Fetched = NoValue | Fetched(value: Value) | Threw(exception: Value)

  /** A boolean result together with the exception out-parameter. */
  datatype Answer = Answer(result: bool, exception: Option<Value>)

  /** A value result together with the exception out-parameter. */
  datatype Completion = Completion(result: Value, exception: Option<Value>)

  // Host callbacks are uninterpreted: each is a function of the arguments it is
  // given.  The first argument is the class handed to an extended-ABI callback
  // (`None` for the legacy ABI, which does not receive it).
  type HasPropertyHook = (Option<ClassId>, Name) -> bool
  type GetPropertyHook = (Option<ClassId>, Name) -> Fetched
  type SetPropertyHook = (Option<ClassId>, Name, Value) -> Answer
  type DeletePropertyHook = (Option<ClassId>, Name) -> Answer
  type GetPropertyNamesHook = Option<ClassId> -> seq<Name>
  type CallAsFunctionHook = (Option<ClassId>, Value, seq<Value>) -> Completion
  type CallAsConstructorHook = (Option<ClassId>, seq<Value>) -> Completion
  type HasInstanceHook = (Option<ClassId>, Value) -> Answer
  type ConvertToTypeHook = (Option<ClassId>, JSType) -> Fetched

  /** One callback table (`v0` or `v1000`); `initialize` and `finalize` only record presence. */
  datatype Hooks = Hooks(
    initialize: bool,
    finalize: bool,
    hasProperty: Option<HasPropertyHook>,
    getProperty: Option<GetPropertyHook>,
    setProperty: Option<SetPropertyHook>,
    deleteProperty: Option<DeletePropertyHook>,
    getPropertyNames: Option<GetPropertyNamesHook>,
    callAsFunction: Option<CallAsFunctionHook>,
    callAsConstructor: Option<CallAsConstructorHook>,
    hasInstance: Option<HasInstanceHook>,
    convertToType: Option<ConvertToTypeHook>)

  const NoHooks := Hooks(false, false, None, None, None, None, None, None, None, None, None)

  datatype Accessors = Accessors(getProperty: Option<GetPropertyHook>, setProperty: Option<SetPropertyHook>)

  datatype StaticValueEntry = StaticValueEntry(name: Name, version: int, v0: Accessors, v1000: Accessors, attributes: Attributes)

  datatype StaticFunctionEntry = StaticFunctionEntry(
    name: Name, version: int, v0: Option<CallAsFunctionHook>, v1000: Option<CallAsFunctionHook>, attributes: Attributes)

  datatype Descriptor = Descriptor(
    id: ClassId,
    className: string,
    version: int,
    v0: Hooks,
    v1000: Hooks,
    staticValues: seq<StaticValueEntry>,
    staticFunctions: seq<StaticFunctionEntry>)

  /** The callback table the descriptor's version selects; any other version selects nothing. */
  function Active(d: Descriptor): Hooks
  {
    if d.version == LegacyVersion then d.v0
    else if d.version == ExtendedVersion then d.v1000
    else NoHooks
  }

  function AbiOf(d: Descriptor): Abi
  {
    if d.version == ExtendedVersion then Extended else Legacy
  }

  /** The class argument a descriptor's callback receives. */
  function Receiver(d: Descriptor): Option<ClassId>
  {
    if d.version == ExtendedVersion then Some(d.id) else None
  }

  /** The getter of a static value for the entry's own version. */
  function EntryGetter(e: StaticValueEntry): Option<GetPropertyHook>
  {
    if e.version == LegacyVersion then e.v0.getProperty
    else if e.version == ExtendedVersion then e.v1000.getProperty
    else None
  }

  function EntryAbi(e: StaticValueEntry): Abi
  {
    if e.version == ExtendedVersion then Extended else Legacy
  }

  function EntryReceiver(e: StaticValueEntry, d: Descriptor): Option<ClassId>
  {
    if e.version == ExtendedVersion then Some(d.id) else None
  }

  /** Whether a static-function entry has a callback for its own version. */
  predicate HasFunctionCallback(e: StaticFunctionEntry)
  {
    (e.version == LegacyVersion && e.v0.Some?) || (e.version == ExtendedVersion && e.v1000.Some?)
  }

  /** `staticValues->get(name)`: the index of the entry named `name`. */
  function FindStaticValue(t: seq<StaticValueEntry>, name: Name): (k: Option<nat>)
    ensures k.Some? ==> k.value < |t| && t[k.value].name == name
  {
    if t == [] then None
    else if t[0].name == name then Some(0)
    else match FindStaticValue(t[1..], name)
      case None => None
      case Some(j) => Some(j + 1)
  }

  /** `staticFunctions->get(name)`: the index of the entry named `name`. */
  function FindStaticFunction(t: seq<StaticFunctionEntry>, name: Name): (k: Option<nat>)
    ensures k.Some? ==> k.value < |t| && t[k.value].name == name
  {
    if t == [] then None
    else if t[0].name == name then Some(0)
    else match FindStaticFunction(t[1..], name)
      case None => None
      case Some(j) => Some(j + 1)
  }

  /** `FindStaticValue` finds the first entry named `name`, and finds nothing exactly when no entry has that name. */
  lemma {:induction false} FindStaticValueIsFirst(t: seq<StaticValueEntry>, name: Name)
    ensures var k := FindStaticValue(t, name);
      && (k.Some? ==> forall j :: 0 <= j < k.value ==> t[j].name != name)
      && (k.None? <==> forall j :: 0 <= j < |t| ==> t[j].name != name)
    decreases |t|
  {
    if t != [] && t[0].name != name {
      FindStaticValueIsFirst(t[1..], name);
      assert forall j :: 1 <= j < |t| ==> t[j] == t[1..][j - 1];
    }
  }

  /** `FindStaticFunction` finds the first entry named `name`, and finds nothing exactly when no entry has that name. */
  lemma {:induction false} FindStaticFunctionIsFirst(t: seq<StaticFunctionEntry>, name: Name)
    ensures var k := FindStaticFunction(t, name);
      && (k.Some? ==> forall j :: 0 <= j < k.value ==> t[j].name != name)
      && (k.None? <==> forall j :: 0 <= j < |t| ==> t[j].name != name)
    decreases |t|
  {
    if t != [] && t[0].name != name {
      FindStaticFunctionIsFirst(t[1..], name);
      assert forall j :: 1 <= j < |t| ==> t[j] == t[1..][j - 1];
    }
  }

  /** Which host callback an event records. */
  datatype HookKind =
    | HasProperty | GetProperty | SetProperty | DeleteProperty | GetPropertyNames
    | CallAsFunction | CallAsConstructor | HasInstance | ConvertToType
    | Initialize | Finalize
    | StaticValueGetter(name: Name) | StaticValueSetter(name: Name)

  /**
   * One host-callback invocation: which callback, at which chain position
   * (`depth`), of which class, through which ABI, and whether the engine lock
   * was dropped around it.
   */
  datatype Event = Event(hook: HookKind, depth: nat, cls: ClassId, abi: Abi, lockDropped: bool)

  /** An invocation of a callback from the descriptor's own callback table. */
  function ClassEvent(chain: seq<Descriptor>, i: nat, hook: HookKind, lockDropped: bool): (e: Event)
    requires i < |chain|
    ensures e.depth == i && e.cls == chain[i].id && e.hook == hook
  {
    Event(hook, i, chain[i].id, AbiOf(chain[i]), lockDropped)
  }

  /** Events listed in strictly increasing chain depth. */
  predicate DepthIncreasing(evs: seq<Event>)
  {
    forall p, q :: 0 <= p < q < |evs| ==> evs[p].depth < evs[q].depth
  }

  /** Events listed in strictly decreasing chain depth. */
  predicate DepthDecreasing(evs: seq<Event>)
  {
    forall p, q :: 0 <= p < q < |evs| ==> evs[p].depth > evs[q].depth
  }

  /** Events listed in non-decreasing chain depth. */
  predicate DepthMonotone(evs: seq<Event>)
  {
    forall p, q :: 0 <= p < q < |evs| ==> evs[p].depth <= evs[q].depth
  }

  /** Putting at most one call of depth `i` in front of later, deeper, increasing calls keeps the depths increasing. */
  lemma DepthIncreasingPrepend(head: seq<Event>, rest: seq<Event>, i: nat)
    requires |head| <= 1 && (forall e :: e in head ==> e.depth == i)
    requires (forall e :: e in rest ==> i < e.depth) && DepthIncreasing(rest)
    ensures DepthIncreasing(head + rest)
  {
    var evs := head + rest;
    forall p, q | 0 <= p < q < |evs|
      ensures evs[p].depth < evs[q].depth
    {
      if p >= |head| {
        assert evs[p] == rest[p - |head|] && evs[q] == rest[q - |head|];
      } else {
        assert evs[p] in head && evs[q] == rest[q - 1] && rest[q - 1] in rest;
      }
    }
  }

  /** Putting at most one call of depth `i` after deeper, decreasing calls keeps the depths decreasing. */
  lemma DepthDecreasingAppend(rest: seq<Event>, tail: seq<Event>, i: nat)
    requires |tail| <= 1 && (forall e :: e in tail ==> e.depth == i)
    requires (forall e :: e in rest ==> i < e.depth) && DepthDecreasing(rest)
    ensures DepthDecreasing(rest + tail)
  {
    var evs := rest + tail;
    forall p, q | 0 <= p < q < |evs|
      ensures evs[p].depth > evs[q].depth
    {
      if q < |rest| {
        assert evs[p] == rest[p] && evs[q] == rest[q];
      } else {
        assert evs[p] == rest[p] && rest[p] in rest && evs[q] in tail;
      }
    }
  }

  /** Putting calls of depth `i` in front of later calls no shallower than `i` keeps the depths non-decreasing. */
  lemma DepthMonotonePrepend(head: seq<Event>, rest: seq<Event>, i: nat)
    requires forall e :: e in head ==> e.depth == i
    requires (forall e :: e in rest ==> i <= e.depth) && DepthMonotone(rest)
    ensures DepthMonotone(head + rest)
  {
    var evs := head + rest;
    forall p, q | 0 <= p < q < |evs|
      ensures evs[p].depth <= evs[q].depth
    {
      if p >= |head| {
        assert evs[p] == rest[p - |head|] && evs[q] == rest[q - |head|];
      } else if q < |head| {
        assert evs[p] in head && evs[q] in head;
      } else {
        assert evs[p] in head && evs[q] == rest[q - |head|] && rest[q - |head|] in rest;
      }
    }
  }

  /** The outcome of one descriptor's turn in a chain walk. */
  datatype Step<T> = Answered(outcome: T) | Continue(events: seq<Event>)
}
