/**
 * Property reads: `getOwnPropertySlot` and the lazy getters it installs
 * (`callbackGetter`, `staticFunctionGetter`), together with `getStaticValue`.
 *
 * Each walk is a function of the chain and a start position; the events it
 * returns are the host callbacks it invoked, in order.
 */
module PropertyLookup {
  import opened Wrappers
  import opened Values
  import opened ClassDescriptor
  import GenericObject

  /** The two lazily evaluated getters a slot can be bound to. */
  datatype Getter = CallbackGetter | StaticFunctionGetter

  /** What `getOwnPropertySlot` reports: nothing, a value, or a custom getter. */
  datatype Slot =
    | Absent
    | Data(value: Value, attributes: Attributes)
    | Custom(getter: Getter, attributes: Attributes)

  datatype SlotLookup = SlotLookup(slot: Slot, thrown: Option<Value>, events: seq<Event>)

  /** `getStaticValue`: `None` is the empty value (no static getter produced one). */
  datatype StaticRead = StaticRead(value: Option<Value>, thrown: Option<Value>, events: seq<Event>)

  /** A getter's result, with the exception it threw and the callbacks it invoked. */
  datatype GetterResult = GetterResult(value: Value, thrown: Option<Value>, events: seq<Event>)

  /** `staticFunctionGetter`: the value read and the own properties afterwards. */
  datatype Materialization = Materialization(value: Value, thrown: Option<Value>, storage: GenericObject.Storage)

  /** The generic object's own-property answer (`Parent::getOwnPropertySlot`). */
  function ParentSlot(s: GenericObject.Storage, name: Name): (slot: Slot)
    ensures slot.Absent? <==> GenericObject.Lookup(s, name).None?
  {
    match GenericObject.Lookup(s, name)
    case None => Absent
    case Some(p) => Data(p.value, p.attributes)
  }

  // ---------------------------------------------------------------------------
  // getStaticValue

  /** The static-value getter of position `i` that `getStaticValue` would call, if any. */
  predicate HasStaticGetter(chain: seq<Descriptor>, i: nat, name: Name)
    requires i < |chain|
  {
    var k := FindStaticValue(chain[i].staticValues, name);
    k.Some? && EntryGetter(chain[i].staticValues[k.value]).Some?
  }

  /** The static-value entry named `name` at position `i`. */
  function StaticEntry(chain: seq<Descriptor>, i: nat, name: Name): StaticValueEntry
    requires i < |chain| && FindStaticValue(chain[i].staticValues, name).Some?
  {
    chain[i].staticValues[FindStaticValue(chain[i].staticValues, name).value]
  }

  /** What the static getter at position `i` produces when called. */
  function StaticGetterResult(chain: seq<Descriptor>, i: nat, name: Name): Fetched
    requires i < |chain| && HasStaticGetter(chain, i, name)
  {
    var e := StaticEntry(chain, i, name);
    EntryGetter(e).value(EntryReceiver(e, chain[i]), name)
  }

  /** `getStaticValue` walking from position `i`: the first static getter that answers decides. */
  function GetStaticValueFrom(chain: seq<Descriptor>, i: nat, name: Name): (r: StaticRead)
    requires i <= |chain|
    decreases |chain| - i
  {
    if i == |chain| then StaticRead(None, None, [])
    else if !HasStaticGetter(chain, i, name) then GetStaticValueFrom(chain, i + 1, name)
    else
      var ev := Event(StaticValueGetter(name), i, chain[i].id, EntryAbi(StaticEntry(chain, i, name)), true);
      match StaticGetterResult(chain, i, name)
      case Threw(x) => StaticRead(Some(Undefined), Some(x), [ev])
      case Fetched(v) => StaticRead(Some(v), None, [ev])
      case NoValue =>
        var rest := GetStaticValueFrom(chain, i + 1, name);
        StaticRead(rest.value, rest.thrown, [ev] + rest.events)
  }

  /** `getStaticValue` as called on the instance: always from the most-derived class. */
  function GetStaticValue(chain: seq<Descriptor>, name: Name): StaticRead
  {
    GetStaticValueFrom(chain, 0, name)
  }

  /** `getStaticValue` invokes only static getters of entries named `name`, of descriptors from `i` on, with the lock dropped. */
  lemma {:induction false} StaticValueWalk(chain: seq<Descriptor>, i: nat, name: Name)
    requires i <= |chain|
    ensures forall e :: e in GetStaticValueFrom(chain, i, name).events ==>
      i <= e.depth < |chain| && e.hook == StaticValueGetter(name) && e.lockDropped && HasStaticGetter(chain, e.depth, name)
    decreases |chain| - i
  {
    if i < |chain| {
      StaticValueWalk(chain, i + 1, name);
    }
  }

  /** A static getter that throws makes `getStaticValue` return undefined. */
  lemma {:induction false} StaticValueThrowGivesUndefined(chain: seq<Descriptor>, i: nat, name: Name)
    requires i <= |chain|
    ensures var r := GetStaticValueFrom(chain, i, name);
      r.thrown.Some? ==> r.value == Some(Undefined)
    decreases |chain| - i
  {
    if i < |chain| {
      StaticValueThrowGivesUndefined(chain, i + 1, name);
    }
  }

  /** `getStaticValue` finds no value exactly when every static getter named `name` from `i` on yields nothing. */
  lemma {:induction false} StaticValueAbsentIffAllDecline(chain: seq<Descriptor>, i: nat, name: Name)
    requires i <= |chain|
    ensures GetStaticValueFrom(chain, i, name).value.None? <==>
      forall k :: i <= k < |chain| && HasStaticGetter(chain, k, name) ==> StaticGetterResult(chain, k, name).NoValue?
    decreases |chain| - i
  {
    if i < |chain| {
      StaticValueAbsentIffAllDecline(chain, i + 1, name);
    }
  }

  /** Whether the static getter at position `i` decides `getStaticValue`: it yields a value or throws. */
  predicate StaticAnswers(chain: seq<Descriptor>, i: nat, name: Name)
    requires i < |chain|
  {
    HasStaticGetter(chain, i, name) && !StaticGetterResult(chain, i, name).NoValue?
  }

  /** The first position from `i` whose static getter named `name` decides, or `|chain|`. */
  function FirstStaticAnswer(chain: seq<Descriptor>, i: nat, name: Name): (k: nat)
    requires i <= |chain|
    ensures i <= k <= |chain|
    ensures forall j :: i <= j < k ==> !StaticAnswers(chain, j, name)
    ensures k < |chain| ==> StaticAnswers(chain, k, name)
    decreases |chain| - i
  {
    if i == |chain| || StaticAnswers(chain, i, name) then i else FirstStaticAnswer(chain, i + 1, name)
  }

  /**
   * First responder for `getStaticValue`: the value and exception are the first
   * deciding static getter's (undefined with its exception when it threw), or no
   * value and no exception when none decides; the getters run in chain order and
   * none after the first deciding one.
   */
  lemma {:induction false} StaticValueIsFirstAnswer(chain: seq<Descriptor>, i: nat, name: Name)
    requires i <= |chain|
    ensures var r := GetStaticValueFrom(chain, i, name);
      var k := FirstStaticAnswer(chain, i, name);
      && (k == |chain| ==> r.value.None? && r.thrown.None?)
      && (k < |chain| ==> match StaticGetterResult(chain, k, name)
                          case Threw(x) => r.value == Some(Undefined) && r.thrown == Some(x)
                          case Fetched(v) => r.value == Some(v) && r.thrown.None?
                          case NoValue => false)
      && (forall e :: e in r.events ==> i <= e.depth <= k && e.depth < |chain|)
      && DepthIncreasing(r.events)
    decreases |chain| - i
  {
    if i < |chain| {
      StaticValueIsFirstAnswer(chain, i + 1, name);
      if HasStaticGetter(chain, i, name) && StaticGetterResult(chain, i, name).NoValue? {
        var ev := Event(StaticValueGetter(name), i, chain[i].id, EntryAbi(StaticEntry(chain, i, name)), true);
        DepthIncreasingPrepend([ev], GetStaticValueFrom(chain, i + 1, name).events, i);
      }
    }
  }

  // ---------------------------------------------------------------------------
  // getOwnPropertySlot

  /** One descriptor's turn in `getOwnPropertySlot`: dynamic callbacks, then static values, then static functions. */
  function SlotStep(chain: seq<Descriptor>, i: nat, name: Name): Step<SlotLookup>
    requires i < |chain|
  {
    var d := chain[i];
    var h := Active(d);
    var dynamic: Step<SlotLookup> :=
      if h.hasProperty.Some? then
        var ev := ClassEvent(chain, i, HasProperty, true);
        if h.hasProperty.value(Receiver(d), name) then Answered(SlotLookup(Custom(CallbackGetter, ReadOnlyDontEnum), None, [ev]))
        else Continue([ev])
      else if h.getProperty.Some? then
        var ev := ClassEvent(chain, i, GetProperty, true);
        match h.getProperty.value(Receiver(d), name)
        case Threw(x) => Answered(SlotLookup(Data(Undefined, ReadOnlyDontEnum), Some(x), [ev]))
        case Fetched(v) => Answered(SlotLookup(Data(v, ReadOnlyDontEnum), None, [ev]))
        case NoValue => Continue([ev])
      else Continue([]);
    match dynamic
    case Answered(_) => dynamic
    case Continue(evs) =>
      var sv := if FindStaticValue(d.staticValues, name).Some? then GetStaticValue(chain, name) else StaticRead(None, None, []);
      if sv.value.Some? then Answered(SlotLookup(Data(sv.value.value, ReadOnlyDontEnum), sv.thrown, evs + sv.events))
      else if FindStaticFunction(d.staticFunctions, name).Some? then
        Answered(SlotLookup(Custom(StaticFunctionGetter, ReadOnlyDontEnum), None, evs + sv.events))
      else Continue(evs + sv.events)
  }

  function GetSlotFrom(chain: seq<Descriptor>, i: nat, name: Name, s: GenericObject.Storage): SlotLookup
    requires i <= |chain|
    decreases |chain| - i
  {
    if i == |chain| then SlotLookup(ParentSlot(s, name), None, [])
    else match SlotStep(chain, i, name)
      case Answered(r) => r
      case Continue(evs) =>
        var rest := GetSlotFrom(chain, i + 1, name, s);
        SlotLookup(rest.slot, rest.thrown, evs + rest.events)
  }

  /** `getOwnPropertySlot`: the chain walk from the most-derived class, then the generic object. */
  function GetOwnPropertySlot(chain: seq<Descriptor>, name: Name, s: GenericObject.Storage): SlotLookup
  {
    GetSlotFrom(chain, 0, name, s)
  }

  /** The first position from `i` whose turn answers. */
  function FirstSlotAnswer(chain: seq<Descriptor>, i: nat, name: Name): (k: nat)
    requires i <= |chain|
    ensures i <= k <= |chain|
    ensures forall j :: i <= j < k ==> SlotStep(chain, j, name).Continue?
    ensures k < |chain| ==> SlotStep(chain, k, name).Answered?
    decreases |chain| - i
  {
    if i == |chain| || SlotStep(chain, i, name).Answered? then i else FirstSlotAnswer(chain, i + 1, name)
  }

  /**
   * First responder: the slot (and exception) is the first answering descriptor's,
   * or the generic object's when none answers.
   */
  lemma {:induction false} GetSlotIsFirstAnswer(chain: seq<Descriptor>, i: nat, name: Name, s: GenericObject.Storage)
    requires i <= |chain|
    ensures var r := GetSlotFrom(chain, i, name, s);
      var k := FirstSlotAnswer(chain, i, name);
      && (k < |chain| ==> r.slot == SlotStep(chain, k, name).outcome.slot && r.thrown == SlotStep(chain, k, name).outcome.thrown)
      && (k == |chain| ==> r.slot == ParentSlot(s, name) && r.thrown.None?)
    decreases |chain| - i
  {
    if i < |chain| && SlotStep(chain, i, name).Continue? {
      GetSlotIsFirstAnswer(chain, i + 1, name, s);
    }
  }

  /** The callbacks a turn runs, whether or not it answers. */
  function TurnEvents(st: Step<SlotLookup>): seq<Event>
  {
    if st.Answered? then st.outcome.events else st.events
  }

  /**
   * One turn: its dynamic callbacks belong to its descriptor, `getProperty` runs
   * only where there is no `hasProperty`, and an answer is a read-only,
   * non-enumerable slot that holds undefined when an exception was thrown.
   */
  lemma SlotStepFacts(chain: seq<Descriptor>, i: nat, name: Name)
    requires i < |chain|
    ensures var st := SlotStep(chain, i, name);
      && (forall e :: e in TurnEvents(st) && (e.hook == HasProperty || e.hook == GetProperty) ==> e.depth == i)
      && (forall e :: e in TurnEvents(st) && e.hook == GetProperty ==>
            Active(chain[i]).hasProperty.None? && Active(chain[i]).getProperty.Some?)
      && (st.Answered? ==> !st.outcome.slot.Absent? && st.outcome.slot.attributes == ReadOnlyDontEnum)
      && (st.Answered? && st.outcome.thrown.Some? ==> st.outcome.slot == Data(Undefined, ReadOnlyDontEnum))
  {
    SlotStepEvents(chain, i, name);
    StaticValueThrowGivesUndefined(chain, 0, name);
  }

  lemma SlotStepEvents(chain: seq<Descriptor>, i: nat, name: Name)
    requires i < |chain|
    ensures var st := SlotStep(chain, i, name);
      && (forall e :: e in TurnEvents(st) && (e.hook == HasProperty || e.hook == GetProperty) ==> e.depth == i)
      && (forall e :: e in TurnEvents(st) && e.hook == GetProperty ==>
            Active(chain[i]).hasProperty.None? && Active(chain[i]).getProperty.Some?)
  {
    StaticValueWalk(chain, 0, name);
  }

  /** No descriptor after the first responder has its `hasProperty` or `getProperty` callback invoked. */
  lemma {:induction false} NoDynamicCallAfterResponder(chain: seq<Descriptor>, i: nat, name: Name, s: GenericObject.Storage)
    requires i <= |chain|
    ensures forall e :: e in GetSlotFrom(chain, i, name, s).events && (e.hook == HasProperty || e.hook == GetProperty) ==>
      i <= e.depth <= FirstSlotAnswer(chain, i, name) && e.depth < |chain|
    decreases |chain| - i
  {
    if i < |chain| {
      SlotStepFacts(chain, i, name);
      var st := SlotStep(chain, i, name);
      if st.Continue? {
        NoDynamicCallAfterResponder(chain, i + 1, name, s);
        assert GetSlotFrom(chain, i, name, s).events == st.events + GetSlotFrom(chain, i + 1, name, s).events;
      }
    }
  }

  /** If `hasProperty` exists at a position, that position's `getProperty` is never invoked. */
  lemma {:induction false} HasPropertyGuardsGetProperty(chain: seq<Descriptor>, i: nat, name: Name, s: GenericObject.Storage)
    requires i <= |chain|
    ensures forall e :: e in GetSlotFrom(chain, i, name, s).events && e.hook == GetProperty ==>
      e.depth < |chain| && Active(chain[e.depth]).hasProperty.None? && Active(chain[e.depth]).getProperty.Some?
    decreases |chain| - i
  {
    if i < |chain| {
      SlotStepFacts(chain, i, name);
      var st := SlotStep(chain, i, name);
      if st.Continue? {
        HasPropertyGuardsGetProperty(chain, i + 1, name, s);
        assert GetSlotFrom(chain, i, name, s).events == st.events + GetSlotFrom(chain, i + 1, name, s).events;
      }
    }
  }

  /** Every slot the chain answers is read-only and non-enumerable; an exception comes with undefined. */
  lemma {:induction false} ChainSlotsAreReadOnly(chain: seq<Descriptor>, i: nat, name: Name, s: GenericObject.Storage)
    requires i <= |chain|
    ensures var r := GetSlotFrom(chain, i, name, s);
      && (FirstSlotAnswer(chain, i, name) < |chain| ==> !r.slot.Absent? && r.slot.attributes == ReadOnlyDontEnum)
      && (r.thrown.Some? ==> r.slot == Data(Undefined, ReadOnlyDontEnum))
    decreases |chain| - i
  {
    if i < |chain| {
      SlotStepFacts(chain, i, name);
      if SlotStep(chain, i, name).Continue? {
        ChainSlotsAreReadOnly(chain, i + 1, name, s);
      }
    }
  }

  /** A custom (lazy) slot comes from the chain alone: it does not depend on the own properties. */
  lemma {:induction false} CustomSlotIgnoresStorage(chain: seq<Descriptor>, i: nat, name: Name, s1: GenericObject.Storage, s2: GenericObject.Storage)
    requires i <= |chain|
    requires GetSlotFrom(chain, i, name, s1).slot.Custom?
    ensures GetSlotFrom(chain, i, name, s2) == GetSlotFrom(chain, i, name, s1)
    decreases |chain| - i
  {
    if i < |chain| && SlotStep(chain, i, name).Continue? {
      CustomSlotIgnoresStorage(chain, i + 1, name, s1, s2);
    }
  }

  // ---------------------------------------------------------------------------
  // callbackGetter

  /** Whether position `i`'s `getProperty` produces something (a value or an exception). */
  predicate Yields(chain: seq<Descriptor>, i: nat, name: Name)
    requires i < |chain|
  {
    var h := Active(chain[i]);
    h.getProperty.Some? && !h.getProperty.value(Receiver(chain[i]), name).NoValue?
  }

  /** The first position from `i` whose `getProperty` yields. */
  function FirstYield(chain: seq<Descriptor>, i: nat, name: Name): (k: nat)
    requires i <= |chain|
    ensures i <= k <= |chain|
    ensures forall j :: i <= j < k ==> !Yields(chain, j, name)
    ensures k < |chain| ==> Yields(chain, k, name)
    decreases |chain| - i
  {
    if i == |chain| || Yields(chain, i, name) then i else FirstYield(chain, i + 1, name)
  }

  function CallbackGetterFrom(chain: seq<Descriptor>, i: nat, name: Name): GetterResult
    requires i <= |chain|
    decreases |chain| - i
  {
    if i == |chain| then
      var error := ReferenceError(MissingValueMessage);
      GetterResult(error, Some(error), [])
    else
      var d := chain[i];
      var h := Active(d);
      if h.getProperty.None? then CallbackGetterFrom(chain, i + 1, name)
      else
        var ev := ClassEvent(chain, i, GetProperty, true);
        match h.getProperty.value(Receiver(d), name)
        case Threw(x) => GetterResult(Undefined, Some(x), [ev])
        case Fetched(v) => GetterResult(v, None, [ev])
        case NoValue =>
          var rest := CallbackGetterFrom(chain, i + 1, name);
          GetterResult(rest.value, rest.thrown, [ev] + rest.events)
  }

  /** `callbackGetter`: the getter bound when `hasProperty` said yes. */
  function CallbackGetterRead(chain: seq<Descriptor>, name: Name): GetterResult
  {
    CallbackGetterFrom(chain, 0, name)
  }

  /**
   * `callbackGetter` returns what the first `getProperty` that yields produced
   * (undefined with the exception when it threw), calling only `getProperty`
   * callbacks up to that one; when none yields it throws a ReferenceError.
   */
  lemma {:induction false} CallbackGetterFirstYield(chain: seq<Descriptor>, i: nat, name: Name)
    requires i <= |chain|
    ensures var r := CallbackGetterFrom(chain, i, name);
      var k := FirstYield(chain, i, name);
      && (k == |chain| ==> r.value == ReferenceError(MissingValueMessage) && r.thrown == Some(r.value))
      && (k < |chain| ==> match Active(chain[k]).getProperty.value(Receiver(chain[k]), name)
                          case Threw(x) => r.value == Undefined && r.thrown == Some(x)
                          case Fetched(v) => r.value == v && r.thrown.None?
                          case NoValue => false)
      && (forall e :: e in r.events ==> e.hook == GetProperty && i <= e.depth <= k && e.depth < |chain|)
    decreases |chain| - i
  {
    if i < |chain| {
      CallbackGetterFirstYield(chain, i + 1, name);
    }
  }

  // ---------------------------------------------------------------------------
  // staticFunctionGetter

  function MaterializeFrom(chain: seq<Descriptor>, i: nat, name: Name, s: GenericObject.Storage, serial: nat): Materialization
    requires i <= |chain|
    decreases |chain| - i
  {
    if i == |chain| then
      var error := ReferenceError(NullCallAsFunctionMessage);
      Materialization(error, Some(error), s)
    else
      var d := chain[i];
      match FindStaticFunction(d.staticFunctions, name)
      case None => MaterializeFrom(chain, i + 1, name, s, serial)
      case Some(k) =>
        var e := d.staticFunctions[k];
        if e.version == LegacyVersion && e.v0.Some? then
          var f := CallbackFunction(serial, name, None);
          Materialization(f, None, GenericObject.PutDirect(s, name, f, e.attributes))
        else if e.version == ExtendedVersion && e.v1000.Some? then
          var f := CallbackFunction(serial, name, Some(d.id));
          Materialization(f, None, GenericObject.PutDirect(s, name, f, e.attributes))
        else MaterializeFrom(chain, i + 1, name, s, serial)
  }

  /**
   * `staticFunctionGetter`: an existing own property (a cached function or an
   * override) wins; otherwise the function of the first entry with a callback is
   * created (`serial` identifies it) and installed as an own property.
   */
  function StaticFunctionRead(chain: seq<Descriptor>, name: Name, s: GenericObject.Storage, serial: nat): Materialization
  {
    match GenericObject.Lookup(s, name)
    case Some(p) => Materialization(p.value, None, s)
    case None => MaterializeFrom(chain, 0, name, s, serial)
  }

  /** Whether position `i` has a static-function entry named `name` with a callback for its version. */
  predicate HasCallableEntry(chain: seq<Descriptor>, i: nat, name: Name)
    requires i < |chain|
  {
    var k := FindStaticFunction(chain[i].staticFunctions, name);
    k.Some? && HasFunctionCallback(chain[i].staticFunctions[k.value])
  }

  /** The first position from `i` with a static-function entry that has a callback. */
  function FirstCallableEntry(chain: seq<Descriptor>, i: nat, name: Name): (k: nat)
    requires i <= |chain|
    ensures i <= k <= |chain|
    ensures forall j :: i <= j < k ==> !HasCallableEntry(chain, j, name)
    ensures k < |chain| ==> HasCallableEntry(chain, k, name)
    decreases |chain| - i
  {
    if i == |chain| || HasCallableEntry(chain, i, name) then i else FirstCallableEntry(chain, i + 1, name)
  }

  /** With no static-function entry with a callback from `i` on, materialisation throws a ReferenceError and changes nothing. */
  lemma {:induction false} MaterializeWithoutCallback(chain: seq<Descriptor>, i: nat, name: Name, s: GenericObject.Storage, serial: nat)
    requires i <= |chain| && FirstCallableEntry(chain, i, name) == |chain|
    ensures var m := MaterializeFrom(chain, i, name, s, serial);
      m.storage == s && m.value == ReferenceError(NullCallAsFunctionMessage) && m.thrown == Some(m.value)
    decreases |chain| - i
  {
    if i < |chain| {
      MaterializeWithoutCallback(chain, i + 1, name, s, serial);
    }
  }

  /**
   * Materialisation: the first entry with a callback yields a fresh function,
   * bound to its class when the entry is extended, installed under `name` with
   * that entry's attributes; nothing else changes.
   */
  lemma {:induction false} MaterializeFirstCallable(chain: seq<Descriptor>, i: nat, name: Name, s: GenericObject.Storage, serial: nat)
    requires i <= |chain| && FirstCallableEntry(chain, i, name) < |chain|
    ensures var m := MaterializeFrom(chain, i, name, s, serial);
      var k := FirstCallableEntry(chain, i, name);
      var e := chain[k].staticFunctions[FindStaticFunction(chain[k].staticFunctions, name).value];
      && m.thrown.None?
      && m.value == CallbackFunction(serial, name, if e.version == ExtendedVersion then Some(chain[k].id) else None)
      && m.storage == GenericObject.PutDirect(s, name, m.value, e.attributes)
    decreases |chain| - i
  {
    if !HasCallableEntry(chain, i, name) {
      MaterializeFirstCallable(chain, i + 1, name, s, serial);
    }
  }

  /** Caching: once a read has installed a function, a second read returns the same one and changes nothing. */
  lemma StaticFunctionReadIsCached(chain: seq<Descriptor>, name: Name, s: GenericObject.Storage, serial: nat, serial2: nat)
    requires StaticFunctionRead(chain, name, s, serial).thrown.None?
    ensures var m := StaticFunctionRead(chain, name, s, serial);
      StaticFunctionRead(chain, name, m.storage, serial2) == Materialization(m.value, None, m.storage)
  {
    var m := StaticFunctionRead(chain, name, s, serial);
    if GenericObject.Lookup(s, name).None? {
      if FirstCallableEntry(chain, 0, name) < |chain| {
        MaterializeFirstCallable(chain, 0, name, s, serial);
      } else {
        MaterializeWithoutCallback(chain, 0, name, s, serial);
      }
    }
  }

  // ---------------------------------------------------------------------------
  // The engine's read path: look the slot up, then evaluate it.

  datatype ReadOutcome = ReadOutcome(value: Value, thrown: Option<Value>, events: seq<Event>, storage: GenericObject.Storage)

  /**
   * Reading an own property: `getOwnPropertySlot`, then the slot's value, which for
   * a custom slot runs `callbackGetter` or `staticFunctionGetter`.
   */
  function ReadProperty(chain: seq<Descriptor>, name: Name, s: GenericObject.Storage, serial: nat): ReadOutcome
  {
    var l := GetOwnPropertySlot(chain, name, s);
    match l.slot
    case Absent => ReadOutcome(Undefined, l.thrown, l.events, s)
    case Data(v, _) => ReadOutcome(v, l.thrown, l.events, s)
    case Custom(CallbackGetter, _) =>
      var g := CallbackGetterRead(chain, name);
      ReadOutcome(g.value, g.thrown, l.events + g.events, s)
    case Custom(StaticFunctionGetter, _) =>
      var m := StaticFunctionRead(chain, name, s, serial);
      ReadOutcome(m.value, m.thrown, l.events, m.storage)
  }

  /** Reading a static function twice gives the identical function object, and the second read installs nothing. */
  lemma SecondReadReturnsSameFunction(chain: seq<Descriptor>, name: Name, s: GenericObject.Storage, serial: nat, serial2: nat)
    requires GetOwnPropertySlot(chain, name, s).slot == Custom(StaticFunctionGetter, ReadOnlyDontEnum)
    requires ReadProperty(chain, name, s, serial).thrown.None?
    ensures var first := ReadProperty(chain, name, s, serial);
      var second := ReadProperty(chain, name, first.storage, serial2);
      second.value == first.value && second.storage == first.storage && second.thrown.None?
  {
    var first := ReadProperty(chain, name, s, serial);
    CustomSlotIgnoresStorage(chain, 0, name, s, first.storage);
    StaticFunctionReadIsCached(chain, name, s, serial, serial2);
  }

  /**
   * An own property is what a read returns, without an exception and installing
   * nothing, when the slot is a static function's (whose read prefers the own
   * property) or when no descriptor claims the name.
   */
  lemma OwnPropertyIsRead(chain: seq<Descriptor>, name: Name, s: GenericObject.Storage, serial: nat)
    requires GenericObject.Lookup(s, name).Some?
    requires var slot := GetOwnPropertySlot(chain, name, s).slot;
      (slot.Custom? && slot.getter.StaticFunctionGetter?) || FirstSlotAnswer(chain, 0, name) == |chain|
    ensures var rd := ReadProperty(chain, name, s, serial);
      rd.value == GenericObject.Lookup(s, name).value.value && rd.thrown.None? && rd.storage == s
  {
    var l := GetOwnPropertySlot(chain, name, s);
    if !(l.slot.Custom? && l.slot.getter.StaticFunctionGetter?) {
      UnclaimedNameIsGeneric(chain, 0, name, s);
    }
    ReadOfSlot(chain, name, s, serial, l);
  }

  /** When no descriptor claims `name`, the slot is the generic object's and nothing is thrown. */
  lemma {:induction false} UnclaimedNameIsGeneric(chain: seq<Descriptor>, i: nat, name: Name, s: GenericObject.Storage)
    requires i <= |chain|
    requires FirstSlotAnswer(chain, i, name) == |chain|
    ensures GetSlotFrom(chain, i, name, s).slot == ParentSlot(s, name) && GetSlotFrom(chain, i, name, s).thrown.None?
    decreases |chain| - i
  {
    if i < |chain| {
      UnclaimedNameIsGeneric(chain, i + 1, name, s);
    }
  }

  /** `ReadProperty` once the slot lookup is known, for the slots that read an own property. */
  lemma ReadOfSlot(chain: seq<Descriptor>, name: Name, s: GenericObject.Storage, serial: nat, l: SlotLookup)
    requires l == GetOwnPropertySlot(chain, name, s)
    requires GenericObject.Lookup(s, name).Some?
    requires (l.slot == ParentSlot(s, name) && l.thrown.None?) || (l.slot.Custom? && l.slot.getter.StaticFunctionGetter?)
    ensures var rd := ReadProperty(chain, name, s, serial);
      rd.value == GenericObject.Lookup(s, name).value.value && rd.thrown.None? && rd.storage == s
  {
  }
}
