/**
 * The callback object itself: an object whose behaviour is delegated to the
 * callbacks of its class chain.  Each operation walks the chain in a loop, as
 * the implementation does, and is proved equal to the walk's specification
 * function.  Walks that only compute are methods over values (`Walk...`); the
 * object's methods apply their outcome: the callbacks run are appended to
 * `trace`, an exception they raise becomes the pending exception, and own
 * properties live in `storage`.
 */
module CallbackObjects {
  import opened Wrappers
  import opened Values
  import opened ClassDescriptor
  import GenericObject
  import Lifecycle
  import PropertyLookup
  import PropertyUpdate
  import Invocation
  import Enumeration

  /** The pending exception after an operation that may have thrown `thrown`. */
  function Raise(pending: Option<Value>, thrown: Option<Value>): (r: Option<Value>)
    ensures thrown.Some? ==> r == thrown
    ensures thrown.None? ==> r == pending
  {
    if thrown.Some? then thrown else pending
  }

  /** The static-value loop of the enumeration: adds each listed entry's name in table order. */
  method AddListedValues(names: seq<Name>, t: seq<StaticValueEntry>, mode: EnumerationMode) returns (result: seq<Name>)
    ensures result == Enumeration.AddNames(names, Enumeration.ListedValues(t, mode))
  {
    result := names;
    var j := 0;
    while j < |t|
      invariant 0 <= j <= |t|
      invariant result == Enumeration.AddNames(names, Enumeration.ListedValues(t[..j], mode))
    {
      var listed := Enumeration.ListedValues(t[..j], mode);
      Enumeration.ListedValuesSnoc(t, j, mode);
      if Enumeration.ValueListed(t[j], mode) {
        Enumeration.AddNamesSnoc(names, listed, t[j].name);
        result := Enumeration.AddName(result, t[j].name);
      } else {
        assert listed + [] == listed;
      }
      j := j + 1;
    }
    assert t[..j] == t;
  }

  /** The static-function loop of the enumeration: adds each listed entry's name in table order. */
  method AddListedFunctions(names: seq<Name>, t: seq<StaticFunctionEntry>, mode: EnumerationMode) returns (result: seq<Name>)
    ensures result == Enumeration.AddNames(names, Enumeration.ListedFunctions(t, mode))
  {
    result := names;
    var j := 0;
    while j < |t|
      invariant 0 <= j <= |t|
      invariant result == Enumeration.AddNames(names, Enumeration.ListedFunctions(t[..j], mode))
    {
      var listed := Enumeration.ListedFunctions(t[..j], mode);
      Enumeration.ListedFunctionsSnoc(t, j, mode);
      if Enumeration.FunctionListed(t[j], mode) {
        Enumeration.AddNamesSnoc(names, listed, t[j].name);
        result := Enumeration.AddName(result, t[j].name);
      } else {
        assert listed + [] == listed;
      }
      j := j + 1;
    }
    assert t[..j] == t;
  }

  /** The chain walk of `put`, from the instance's own class to the generic object. */
  method WalkPut(chain: seq<Descriptor>, name: Name, value: Value, s: GenericObject.Storage) returns (o: PropertyUpdate.Outcome)
    ensures o == PropertyUpdate.Put(chain, name, value, s)
  {
    var calls: seq<Event> := [];
    var i := 0;
    while i < |chain|
      invariant 0 <= i <= |chain|
      invariant PropertyUpdate.Put(chain, name, value, s) == PropertyUpdate.WithEvents(calls, PropertyUpdate.PutFrom(chain, i, name, value, s))
    {
      var st := PropertyUpdate.PutStep(chain, i, name, value, s);
      if st.Answered? {
        return PropertyUpdate.WithEvents(calls, st.outcome);
      }
      PropertyUpdate.WithEventsAppend(calls, st.events, PropertyUpdate.PutFrom(chain, i + 1, name, value, s));
      calls := calls + st.events;
      i := i + 1;
    }
    var u := GenericObject.Put(s, name, value);
    return PropertyUpdate.Outcome(u.ok, None, calls, u.storage);
  }

  /** The chain walk of `putByIndex`, for the index's identifier `name`. */
  method WalkPutByIndex(chain: seq<Descriptor>, name: Name, value: Value, s: GenericObject.Storage) returns (o: PropertyUpdate.Outcome)
    ensures o == PropertyUpdate.PutByIndexFrom(chain, 0, name, value, s)
  {
    var calls: seq<Event> := [];
    var i := 0;
    while i < |chain|
      invariant 0 <= i <= |chain|
      invariant PropertyUpdate.PutByIndexFrom(chain, 0, name, value, s) == PropertyUpdate.WithEvents(calls, PropertyUpdate.PutByIndexFrom(chain, i, name, value, s))
    {
      var st := PropertyUpdate.PutByIndexStep(chain, i, name, value, s);
      if st.Answered? {
        return PropertyUpdate.WithEvents(calls, st.outcome);
      }
      PropertyUpdate.WithEventsAppend(calls, st.events, PropertyUpdate.PutByIndexFrom(chain, i + 1, name, value, s));
      calls := calls + st.events;
      i := i + 1;
    }
    var u := GenericObject.Put(s, name, value);
    return PropertyUpdate.Outcome(u.ok, None, calls, u.storage);
  }

  /** The chain walk of `deleteProperty`, from the instance's own class to the generic object. */
  method WalkDelete(chain: seq<Descriptor>, name: Name, s: GenericObject.Storage) returns (o: PropertyUpdate.Outcome)
    ensures o == PropertyUpdate.Delete(chain, name, s)
  {
    var calls: seq<Event> := [];
    var i := 0;
    while i < |chain|
      invariant 0 <= i <= |chain|
      invariant PropertyUpdate.Delete(chain, name, s) == PropertyUpdate.WithEvents(calls, PropertyUpdate.DeleteFrom(chain, i, name, s))
    {
      var st := PropertyUpdate.DeleteStep(chain, i, name, s);
      if st.Answered? {
        return PropertyUpdate.WithEvents(calls, st.outcome);
      }
      PropertyUpdate.WithEventsAppend(calls, st.events, PropertyUpdate.DeleteFrom(chain, i + 1, name, s));
      calls := calls + st.events;
      i := i + 1;
    }
    var u := GenericObject.Delete(s, name);
    return PropertyUpdate.Outcome(u.ok, None, calls, u.storage);
  }

  /** The walk of `getStaticValue`: the first static-value getter named `name` that yields or throws decides. */
  method WalkStaticValue(chain: seq<Descriptor>, name: Name) returns (r: PropertyLookup.StaticRead)
    ensures r == PropertyLookup.GetStaticValue(chain, name)
  {
    var calls: seq<Event> := [];
    var i := 0;
    while i < |chain|
      invariant 0 <= i <= |chain|
      invariant var whole := PropertyLookup.GetStaticValue(chain, name);
        var rest := PropertyLookup.GetStaticValueFrom(chain, i, name);
        whole.value == rest.value && whole.thrown == rest.thrown && whole.events == calls + rest.events
    {
      var d := chain[i];
      var k := FindStaticValue(d.staticValues, name);
      if k.Some? {
        var e := d.staticValues[k.value];
        var getter := EntryGetter(e);
        if getter.Some? {
          calls := calls + [Event(StaticValueGetter(name), i, d.id, EntryAbi(e), true)];
          match getter.value(EntryReceiver(e, d), name)
          case Threw(x) =>
            return PropertyLookup.StaticRead(Some(Undefined), Some(x), calls);
          case Fetched(value) =>
            return PropertyLookup.StaticRead(Some(value), None, calls);
          case NoValue =>
        }
      }
      i := i + 1;
    }
    return PropertyLookup.StaticRead(None, None, calls);
  }

  /** The walk of `callbackGetter`: the first `getProperty` that yields or throws decides; none yields a ReferenceError. */
  method WalkCallbackGetter(chain: seq<Descriptor>, name: Name) returns (r: PropertyLookup.GetterResult)
    ensures r == PropertyLookup.CallbackGetterRead(chain, name)
  {
    var calls: seq<Event> := [];
    var i := 0;
    while i < |chain|
      invariant 0 <= i <= |chain|
      invariant var whole := PropertyLookup.CallbackGetterRead(chain, name);
        var rest := PropertyLookup.CallbackGetterFrom(chain, i, name);
        whole.value == rest.value && whole.thrown == rest.thrown && whole.events == calls + rest.events
    {
      var d := chain[i];
      var getProperty := Active(d).getProperty;
      if getProperty.Some? {
        calls := calls + [ClassEvent(chain, i, GetProperty, true)];
        match getProperty.value(Receiver(d), name)
        case Threw(x) =>
          return PropertyLookup.GetterResult(Undefined, Some(x), calls);
        case Fetched(value) =>
          return PropertyLookup.GetterResult(value, None, calls);
        case NoValue =>
      }
      i := i + 1;
    }
    var error := ReferenceError(MissingValueMessage);
    return PropertyLookup.GetterResult(error, Some(error), calls);
  }

  /** The walk of `defaultValue`: the first `convertToType` that yields or throws decides; otherwise the generic object's conversion. */
  method WalkDefaultValue(chain: seq<Descriptor>, hint: PreferredPrimitiveType) returns (c: Invocation.Conversion)
    ensures c == Invocation.DefaultValue(chain, hint)
  {
    var calls: seq<Event> := [];
    var i := 0;
    while i < |chain|
      invariant 0 <= i <= |chain|
      invariant Invocation.DefaultValue(chain, hint) == Invocation.Prefixed(calls, Invocation.DefaultValueFrom(chain, i, hint))
    {
      var st := Invocation.ConvertStep(chain, i, hint);
      if st.Answered? {
        return Invocation.Prefixed(calls, st.outcome);
      }
      Invocation.PrefixedAppend(calls, st.events, Invocation.DefaultValueFrom(chain, i + 1, hint));
      calls := calls + st.events;
      i := i + 1;
    }
    return Invocation.ParentDefault(calls);
  }

  /** The chain part of the enumeration: each class's names in turn, and the `getPropertyNames` calls made. */
  method WalkNames(chain: seq<Descriptor>, mode: EnumerationMode, names: seq<Name>) returns (result: seq<Name>, calls: seq<Event>)
    ensures result == Enumeration.ChainNamesFrom(chain, 0, mode, names)
    ensures calls == Enumeration.EnumerationEvents(chain, 0)
  {
    result := names;
    calls := [];
    var i := 0;
    while i < |chain|
      invariant 0 <= i <= |chain|
      invariant Enumeration.ChainNamesFrom(chain, i, mode, result) == Enumeration.ChainNamesFrom(chain, 0, mode, names)
      invariant calls + Enumeration.EnumerationEvents(chain, i) == Enumeration.EnumerationEvents(chain, 0)
    {
      calls := RecordNamesCall(calls, chain, i);
      result := AddDescriptorNames(result, chain, i, mode);
      i := i + 1;
    }
    assert calls + [] == calls;
  }

  /** The `getPropertyNames` call of one class's turn, when it has the callback, appended to the calls made before. */
  method RecordNamesCall(calls: seq<Event>, chain: seq<Descriptor>, i: nat) returns (r: seq<Event>)
    requires i < |chain|
    ensures r + Enumeration.EnumerationEvents(chain, i + 1) == calls + Enumeration.EnumerationEvents(chain, i)
  {
    r := calls;
    if Enumeration.ListsNames(chain[i]) {
      r := r + [ClassEvent(chain, i, GetPropertyNames, true)];
    }
    assert Enumeration.EnumerationEvents(chain, i) == Enumeration.EnumerationEvent(chain, i) + Enumeration.EnumerationEvents(chain, i + 1);
  }

  /** One class's turn in the enumeration: its callback's names, then its listed static values, then its listed static functions. */
  method AddDescriptorNames(names: seq<Name>, chain: seq<Descriptor>, i: nat, mode: EnumerationMode) returns (result: seq<Name>)
    requires i < |chain|
    ensures result == Enumeration.AddNames(names, Enumeration.Contribution(chain, i, mode))
  {
    var d := chain[i];
    var callback := Enumeration.CallbackNames(chain, i);
    result := Enumeration.AddNames(names, callback);
    result := AddListedValues(result, d.staticValues, mode);
    result := AddListedFunctions(result, d.staticFunctions, mode);
    Enumeration.AddNamesConcat(names, callback, Enumeration.ListedValues(d.staticValues, mode));
    Enumeration.AddNamesConcat(names, callback + Enumeration.ListedValues(d.staticValues, mode), Enumeration.ListedFunctions(d.staticFunctions, mode));
  }

  class CallbackObject {
    /** The class chain: `chain[0]` is the instance's own class, each later element the parent of the one before. */
    const chain: seq<Descriptor>
    /** The own properties of the generic object underneath. */
    var storage: GenericObject.Storage
    /** The private data pointer (`None` is the null pointer). */
    var privateData: Option<nat>
    /** The pending exception of the execution state. */
    var exception: Option<Value>
    /** The host callbacks run on this object, in order. */
    var trace: seq<Event>
    /** How many function objects static-function reads have created; the next one's serial number. */
    var created: nat
    /** Whether `init` has run to its end and cached the class info. */
    var classInfoCached: bool

    /** An instance of the class `chain[0]` with private data `data`. */
    constructor (chain: seq<Descriptor>, data: Option<nat>)
      requires |chain| >= 1
      ensures this.chain == chain && privateData == data
      ensures storage == GenericObject.Empty && exception.None? && trace == [] && created == 0 && !classInfoCached
    {
      this.chain := chain;
      storage := GenericObject.Empty;
      privateData := data;
      exception := None;
      trace := [];
      created := 0;
      classInfoCached := false;
    }

    /** The global object's constructor: no private data. */
    constructor Global(chain: seq<Descriptor>)
      requires |chain| >= 1
      ensures this.chain == chain && privateData.None?
      ensures storage == GenericObject.Empty && exception.None? && trace == [] && created == 0 && !classInfoCached
    {
      this.chain := chain;
      storage := GenericObject.Empty;
      privateData := None;
      exception := None;
      trace := [];
      created := 0;
      classInfoCached := false;
    }

    /**
     * `init`: collect the chain into a list of init routines, then run the
     * `initialize` callbacks from the last (the root) to the first, each with
     * the lock dropped, and cache the class info.
     */
    method Init()
      requires |chain| >= 1
      modifies this`trace, this`classInfoCached
      ensures trace == old(trace) + Lifecycle.InitializeEvents(chain, 0)
      ensures classInfoCached
    {
      var initRoutines := [chain[0]];
      var k := 1;
      while k < |chain|
        invariant 1 <= k <= |chain| && initRoutines == chain[..k]
      {
        initRoutines := initRoutines + [chain[k]];
        k := k + 1;
      }
      var i := |initRoutines| - 1;
      while i >= 0
        invariant -1 <= i < |chain|
        invariant trace == old(trace) + Lifecycle.InitializeEvents(chain, i + 1)
      {
        if Lifecycle.HasInitialize(initRoutines[i]) {
          trace := trace + [ClassEvent(chain, i, Initialize, true)];
        }
        i := i - 1;
      }
      classInfoCached := true;
    }

    /** `finishCreation` (both the ordinary and the global object's): `init`. */
    method FinishCreation()
      requires |chain| >= 1
      modifies this`trace, this`classInfoCached
      ensures trace == old(trace) + Lifecycle.InitializeEvents(chain, 0)
      ensures classInfoCached
    {
      Init();
    }

    /**
     * The destructor: run the `finalize` callbacks from the instance's class to
     * the root, without dropping the lock; it expects `init` to have cached the
     * class info.
     */
    method Destroy()
      requires classInfoCached
      modifies this`trace
      ensures trace == old(trace) + Lifecycle.FinalizeEvents(chain, 0)
    {
      var i := 0;
      while i < |chain|
        invariant 0 <= i <= |chain|
        invariant trace + Lifecycle.FinalizeEvents(chain, i) == old(trace) + Lifecycle.FinalizeEvents(chain, 0)
      {
        if Lifecycle.HasFinalize(chain[i]) {
          trace := trace + [ClassEvent(chain, i, Finalize, false)];
        }
        i := i + 1;
      }
    }

    /** `inherits`: whether `c` is the instance's class or one of its ancestors. */
    method Inherits(c: ClassId) returns (r: bool)
      ensures r <==> exists k :: 0 <= k < |chain| && chain[k].id == c
    {
      var i := 0;
      while i < |chain|
        invariant 0 <= i <= |chain|
        invariant forall k :: 0 <= k < i ==> chain[k].id != c
      {
        if chain[i].id == c {
          return true;
        }
        i := i + 1;
      }
      return false;
    }

    /** `getCallData`: a host call when some class in the chain has `callAsFunction`. */
    method GetCallData() returns (t: Invocation.CallType)
      ensures t == Invocation.HostCall <==> exists k :: 0 <= k < |chain| && Invocation.CanCall(chain[k])
      ensures t == Invocation.GetCallData(chain)
    {
      var i := 0;
      while i < |chain|
        invariant 0 <= i <= |chain|
        invariant forall k :: 0 <= k < i ==> !Invocation.CanCall(chain[k])
        invariant Invocation.GetCallDataFrom(chain, i) == Invocation.GetCallData(chain)
      {
        if Invocation.CanCall(chain[i]) {
          return Invocation.HostCall;
        }
        i := i + 1;
      }
      return Invocation.NoCall;
    }

    /** `getConstructData`: a host constructor when some class in the chain has `callAsConstructor`. */
    method GetConstructData() returns (t: Invocation.CallType)
      ensures t == Invocation.HostCall <==> exists k :: 0 <= k < |chain| && Invocation.CanConstruct(chain[k])
      ensures t == Invocation.GetConstructData(chain)
    {
      var i := 0;
      while i < |chain|
        invariant 0 <= i <= |chain|
        invariant forall k :: 0 <= k < i ==> !Invocation.CanConstruct(chain[k])
        invariant Invocation.GetConstructDataFrom(chain, i) == Invocation.GetConstructData(chain)
      {
        if Invocation.CanConstruct(chain[i]) {
          return Invocation.HostCall;
        }
        i := i + 1;
      }
      return Invocation.NoCall;
    }

    /**
     * `getStaticValue`: from the instance's own class up, the first static-value
     * getter named `name` that yields a value or throws decides (undefined when
     * it threw); `None` when none does.
     */
    method GetStaticValue(name: Name) returns (v: Option<Value>)
      modifies this`trace, this`exception
      ensures var r := PropertyLookup.GetStaticValue(chain, name);
        v == r.value && trace == old(trace) + r.events && exception == Raise(old(exception), r.thrown)
    {
      var r := WalkStaticValue(chain, name);
      trace := trace + r.events;
      exception := Raise(exception, r.thrown);
      return r.value;
    }

    /**
     * `getOwnPropertySlot`: each class in turn consults `hasProperty` (or else
     * `getProperty`), then its static values, then its static functions; the
     * first answer is the slot, and the generic object answers when no class does.
     */
    method GetOwnPropertySlot(name: Name) returns (slot: PropertyLookup.Slot)
      modifies this`trace, this`exception
      ensures var r := PropertyLookup.GetOwnPropertySlot(chain, name, storage);
        slot == r.slot && trace == old(trace) + r.events && exception == Raise(old(exception), r.thrown)
    {
      ghost var whole := PropertyLookup.GetOwnPropertySlot(chain, name, storage);
      var calls: seq<Event> := [];
      var i := 0;
      while i < |chain|
        invariant 0 <= i <= |chain|
        invariant var rest := PropertyLookup.GetSlotFrom(chain, i, name, storage);
          whole.slot == rest.slot && whole.thrown == rest.thrown && whole.events == calls + rest.events
      {
        var st := PropertyLookup.SlotStep(chain, i, name);
        if st.Answered? {
          var r := st.outcome;
          trace := trace + (calls + r.events);
          exception := Raise(exception, r.thrown);
          return r.slot;
        }
        calls := calls + st.events;
        i := i + 1;
      }
      trace := trace + calls;
      return PropertyLookup.ParentSlot(storage, name);
    }

    /** `getOwnPropertySlotByIndex`: the lookup of the index's identifier. */
    method GetOwnPropertySlotByIndex(index: nat) returns (slot: PropertyLookup.Slot)
      modifies this`trace, this`exception
      ensures var r := PropertyLookup.GetOwnPropertySlot(chain, IndexName(index), storage);
        slot == r.slot && trace == old(trace) + r.events && exception == Raise(old(exception), r.thrown)
    {
      slot := GetOwnPropertySlot(IndexName(index));
    }

    /**
     * `callbackGetter`: the first `getProperty` callback that yields a value or
     * throws decides; when none does, a ReferenceError is thrown.
     */
    method CallbackGetter(name: Name) returns (v: Value)
      modifies this`trace, this`exception
      ensures var r := PropertyLookup.CallbackGetterRead(chain, name);
        v == r.value && trace == old(trace) + r.events && exception == Raise(old(exception), r.thrown)
    {
      var r := WalkCallbackGetter(chain, name);
      trace := trace + r.events;
      exception := Raise(exception, r.thrown);
      return r.value;
    }

    /**
     * `staticFunctionGetter`: an own property (the cached function or an
     * override) is returned as it is; otherwise the first static-function entry
     * named `name` with a callback becomes a new function object, numbered
     * `created`, installed as an own property with the entry's attributes.
     */
    method StaticFunctionGetter(name: Name) returns (v: Value)
      modifies this`storage, this`exception, this`created
      ensures var m := PropertyLookup.StaticFunctionRead(chain, name, old(storage), old(created));
        v == m.value && storage == m.storage && exception == Raise(old(exception), m.thrown)
      ensures created == if GenericObject.Lookup(old(storage), name).None? && v.CallbackFunction? then old(created) + 1 else old(created)
    {
      match GenericObject.Lookup(storage, name)
      case Some(p) =>
        return p.value;
      case None =>
      var i := 0;
      while i < |chain|
        invariant 0 <= i <= |chain| && storage == old(storage) && created == old(created) && exception == old(exception)
        invariant PropertyLookup.MaterializeFrom(chain, i, name, storage, created) == PropertyLookup.MaterializeFrom(chain, 0, name, storage, created)
      {
        var d := chain[i];
        var k := FindStaticFunction(d.staticFunctions, name);
        if k.Some? {
          var e := d.staticFunctions[k.value];
          if e.version == LegacyVersion && e.v0.Some? {
            v := CallbackFunction(created, name, None);
            storage := GenericObject.PutDirect(storage, name, v, e.attributes);
            created := created + 1;
            return;
          } else if e.version == ExtendedVersion && e.v1000.Some? {
            v := CallbackFunction(created, name, Some(d.id));
            storage := GenericObject.PutDirect(storage, name, v, e.attributes);
            created := created + 1;
            return;
          }
        }
        i := i + 1;
      }
      var error := ReferenceError(NullCallAsFunctionMessage);
      exception := Some(error);
      return error;
    }

    /**
     * `put`: each class in turn offers the write to its `setProperty`, its static
     * values and its static functions; the first that answers decides, and the
     * generic object's put runs when none does.
     */
    method Put(name: Name, value: Value) returns (ok: bool)
      modifies this`trace, this`exception, this`storage
      ensures var o := PropertyUpdate.Put(chain, name, value, old(storage));
        ok == o.result && storage == o.storage && trace == old(trace) + o.events && exception == Raise(old(exception), o.thrown)
    {
      var o := WalkPut(chain, name, value, storage);
      trace := trace + o.events;
      exception := Raise(exception, o.thrown);
      storage := o.storage;
      return o.result;
    }

    /** `putByIndex`: the indexed write, walked with the index's identifier. */
    method PutByIndex(index: nat, value: Value) returns (ok: bool)
      modifies this`trace, this`exception, this`storage
      ensures var o := PropertyUpdate.PutByIndex(chain, index, value, old(storage));
        ok == o.result && storage == o.storage && trace == old(trace) + o.events && exception == Raise(old(exception), o.thrown)
    {
      var o := WalkPutByIndex(chain, IndexName(index), value, storage);
      trace := trace + o.events;
      exception := Raise(exception, o.thrown);
      storage := o.storage;
      return o.result;
    }

    /**
     * `deleteProperty`: each class in turn offers the delete to its
     * `deleteProperty` callback, then answers for its static entries; the
     * generic object's delete runs when no class answers.
     */
    method DeleteProperty(name: Name) returns (ok: bool)
      modifies this`trace, this`exception, this`storage
      ensures var o := PropertyUpdate.Delete(chain, name, old(storage));
        ok == o.result && storage == o.storage && trace == old(trace) + o.events && exception == Raise(old(exception), o.thrown)
    {
      var o := WalkDelete(chain, name, storage);
      trace := trace + o.events;
      exception := Raise(exception, o.thrown);
      storage := o.storage;
      return o.result;
    }

    /** `deletePropertyByIndex`: the delete of the index's identifier. */
    method DeletePropertyByIndex(index: nat) returns (ok: bool)
      modifies this`trace, this`exception, this`storage
      ensures var o := PropertyUpdate.DeleteByIndex(chain, index, old(storage));
        ok == o.result && storage == o.storage && trace == old(trace) + o.events && exception == Raise(old(exception), o.thrown)
    {
      ok := DeleteProperty(IndexName(index));
    }

    /**
     * `defaultValue`: the first `convertToType` callback that yields a value or
     * throws decides (undefined when it threw); `None` stands for the generic
     * object's conversion, which runs when no callback decides.
     */
    method DefaultValue(hint: PreferredPrimitiveType) returns (v: Option<Value>)
      modifies this`trace, this`exception
      ensures var c := Invocation.DefaultValue(chain, hint);
        && trace == old(trace) + c.events
        && (c.Converted? ==> v == Some(c.value) && exception == Raise(old(exception), c.thrown))
        && (c.ParentDefault? ==> v.None? && exception == old(exception))
    {
      var c := WalkDefaultValue(chain, hint);
      trace := trace + c.events;
      if c.Converted? {
        exception := Raise(exception, c.thrown);
        return Some(c.value);
      }
      return None;
    }

    /** `customHasInstance`: the first `hasInstance` callback decides, even when it throws; with none the answer is false. */
    method CustomHasInstance(value: Value) returns (r: bool)
      modifies this`trace, this`exception
      ensures var c := Invocation.CustomHasInstance(chain, value);
        r == c.result && trace == old(trace) + c.events && exception == Raise(old(exception), c.thrown)
    {
      var i := 0;
      while i < |chain|
        invariant 0 <= i <= |chain|
        invariant trace == old(trace) && exception == old(exception)
        invariant Invocation.HasInstanceFrom(chain, i, value) == Invocation.CustomHasInstance(chain, value)
      {
        var hasInstance := Active(chain[i]).hasInstance;
        if hasInstance.Some? {
          var a := hasInstance.value(Receiver(chain[i]), value);
          trace := trace + [ClassEvent(chain, i, HasInstance, true)];
          exception := Raise(exception, a.exception);
          return a.result;
        }
        i := i + 1;
      }
      return false;
    }

    /**
     * `call`: the engine calls this only when `getCallData` reported a host
     * call; the first `callAsFunction` callback runs and its result is returned.
     */
    method Call(thisValue: Value, args: seq<Value>) returns (r: Value)
      requires Invocation.GetCallData(chain) == Invocation.HostCall
      modifies this`trace, this`exception
      ensures var c := Invocation.Call(chain, thisValue, args);
        c.Invoked? && r == c.result && trace == old(trace) + [c.event] && exception == Raise(old(exception), c.thrown)
    {
      Invocation.GetCallDataFromIsExists(chain, 0);
      var i := 0;
      while !Invocation.CanCall(chain[i])
        invariant 0 <= i < |chain|
        invariant exists k :: i <= k < |chain| && Invocation.CanCall(chain[k])
        invariant Invocation.CallFrom(chain, i, thisValue, args) == Invocation.Call(chain, thisValue, args)
        decreases |chain| - i
      {
        var k :| i <= k < |chain| && Invocation.CanCall(chain[k]);
        assert k != i;
        i := i + 1;
      }
      var c := Active(chain[i]).callAsFunction.value(Receiver(chain[i]), thisValue, args);
      trace := trace + [ClassEvent(chain, i, CallAsFunction, true)];
      exception := Raise(exception, c.exception);
      return c.result;
    }

    /**
     * `construct`: the engine calls this only when `getConstructData` reported a
     * host constructor; the first `callAsConstructor` callback runs.
     */
    method Construct(args: seq<Value>) returns (r: Value)
      requires Invocation.GetConstructData(chain) == Invocation.HostCall
      modifies this`trace, this`exception
      ensures var c := Invocation.Construct(chain, args);
        c.Invoked? && r == c.result && trace == old(trace) + [c.event] && exception == Raise(old(exception), c.thrown)
    {
      Invocation.GetConstructDataFromIsExists(chain, 0);
      var i := 0;
      while !Invocation.CanConstruct(chain[i])
        invariant 0 <= i < |chain|
        invariant exists k :: i <= k < |chain| && Invocation.CanConstruct(chain[k])
        invariant Invocation.ConstructFrom(chain, i, args) == Invocation.Construct(chain, args)
        decreases |chain| - i
      {
        var k :| i <= k < |chain| && Invocation.CanConstruct(chain[k]);
        assert k != i;
        i := i + 1;
      }
      var c := Active(chain[i]).callAsConstructor.value(Receiver(chain[i]), args);
      trace := trace + [ClassEvent(chain, i, CallAsConstructor, true)];
      exception := Raise(exception, c.exception);
      return c.result;
    }

    /**
     * `getOwnNonIndexPropertyNames`: for each class in turn, the names its
     * `getPropertyNames` callback adds, then its listed static values, then its
     * listed static functions; finally the generic object's own names.
     */
    method GetOwnNonIndexPropertyNames(mode: EnumerationMode, names: seq<Name>) returns (result: seq<Name>)
      modifies this`trace
      ensures result == Enumeration.OwnNonIndexPropertyNames(chain, storage, mode, names)
      ensures trace == old(trace) + Enumeration.EnumerationEvents(chain, 0)
    {
      var calls;
      result, calls := WalkNames(chain, mode, names);
      trace := trace + calls;
      result := Enumeration.AddNames(result, GenericObject.Names(storage, mode));
    }

    /** `setPrivate`. */
    method SetPrivate(data: Option<nat>)
      modifies this`privateData
      ensures privateData == data
    {
      privateData := data;
    }

    /** `getPrivate`. */
    method GetPrivate() returns (data: Option<nat>)
      ensures data == privateData
    {
      return privateData;
    }
  }
}
