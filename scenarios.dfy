/**
 * Concrete class chains and what the dispatcher does with them: each lemma
 * fixes a small hierarchy and states the observable outcome of one operation,
 * including the places where the implementation's behaviour is surprising.
 */
module Scenarios {
  import opened Wrappers
  import opened Values
  import opened ClassDescriptor
  import GenericObject
  import PropertyLookup
  import PropertyUpdate
  import CallbackObjects

  /** A legacy class with no callbacks and no static tables. */
  const Plain := Descriptor(1, "Plain", LegacyVersion, NoHooks, NoHooks, [], [])

  /** A legacy getter that knows only `x`, whose value is 42. */
  const KnowsX: GetPropertyHook := (c: Option<ClassId>, n: Name) => if n == "x" then Fetched(Number(42)) else NoValue

  /** A legacy class whose `getProperty` is `KnowsX`. */
  const GetterBase := Descriptor(2, "GetterBase", LegacyVersion, NoHooks.(getProperty := Some(KnowsX)), NoHooks, [], [])

  /** A class inheriting from `GetterBase` without callbacks of its own reads `x` through its parent's getter. */
  lemma InheritedGetterAnswers()
    ensures var r := PropertyLookup.ReadProperty([Plain, GetterBase], "x", GenericObject.Empty, 0);
      r.value == Number(42) && r.thrown.None? && r.events == [Event(GetProperty, 1, 2, Legacy, true)]
  {
    var chain := [Plain, GetterBase];
    var ev := Event(GetProperty, 1, 2, Legacy, true);
    assert PropertyLookup.SlotStep(chain, 0, "x") == Continue([]);
    assert Active(chain[1]).getProperty == Some(KnowsX) && Receiver(chain[1]) == None;
    assert KnowsX(None, "x") == Fetched(Number(42));
    assert PropertyLookup.SlotStep(chain, 1, "x") == Answered(PropertyLookup.SlotLookup(PropertyLookup.Data(Number(42), ReadOnlyDontEnum), None, [ev]));
    assert PropertyLookup.GetSlotFrom(chain, 1, "x", GenericObject.Empty).events == [ev];
    assert PropertyLookup.GetSlotFrom(chain, 0, "x", GenericObject.Empty) == PropertyLookup.SlotLookup(PropertyLookup.Data(Number(42), ReadOnlyDontEnum), None, [] + [ev]);
  }

  /** A legacy class with a read-only static value `y` that has a getter and no setter. */
  const ReadOnlyY := Descriptor(3, "ReadOnlyY", LegacyVersion, NoHooks, NoHooks,
    [StaticValueEntry("y", LegacyVersion, Accessors(Some(KnowsX), None), Accessors(None, None), Attributes(true, false, false))], [])

  /** Assigning to a read-only static value is refused without any callback and leaves the own properties alone. */
  lemma ReadOnlyStaticValueIsNotWritten(v: Value)
    ensures PropertyUpdate.Put([Plain, ReadOnlyY], "y", v, GenericObject.Empty) == PropertyUpdate.Outcome(false, None, [], GenericObject.Empty)
  {
    var chain := [Plain, ReadOnlyY];
    var refused := PropertyUpdate.Outcome(false, None, [], GenericObject.Empty);
    assert PropertyUpdate.PutStep(chain, 0, "y", v, GenericObject.Empty) == Continue([]);
    assert FindStaticValue(ReadOnlyY.staticValues, "y") == Some(0);
    assert PropertyUpdate.PutStep(chain, 1, "y", v, GenericObject.Empty) == Answered(refused);
    assert PropertyUpdate.PutFrom(chain, 0, "y", v, GenericObject.Empty) == PropertyUpdate.WithEvents([], refused);
  }

  /** A legacy `hasProperty` that claims every property. */
  const ClaimsAll: HasPropertyHook := (c: Option<ClassId>, n: Name) => true

  /** A legacy class whose `hasProperty` claims every name but which has no `getProperty`. */
  const Boastful := Descriptor(4, "Boastful", LegacyVersion, NoHooks.(hasProperty := Some(ClaimsAll)), NoHooks, [], [])

  /**
   * `hasProperty` saying yes with no `getProperty` anywhere in the chain makes a
   * read throw the ReferenceError of `callbackGetter`.
   */
  lemma ClaimWithoutGetterThrows()
    ensures var r := PropertyLookup.ReadProperty([Boastful], "z", GenericObject.Empty, 0);
      && r.value == ReferenceError(MissingValueMessage) && r.thrown == Some(r.value)
      && r.events == [Event(HasProperty, 0, 4, Legacy, true)]
  {
    var chain := [Boastful];
    var ev := Event(HasProperty, 0, 4, Legacy, true);
    assert ClaimsAll(None, "z");
    assert PropertyLookup.SlotStep(chain, 0, "z") == Answered(PropertyLookup.SlotLookup(PropertyLookup.Custom(PropertyLookup.CallbackGetter, ReadOnlyDontEnum), None, [ev]));
    var error := ReferenceError(MissingValueMessage);
    assert PropertyLookup.CallbackGetterFrom(chain, 1, "z") == PropertyLookup.GetterResult(error, Some(error), []);
    assert PropertyLookup.CallbackGetterRead(chain, "z") == PropertyLookup.GetterResult(error, Some(error), []);
    assert [ev] + [] == [ev];
  }

  /** A static getter that never yields a value. */
  const Declines: GetPropertyHook := (c: Option<ClassId>, n: Name) => NoValue

  function DecliningValue(name: Name): StaticValueEntry
  {
    StaticValueEntry(name, LegacyVersion, Accessors(Some(Declines), None), Accessors(None, None), NoAttributes)
  }

  const ChildV := Descriptor(5, "ChildV", LegacyVersion, NoHooks, NoHooks, [DecliningValue("v")], [])
  const BaseV := Descriptor(6, "BaseV", LegacyVersion, NoHooks, NoHooks, [DecliningValue("v")], [])

  /**
   * Every class's turn with a static value named `v` asks `getStaticValue`,
   * which walks again from the instance's own class: with two declining getters
   * each is called twice, and the lookup falls through to the generic object.
   */
  lemma StaticGettersAreAskedAgainPerClass()
    ensures var r := PropertyLookup.GetOwnPropertySlot([ChildV, BaseV], "v", GenericObject.Empty);
      && r.slot == PropertyLookup.Absent && r.thrown.None?
      && r.events == [Event(StaticValueGetter("v"), 0, 5, Legacy, true), Event(StaticValueGetter("v"), 1, 6, Legacy, true),
                      Event(StaticValueGetter("v"), 0, 5, Legacy, true), Event(StaticValueGetter("v"), 1, 6, Legacy, true)]
  {
    var chain := [ChildV, BaseV];
    var e0 := Event(StaticValueGetter("v"), 0, 5, Legacy, true);
    var e1 := Event(StaticValueGetter("v"), 1, 6, Legacy, true);
    assert FindStaticValue(ChildV.staticValues, "v") == Some(0) && FindStaticValue(BaseV.staticValues, "v") == Some(0);
    assert FindStaticFunction(ChildV.staticFunctions, "v").None? && FindStaticFunction(BaseV.staticFunctions, "v").None?;
    assert PropertyLookup.HasStaticGetter(chain, 0, "v") && PropertyLookup.HasStaticGetter(chain, 1, "v");
    assert PropertyLookup.StaticGetterResult(chain, 0, "v") == NoValue && PropertyLookup.StaticGetterResult(chain, 1, "v") == NoValue;
    assert PropertyLookup.GetStaticValueFrom(chain, 2, "v") == PropertyLookup.StaticRead(None, None, []);
    assert PropertyLookup.GetStaticValueFrom(chain, 1, "v") == PropertyLookup.StaticRead(None, None, [e1]);
    assert PropertyLookup.GetStaticValueFrom(chain, 0, "v") == PropertyLookup.StaticRead(None, None, [e0, e1]);
    assert PropertyLookup.SlotStep(chain, 0, "v") == Continue([e0, e1]);
    assert PropertyLookup.SlotStep(chain, 1, "v") == Continue([e0, e1]);
    assert PropertyLookup.GetSlotFrom(chain, 2, "v", GenericObject.Empty) == PropertyLookup.SlotLookup(PropertyLookup.Absent, None, []);
    assert PropertyLookup.GetSlotFrom(chain, 1, "v", GenericObject.Empty) == PropertyLookup.SlotLookup(PropertyLookup.Absent, None, [e0, e1]);
    assert PropertyLookup.GetSlotFrom(chain, 0, "v", GenericObject.Empty) == PropertyLookup.SlotLookup(PropertyLookup.Absent, None, [e0, e1] + [e0, e1]);
  }

  /** A legacy `setProperty` that declines every write. */
  const DeclinesWrite: SetPropertyHook := (c: Option<ClassId>, n: Name, v: Value) => Answer(false, None)

  /** A class with a declining `setProperty` and a writable static value named `0`. */
  const IndexedValue := Descriptor(7, "IndexedValue", LegacyVersion, NoHooks.(setProperty := Some(DeclinesWrite)), NoHooks,
    [StaticValueEntry("0", LegacyVersion, Accessors(None, None), Accessors(None, None), NoAttributes)], [])

  /**
   * An indexed write to a name with a static value runs the class's
   * `setProperty` a second time where `put` would run the entry's setter, then
   * falls through to the generic object, which stores the value.
   */
  lemma IndexedWriteRepeatsClassSetter(v: Value)
    ensures var o := PropertyUpdate.PutByIndex([IndexedValue], 0, v, GenericObject.Empty);
      && o.result && o.thrown.None?
      && o.events == [Event(SetProperty, 0, 7, Legacy, true), Event(SetProperty, 0, 7, Legacy, true)]
      && GenericObject.Lookup(o.storage, "0") == Some(GenericObject.Property(v, NoAttributes))
  {
    var chain := [IndexedValue];
    var ev := Event(SetProperty, 0, 7, Legacy, true);
    assert IndexName(0) == "0";
    assert DeclinesWrite(None, "0", v) == Answer(false, None);
    assert PropertyUpdate.ClassSetter(chain, 0, "0", v) == Some((Answer(false, None), ev));
    assert FindStaticValue(IndexedValue.staticValues, "0") == Some(0);
    assert PropertyUpdate.SetterReachable(IndexedValue, IndexedValue.staticValues[0]);
    assert FindStaticFunction(IndexedValue.staticFunctions, "0").None?;
    assert PropertyUpdate.PutByIndexStep(chain, 0, "0", v, GenericObject.Empty) == Continue([ev, ev]);
    var u := GenericObject.Put(GenericObject.Empty, "0", v);
    assert PropertyUpdate.PutByIndexFrom(chain, 1, "0", v, GenericObject.Empty) == PropertyUpdate.Outcome(u.ok, None, [], u.storage);
  }

  /** A legacy function callback. */
  const Identity: CallAsFunctionHook := (c: Option<ClassId>, thisValue: Value, args: seq<Value>) => Completion(thisValue, None)

  /** A class with one static function `f`. */
  const WithFunction := Descriptor(8, "WithFunction", LegacyVersion, NoHooks, NoHooks, [],
    [StaticFunctionEntry("f", LegacyVersion, Some(Identity), None, NoAttributes)])

  /**
   * On an object of `WithFunction`, the first read of `f` creates function
   * number 0 and installs it; the second read returns that same function and
   * creates nothing.
   */
  method StaticFunctionIsCreatedOnce() returns (first: Value, second: Value, created: nat)
    ensures first == second == CallbackFunction(0, "f", None)
    ensures created == 1
  {
    var o := new CallbackObjects.CallbackObject([WithFunction], None);
    first := o.StaticFunctionGetter("f");
    second := o.StaticFunctionGetter("f");
    created := o.created;
  }

  /**
   * Assigning to `f` on an object of `WithFunction` installs an override that the
   * next read of `f` returns in place of the static function.
   */
  lemma OverrideOfStaticFunctionIsRead(v: Value)
    ensures var w := PropertyUpdate.Put([WithFunction], "f", v, GenericObject.Empty);
      && w.result && w.thrown.None?
      && PropertyLookup.ReadProperty([WithFunction], "f", w.storage, 0).value == v
  {
    var chain := [WithFunction];
    assert FindStaticFunction(WithFunction.staticFunctions, "f") == Some(0);
    assert Active(WithFunction) == NoHooks && FindStaticValue(WithFunction.staticValues, "f").None?;
    var none: seq<Event> := [];
    assert none + none == none;
    assert PropertyUpdate.PutStep(chain, 0, "f", v, GenericObject.Empty).Answered?;
    assert PropertyLookup.SlotStep(chain, 0, "f")
      == Answered(PropertyLookup.SlotLookup(PropertyLookup.Custom(PropertyLookup.StaticFunctionGetter, ReadOnlyDontEnum), None, []));
    PropertyUpdate.OverrideIsReadBack(chain, "f", v, GenericObject.Empty, 0);
  }

  /** A legacy class with a read-only static function named `0`. */
  const SealedIndex := Descriptor(9, "SealedIndex", LegacyVersion, NoHooks, NoHooks, [],
    [StaticFunctionEntry("0", LegacyVersion, Some(Identity), None, Attributes(true, false, false))])

  /**
   * Where `put` and `putByIndex` part ways: over a writable own property `0`,
   * `put` finds the own property first and assigns it, while `putByIndex`
   * checks the static function's read-only flag first and refuses.
   */
  lemma IndexedWriteDivergesFromPut(v: Value)
    ensures var s := GenericObject.PutDirect(GenericObject.Empty, "0", Number(1), NoAttributes);
      var named := PropertyUpdate.Put([SealedIndex], "0", v, s);
      && named.result && GenericObject.Lookup(named.storage, "0") == Some(GenericObject.Property(v, NoAttributes))
      && PropertyUpdate.PutByIndex([SealedIndex], 0, v, s) == PropertyUpdate.Outcome(false, None, [], s)
  {
    var chain := [SealedIndex];
    var s := GenericObject.PutDirect(GenericObject.Empty, "0", Number(1), NoAttributes);
    assert IndexName(0) == "0";
    assert FindStaticFunction(SealedIndex.staticFunctions, "0") == Some(0);
    assert Active(SealedIndex) == NoHooks && FindStaticValue(SealedIndex.staticValues, "0").None?;
    assert PropertyUpdate.ClassSetter(chain, 0, "0", v).None?;
    var none: seq<Event> := [];
    assert none + none == none;
    assert PropertyUpdate.PutStep(chain, 0, "0", v, s).Answered?;
    assert PropertyUpdate.PutByIndexStep(chain, 0, "0", v, s) == Answered(PropertyUpdate.Outcome(false, None, [], s));
  }
}
