/**
 * Property writes and deletes: `put`, `putByIndex` and `deleteProperty`.
 * Each is a chain walk whose per-descriptor turn consults the class's own
 * callback, then its static-value table, then its static-function table.
 */
module PropertyUpdate {
  import opened Wrappers
  import opened Values
  import opened ClassDescriptor
  import GenericObject
  import PropertyLookup

  /** The result of a write or delete, the exception it threw, the callbacks it ran and the own properties after it. */
  datatype Outcome = Outcome(result: bool, thrown: Option<Value>, events: seq<Event>, storage: GenericObject.Storage)

  function WithEvents(evs: seq<Event>, o: Outcome): Outcome
  {
    Outcome(o.result, o.thrown, evs + o.events, o.storage)
  }

  /**
   * The guard in front of a static-value setter: the entry's version must match a
   * class-level `setProperty` of the descriptor (not a setter of the entry).
   */
  predicate SetterReachable(d: Descriptor, e: StaticValueEntry)
  {
    var setProperty := if d.version == LegacyVersion then d.v0.setProperty else None;
    var setPropertyEx := if d.version == ExtendedVersion then d.v1000.setProperty else None;
    (e.version == LegacyVersion && setProperty.Some?) || (e.version == ExtendedVersion && setPropertyEx.Some?)
  }

  lemma WithEventsAppend(a: seq<Event>, b: seq<Event>, o: Outcome)
    ensures WithEvents(a, WithEvents(b, o)) == WithEvents(a + b, o)
  {
    assert a + (b + o.events) == (a + b) + o.events;
  }

  /** Whether a callback's answer ends the walk (it said yes, or it threw). */
  predicate Decisive(a: Answer)
  {
    a.result || a.exception.Some?
  }

  // ---------------------------------------------------------------------------
  // put

  /** The class-level `setProperty` call of a turn: its answer and event, if the callback exists. */
  function ClassSetter(chain: seq<Descriptor>, i: nat, name: Name, value: Value): Option<(Answer, Event)>
    requires i < |chain|
  {
    var h := Active(chain[i]);
    if h.setProperty.Some? then Some((h.setProperty.value(Receiver(chain[i]), name, value), ClassEvent(chain, i, SetProperty, true)))
    else None
  }

  /**
   * The static-value setter call of `put`: reached only through `SetterReachable`,
   * it is always the entry's legacy `v0.setProperty`, called with the legacy ABI.
   */
  function EntrySetter(chain: seq<Descriptor>, i: nat, e: StaticValueEntry, name: Name, value: Value): Option<(Answer, Event)>
    requires i < |chain|
  {
    if SetterReachable(chain[i], e) && e.v0.setProperty.Some? then
      Some((e.v0.setProperty.value(None, name, value), Event(StaticValueSetter(name), i, chain[i].id, Legacy, true)))
    else None
  }

  /** One descriptor's turn in `put`. */
  function PutStep(chain: seq<Descriptor>, i: nat, name: Name, value: Value, s: GenericObject.Storage): Step<Outcome>
    requires i < |chain|
  {
    var d := chain[i];
    var cs := ClassSetter(chain, i, name, value);
    var evs := if cs.Some? then [cs.value.1] else [];
    if cs.Some? && Decisive(cs.value.0) then Answered(Outcome(cs.value.0.result, cs.value.0.exception, evs, s))
    else
      var sv := FindStaticValue(d.staticValues, name);
      if sv.Some? && d.staticValues[sv.value].attributes.readOnly then Answered(Outcome(false, None, evs, s))
      else
        var es := if sv.Some? then EntrySetter(chain, i, d.staticValues[sv.value], name, value) else None;
        var evs2 := evs + if es.Some? then [es.value.1] else [];
        if es.Some? && Decisive(es.value.0) then Answered(Outcome(es.value.0.result, es.value.0.exception, evs2, s))
        else match FindStaticFunction(d.staticFunctions, name)
          case None => Continue(evs2)
          case Some(k) =>
            if GenericObject.Lookup(s, name).Some? then
              var u := GenericObject.Put(s, name, value);
              Answered(Outcome(u.ok, None, evs2, u.storage))
            else if d.staticFunctions[k].attributes.readOnly then Answered(Outcome(false, None, evs2, s))
            else Answered(Outcome(true, None, evs2, GenericObject.PutDirect(s, name, value, NoAttributes)))
  }

  function PutFrom(chain: seq<Descriptor>, i: nat, name: Name, value: Value, s: GenericObject.Storage): Outcome
    requires i <= |chain|
    decreases |chain| - i
  {
    if i == |chain| then
      var u := GenericObject.Put(s, name, value);
      Outcome(u.ok, None, [], u.storage)
    else match PutStep(chain, i, name, value, s)
      case Answered(o) => o
      case Continue(evs) => WithEvents(evs, PutFrom(chain, i + 1, name, value, s))
  }

  /** `put`: the chain walk from the most-derived class, then the generic object's put. */
  function Put(chain: seq<Descriptor>, name: Name, value: Value, s: GenericObject.Storage): Outcome
  {
    PutFrom(chain, 0, name, value, s)
  }

  function FirstPutAnswer(chain: seq<Descriptor>, i: nat, name: Name, value: Value, s: GenericObject.Storage): (k: nat)
    requires i <= |chain|
    ensures i <= k <= |chain|
    ensures forall j :: i <= j < k ==> PutStep(chain, j, name, value, s).Continue?
    ensures k < |chain| ==> PutStep(chain, k, name, value, s).Answered?
    decreases |chain| - i
  {
    if i == |chain| || PutStep(chain, i, name, value, s).Answered? then i else FirstPutAnswer(chain, i + 1, name, value, s)
  }

  /** First responder for `put`: when some descriptor answers, the result, exception and own properties are the first one's. */
  lemma PutIsFirstAnswer(chain: seq<Descriptor>, i: nat, name: Name, value: Value, s: GenericObject.Storage)
    requires i <= |chain|
    requires FirstPutAnswer(chain, i, name, value, s) < |chain|
    ensures var r := PutFrom(chain, i, name, value, s);
      var o := PutStep(chain, FirstPutAnswer(chain, i, name, value, s), name, value, s).outcome;
      r.result == o.result && r.thrown == o.thrown && r.storage == o.storage
  {
    var k := FirstPutAnswer(chain, i, name, value, s);
    PutPassesOver(chain, i, k, name, value, s);
    assert PutFrom(chain, k, name, value, s) == PutStep(chain, k, name, value, s).outcome;
  }

  /** Turns that pass on change nothing but the calls: the walk from `i` ends as the walk from `j` does. */
  lemma {:induction false} PutPassesOver(chain: seq<Descriptor>, i: nat, j: nat, name: Name, value: Value, s: GenericObject.Storage)
    requires i <= j <= |chain|
    requires forall m :: i <= m < j ==> PutStep(chain, m, name, value, s).Continue?
    ensures var r := PutFrom(chain, i, name, value, s);
      var rest := PutFrom(chain, j, name, value, s);
      r.result == rest.result && r.thrown == rest.thrown && r.storage == rest.storage
    decreases j - i
  {
    if i < j {
      PutPassesOver(chain, i + 1, j, name, value, s);
      assert PutStep(chain, i, name, value, s).Continue?;
    }
  }

  /** When no descriptor answers, `put` is the generic object's put. */
  lemma {:induction false} PutFallsBackToGeneric(chain: seq<Descriptor>, i: nat, name: Name, value: Value, s: GenericObject.Storage)
    requires i <= |chain|
    requires FirstPutAnswer(chain, i, name, value, s) == |chain|
    ensures var r := PutFrom(chain, i, name, value, s);
      var u := GenericObject.Put(s, name, value);
      r.result == u.ok && r.thrown.None? && r.storage == u.storage
    decreases |chain| - i
  {
    if i < |chain| {
      var st := PutStep(chain, i, name, value, s);
      assert st.Continue?;
      PutFallsBackToGeneric(chain, i + 1, name, value, s);
      assert PutFrom(chain, i, name, value, s) == WithEvents(st.events, PutFrom(chain, i + 1, name, value, s));
    }
  }

  /** `put` changes no own property other than `name`. */
  lemma {:induction false} PutFrame(chain: seq<Descriptor>, i: nat, name: Name, value: Value, s: GenericObject.Storage)
    requires i <= |chain|
    ensures forall n :: n != name ==> GenericObject.Lookup(PutFrom(chain, i, name, value, s).storage, n) == GenericObject.Lookup(s, n)
    decreases |chain| - i
  {
    if i < |chain| && PutStep(chain, i, name, value, s).Continue? {
      PutFrame(chain, i + 1, name, value, s);
    }
  }

  /** A `put` that fails or throws leaves the own properties unchanged. */
  lemma {:induction false} PutFailureChangesNothing(chain: seq<Descriptor>, i: nat, name: Name, value: Value, s: GenericObject.Storage)
    requires i <= |chain|
    ensures var r := PutFrom(chain, i, name, value, s);
      !r.result || r.thrown.Some? ==> r.storage == s
    decreases |chain| - i
  {
    if i < |chain| && PutStep(chain, i, name, value, s).Continue? {
      PutFailureChangesNothing(chain, i + 1, name, value, s);
    }
  }

  /** When `put` changes the own properties, `name` holds the value, keeping the attributes it had (none if it was new). */
  lemma {:induction false} PutStoresValue(chain: seq<Descriptor>, i: nat, name: Name, value: Value, s: GenericObject.Storage)
    requires i <= |chain|
    ensures var r := PutFrom(chain, i, name, value, s);
      var old_ := GenericObject.Lookup(s, name);
      r.storage != s ==>
        GenericObject.Lookup(r.storage, name) == Some(GenericObject.Property(value, if old_.Some? then old_.value.attributes else NoAttributes))
    decreases |chain| - i
  {
    if i < |chain| && PutStep(chain, i, name, value, s).Continue? {
      PutStoresValue(chain, i + 1, name, value, s);
    }
  }

  /** A class `setProperty` that says yes or throws at the first answering descriptor decides the write, which stores nothing. */
  lemma ClassSetterDecides(chain: seq<Descriptor>, name: Name, value: Value, s: GenericObject.Storage)
    requires var k := FirstPutAnswer(chain, 0, name, value, s);
      k < |chain| && ClassSetter(chain, k, name, value).Some? && Decisive(ClassSetter(chain, k, name, value).value.0)
    ensures var a := ClassSetter(chain, FirstPutAnswer(chain, 0, name, value, s), name, value).value.0;
      var r := Put(chain, name, value, s);
      r.result == a.result && r.thrown == a.exception && r.storage == s
  {
    PutIsFirstAnswer(chain, 0, name, value, s);
  }

  /**
   * A read-only static value refuses the write: when the first descriptor that
   * answers has a read-only static value `name` and its class setter, if any,
   * declined, the result is false, nothing is thrown, the own properties are
   * unchanged, and the only callback that descriptor ran is its class setter (no
   * static-value setter).
   */
  lemma ReadOnlyStaticValueRefuses(chain: seq<Descriptor>, name: Name, value: Value, s: GenericObject.Storage)
    requires var k := FirstPutAnswer(chain, 0, name, value, s);
      && k < |chain| && (ClassSetter(chain, k, name, value).None? || !Decisive(ClassSetter(chain, k, name, value).value.0))
      && FindStaticValue(chain[k].staticValues, name).Some?
      && chain[k].staticValues[FindStaticValue(chain[k].staticValues, name).value].attributes.readOnly
    ensures var r := Put(chain, name, value, s);
      var k := FirstPutAnswer(chain, 0, name, value, s);
      var cs := ClassSetter(chain, k, name, value);
      && !r.result && r.thrown.None? && r.storage == s
      && PutStep(chain, k, name, value, s).outcome.events == (if cs.Some? then [cs.value.1] else [])
      && forall e :: e in PutStep(chain, k, name, value, s).outcome.events ==> e.hook != StaticValueSetter(name)
  {
    PutIsFirstAnswer(chain, 0, name, value, s);
  }

  /**
   * A write that reaches a writable static function with no own property yet
   * (its class setter, if any, having declined) installs the value as a plain own
   * property: the override.
   */
  lemma StaticFunctionOverride(chain: seq<Descriptor>, name: Name, value: Value, s: GenericObject.Storage)
    requires var k := FirstPutAnswer(chain, 0, name, value, s);
      && k < |chain| && GenericObject.Lookup(s, name).None?
      && FindStaticFunction(chain[k].staticFunctions, name).Some?
      && !chain[k].staticFunctions[FindStaticFunction(chain[k].staticFunctions, name).value].attributes.readOnly
      && FindStaticValue(chain[k].staticValues, name).None?
      && (ClassSetter(chain, k, name, value).None? || !Decisive(ClassSetter(chain, k, name, value).value.0))
    ensures var r := Put(chain, name, value, s);
      r.result && r.thrown.None? && GenericObject.Lookup(r.storage, name) == Some(GenericObject.Property(value, NoAttributes))
  {
    PutIsFirstAnswer(chain, 0, name, value, s);
  }

  /**
   * The override is what later reads see: after such a write, reading `name`
   * gives the written value without an exception and installs nothing more,
   * whether the slot is the static function's (whose read prefers an own
   * property) or, when no descriptor claims `name`, the generic object's.
   */
  lemma OverrideIsReadBack(chain: seq<Descriptor>, name: Name, value: Value, s: GenericObject.Storage, serial: nat)
    requires var k := FirstPutAnswer(chain, 0, name, value, s);
      && k < |chain| && GenericObject.Lookup(s, name).None?
      && FindStaticFunction(chain[k].staticFunctions, name).Some?
      && !chain[k].staticFunctions[FindStaticFunction(chain[k].staticFunctions, name).value].attributes.readOnly
      && FindStaticValue(chain[k].staticValues, name).None?
      && (ClassSetter(chain, k, name, value).None? || !Decisive(ClassSetter(chain, k, name, value).value.0))
    requires var slot := PropertyLookup.GetOwnPropertySlot(chain, name, s).slot;
      (slot.Custom? && slot.getter.StaticFunctionGetter?) || PropertyLookup.FirstSlotAnswer(chain, 0, name) == |chain|
    ensures var r := Put(chain, name, value, s);
      var rd := PropertyLookup.ReadProperty(chain, name, r.storage, serial);
      rd.value == value && rd.thrown.None? && rd.storage == r.storage
  {
    StaticFunctionOverride(chain, name, value, s);
    var r := Put(chain, name, value, s);
    var slot := PropertyLookup.GetOwnPropertySlot(chain, name, s).slot;
    if slot.Custom? && slot.getter.StaticFunctionGetter? {
      PropertyLookup.CustomSlotIgnoresStorage(chain, 0, name, s, r.storage);
    }
    PropertyLookup.OwnPropertyIsRead(chain, name, r.storage, serial);
  }

  // ---------------------------------------------------------------------------
  // putByIndex

  /**
   * One descriptor's turn in `putByIndex`.  Unlike `put`, the static-value branch
   * calls the class-level `setProperty` a second time, and a writable static
   * function stops the walk and hands the write to the generic object.
   */
  function PutByIndexStep(chain: seq<Descriptor>, i: nat, name: Name, value: Value, s: GenericObject.Storage): Step<Outcome>
    requires i < |chain|
  {
    var d := chain[i];
    var cs := ClassSetter(chain, i, name, value);
    var evs := if cs.Some? then [cs.value.1] else [];
    if cs.Some? && Decisive(cs.value.0) then Answered(Outcome(cs.value.0.result, cs.value.0.exception, evs, s))
    else
      var sv := FindStaticValue(d.staticValues, name);
      if sv.Some? && d.staticValues[sv.value].attributes.readOnly then Answered(Outcome(false, None, evs, s))
      else
        // The repeated call has the same arguments as the first, so it answers as the first did.
        var again := if sv.Some? && SetterReachable(d, d.staticValues[sv.value]) then cs else None;
        var evs2 := evs + if again.Some? then [again.value.1] else [];
        match FindStaticFunction(d.staticFunctions, name)
          case None => Continue(evs2)
          case Some(k) =>
            if d.staticFunctions[k].attributes.readOnly then Answered(Outcome(false, None, evs2, s))
            else
              var u := GenericObject.Put(s, name, value);
              Answered(Outcome(u.ok, None, evs2, u.storage))
  }

  function PutByIndexFrom(chain: seq<Descriptor>, i: nat, name: Name, value: Value, s: GenericObject.Storage): Outcome
    requires i <= |chain|
    decreases |chain| - i
  {
    if i == |chain| then
      var u := GenericObject.Put(s, name, value);
      Outcome(u.ok, None, [], u.storage)
    else match PutByIndexStep(chain, i, name, value, s)
      case Answered(o) => o
      case Continue(evs) => WithEvents(evs, PutByIndexFrom(chain, i + 1, name, value, s))
  }

  /** `putByIndex`: the walk with the index converted to its identifier, then the generic object's indexed put. */
  function PutByIndex(chain: seq<Descriptor>, index: nat, value: Value, s: GenericObject.Storage): Outcome
  {
    PutByIndexFrom(chain, 0, IndexName(index), value, s)
  }

  function FirstPutByIndexAnswer(chain: seq<Descriptor>, i: nat, name: Name, value: Value, s: GenericObject.Storage): (k: nat)
    requires i <= |chain|
    ensures i <= k <= |chain|
    ensures forall j :: i <= j < k ==> PutByIndexStep(chain, j, name, value, s).Continue?
    ensures k < |chain| ==> PutByIndexStep(chain, k, name, value, s).Answered?
    decreases |chain| - i
  {
    if i == |chain| || PutByIndexStep(chain, i, name, value, s).Answered? then i else FirstPutByIndexAnswer(chain, i + 1, name, value, s)
  }

  /** First responder for `putByIndex`: when some descriptor answers, the result, exception and own properties are the first one's. */
  lemma {:induction false} PutByIndexIsFirstAnswer(chain: seq<Descriptor>, i: nat, name: Name, value: Value, s: GenericObject.Storage)
    requires i <= |chain|
    requires FirstPutByIndexAnswer(chain, i, name, value, s) < |chain|
    ensures var r := PutByIndexFrom(chain, i, name, value, s);
      var o := PutByIndexStep(chain, FirstPutByIndexAnswer(chain, i, name, value, s), name, value, s).outcome;
      r.result == o.result && r.thrown == o.thrown && r.storage == o.storage
    decreases |chain| - i
  {
    var st := PutByIndexStep(chain, i, name, value, s);
    if st.Continue? {
      PutByIndexIsFirstAnswer(chain, i + 1, name, value, s);
      assert FirstPutByIndexAnswer(chain, i, name, value, s) == FirstPutByIndexAnswer(chain, i + 1, name, value, s);
      assert PutByIndexFrom(chain, i, name, value, s) == WithEvents(st.events, PutByIndexFrom(chain, i + 1, name, value, s));
    } else {
      assert FirstPutByIndexAnswer(chain, i, name, value, s) == i;
      assert PutByIndexFrom(chain, i, name, value, s) == st.outcome;
    }
  }

  /** When no descriptor answers, `putByIndex` is the generic object's put of the index's name. */
  lemma {:induction false} PutByIndexFallsBackToGeneric(chain: seq<Descriptor>, i: nat, name: Name, value: Value, s: GenericObject.Storage)
    requires i <= |chain|
    requires FirstPutByIndexAnswer(chain, i, name, value, s) == |chain|
    ensures var r := PutByIndexFrom(chain, i, name, value, s);
      var u := GenericObject.Put(s, name, value);
      r.result == u.ok && r.thrown.None? && r.storage == u.storage
    decreases |chain| - i
  {
    if i < |chain| {
      var st := PutByIndexStep(chain, i, name, value, s);
      assert st.Continue?;
      PutByIndexFallsBackToGeneric(chain, i + 1, name, value, s);
      assert PutByIndexFrom(chain, i, name, value, s) == WithEvents(st.events, PutByIndexFrom(chain, i + 1, name, value, s));
    }
  }

  /**
   * `putByIndex` changes no own property other than the index's name, and one
   * that fails or throws changes nothing.
   */
  lemma {:induction false} PutByIndexFrame(chain: seq<Descriptor>, i: nat, name: Name, value: Value, s: GenericObject.Storage)
    requires i <= |chain|
    ensures var r := PutByIndexFrom(chain, i, name, value, s);
      && (forall n :: n != name ==> GenericObject.Lookup(r.storage, n) == GenericObject.Lookup(s, n))
      && (!r.result || r.thrown.Some? ==> r.storage == s)
    decreases |chain| - i
  {
    if i < |chain| && PutByIndexStep(chain, i, name, value, s).Continue? {
      PutByIndexFrame(chain, i + 1, name, value, s);
    }
  }

  /**
   * A read-only static function refuses an indexed write even over a writable own
   * property: at the first answering descriptor, with no static value and the
   * class setter, if any, declining, the result is false and nothing changes.
   */
  lemma IndexedReadOnlyFunctionRefuses(chain: seq<Descriptor>, index: nat, value: Value, s: GenericObject.Storage)
    requires var name := IndexName(index);
      var k := FirstPutByIndexAnswer(chain, 0, name, value, s);
      && k < |chain|
      && FindStaticFunction(chain[k].staticFunctions, name).Some?
      && chain[k].staticFunctions[FindStaticFunction(chain[k].staticFunctions, name).value].attributes.readOnly
      && FindStaticValue(chain[k].staticValues, name).None?
      && (ClassSetter(chain, k, name, value).None? || !Decisive(ClassSetter(chain, k, name, value).value.0))
    ensures var r := PutByIndex(chain, index, value, s);
      !r.result && r.thrown.None? && r.storage == s
  {
    PutByIndexIsFirstAnswer(chain, 0, IndexName(index), value, s);
  }

  /** The calls of one `putByIndex` turn are class-level `setProperty` calls of that descriptor. */
  lemma PutByIndexStepCalls(chain: seq<Descriptor>, i: nat, name: Name, value: Value, s: GenericObject.Storage)
    requires i < |chain|
    ensures var st := PutByIndexStep(chain, i, name, value, s);
      var here := if st.Answered? then st.outcome.events else st.events;
      forall e :: e in here ==> e.hook == SetProperty && e.depth == i && Active(chain[i]).setProperty.Some?
  {
  }

  /**
   * `putByIndex` never calls a static-value setter: every callback it runs is a
   * class-level `setProperty` of a descriptor that has one, in chain order.
   */
  lemma {:induction false} PutByIndexCallsOnlyClassSetters(chain: seq<Descriptor>, i: nat, name: Name, value: Value, s: GenericObject.Storage)
    requires i <= |chain|
    ensures var evs := PutByIndexFrom(chain, i, name, value, s).events;
      && (forall e :: e in evs ==> e.hook == SetProperty && i <= e.depth < |chain| && Active(chain[e.depth]).setProperty.Some?)
      && DepthMonotone(evs)
    decreases |chain| - i
  {
    if i < |chain| {
      PutByIndexCallsOnlyClassSetters(chain, i + 1, name, value, s);
      PutByIndexStepCalls(chain, i, name, value, s);
      var st := PutByIndexStep(chain, i, name, value, s);
      if st.Continue? {
        var rest := PutByIndexFrom(chain, i + 1, name, value, s).events;
        assert PutByIndexFrom(chain, i, name, value, s).events == st.events + rest;
        DepthMonotonePrepend(st.events, rest, i);
      }
    }
  }

  /**
   * The repeated class setter: at a writable static value whose version matches,
   * a class `setProperty` that declined is called again, for the same name.
   */
  lemma PutByIndexRepeatsClassSetter(chain: seq<Descriptor>, i: nat, name: Name, value: Value, s: GenericObject.Storage)
    requires i < |chain|
    requires ClassSetter(chain, i, name, value).Some? && !Decisive(ClassSetter(chain, i, name, value).value.0)
    requires FindStaticValue(chain[i].staticValues, name).Some?
    requires var e := chain[i].staticValues[FindStaticValue(chain[i].staticValues, name).value];
      !e.attributes.readOnly && SetterReachable(chain[i], e)
    ensures var st := PutByIndexStep(chain, i, name, value, s);
      var evs := if st.Answered? then st.outcome.events else st.events;
      |evs| == 2 && evs[0] == evs[1] == ClassEvent(chain, i, SetProperty, true)
  {
  }

  // ---------------------------------------------------------------------------
  // deleteProperty

  /** One descriptor's turn in `deleteProperty`. */
  function DeleteStep(chain: seq<Descriptor>, i: nat, name: Name, s: GenericObject.Storage): Step<Outcome>
    requires i < |chain|
  {
    var d := chain[i];
    var h := Active(d);
    var answer := if h.deleteProperty.Some? then Some(h.deleteProperty.value(Receiver(d), name)) else None;
    var evs := if answer.Some? then [ClassEvent(chain, i, DeleteProperty, true)] else [];
    if answer.Some? && Decisive(answer.value) then Answered(Outcome(true, answer.value.exception, evs, s))
    else match FindStaticValue(d.staticValues, name)
      case Some(k) => Answered(Outcome(!d.staticValues[k].attributes.dontDelete, None, evs, s))
      case None =>
        match FindStaticFunction(d.staticFunctions, name)
        case Some(k) => Answered(Outcome(!d.staticFunctions[k].attributes.dontDelete, None, evs, s))
        case None => Continue(evs)
  }

  function DeleteFrom(chain: seq<Descriptor>, i: nat, name: Name, s: GenericObject.Storage): Outcome
    requires i <= |chain|
    decreases |chain| - i
  {
    if i == |chain| then
      var u := GenericObject.Delete(s, name);
      Outcome(u.ok, None, [], u.storage)
    else match DeleteStep(chain, i, name, s)
      case Answered(o) => o
      case Continue(evs) => WithEvents(evs, DeleteFrom(chain, i + 1, name, s))
  }

  /** `deleteProperty`: the chain walk from the most-derived class, then the generic object's delete. */
  function Delete(chain: seq<Descriptor>, name: Name, s: GenericObject.Storage): Outcome
  {
    DeleteFrom(chain, 0, name, s)
  }

  /** `deletePropertyByIndex`: the index converted to its identifier, then `deleteProperty`. */
  function DeleteByIndex(chain: seq<Descriptor>, index: nat, s: GenericObject.Storage): Outcome
  {
    Delete(chain, IndexName(index), s)
  }

  function FirstDeleteAnswer(chain: seq<Descriptor>, i: nat, name: Name, s: GenericObject.Storage): (k: nat)
    requires i <= |chain|
    ensures i <= k <= |chain|
    ensures forall j :: i <= j < k ==> DeleteStep(chain, j, name, s).Continue?
    ensures k < |chain| ==> DeleteStep(chain, k, name, s).Answered?
    decreases |chain| - i
  {
    if i == |chain| || DeleteStep(chain, i, name, s).Answered? then i else FirstDeleteAnswer(chain, i + 1, name, s)
  }

  /** Only `deleteProperty` callbacks run, from position `i` up to the first answering descriptor and none after it. */
  lemma {:induction false} DeleteCallsUpToFirstAnswer(chain: seq<Descriptor>, i: nat, name: Name, s: GenericObject.Storage)
    requires i <= |chain|
    ensures forall e :: e in DeleteFrom(chain, i, name, s).events ==>
      e.hook == DeleteProperty && i <= e.depth <= FirstDeleteAnswer(chain, i, name, s) && e.depth < |chain|
    decreases |chain| - i
  {
    if i < |chain| {
      var st := DeleteStep(chain, i, name, s);
      if st.Continue? {
        DeleteCallsUpToFirstAnswer(chain, i + 1, name, s);
        assert DeleteFrom(chain, i, name, s).events == st.events + DeleteFrom(chain, i + 1, name, s).events;
      }
    }
  }

  /**
   * First responder for `deleteProperty`: a descriptor that answers decides the
   * result and never removes an own property; with no answer the generic delete decides.
   */
  lemma {:induction false} DeleteIsFirstAnswer(chain: seq<Descriptor>, i: nat, name: Name, s: GenericObject.Storage)
    requires i <= |chain|
    ensures var r := DeleteFrom(chain, i, name, s);
      var k := FirstDeleteAnswer(chain, i, name, s);
      && (k < |chain| ==> r.result == DeleteStep(chain, k, name, s).outcome.result && r.storage == s
                          && r.thrown == DeleteStep(chain, k, name, s).outcome.thrown)
      && (k == |chain| ==> var u := GenericObject.Delete(s, name);
                           r.result == u.ok && r.storage == u.storage && r.thrown.None?)
    decreases |chain| - i
  {
    if i < |chain| && DeleteStep(chain, i, name, s).Continue? {
      DeleteIsFirstAnswer(chain, i + 1, name, s);
    }
  }

  /** A `deleteProperty` callback that throws makes the delete report success. */
  lemma {:induction false} DeleteThrowReportsTrue(chain: seq<Descriptor>, i: nat, name: Name, s: GenericObject.Storage)
    requires i <= |chain|
    ensures var r := DeleteFrom(chain, i, name, s);
      r.thrown.Some? ==> r.result
    decreases |chain| - i
  {
    if i < |chain| && DeleteStep(chain, i, name, s).Continue? {
      DeleteThrowReportsTrue(chain, i + 1, name, s);
    }
  }

  /**
   * A static entry decides a delete: at the first answering descriptor, when its
   * `deleteProperty` is absent or declined, the static value named `name` (or else
   * the static function) answers, and the delete succeeds exactly when that entry
   * is not DontDelete; nothing is removed and nothing is thrown.
   */
  lemma StaticEntryDecidesDelete(chain: seq<Descriptor>, name: Name, s: GenericObject.Storage)
    requires var k := FirstDeleteAnswer(chain, 0, name, s);
      && k < |chain|
      && (Active(chain[k]).deleteProperty.None? || !Decisive(Active(chain[k]).deleteProperty.value(Receiver(chain[k]), name)))
    ensures var d := chain[FirstDeleteAnswer(chain, 0, name, s)];
      var r := Delete(chain, name, s);
      && r.thrown.None? && r.storage == s
      && (FindStaticValue(d.staticValues, name).Some? ==>
            r.result == !d.staticValues[FindStaticValue(d.staticValues, name).value].attributes.dontDelete)
      && (FindStaticValue(d.staticValues, name).None? ==>
            FindStaticFunction(d.staticFunctions, name).Some?
            && r.result == !d.staticFunctions[FindStaticFunction(d.staticFunctions, name).value].attributes.dontDelete)
  {
    DeleteIsFirstAnswer(chain, 0, name, s);
  }
}
