/**
 * Calling and constructing through a callback object, `instanceof`, and
 * conversion to a primitive.  Each is a walk to the first descriptor that
 * defines the callback for its version; only that descriptor is consulted,
 * except for `defaultValue`, which moves on when the callback yields no value.
 */
module Invocation {
  import opened Wrappers
  import opened Values
  import opened ClassDescriptor

  /** What `getCallData` / `getConstructData` report. */
  datatype CallType = NoCall | HostCall

  /** The outcome of `call` or `construct`: the callback that ran and what it returned, or no callback at all. */
  datatype Invocation = Invoked(result: Value, thrown: Option<Value>, event: Event) | NotReached

  predicate CanCall(d: Descriptor)
  {
    Active(d).callAsFunction.Some?
  }

  predicate CanConstruct(d: Descriptor)
  {
    Active(d).callAsConstructor.Some?
  }

  // ---------------------------------------------------------------------------
  // call

  /** The first position from `i` whose descriptor has a `callAsFunction` callback, or `|chain|`. */
  function FirstCallable(chain: seq<Descriptor>, i: nat): (k: nat)
    requires i <= |chain|
    ensures i <= k <= |chain|
    ensures forall j :: i <= j < k ==> !CanCall(chain[j])
    ensures k < |chain| ==> CanCall(chain[k])
    decreases |chain| - i
  {
    if i == |chain| || CanCall(chain[i]) then i else FirstCallable(chain, i + 1)
  }

  function GetCallDataFrom(chain: seq<Descriptor>, i: nat): CallType
    requires i <= |chain|
    decreases |chain| - i
  {
    if i == |chain| then NoCall
    else if CanCall(chain[i]) then HostCall
    else GetCallDataFrom(chain, i + 1)
  }

  /** `getCallData`: the object is callable when some class in its chain has `callAsFunction`. */
  function GetCallData(chain: seq<Descriptor>): CallType
  {
    GetCallDataFrom(chain, 0)
  }

  lemma {:induction false} GetCallDataFromIsExists(chain: seq<Descriptor>, i: nat)
    requires i <= |chain|
    ensures GetCallDataFrom(chain, i) == HostCall <==> exists k :: i <= k < |chain| && CanCall(chain[k])
    decreases |chain| - i
  {
    if i < |chain| && !CanCall(chain[i]) {
      GetCallDataFromIsExists(chain, i + 1);
      if exists k :: i <= k < |chain| && CanCall(chain[k]) {
        var k :| i <= k < |chain| && CanCall(chain[k]);
        assert k != i;
      }
    }
  }

  function CallFrom(chain: seq<Descriptor>, i: nat, thisValue: Value, args: seq<Value>): Invocation
    requires i <= |chain|
    decreases |chain| - i
  {
    if i == |chain| then NotReached
    else if CanCall(chain[i]) then
      var c := Active(chain[i]).callAsFunction.value(Receiver(chain[i]), thisValue, args);
      Invoked(c.result, c.exception, ClassEvent(chain, i, CallAsFunction, true))
    else CallFrom(chain, i + 1, thisValue, args)
  }

  /** `call`: the callee's first `callAsFunction` callback runs, with the lock dropped. */
  function Call(chain: seq<Descriptor>, thisValue: Value, args: seq<Value>): Invocation
  {
    CallFrom(chain, 0, thisValue, args)
  }

  lemma {:induction false} CallFromIsFirstCallable(chain: seq<Descriptor>, i: nat, thisValue: Value, args: seq<Value>)
    requires i <= |chain|
    ensures var r := CallFrom(chain, i, thisValue, args);
      var k := FirstCallable(chain, i);
      && (k == |chain| <==> r.NotReached?)
      && (k < |chain| ==>
            var c := Active(chain[k]).callAsFunction.value(Receiver(chain[k]), thisValue, args);
            r == Invoked(c.result, c.exception, ClassEvent(chain, k, CallAsFunction, true)))
    decreases |chain| - i
  {
    if i < |chain| && !CanCall(chain[i]) {
      CallFromIsFirstCallable(chain, i + 1, thisValue, args);
    }
  }

  /**
   * `call` is reached exactly when `getCallData` reports a host call; it then
   * runs the first descriptor's `callAsFunction` (derived first), with that
   * descriptor's ABI, and passes through its result and exception.
   */
  lemma CallAgreesWithCallData(chain: seq<Descriptor>, thisValue: Value, args: seq<Value>)
    ensures Call(chain, thisValue, args).Invoked? <==> GetCallData(chain) == HostCall
    ensures var r := Call(chain, thisValue, args);
      r.Invoked? ==> var k := r.event.depth;
        && k < |chain| && CanCall(chain[k]) && (forall j :: 0 <= j < k ==> !CanCall(chain[j]))
        && r.event.hook == CallAsFunction && r.event.abi == AbiOf(chain[k]) && r.event.lockDropped
        && var c := Active(chain[k]).callAsFunction.value(Receiver(chain[k]), thisValue, args);
           r.result == c.result && r.thrown == c.exception
  {
    CallFromIsFirstCallable(chain, 0, thisValue, args);
    GetCallDataFromIsExists(chain, 0);
  }

  // ---------------------------------------------------------------------------
  // construct

  function FirstConstructible(chain: seq<Descriptor>, i: nat): (k: nat)
    requires i <= |chain|
    ensures i <= k <= |chain|
    ensures forall j :: i <= j < k ==> !CanConstruct(chain[j])
    ensures k < |chain| ==> CanConstruct(chain[k])
    decreases |chain| - i
  {
    if i == |chain| || CanConstruct(chain[i]) then i else FirstConstructible(chain, i + 1)
  }

  function GetConstructDataFrom(chain: seq<Descriptor>, i: nat): CallType
    requires i <= |chain|
    decreases |chain| - i
  {
    if i == |chain| then NoCall
    else if CanConstruct(chain[i]) then HostCall
    else GetConstructDataFrom(chain, i + 1)
  }

  /** `getConstructData`: the object is a constructor when some class in its chain has `callAsConstructor`. */
  function GetConstructData(chain: seq<Descriptor>): CallType
  {
    GetConstructDataFrom(chain, 0)
  }

  lemma {:induction false} GetConstructDataFromIsExists(chain: seq<Descriptor>, i: nat)
    requires i <= |chain|
    ensures GetConstructDataFrom(chain, i) == HostCall <==> exists k :: i <= k < |chain| && CanConstruct(chain[k])
    decreases |chain| - i
  {
    if i < |chain| && !CanConstruct(chain[i]) {
      GetConstructDataFromIsExists(chain, i + 1);
      if exists k :: i <= k < |chain| && CanConstruct(chain[k]) {
        var k :| i <= k < |chain| && CanConstruct(chain[k]);
        assert k != i;
      }
    }
  }

  function ConstructFrom(chain: seq<Descriptor>, i: nat, args: seq<Value>): Invocation
    requires i <= |chain|
    decreases |chain| - i
  {
    if i == |chain| then NotReached
    else if CanConstruct(chain[i]) then
      var c := Active(chain[i]).callAsConstructor.value(Receiver(chain[i]), args);
      Invoked(c.result, c.exception, ClassEvent(chain, i, CallAsConstructor, true))
    else ConstructFrom(chain, i + 1, args)
  }

  /** `construct`: the constructor's first `callAsConstructor` callback runs, with the lock dropped. */
  function Construct(chain: seq<Descriptor>, args: seq<Value>): Invocation
  {
    ConstructFrom(chain, 0, args)
  }

  lemma {:induction false} ConstructFromIsFirstConstructible(chain: seq<Descriptor>, i: nat, args: seq<Value>)
    requires i <= |chain|
    ensures var r := ConstructFrom(chain, i, args);
      var k := FirstConstructible(chain, i);
      && (k == |chain| <==> r.NotReached?)
      && (k < |chain| ==>
            var c := Active(chain[k]).callAsConstructor.value(Receiver(chain[k]), args);
            r == Invoked(c.result, c.exception, ClassEvent(chain, k, CallAsConstructor, true)))
    decreases |chain| - i
  {
    if i < |chain| && !CanConstruct(chain[i]) {
      ConstructFromIsFirstConstructible(chain, i + 1, args);
    }
  }

  /** `construct` is reached exactly when `getConstructData` reports a host constructor, and runs the first one. */
  lemma ConstructAgreesWithConstructData(chain: seq<Descriptor>, args: seq<Value>)
    ensures Construct(chain, args).Invoked? <==> GetConstructData(chain) == HostCall
    ensures var r := Construct(chain, args);
      r.Invoked? ==> var k := r.event.depth;
        && k < |chain| && CanConstruct(chain[k]) && (forall j :: 0 <= j < k ==> !CanConstruct(chain[j]))
        && r.event.hook == CallAsConstructor && r.event.abi == AbiOf(chain[k]) && r.event.lockDropped
        && var c := Active(chain[k]).callAsConstructor.value(Receiver(chain[k]), args);
           r.result == c.result && r.thrown == c.exception
  {
    ConstructFromIsFirstConstructible(chain, 0, args);
    GetConstructDataFromIsExists(chain, 0);
  }

  // ---------------------------------------------------------------------------
  // customHasInstance

  datatype InstanceCheck = InstanceCheck(result: bool, thrown: Option<Value>, events: seq<Event>)

  predicate CanCheckInstance(d: Descriptor)
  {
    Active(d).hasInstance.Some?
  }

  function FirstInstanceChecker(chain: seq<Descriptor>, i: nat): (k: nat)
    requires i <= |chain|
    ensures i <= k <= |chain|
    ensures forall j :: i <= j < k ==> !CanCheckInstance(chain[j])
    ensures k < |chain| ==> CanCheckInstance(chain[k])
    decreases |chain| - i
  {
    if i == |chain| || CanCheckInstance(chain[i]) then i else FirstInstanceChecker(chain, i + 1)
  }

  function HasInstanceFrom(chain: seq<Descriptor>, i: nat, value: Value): InstanceCheck
    requires i <= |chain|
    decreases |chain| - i
  {
    if i == |chain| then InstanceCheck(false, None, [])
    else if CanCheckInstance(chain[i]) then
      var a := Active(chain[i]).hasInstance.value(Receiver(chain[i]), value);
      InstanceCheck(a.result, a.exception, [ClassEvent(chain, i, HasInstance, true)])
    else HasInstanceFrom(chain, i + 1, value)
  }

  /** `customHasInstance`: the first `hasInstance` callback decides, even when it throws; with none the answer is false. */
  function CustomHasInstance(chain: seq<Descriptor>, value: Value): InstanceCheck
  {
    HasInstanceFrom(chain, 0, value)
  }

  /**
   * Exactly one `hasInstance` callback runs, the first one in the chain, and its
   * answer is the result; when no class has one the result is false, nothing is
   * thrown and no callback runs.
   */
  lemma {:induction false} HasInstanceIsFirstChecker(chain: seq<Descriptor>, i: nat, value: Value)
    requires i <= |chain|
    ensures var r := HasInstanceFrom(chain, i, value);
      var k := FirstInstanceChecker(chain, i);
      && (k == |chain| ==> r == InstanceCheck(false, None, []))
      && (k < |chain| ==>
            var a := Active(chain[k]).hasInstance.value(Receiver(chain[k]), value);
            r.result == a.result && r.thrown == a.exception && r.events == [ClassEvent(chain, k, HasInstance, true)])
    decreases |chain| - i
  {
    if i < |chain| && !CanCheckInstance(chain[i]) {
      HasInstanceIsFirstChecker(chain, i + 1, value);
    }
  }

  // ---------------------------------------------------------------------------
  // defaultValue

  /** A conversion the callbacks performed, or the hand-off to the generic object's conversion. */
  datatype Conversion = Converted(value: Value, thrown: Option<Value>, events: seq<Event>) | ParentDefault(events: seq<Event>)

  /** One descriptor's turn in `defaultValue`; the lock is not dropped around `convertToType`. */
  function ConvertStep(chain: seq<Descriptor>, i: nat, hint: PreferredPrimitiveType): Step<Conversion>
    requires i < |chain|
  {
    var h := Active(chain[i]);
    if h.convertToType.None? then Continue([])
    else
      var ev := [ClassEvent(chain, i, ConvertToType, false)];
      match h.convertToType.value(Receiver(chain[i]), TypeHint(hint))
      case Threw(e) => Answered(Converted(Undefined, Some(e), ev))
      case Fetched(v) => Answered(Converted(v, None, ev))
      case NoValue => Continue(ev)
  }

  function DefaultValueFrom(chain: seq<Descriptor>, i: nat, hint: PreferredPrimitiveType): Conversion
    requires i <= |chain|
    decreases |chain| - i
  {
    if i == |chain| then ParentDefault([])
    else match ConvertStep(chain, i, hint)
      case Answered(c) => c
      case Continue(evs) =>
        Prefixed(evs, DefaultValueFrom(chain, i + 1, hint))
  }

  /** A conversion with the calls `evs` made before it. */
  function Prefixed(evs: seq<Event>, c: Conversion): Conversion
  {
    if c.Converted? then Converted(c.value, c.thrown, evs + c.events) else ParentDefault(evs + c.events)
  }

  lemma PrefixedAppend(a: seq<Event>, b: seq<Event>, c: Conversion)
    ensures Prefixed(a, Prefixed(b, c)) == Prefixed(a + b, c)
  {
    assert a + (b + c.events) == (a + b) + c.events;
  }

  /** `defaultValue`: the first `convertToType` that yields a value or throws decides; otherwise the generic object's. */
  function DefaultValue(chain: seq<Descriptor>, hint: PreferredPrimitiveType): Conversion
  {
    DefaultValueFrom(chain, 0, hint)
  }

  /**
   * Every callback `defaultValue` runs is a `convertToType` of a descriptor that
   * has one, run without dropping the lock; a converted value without an
   * exception is what some such callback returned for the hint `TypeHint(hint)`.
   */
  lemma {:induction false} DefaultValueCalls(chain: seq<Descriptor>, i: nat, hint: PreferredPrimitiveType)
    requires i <= |chain|
    ensures var r := DefaultValueFrom(chain, i, hint);
      && (forall e :: e in r.events ==> e.hook == ConvertToType && !e.lockDropped
                                        && i <= e.depth < |chain| && Active(chain[e.depth]).convertToType.Some?)
      && (r.Converted? && r.thrown.None? ==>
            exists k :: i <= k < |chain| && Active(chain[k]).convertToType.Some?
                        && Active(chain[k]).convertToType.value(Receiver(chain[k]), TypeHint(hint)) == Fetched(r.value))
      && (r.Converted? && r.thrown.Some? ==> r.value == Undefined)
    decreases |chain| - i
  {
    if i < |chain| && ConvertStep(chain, i, hint).Continue? {
      DefaultValueCalls(chain, i + 1, hint);
    }
  }

  /** A `convertToType` that declines (yields no value) passes the conversion on, so a chain of decliners reaches the generic object. */
  lemma {:induction false} DecliningConvertersReachParent(chain: seq<Descriptor>, i: nat, hint: PreferredPrimitiveType)
    requires i <= |chain|
    requires forall j :: i <= j < |chain| && Active(chain[j]).convertToType.Some? ==>
      Active(chain[j]).convertToType.value(Receiver(chain[j]), TypeHint(hint)) == NoValue
    ensures DefaultValueFrom(chain, i, hint).ParentDefault?
    decreases |chain| - i
  {
    if i < |chain| {
      DecliningConvertersReachParent(chain, i + 1, hint);
    }
  }

  /** Whether position `i`'s `convertToType` decides: it exists and yields a value or throws. */
  predicate Converts(chain: seq<Descriptor>, i: nat, hint: PreferredPrimitiveType)
    requires i < |chain|
  {
    var h := Active(chain[i]);
    h.convertToType.Some? && !h.convertToType.value(Receiver(chain[i]), TypeHint(hint)).NoValue?
  }

  /** The first position from `i` whose `convertToType` decides, or `|chain|`. */
  function FirstConversion(chain: seq<Descriptor>, i: nat, hint: PreferredPrimitiveType): (k: nat)
    requires i <= |chain|
    ensures i <= k <= |chain|
    ensures forall j :: i <= j < k ==> !Converts(chain, j, hint)
    ensures k < |chain| ==> Converts(chain, k, hint)
    decreases |chain| - i
  {
    if i == |chain| || Converts(chain, i, hint) then i else FirstConversion(chain, i + 1, hint)
  }

  /**
   * First responder for `defaultValue`: the callbacks convert exactly when some
   * `convertToType` decides, and then the result is the first deciding one's
   * (undefined with its exception when it threw); the converters run in chain
   * order and none after the first deciding one.
   */
  lemma {:induction false} DefaultValueIsFirstConversion(chain: seq<Descriptor>, i: nat, hint: PreferredPrimitiveType)
    requires i <= |chain|
    ensures var r := DefaultValueFrom(chain, i, hint);
      var k := FirstConversion(chain, i, hint);
      && (r.Converted? <==> k < |chain|)
      && (k < |chain| ==> match Active(chain[k]).convertToType.value(Receiver(chain[k]), TypeHint(hint))
                          case Threw(x) => r.value == Undefined && r.thrown == Some(x)
                          case Fetched(v) => r.value == v && r.thrown.None?
                          case NoValue => false)
      && (forall e :: e in r.events ==> i <= e.depth <= k && e.depth < |chain|)
      && DepthIncreasing(r.events)
    decreases |chain| - i
  {
    if i < |chain| {
      var st := ConvertStep(chain, i, hint);
      if st.Continue? {
        DefaultValueIsFirstConversion(chain, i + 1, hint);
        DepthIncreasingPrepend(st.events, DefaultValueFrom(chain, i + 1, hint).events, i);
      }
    }
  }
}
