/**
 * Chain membership, the class name, and the order of the lifecycle callbacks:
 * `init` runs `initialize` from the root class down to the instance's own class,
 * the destructor runs `finalize` from the instance's own class up to the root.
 */
module Lifecycle {
  import opened Wrappers
  import opened Values
  import opened ClassDescriptor

  /** The walk of `inherits` from chain position `i`. */
  function InheritsFrom(chain: seq<Descriptor>, i: nat, c: ClassId): (r: bool)
    requires i <= |chain|
    ensures r <==> exists k :: i <= k < |chain| && chain[k].id == c
    decreases |chain| - i
  {
    if i == |chain| then false
    else if chain[i].id == c then true
    else InheritsFrom(chain, i + 1, c)
  }

  /** `inherits(c)`: whether `c` is the instance's class or one of its ancestors. */
  function Inherits(chain: seq<Descriptor>, c: ClassId): (r: bool)
    ensures r <==> exists k :: 0 <= k < |chain| && chain[k].id == c
  {
    InheritsFrom(chain, 0, c)
  }

  /** `className`: the instance's own class name, or the generic object's when that is empty. */
  function ClassName(chain: seq<Descriptor>, parentClassName: string): (r: string)
    requires |chain| >= 1
    ensures chain[0].className != "" ==> r == chain[0].className
    ensures chain[0].className == "" ==> r == parentClassName
  {
    if chain[0].className != "" then chain[0].className else parentClassName
  }

  /** Whether a descriptor has an `initialize` callback for its version. */
  predicate HasInitialize(d: Descriptor)
  {
    (d.version == LegacyVersion && d.v0.initialize) || (d.version == ExtendedVersion && d.v1000.initialize)
  }

  /** Whether a descriptor has a `finalize` callback for its version. */
  predicate HasFinalize(d: Descriptor)
  {
    (d.version == LegacyVersion && d.v0.finalize) || (d.version == ExtendedVersion && d.v1000.finalize)
  }

  /** The `initialize` call `init` makes for position `i` (with the lock dropped), if any. */
  function InitializeEvent(chain: seq<Descriptor>, i: nat): seq<Event>
    requires i < |chain|
  {
    if HasInitialize(chain[i]) then [ClassEvent(chain, i, Initialize, true)] else []
  }

  /** The `finalize` call the destructor makes for position `i` (the lock is not dropped), if any. */
  function FinalizeEvent(chain: seq<Descriptor>, i: nat): seq<Event>
    requires i < |chain|
  {
    if HasFinalize(chain[i]) then [ClassEvent(chain, i, Finalize, false)] else []
  }

  /** The calls of `init`'s backward loop over the collected routines `chain[i..]`. */
  function InitializeEvents(chain: seq<Descriptor>, i: nat): seq<Event>
    requires i <= |chain|
    decreases |chain| - i
  {
    if i == |chain| then [] else InitializeEvents(chain, i + 1) + InitializeEvent(chain, i)
  }

  /** The calls of the destructor's loop over `chain[i..]`. */
  function FinalizeEvents(chain: seq<Descriptor>, i: nat): seq<Event>
    requires i <= |chain|
    decreases |chain| - i
  {
    if i == |chain| then [] else FinalizeEvent(chain, i) + FinalizeEvents(chain, i + 1)
  }

  /** Reference order: the `initialize` calls listed in chain order (derived first). */
  function InitializeInChainOrder(chain: seq<Descriptor>, i: nat): seq<Event>
    requires i <= |chain|
    decreases |chain| - i
  {
    if i == |chain| then [] else InitializeEvent(chain, i) + InitializeInChainOrder(chain, i + 1)
  }

  function Reverse<T>(s: seq<T>): seq<T>
  {
    if s == [] then [] else Reverse(s[1..]) + [s[0]]
  }

  lemma {:induction false} ReverseAppend<T>(a: seq<T>, b: seq<T>)
    ensures Reverse(a + b) == Reverse(b) + Reverse(a)
  {
    if a == [] {
      assert a + b == b;
    } else {
      assert (a + b)[1..] == a[1..] + b;
      ReverseAppend(a[1..], b);
    }
  }

  /** `init` runs the `initialize` callbacks in exactly the reverse of chain order. */
  lemma {:induction false} InitializeReversesChainOrder(chain: seq<Descriptor>, i: nat)
    requires i <= |chain|
    ensures InitializeEvents(chain, i) == Reverse(InitializeInChainOrder(chain, i))
    decreases |chain| - i
  {
    if i < |chain| {
      InitializeReversesChainOrder(chain, i + 1);
      ReverseAppend(InitializeEvent(chain, i), InitializeInChainOrder(chain, i + 1));
      var head := InitializeEvent(chain, i);
      assert Reverse(head) == head by {
        if head != [] {
          assert head[1..] == [];
        }
      }
    }
  }

  /** Every `initialize` call comes from a descriptor of `chain[i..]` that has the callback, with the lock dropped. */
  lemma {:induction false} InitializeCallsOnlyHooked(chain: seq<Descriptor>, i: nat)
    requires i <= |chain|
    ensures forall e :: e in InitializeEvents(chain, i) ==>
      i <= e.depth < |chain| && e.hook == Initialize && e.lockDropped
      && e.cls == chain[e.depth].id && HasInitialize(chain[e.depth])
    decreases |chain| - i
  {
    if i < |chain| {
      InitializeCallsOnlyHooked(chain, i + 1);
    }
  }

  /** Every descriptor of `chain[i..]` with an `initialize` callback is called. */
  lemma {:induction false} InitializeCallsEveryHooked(chain: seq<Descriptor>, i: nat)
    requires i <= |chain|
    ensures forall j :: i <= j < |chain| && HasInitialize(chain[j]) ==> exists e :: e in InitializeEvents(chain, i) && e.depth == j
    decreases |chain| - i
  {
    if i < |chain| {
      InitializeCallsEveryHooked(chain, i + 1);
      var evs := InitializeEvents(chain, i);
      forall j | i <= j < |chain| && HasInitialize(chain[j])
        ensures exists e :: e in evs && e.depth == j
      {
        if j == i {
          assert evs[|evs| - 1] == ClassEvent(chain, i, Initialize, true);
        } else {
          var e :| e in InitializeEvents(chain, i + 1) && e.depth == j;
          assert e in evs;
        }
      }
    }
  }

  /** Base to derived: the `initialize` calls are made in strictly decreasing depth. */
  lemma {:induction false} InitializeRunsBaseToDerived(chain: seq<Descriptor>, i: nat)
    requires i <= |chain|
    ensures DepthDecreasing(InitializeEvents(chain, i))
    decreases |chain| - i
  {
    if i < |chain| {
      InitializeRunsBaseToDerived(chain, i + 1);
      InitializeCallsOnlyHooked(chain, i + 1);
      DepthDecreasingAppend(InitializeEvents(chain, i + 1), InitializeEvent(chain, i), i);
    }
  }

  /** Every `finalize` call comes from a descriptor of `chain[i..]` that has the callback, without dropping the lock. */
  lemma {:induction false} FinalizeCallsOnlyHooked(chain: seq<Descriptor>, i: nat)
    requires i <= |chain|
    ensures forall e :: e in FinalizeEvents(chain, i) ==>
      i <= e.depth < |chain| && e.hook == Finalize && !e.lockDropped
      && e.cls == chain[e.depth].id && HasFinalize(chain[e.depth])
    decreases |chain| - i
  {
    if i < |chain| {
      FinalizeCallsOnlyHooked(chain, i + 1);
    }
  }

  /** Every descriptor of `chain[i..]` with a `finalize` callback is called. */
  lemma {:induction false} FinalizeCallsEveryHooked(chain: seq<Descriptor>, i: nat)
    requires i <= |chain|
    ensures forall j :: i <= j < |chain| && HasFinalize(chain[j]) ==> exists e :: e in FinalizeEvents(chain, i) && e.depth == j
    decreases |chain| - i
  {
    if i < |chain| {
      FinalizeCallsEveryHooked(chain, i + 1);
      var evs := FinalizeEvents(chain, i);
      forall j | i <= j < |chain| && HasFinalize(chain[j])
        ensures exists e :: e in evs && e.depth == j
      {
        if j == i {
          assert evs[0] == ClassEvent(chain, i, Finalize, false);
        } else {
          var e :| e in FinalizeEvents(chain, i + 1) && e.depth == j;
          assert e in evs;
        }
      }
    }
  }

  /** Derived to base: the `finalize` calls are made in strictly increasing depth. */
  lemma {:induction false} FinalizeRunsDerivedToBase(chain: seq<Descriptor>, i: nat)
    requires i <= |chain|
    ensures DepthIncreasing(FinalizeEvents(chain, i))
    decreases |chain| - i
  {
    if i < |chain| {
      FinalizeRunsDerivedToBase(chain, i + 1);
      FinalizeCallsOnlyHooked(chain, i + 1);
      DepthIncreasingPrepend(FinalizeEvent(chain, i), FinalizeEvents(chain, i + 1), i);
    }
  }

  /** For a root, mid, leaf chain whose classes all have both callbacks. */
  lemma ThreeLevelLifecycle(leaf: Descriptor, mid: Descriptor, root: Descriptor)
    requires HasInitialize(leaf) && HasInitialize(mid) && HasInitialize(root)
    requires HasFinalize(leaf) && HasFinalize(mid) && HasFinalize(root)
    ensures var init := InitializeEvents([leaf, mid, root], 0);
      |init| == 3 && init[0].cls == root.id && init[1].cls == mid.id && init[2].cls == leaf.id
    ensures var fin := FinalizeEvents([leaf, mid, root], 0);
      |fin| == 3 && fin[0].cls == leaf.id && fin[1].cls == mid.id && fin[2].cls == root.id
  {
    var chain := [leaf, mid, root];
    assert InitializeEvents(chain, 2) == [ClassEvent(chain, 2, Initialize, true)];
    assert InitializeEvents(chain, 1) == [ClassEvent(chain, 2, Initialize, true), ClassEvent(chain, 1, Initialize, true)];
    assert FinalizeEvents(chain, 2) == [ClassEvent(chain, 2, Finalize, false)];
    assert FinalizeEvents(chain, 1) == [ClassEvent(chain, 1, Finalize, false), ClassEvent(chain, 2, Finalize, false)];
  }
}
