/**
 * `getOwnNonIndexPropertyNames`: every class in the chain, most-derived first,
 * contributes the names its `getPropertyNames` callback adds, then its
 * enumerable static values that have a getter, then its enumerable static
 * functions; the generic object's own names come last.  The name array ignores
 * a name it already holds.
 */
module Enumeration {
  import opened Wrappers
  import opened Values
  import opened ClassDescriptor
  import GenericObject

  predicate Distinct(names: seq<Name>)
  {
    forall p, q :: 0 <= p < q < |names| ==> names[p] != names[q]
  }

  /** `a` is a prefix of `b`: what the array held stays in front. */
  predicate IsPrefix(a: seq<Name>, b: seq<Name>)
  {
    |a| <= |b| && b[..|a|] == a
  }

  lemma PrefixTransitive(a: seq<Name>, b: seq<Name>, c: seq<Name>)
    requires IsPrefix(a, b) && IsPrefix(b, c)
    ensures IsPrefix(a, c)
  {
    assert c[..|a|] == c[..|b|][..|a|];
  }

  /** The name array's `add`: a name already present is not added again. */
  function AddName(acc: seq<Name>, n: Name): (r: seq<Name>)
    ensures n in acc ==> r == acc
    ensures n !in acc ==> r == acc + [n]
  {
    if n in acc then acc else acc + [n]
  }

  /** Adding the names of `ns` one after another. */
  function AddNames(acc: seq<Name>, ns: seq<Name>): (r: seq<Name>)
    ensures forall n :: n in r <==> n in acc || n in ns
    ensures IsPrefix(acc, r)
    ensures Distinct(acc) ==> Distinct(r)
    decreases |ns|
  {
    if ns == [] then acc
    else
      var before := AddNames(acc, ns[..|ns| - 1]);
      var r := AddName(before, ns[|ns| - 1]);
      PrefixTransitive(acc, before, r);
      assert forall n :: n in ns <==> n in ns[..|ns| - 1] || n == ns[|ns| - 1] by {
        assert ns == ns[..|ns| - 1] + [ns[|ns| - 1]];
      }
      r
  }

  /** Whether a static value is listed: it has a getter for its version, and is enumerable or the mode includes non-enumerable names. */
  predicate ValueListed(e: StaticValueEntry, mode: EnumerationMode)
  {
    EntryGetter(e).Some? && (!e.attributes.dontEnum || mode.includeDontEnum)
  }

  /** Whether a static function is listed: it is enumerable or the mode includes non-enumerable names. */
  predicate FunctionListed(e: StaticFunctionEntry, mode: EnumerationMode)
  {
    !e.attributes.dontEnum || mode.includeDontEnum
  }

  /** The names the static-value loop adds, in table order. */
  function ListedValues(t: seq<StaticValueEntry>, mode: EnumerationMode): seq<Name>
    decreases |t|
  {
    if t == [] then []
    else ListedValues(t[..|t| - 1], mode) + if ValueListed(t[|t| - 1], mode) then [t[|t| - 1].name] else []
  }

  /** The names the static-function loop adds, in table order. */
  function ListedFunctions(t: seq<StaticFunctionEntry>, mode: EnumerationMode): seq<Name>
    decreases |t|
  {
    if t == [] then []
    else ListedFunctions(t[..|t| - 1], mode) + if FunctionListed(t[|t| - 1], mode) then [t[|t| - 1].name] else []
  }

  /** Adding one more name after a list of names. */
  lemma AddNamesSnoc(acc: seq<Name>, ns: seq<Name>, n: Name)
    ensures AddNames(acc, ns + [n]) == AddName(AddNames(acc, ns), n)
  {
    assert (ns + [n])[..|ns + [n]| - 1] == ns;
  }

  /** The static-value loop's next entry. */
  lemma ListedValuesSnoc(t: seq<StaticValueEntry>, j: nat, mode: EnumerationMode)
    requires j < |t|
    ensures ListedValues(t[..j + 1], mode) == ListedValues(t[..j], mode) + if ValueListed(t[j], mode) then [t[j].name] else []
  {
    assert t[..j + 1][..j] == t[..j];
  }

  /** The static-function loop's next entry. */
  lemma ListedFunctionsSnoc(t: seq<StaticFunctionEntry>, j: nat, mode: EnumerationMode)
    requires j < |t|
    ensures ListedFunctions(t[..j + 1], mode) == ListedFunctions(t[..j], mode) + if FunctionListed(t[j], mode) then [t[j].name] else []
  {
    assert t[..j + 1][..j] == t[..j];
  }

  /** The static-value loop adds exactly the names of the listed entries. */
  lemma {:induction false} ListedValuesMembers(t: seq<StaticValueEntry>, mode: EnumerationMode, n: Name)
    ensures n in ListedValues(t, mode) <==> exists k :: 0 <= k < |t| && t[k].name == n && ValueListed(t[k], mode)
    decreases |t|
  {
    if t != [] {
      var t' := t[..|t| - 1];
      ListedValuesMembers(t', mode, n);
      assert forall k :: 0 <= k < |t'| ==> t'[k] == t[k];
      if exists k :: 0 <= k < |t| && t[k].name == n && ValueListed(t[k], mode) {
        var k :| 0 <= k < |t| && t[k].name == n && ValueListed(t[k], mode);
        if k < |t'| {
          assert t'[k].name == n && ValueListed(t'[k], mode);
        }
      }
    }
  }

  /** The static-function loop adds exactly the names of the listed entries. */
  lemma {:induction false} ListedFunctionsMembers(t: seq<StaticFunctionEntry>, mode: EnumerationMode, n: Name)
    ensures n in ListedFunctions(t, mode) <==> exists k :: 0 <= k < |t| && t[k].name == n && FunctionListed(t[k], mode)
    decreases |t|
  {
    if t != [] {
      var t' := t[..|t| - 1];
      ListedFunctionsMembers(t', mode, n);
      assert forall k :: 0 <= k < |t'| ==> t'[k] == t[k];
      if exists k :: 0 <= k < |t| && t[k].name == n && FunctionListed(t[k], mode) {
        var k :| 0 <= k < |t| && t[k].name == n && FunctionListed(t[k], mode);
        if k < |t'| {
          assert t'[k].name == n && FunctionListed(t'[k], mode);
        }
      }
    }
  }

  /** Whether a descriptor has a `getPropertyNames` callback for its version. */
  predicate ListsNames(d: Descriptor)
  {
    Active(d).getPropertyNames.Some?
  }

  /** The names a descriptor's `getPropertyNames` callback adds (none when it has no such callback). */
  function CallbackNames(chain: seq<Descriptor>, i: nat): seq<Name>
    requires i < |chain|
  {
    if ListsNames(chain[i]) then Active(chain[i]).getPropertyNames.value(Receiver(chain[i])) else []
  }

  /** One descriptor's contribution, in the order it is added: callback names, then listed static values, then listed static functions. */
  function Contribution(chain: seq<Descriptor>, i: nat, mode: EnumerationMode): seq<Name>
    requires i < |chain|
  {
    CallbackNames(chain, i) + ListedValues(chain[i].staticValues, mode) + ListedFunctions(chain[i].staticFunctions, mode)
  }

  /** The name array after the chain walk from position `i`. */
  function ChainNamesFrom(chain: seq<Descriptor>, i: nat, mode: EnumerationMode, acc: seq<Name>): seq<Name>
    requires i <= |chain|
    decreases |chain| - i
  {
    if i == |chain| then acc else ChainNamesFrom(chain, i + 1, mode, AddNames(acc, Contribution(chain, i, mode)))
  }

  /** `getOwnNonIndexPropertyNames` on an array already holding `acc`: the chain's names, then the generic object's. */
  function OwnNonIndexPropertyNames(chain: seq<Descriptor>, s: GenericObject.Storage, mode: EnumerationMode, acc: seq<Name>): seq<Name>
  {
    AddNames(ChainNamesFrom(chain, 0, mode, acc), GenericObject.Names(s, mode))
  }

  /** Whether some descriptor from position `i` on contributes `n`. */
  predicate ContributedFrom(chain: seq<Descriptor>, i: nat, n: Name, mode: EnumerationMode)
    requires i <= |chain|
    decreases |chain| - i
  {
    i < |chain| && (n in Contribution(chain, i, mode) || ContributedFrom(chain, i + 1, n, mode))
  }

  /** A contributing descriptor from `i` on is a witness for `ContributedFrom`. */
  lemma {:induction false} ContributedFromWitness(chain: seq<Descriptor>, i: nat, k: nat, n: Name, mode: EnumerationMode)
    requires i <= k < |chain| && n in Contribution(chain, k, mode)
    ensures ContributedFrom(chain, i, n, mode)
  {
    var j := k;
    while j > i
      invariant i <= j <= k && ContributedFrom(chain, j, n, mode)
    {
      j := j - 1;
    }
  }

  /** `ContributedFrom` names a contributing descriptor from `i` on. */
  lemma {:induction false} ContributedFromFind(chain: seq<Descriptor>, i: nat, n: Name, mode: EnumerationMode) returns (k: nat)
    requires i <= |chain| && ContributedFrom(chain, i, n, mode)
    ensures i <= k < |chain| && n in Contribution(chain, k, mode)
    decreases |chain| - i
  {
    if n in Contribution(chain, i, mode) {
      k := i;
    } else {
      k := ContributedFromFind(chain, i + 1, n, mode);
    }
  }

  /** `ContributedFrom` holds exactly when some descriptor from `i` on contributes the name. */
  lemma ContributedFromIsExists(chain: seq<Descriptor>, i: nat, n: Name, mode: EnumerationMode)
    requires i <= |chain|
    ensures ContributedFrom(chain, i, n, mode) <==> exists k :: i <= k < |chain| && n in Contribution(chain, k, mode)
  {
    if ContributedFrom(chain, i, n, mode) {
      var k := ContributedFromFind(chain, i, n, mode);
    }
    if exists k :: i <= k < |chain| && n in Contribution(chain, k, mode) {
      var k :| i <= k < |chain| && n in Contribution(chain, k, mode);
      ContributedFromWitness(chain, i, k, n, mode);
    }
  }

  /** A descriptor contributes a name exactly when its callback adds it or one of its listed static entries has it. */
  lemma ContributionMembers(chain: seq<Descriptor>, i: nat, mode: EnumerationMode, n: Name)
    requires i < |chain|
    ensures n in Contribution(chain, i, mode) <==>
      || n in CallbackNames(chain, i)
      || (exists k :: 0 <= k < |chain[i].staticValues| && chain[i].staticValues[k].name == n && ValueListed(chain[i].staticValues[k], mode))
      || (exists k :: 0 <= k < |chain[i].staticFunctions| && chain[i].staticFunctions[k].name == n && FunctionListed(chain[i].staticFunctions[k], mode))
  {
    ListedValuesMembers(chain[i].staticValues, mode, n);
    ListedFunctionsMembers(chain[i].staticFunctions, mode, n);
  }

  /** Adding two lists of names one after the other is adding their concatenation. */
  lemma {:induction false} AddNamesConcat(acc: seq<Name>, a: seq<Name>, b: seq<Name>)
    ensures AddNames(acc, a + b) == AddNames(AddNames(acc, a), b)
    decreases |b|
  {
    if b == [] {
      assert a + b == a;
    } else {
      var b' := b[..|b| - 1];
      assert (a + b)[..|a + b| - 1] == a + b';
      assert (a + b)[|a + b| - 1] == b[|b| - 1];
      AddNamesConcat(acc, a, b');
    }
  }

  /** The chain walk keeps what the array held, in front, and never duplicates a name. */
  lemma {:induction false} ChainNamesFromKeeps(chain: seq<Descriptor>, i: nat, mode: EnumerationMode, acc: seq<Name>)
    requires i <= |chain|
    ensures var r := ChainNamesFrom(chain, i, mode, acc);
      IsPrefix(acc, r) && (Distinct(acc) ==> Distinct(r))
    decreases |chain| - i
  {
    if i < |chain| {
      var next := AddNames(acc, Contribution(chain, i, mode));
      ChainNamesFromKeeps(chain, i + 1, mode, next);
      PrefixTransitive(acc, next, ChainNamesFrom(chain, i, mode, acc));
    }
  }

  /** The chain walk adds exactly the names some descriptor from `i` on contributes. */
  lemma {:induction false} ChainNamesFromMembers(chain: seq<Descriptor>, i: nat, mode: EnumerationMode, acc: seq<Name>, n: Name)
    requires i <= |chain|
    ensures n in ChainNamesFrom(chain, i, mode, acc) <==> n in acc || ContributedFrom(chain, i, n, mode)
    decreases |chain| - i
  {
    if i < |chain| {
      ChainNamesFromMembers(chain, i + 1, mode, AddNames(acc, Contribution(chain, i, mode)), n);
    }
  }

  /**
   * Enumeration: a name is listed exactly when the array already held it, some
   * class in the chain contributes it, or the generic object lists it; names
   * already present stay first, the chain's names precede every name only the
   * generic object contributes, and no name is listed twice.
   */
  lemma EnumerationSpec(chain: seq<Descriptor>, s: GenericObject.Storage, mode: EnumerationMode, acc: seq<Name>)
    ensures var r := OwnNonIndexPropertyNames(chain, s, mode, acc);
      var c := ChainNamesFrom(chain, 0, mode, acc);
      && (forall n :: n in r <==>
            (|| n in acc
             || (exists k :: 0 <= k < |chain| && n in Contribution(chain, k, mode))
             || (n in s.order && GenericObject.Listed(s, n, mode))))
      && IsPrefix(acc, c) && IsPrefix(c, r) && IsPrefix(acc, r)
      && (Distinct(acc) ==> Distinct(r))
  {
    ChainNamesFromKeeps(chain, 0, mode, acc);
    var c := ChainNamesFrom(chain, 0, mode, acc);
    var r := OwnNonIndexPropertyNames(chain, s, mode, acc);
    PrefixTransitive(acc, c, r);
    forall n
      ensures n in r <==>
        (|| n in acc
         || (exists k :: 0 <= k < |chain| && n in Contribution(chain, k, mode))
         || (n in s.order && GenericObject.Listed(s, n, mode)))
    {
      ChainNamesFromMembers(chain, 0, mode, acc, n);
      ContributedFromIsExists(chain, 0, n, mode);
    }
  }

  /** A non-enumerable static entry is listed only when the mode asks for non-enumerable names. */
  lemma DontEnumHidden(chain: seq<Descriptor>, i: nat, n: Name, mode: EnumerationMode)
    requires i < |chain| && !mode.includeDontEnum && n !in CallbackNames(chain, i)
    requires forall k :: 0 <= k < |chain[i].staticValues| && chain[i].staticValues[k].name == n ==> chain[i].staticValues[k].attributes.dontEnum
    requires forall k :: 0 <= k < |chain[i].staticFunctions| && chain[i].staticFunctions[k].name == n ==> chain[i].staticFunctions[k].attributes.dontEnum
    ensures n !in Contribution(chain, i, mode)
  {
    ContributionMembers(chain, i, mode, n);
  }

  /** The `getPropertyNames` calls of the walk from position `i`, each with the lock dropped. */
  function EnumerationEvents(chain: seq<Descriptor>, i: nat): seq<Event>
    requires i <= |chain|
    decreases |chain| - i
  {
    if i == |chain| then []
    else EnumerationEvent(chain, i) + EnumerationEvents(chain, i + 1)
  }

  /** The head of the events from position `i`: the call of descriptor `i`, if it has the callback. */
  function EnumerationEvent(chain: seq<Descriptor>, i: nat): seq<Event>
    requires i < |chain|
  {
    if ListsNames(chain[i]) then [ClassEvent(chain, i, GetPropertyNames, true)] else []
  }

  /** Every call the walk makes is a `getPropertyNames` of a descriptor from `i` on that has one, with the lock dropped. */
  lemma {:induction false} EnumerationCallsOnlyHooked(chain: seq<Descriptor>, i: nat)
    requires i <= |chain|
    ensures forall e :: e in EnumerationEvents(chain, i) ==>
      e.hook == GetPropertyNames && e.lockDropped && i <= e.depth < |chain| && ListsNames(chain[e.depth])
    decreases |chain| - i
  {
    if i < |chain| {
      EnumerationCallsOnlyHooked(chain, i + 1);
      assert EnumerationEvents(chain, i) == EnumerationEvent(chain, i) + EnumerationEvents(chain, i + 1);
    }
  }

  /** Every `getPropertyNames` callback runs, once, most-derived class first. */
  lemma {:induction false} EnumerationRunsDerivedToBase(chain: seq<Descriptor>, i: nat)
    requires i <= |chain|
    ensures var evs := EnumerationEvents(chain, i);
      && (forall j :: i <= j < |chain| && ListsNames(chain[j]) ==> exists e :: e in evs && e.depth == j)
      && DepthIncreasing(evs)
    decreases |chain| - i
  {
    if i < |chain| {
      EnumerationRunsDerivedToBase(chain, i + 1);
      EnumerationCallsOnlyHooked(chain, i + 1);
      var head := EnumerationEvent(chain, i);
      var rest := EnumerationEvents(chain, i + 1);
      var evs := EnumerationEvents(chain, i);
      assert evs == head + rest;
      DepthIncreasingPrepend(head, rest, i);
      forall j | i <= j < |chain| && ListsNames(chain[j])
        ensures exists e :: e in evs && e.depth == j
      {
        if j == i {
          assert evs[0] == ClassEvent(chain, i, GetPropertyNames, true);
        } else {
          var e :| e in rest && e.depth == j;
          assert e in evs;
        }
      }
    }
  }
}
