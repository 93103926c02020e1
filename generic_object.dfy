/**
 * The generic object a callback object falls back to (the `Parent::` operations):
 * an ordered table of own data properties.  Only what the dispatcher observes is
 * modelled: lookup, put, direct put, delete and enumeration of own properties.
 */
module GenericObject {
  import opened Wrappers
  import opened Values

  datatype Property = Property(value: Value, attributes: Attributes)

  /** Own properties, with the order in which their names were first added. */
  datatype Storage = Storage(order: seq<Name>, props: map<Name, Property>)

  const Empty := Storage([], map[])

  datatype Update = Update(ok: bool, storage: Storage)

  function Lookup(s: Storage, name: Name): Option<Property>
  {
    if name in s.props then Some(s.props[name]) else None
  }

  /** Sets (or replaces) an own property with the given attributes. */
  function PutDirect(s: Storage, name: Name, v: Value, attributes: Attributes): (r: Storage)
    ensures Lookup(r, name) == Some(Property(v, attributes))
    ensures name in r.order
    ensures forall n :: n != name ==> Lookup(r, n) == Lookup(s, n)
    ensures forall n :: n in s.order ==> n in r.order
  {
    Storage(if name in s.order then s.order else s.order + [name], s.props[name := Property(v, attributes)])
  }

  /** An ordinary assignment: refused on a read-only own property, otherwise stores the value. */
  function Put(s: Storage, name: Name, v: Value): (r: Update)
    ensures r.ok <==> (Lookup(s, name).None? || !Lookup(s, name).value.attributes.readOnly)
    ensures r.ok ==> Lookup(r.storage, name).Some? && Lookup(r.storage, name).value.value == v
    ensures !r.ok ==> r.storage == s
    ensures forall n :: n != name ==> Lookup(r.storage, n) == Lookup(s, n)
  {
    match Lookup(s, name)
    case None => Update(true, PutDirect(s, name, v, NoAttributes))
    case Some(p) =>
      if p.attributes.readOnly then Update(false, s)
      else Update(true, PutDirect(s, name, v, p.attributes))
  }

  function Without(names: seq<Name>, name: Name): (r: seq<Name>)
    ensures forall n :: n in r <==> n in names && n != name
  {
    if names == [] then []
    else (if names[0] == name then [] else [names[0]]) + Without(names[1..], name)
  }

  /** Deletion: an absent name is deleted trivially, a DontDelete one is refused. */
  function Delete(s: Storage, name: Name): (r: Update)
    ensures r.ok <==> (Lookup(s, name).None? || !Lookup(s, name).value.attributes.dontDelete)
    ensures r.ok ==> Lookup(r.storage, name).None?
    ensures !r.ok ==> r.storage == s
    ensures forall n :: n != name ==> Lookup(r.storage, n) == Lookup(s, n)
  {
    match Lookup(s, name)
    case None => Update(true, s)
    case Some(p) =>
      if p.attributes.dontDelete then Update(false, s)
      else Update(true, Storage(Without(s.order, name), s.props - {name}))
  }

  predicate Listed(s: Storage, n: Name, mode: EnumerationMode)
  {
    n in s.props && (!s.props[n].attributes.dontEnum || mode.includeDontEnum)
  }

  function ListedIn(s: Storage, order: seq<Name>, mode: EnumerationMode): (r: seq<Name>)
    ensures forall n :: n in r <==> n in order && Listed(s, n, mode)
  {
    if order == [] then []
    else (if Listed(s, order[0], mode) then [order[0]] else []) + ListedIn(s, order[1..], mode)
  }

  /** The own names an enumeration reports, in insertion order. */
  function Names(s: Storage, mode: EnumerationMode): (r: seq<Name>)
    ensures forall n :: n in r <==> n in s.order && Listed(s, n, mode)
  {
    ListedIn(s, s.order, mode)
  }
}
