/**
 * Script values, property names and attribute flags shared by every part of the
 * callback-object model.  The engine's value encoding and garbage collector are
 * outside the model: a value is an opaque datatype compared by identity.
 */
module Values {
  import opened Wrappers

  /** A property name (the identifier's unique string). */
  type Name = string

  /** Identity of a registered class descriptor (the `JSClassRef` pointer). */
  type ClassId = nat

  /** The opaque script values the dispatcher passes around. */
  datatype Value =
    | Undefined
    | Number(n: int)
    | Text(s: string)
    | HostObject(ref: nat)
      /** A function object made by `JSCallbackFunction::create`; the legacy form is not bound to a class. */
    | CallbackFunction(serial: nat, name: Name, boundClass: Option<ClassId>)
    | ReferenceError(message: string)

  /** Property attribute flags (`kJSPropertyAttributeReadOnly`, `...DontEnum`, `...DontDelete`). */
  datatype Attributes = Attributes(readOnly: bool, dontEnum: bool, dontDelete: bool)

  const NoAttributes := Attributes(false, false, false)

  /** The attributes every slot answered by the descriptor chain carries. */
  const ReadOnlyDontEnum := Attributes(true, true, false)

  /** The engine's preferred primitive type, passed to `defaultValue`. */
  datatype PreferredPrimitiveType = NoPreference | PreferNumber | PreferString

  /** The host API's type tag handed to `convertToType`. */
  datatype JSType = TypeNumber | TypeString

  /** Which property names an enumeration asks for. */
  datatype EnumerationMode = EnumerationMode(includeDontEnum: bool)

  const MissingValueMessage := "hasProperty callback returned true for a property that doesn't exist."
  const NullCallAsFunctionMessage := "Static function property defined with NULL callAsFunction callback."

  /** The hint handed to `convertToType`: only an explicit string preference asks for a string. */
  function TypeHint(hint: PreferredPrimitiveType): (t: JSType)
    ensures t == TypeString <==> hint == PreferString
  {
    if hint == PreferString then TypeString else TypeNumber
  }

  function DigitChar(d: nat): (c: char)
    requires d < 10
    ensures '0' <= c <= '9'
  {
    "0123456789"[d]
  }

  /** The identifier an array index is converted to (its decimal digits). */
  function IndexName(index: nat): (s: Name)
    ensures |s| >= 1
    ensures forall k :: 0 <= k < |s| ==> '0' <= s[k] <= '9'
  {
    if index < 10 then [DigitChar(index)] else IndexName(index / 10) + [DigitChar(index % 10)]
  }
}
