/**
 * Distributed properties as `AbstractClusterManager` reads them: typed
 * lookups over the `Map<String, Object>` that backs them. A value is a Java
 * object (or null) and a lookup names the class it expects.
 */
module Properties {

  /** A stored Java object; `Null` is a key stored with a null value. */
  datatype Value =
    | Null
    | Str(s: string)
    | Integer(i: int)
    | Long(l: int)
    | Boolean(b: bool)

  /** The `Class<T>` a lookup asks for. */
  datatype Kind = StringClass | IntegerClass | LongClass | BooleanClass | ObjectClass

  /** `clazz.isInstance(value)`: never true of null; `Object` admits every other value. */
  predicate IsInstance(kind: Kind, v: Value)
  {
    match v
    case Null => false
    case Str(_) => kind == StringClass || kind == ObjectClass
    case Integer(_) => kind == IntegerClass || kind == ObjectClass
    case Long(_) => kind == LongClass || kind == ObjectClass
    case Boolean(_) => kind == BooleanClass || kind == ObjectClass
  }

  /** The map returned by `getProperties()`. */
  type Store = map<string, Value>

  /**
   * `getProperty(name, clazz, defaultValue)`: the stored value when the key
   * is present and its value is an instance of the class, otherwise the
   * default.
   */
  function GetProperty(store: Store, name: string, kind: Kind, default: Value): (r: Value)
    ensures name in store && IsInstance(kind, store[name]) ==> r == store[name]
    ensures !(name in store && IsInstance(kind, store[name])) ==> r == default
  {
    if name !in store then
      default
    else if !IsInstance(kind, store[name]) then
      default
    else
      store[name]
  }

  /**
   * `getProperty(name, clazz)`: the three-argument form with a null default,
   * so the result is null or a stored value of the requested class.
   */
  function GetPropertyOfKind(store: Store, name: string, kind: Kind): (r: Value)
    ensures r == Null || (name in store && store[name] == r && IsInstance(kind, r))
    ensures name in store && IsInstance(kind, store[name]) ==> r == store[name]
  {
    GetProperty(store, name, kind, Null)
  }

  /** `getProperty(name)`: the stored string, or null when it is absent or not a string. */
  function GetStringProperty(store: Store, name: string): (r: Value)
    ensures r == Null || (r.Str? && name in store && store[name] == r)
    ensures name in store && store[name].Str? ==> r == store[name]
  {
    GetPropertyOfKind(store, name, StringClass)
  }

  /** After `setProperty(name, value)` a lookup of `name` yields the value when it has the requested class. */
  lemma GetAfterSet(store: Store, name: string, value: Value, kind: Kind, default: Value)
    ensures GetProperty(store[name := value], name, kind, default)
            == if IsInstance(kind, value) then value else default
  {
  }

  /** `setProperty` leaves every other key's lookups as they were. */
  lemma SetLeavesOtherKeys(store: Store, name: string, value: Value, other: string, kind: Kind, default: Value)
    requires other != name
    ensures GetProperty(store[name := value], other, kind, default) == GetProperty(store, other, kind, default)
  {
  }

  /** A key stored with null reads as absent: every lookup returns its default. */
  lemma StoredNullReadsAsDefault(store: Store, name: string, kind: Kind, default: Value)
    requires name in store && store[name] == Null
    ensures GetProperty(store, name, kind, default) == default
  {
  }

  /** On an empty store every lookup returns its default. */
  lemma EmptyStoreReadsAsDefault(name: string, kind: Kind, default: Value)
    ensures GetProperty(map[], name, kind, default) == default
  {
  }
}
