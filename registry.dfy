/**
 * The parser registry of src/parsers/registry.ts: a module-level object that `registerParser`
 * writes into, `getParser` reads from, and `parserMap` exposes through a proxy.
 */
module ParserRegistry {
  import opened Wrappers

  /** A property key as a proxy trap receives it. */
  datatype Key = StringKey(name: string) | SymbolKey(id: nat)

  /** The property descriptor the `getOwnPropertyDescriptor` trap returns. */
  datatype Descriptor<V> = Descriptor(configurable: bool, enumerable: bool, value: V, writable: bool)

  /** The own property names of `Object.prototype`, which every `{}` inherits. */
  const PrototypeNames: set<string> := {
    "constructor", "__defineGetter__", "__defineSetter__", "hasOwnProperty",
    "__lookupGetter__", "__lookupSetter__", "isPrototypeOf", "propertyIsEnumerable",
    "toString", "valueOf", "__proto__", "toLocaleString"
  }

  /** What `registry[name]` evaluates to on a plain object: an own parser, an inherited member, or undefined. */
  datatype Lookup<P> = Registered(parser: P) | Inherited(member: string) | Missing

  /** The lookup of a registered name: only the registry's own entries count. */
  function Find<P>(entries: map<string, P>, name: string): (r: Option<P>)
    ensures r.Some? <==> name in entries
    ensures r.Some? ==> r.value == entries[name]
  {
    if name in entries then Some(entries[name]) else None
  }

  /** `registry[name]` as written: a name that is not registered still finds what `Object.prototype` holds. */
  function FindAsWritten<P>(entries: map<string, P>, name: string): (r: Lookup<P>)
    ensures r.Registered? <==> name in entries
    ensures r.Inherited? <==> name !in entries && name in PrototypeNames
  {
    if name in entries then Registered(entries[name])
    else if name in PrototypeNames then Inherited(name)
    else Missing
  }

  /** The proxy's `get` trap: string keys look the name up, other keys give undefined. */
  function ProxyGet<P>(entries: map<string, P>, key: Key): Option<P>
  {
    match key
    case StringKey(name) => Find(entries, name)
    case SymbolKey(_) => None
  }

  /** The proxy's `ownKeys` trap: the registry's own keys, without their order. */
  function OwnKeys<P>(entries: map<string, P>): set<string>
  {
    entries.Keys
  }

  /** The proxy's `getOwnPropertyDescriptor` trap, with `in` read as an own-key test. */
  function OwnDescriptor<P>(entries: map<string, P>, key: Key): Option<Descriptor<P>>
  {
    match key
    case StringKey(name) =>
      if name in entries then Some(Descriptor(true, true, entries[name], true)) else None
    case SymbolKey(_) => None
  }

  /** The same trap as written: `prop in registry` also holds for the inherited names. */
  function OwnDescriptorAsWritten<P>(entries: map<string, P>, key: Key): Option<Descriptor<Lookup<P>>>
  {
    match key
    case StringKey(name) =>
      if name in entries || name in PrototypeNames then Some(Descriptor(true, true, FindAsWritten(entries, name), true))
      else None
    case SymbolKey(_) => None
  }

  /** The registry object and the operations that reach it. */
  class Registry<P> {
    var entries: map<string, P>

    /** `const registry = {}` */
    constructor()
      ensures entries == map[]
    {
      entries := map[];
    }

    /** `registerParser`: set the name's own entry, overwriting an earlier one. */
    method Register(name: string, parser: P)
      modifies this
      ensures entries == old(entries)[name := parser]
      ensures Get(name) == Some(parser)
      ensures forall other :: other != name ==> Get(other) == old(Get(other))
    {
      entries := entries[name := parser];
    }

    /** `getParser` */
    function Get(name: string): Option<P>
      reads this
    {
      Find(entries, name)
    }

    /** `parserMap[key]` */
    function MapGet(key: Key): Option<P>
      reads this
    {
      ProxyGet(entries, key)
    }

    /** `Object.keys(parserMap)` as a set. */
    function Keys(): set<string>
      reads this
    {
      OwnKeys(entries)
    }
  }

  /** After registering a parser under a name, the name finds it and every other name finds what it found before. */
  lemma RegisterThenFind<P>(entries: map<string, P>, name: string, parser: P, other: string)
    ensures Find(entries[name := parser], name) == Some(parser)
    ensures other != name ==> Find(entries[name := parser], other) == Find(entries, other)
  {
  }

  /** Registering again overwrites: the later parser is the one found. */
  lemma RegisterOverwrites<P>(entries: map<string, P>, name: string, first: P, second: P)
    ensures Find(entries[name := first][name := second], name) == Some(second)
    ensures entries[name := first][name := second] == entries[name := second]
  {
  }

  /** A name never registered looks up as absent, not as an error. */
  lemma FindMissing<P>(entries: map<string, P>, name: string)
    requires name !in OwnKeys(entries)
    ensures Find(entries, name).None?
  {
  }

  /** `parserMap[k]` is `getParser(k)` for a string key and undefined for any other key. */
  lemma ProxyGetAgrees<P>(entries: map<string, P>, key: Key)
    ensures key.StringKey? ==> ProxyGet(entries, key) == Find(entries, key.name)
    ensures key.SymbolKey? ==> ProxyGet(entries, key).None?
  {
  }

  /** The key set of the proxy is exactly the set of names that find a parser. */
  lemma OwnKeysExact<P>(entries: map<string, P>)
    ensures forall name :: name in OwnKeys(entries) <==> Find(entries, name).Some?
  {
  }

  /** A descriptor exists exactly for a registered name, and it describes that name's parser. */
  lemma DescriptorIff<P>(entries: map<string, P>, key: Key)
    ensures OwnDescriptor(entries, key).Some? <==> key.StringKey? && key.name in OwnKeys(entries)
    ensures OwnDescriptor(entries, key).Some? ==>
      OwnDescriptor(entries, key).value == Descriptor(true, true, Find(entries, key.name).value, true)
  {
  }

  /** Outside the inherited names, the lookup as written agrees with the own-entry lookup. */
  lemma AsWrittenAgrees<P>(entries: map<string, P>, name: string)
    requires name !in PrototypeNames
    ensures FindAsWritten(entries, name).Missing? <==> Find(entries, name).None?
    ensures FindAsWritten(entries, name).Registered? ==> Find(entries, name) == Some(FindAsWritten(entries, name).parser)
    ensures OwnDescriptorAsWritten(entries, StringKey(name)).Some? <==> OwnDescriptor(entries, StringKey(name)).Some?
  {
  }

  /**
   * On a registry without "toString", such as the empty one, the name is not registered, yet the
   * lookup as written finds the inherited method, and the proxy describes a property that its key
   * list does not have.
   */
  lemma InheritedNameFound<P>(entries: map<string, P>)
    requires "toString" !in entries
    ensures Find(entries, "toString").None?
    ensures FindAsWritten(entries, "toString") == Inherited("toString")
    ensures OwnDescriptorAsWritten(entries, StringKey("toString")).Some?
    ensures "toString" !in OwnKeys(entries)
  {
    assert "toString" in PrototypeNames;
  }
}
