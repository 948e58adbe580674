/** `useRealtimeData(dataType)`: the generic realtime list hook. A data type
    is looked up in a two-entry configuration table, the list is fetched
    from the type's endpoint, and the type's three events keep it current. */
module RealtimeData {
  import opened Common
  import Sync

  datatype EventConfig = EventConfig(endpoint: string, names: Sync.EventNames)

  const AnnouncementsConfig := EventConfig("announcements",
    Sync.EventNames("announcement_created", "announcement_updated", "announcement_deleted"))
  const SchoolsConfig := EventConfig("schools",
    Sync.EventNames("school_created", "school_updated", "school_deleted"))

  /** The supported data types, as the table's own keys. */
  const SupportedTypes: set<string> := {"announcements", "schools"}

  /** The names every plain object inherits from `Object.prototype`; reading
      any of them off the table yields a function or, for `__proto__`, an
      object, all of them truthy. */
  const InheritedNames: set<string> := {
    "constructor", "hasOwnProperty", "isPrototypeOf", "propertyIsEnumerable",
    "toLocaleString", "toString", "valueOf", "__proto__",
    "__defineGetter__", "__defineSetter__", "__lookupGetter__", "__lookupSetter__"
  }

  /** What `eventConfig[dataType]` reads: an own entry, an inherited member,
      or `undefined`. */
  datatype ConfigRead = OwnEntry(config: EventConfig) | InheritedMember(name: string) | Undefined

  /** `eventConfig[dataType]` as written: the property read walks the
      prototype chain. */
  function ReadConfigAsWritten(dataType: string): (r: ConfigRead)
    ensures r.Undefined? <==> dataType !in SupportedTypes + InheritedNames
  {
    if dataType == "announcements" then OwnEntry(AnnouncementsConfig)
    else if dataType == "schools" then OwnEntry(SchoolsConfig)
    else if dataType in InheritedNames then InheritedMember(dataType)
    else Undefined
  }

  /** The guard `if (!config) throw` as written: it throws only on `undefined`. */
  function CheckConfigAsWritten(dataType: string): (r: Result<ConfigRead>)
    ensures r.Failure? <==> ReadConfigAsWritten(dataType).Undefined?
  {
    match ReadConfigAsWritten(dataType)
    case Undefined => Failure("Unsupported data type: " + dataType)
    case read => Success(read)
  }

  /** As written, an inherited name such as `toString` passes the guard with no
      configuration at all: the hook goes on to fetch `${API}/undefined` and
      to listen for the event `undefined`. */
  lemma InheritedNamePassesGuard()
    ensures "toString" !in SupportedTypes
    ensures CheckConfigAsWritten("toString").Success?
    ensures !CheckConfigAsWritten("toString").value.OwnEntry?
  {
  }

  /** The evidently intended lookup: only the table's own keys are supported,
      any other name throws `Unsupported data type: <name>`. Each supported
      type's endpoint is its own name, and its events are the singular name
      followed by `_created`, `_updated` and `_deleted`. */
  function LookupConfig(dataType: string): (r: Result<EventConfig>)
    ensures r.Success? <==> dataType in SupportedTypes
    ensures r.Failure? ==> r.error == "Unsupported data type: " + dataType
    ensures r.Success? ==> r.value.endpoint == dataType
  {
    if dataType == "announcements" then Success(AnnouncementsConfig)
    else if dataType == "schools" then Success(SchoolsConfig)
    else Failure("Unsupported data type: " + dataType)
  }

  /** Every supported type is configured after its own name: a plural
      `singular + "s"` that is supported has the events `singular` followed by
      `_created`, `_updated` and `_deleted`. */
  lemma {:induction false} ConfigNamedAfterType(singular: string)
    ensures LookupConfig(singular + "s").Success? ==>
              LookupConfig(singular + "s").value.names
              == Sync.EventNames(singular + "_created", singular + "_updated", singular + "_deleted")
  {
    var plural := singular + "s";
    if plural == "announcements" {
      SameStem(singular, "announcement");
    } else if plural == "schools" {
      SameStem(singular, "school");
    }
  }

  /** Two words with the same plural are the same word. */
  lemma SameStem(a: string, b: string)
    requires a + "s" == b + "s"
    ensures a == b
  {
    assert a == (a + "s")[..|a|] && b == (b + "s")[..|b|];
  }

  /** The own-entry reading agrees with the as-written read on every name it
      accepts, and rejects exactly the names the as-written guard lets through
      by inheritance or rejects outright. */
  lemma LookupRefinesAsWritten(dataType: string)
    ensures LookupConfig(dataType).Success? ==> ReadConfigAsWritten(dataType) == OwnEntry(LookupConfig(dataType).value)
    ensures LookupConfig(dataType).Failure? <==>
              (CheckConfigAsWritten(dataType).Failure? || ReadConfigAsWritten(dataType).InheritedMember?)
  {
  }

  /** The hook's `data`, `loading` and `error`. */
  datatype RealtimeState = RealtimeState(data: seq<Record>, loading: bool, error: Option<string>)

  /** Mounting the hook as written: the guard throws only for a name the
      table read leaves `undefined`; an inherited name mounts with no
      configuration entry behind it. */
  function MountAsWritten(dataType: string): (r: Result<(ConfigRead, RealtimeState)>)
    ensures r.Failure? <==> dataType !in SupportedTypes + InheritedNames
    ensures r.Failure? ==> r.error == "Unsupported data type: " + dataType
    ensures r.Success? ==> r.value.0 == ReadConfigAsWritten(dataType) && r.value.1 == RealtimeState([], true, None)
  {
    match CheckConfigAsWritten(dataType)
    case Failure(e) => Failure(e)
    case Success(read) => Success((read, RealtimeState([], true, None)))
  }

  /** The corrected mount: an unsupported type throws before any state
      exists; otherwise the configuration and the initial state. */
  function Mount(dataType: string): (r: Result<(EventConfig, RealtimeState)>)
    ensures r.Failure? <==> dataType !in SupportedTypes
    ensures r.Failure? ==> r.error == "Unsupported data type: " + dataType
    ensures r.Success? ==> r.value.0.endpoint == dataType && r.value.1 == RealtimeState([], true, None)
  {
    match LookupConfig(dataType)
    case Failure(e) => Failure(e)
    case Success(config) => Success((config, RealtimeState([], true, None)))
  }

  /** The corrected mount agrees with the as-written one on the supported
      types, and differs from it exactly on the inherited names, which mount
      as written but throw once corrected. */
  lemma {:induction false} MountRefinesAsWritten(dataType: string)
    ensures Mount(dataType).Success? ==>
              MountAsWritten(dataType) == Success((OwnEntry(Mount(dataType).value.0), Mount(dataType).value.1))
    ensures Mount(dataType).Failure? && MountAsWritten(dataType).Success? <==> dataType in InheritedNames
  {
    if dataType in SupportedTypes {
      assert dataType == "announcements" || dataType == "schools";
    }
  }

  /** What the snapshot request produced: a throw (network failure or a body
      that is not JSON), or a parsed body `{ success, data }` whose `data` may
      be absent. */
  datatype SnapshotReply = Threw | Replied(success: bool, data: Option<seq<Record>>)

  /** The reply ends in the success branch: logging `result.data.length`
      throws when `data` is absent, so a success without data fails too. */
  predicate Loaded(x: SnapshotReply)
  {
    x.Replied? && x.success && x.data.Some?
  }

  /** The message the catch block stores, whatever was thrown. */
  function LoadFailedMessage(dataType: string): string
  {
    "Failed to load " + dataType + ". Please try again later."
  }

  /** One run of `fetchData`: loading on and error cleared, then either the
      fetched list or the fixed failure message with an emptied list, then
      loading off. */
  function FetchData(s: RealtimeState, dataType: string, x: SnapshotReply): (r: RealtimeState)
    ensures !r.loading
    ensures Loaded(x) ==> r.data == x.data.value && r.error.None?
    ensures !Loaded(x) ==> r.data == [] && r.error == Some(LoadFailedMessage(dataType))
  {
    var started := s.(loading := true, error := None);
    if x.Replied? && x.success then
      match x.data
      case Some(d) => started.(data := d, loading := false)
      case None => started.(data := [], error := Some(LoadFailedMessage(dataType)), loading := false)
    else started.(data := [], error := Some(LoadFailedMessage(dataType)), loading := false)
  }

  /** A fetch's outcome depends only on the reply: a stale error or list from
      an earlier attempt never survives a new one. */
  lemma FetchForgetsPriorState(s: RealtimeState, t: RealtimeState, dataType: string, x: SnapshotReply)
    ensures FetchData(s, dataType, x) == FetchData(t, dataType, x)
  {
  }

  /** An event reaching the hook: listeners exist only while a socket is
      present and connected; created records go to the front. */
  function OnEvent(s: RealtimeState, config: EventConfig, hasSocket: bool, connected: bool, ev: Sync.SocketEvent): (r: RealtimeState)
    ensures r.loading == s.loading && r.error == s.error
    ensures !(hasSocket && connected) ==> r == s
    ensures hasSocket && connected && ev.name == config.names.created ==> r.data == [ev.payload] + s.data
    ensures (hasSocket && connected && ev.name != config.names.created && ev.name == config.names.updated)
      ==> r.data == Sync.ApplyUpdated(s.data, ev.payload)
    ensures (hasSocket && connected && ev.name != config.names.created && ev.name != config.names.updated
             && ev.name == config.names.deleted)
      ==> r.data == Sync.ApplyDeleted(s.data, ev.payload)
    ensures (ev.name != config.names.created && ev.name != config.names.updated
             && ev.name != config.names.deleted) ==> r == s
  {
    if hasSocket && connected then s.(data := Sync.Deliver(s.data, config.names, Sync.Front, ev))
    else s
  }
}
