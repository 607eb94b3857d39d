/**
 * The per-session settings service (`SettingsService` in
 * services/settings/src/service.rs): the permission gate in front of every
 * request, the proxy tracker and observer bookkeeping of one session, and its
 * registrations with the settings store every session shares.
 *
 * The settings store (services/settings/src/db.rs) is not part of this model:
 * its dispatcher and observer registry is a multiset of registrations, the
 * ids it hands out are parameters, and the outcome of its `clear`, `set`,
 * `get` and `get_batch` is a parameter of the request that asks for it.
 * Requests run synchronously; each one returns the reply it sends.
 */
module Settings {

  import opened Wrappers
  import opened Common

  /** Who opened the session: its identity and the permissions it holds. */
  datatype OriginAttributes = OriginAttributes(identity: string, permissions: set<string>)

  /** The sessions that hold every permission: fake-token mode and Unix-socket clients. */
  const FAKE_IDENTITY: string := "fake-identity"
  const UDS_IDENTITY: string := "uds"

  const SETTINGS_READ: string := "settings:read"
  const SETTINGS_WRITE: string := "settings:write"

  /**
   * `has_permission`: the fake and Unix-socket identities hold every
   * permission; any other identity holds exactly the permissions it was
   * granted.
   */
  function HasPermission(origin: OriginAttributes, perm: string): (granted: bool)
    ensures origin.identity == FAKE_IDENTITY || origin.identity == UDS_IDENTITY ==> granted
    ensures origin.identity != FAKE_IDENTITY && origin.identity != UDS_IDENTITY ==> (granted <==> perm in origin.permissions)
  {
    if origin.identity == FAKE_IDENTITY || origin.identity == UDS_IDENTITY then true
    else perm in origin.permissions
  }

  /** A bypass identity may do anything; a permission set grows only what it allows. */
  lemma PermissionMonotonic(origin: OriginAttributes, more: set<string>, perm: string)
    requires origin.permissions <= more
    ensures HasPermission(origin, perm) ==> HasPermission(origin.(permissions := more), perm)
    ensures HasPermission(origin.(identity := FAKE_IDENTITY), perm) && HasPermission(origin.(identity := UDS_IDENTITY), perm)
  {
  }

  // ---------------------------------------------------------------------
  // Replies
  // ---------------------------------------------------------------------

  /** A setting: its name and its JSON value, kept as opaque text. */
  datatype SettingInfo = SettingInfo(name: string, value: string)

  /** How the settings store fails a lookup. */
  datatype DbError = QueryReturnedNoRows | OtherDbError(message: string)

  datatype GetErrorReason = NonExistingSetting | UnknownError

  datatype GetError = GetError(name: string, reason: GetErrorReason)

  /** What a request answers: success (with what `get` and `get_batch` return), rejection, or a missing permission. */
  datatype Reply =
    | Resolve
    | ResolveSetting(setting: SettingInfo)
    | ResolveSettings(settings: seq<SettingInfo>)
    | Reject
    | RejectGet(getError: GetError)
    | PermissionError(permission: string, reason: string)

  /**
   * `get`'s answer once the store has looked the name up: the setting, or an
   * error naming the requested setting, "no such setting" exactly when the
   * store found no row and "unknown error" for every other failure.
   */
  function GetReply(name: string, lookup: Result<string, DbError>): (reply: Reply)
    ensures reply.ResolveSetting? <==> lookup.Ok?
    ensures reply.ResolveSetting? ==> reply.setting == SettingInfo(name, lookup.value)
    ensures reply.RejectGet? <==> lookup.Err?
    ensures reply.RejectGet? ==> reply.getError.name == name
    ensures reply.RejectGet? ==> (reply.getError.reason == NonExistingSetting <==> lookup.error == QueryReturnedNoRows)
  {
    match lookup
    case Ok(value) => ResolveSetting(SettingInfo(name, value))
    case Err(QueryReturnedNoRows) => RejectGet(GetError(name, NonExistingSetting))
    case Err(_) => RejectGet(GetError(name, UnknownError))
  }

  // ---------------------------------------------------------------------
  // The shared registry
  // ---------------------------------------------------------------------

  /** Dispatcher ids, as the settings store hands them out. */
  type DispatcherId = nat

  /** The handle a client holds on a remote object. */
  type ObjectRef = u32

  /** One registration with the shared store: an event dispatcher, or an observer of one setting. */
  datatype Registration = Dispatcher(id: DispatcherId) | Observer(name: string, id: DispatcherId)

  /** The proxies the session tracks: a setting observer, or an object of another kind. */
  datatype Proxy = SettingObserver(handle: nat) | OtherProxy(handle: nat)

  /** The settings store every session shares, seen as the registrations it holds. */
  class SharedRegistry {
    var registrations: multiset<Registration>

    constructor()
      ensures registrations == multiset{}
    {
      registrations := multiset{};
    }

    method Register(r: Registration)
      modifies this
      ensures registrations == old(registrations) + multiset{r}
    {
      registrations := registrations + multiset{r};
    }

    /** Drops one occurrence of `r`; nothing when there is none. */
    method Unregister(r: Registration)
      modifies this
      ensures registrations == old(registrations) - multiset{r}
    {
      registrations := registrations - multiset{r};
    }
  }

  /** The observer registrations the entries of `observers` under `refs` stand for, one per entry. */
  ghost function Recorded(observers: map<ObjectRef, (string, DispatcherId)>, refs: set<ObjectRef>): (regs: multiset<Registration>)
    requires refs <= observers.Keys
    decreases |refs|
  {
    if refs == {} then multiset{}
    else
      var r :| r in refs;
      Recorded(observers, refs - {r}) + multiset{Observer(observers[r].0, observers[r].1)}
  }

  /** Any entry may be taken out first: the recorded registrations do not depend on the order. */
  lemma {:induction false} RecordedWithout(observers: map<ObjectRef, (string, DispatcherId)>, refs: set<ObjectRef>, r: ObjectRef)
    requires refs <= observers.Keys && r in refs
    ensures Recorded(observers, refs) == Recorded(observers, refs - {r}) + multiset{Observer(observers[r].0, observers[r].1)}
    decreases |refs|
  {
    var c :| c in refs && Recorded(observers, refs) ==
      Recorded(observers, refs - {c}) + multiset{Observer(observers[c].0, observers[c].1)};
    if c != r {
      RecordedWithout(observers, refs - {c}, r);
      RecordedWithout(observers, refs - {r}, c);
      assert refs - {c} - {r} == refs - {r} - {c};
    }
  }

  /** Adding one more entry adds its registration. */
  lemma RecordedAdd(observers: map<ObjectRef, (string, DispatcherId)>, refs: set<ObjectRef>, r: ObjectRef)
    requires refs <= observers.Keys && r in observers && r !in refs
    ensures Recorded(observers, refs + {r}) == Recorded(observers, refs) + multiset{Observer(observers[r].0, observers[r].1)}
  {
    RecordedWithout(observers, refs + {r}, r);
    assert (refs + {r}) - {r} == refs;
  }

  /** Entries other than those in `refs` do not matter. */
  lemma {:induction false} RecordedIgnoresOthers(observers: map<ObjectRef, (string, DispatcherId)>, r: ObjectRef, v: (string, DispatcherId), refs: set<ObjectRef>)
    requires refs <= observers.Keys && r !in refs
    ensures Recorded(observers[r := v], refs) == Recorded(observers, refs)
    decreases |refs|
  {
    if refs != {} {
      var c :| c in refs;
      RecordedWithout(observers, refs, c);
      RecordedWithout(observers[r := v], refs, c);
      RecordedIgnoresOthers(observers, r, v, refs - {c});
    }
  }

  /**
   * Recording an observer under a fresh reference adds exactly its
   * registration to what dropping the session will undo; recording it under
   * a reference already in use replaces the earlier entry, whose registration
   * dropping the session then no longer undoes.
   */
  lemma AddObserverRecorded(observers: map<ObjectRef, (string, DispatcherId)>, r: ObjectRef, name: string, id: DispatcherId)
    ensures r !in observers ==>
              Recorded(observers[r := (name, id)], observers.Keys + {r}) ==
              Recorded(observers, observers.Keys) + multiset{Observer(name, id)}
    ensures r in observers ==>
              Recorded(observers[r := (name, id)], observers.Keys) + multiset{Observer(observers[r].0, observers[r].1)} ==
              Recorded(observers, observers.Keys) + multiset{Observer(name, id)}
  {
    var after := observers[r := (name, id)];
    var others := observers.Keys - {r};
    var added := multiset{Observer(name, id)};
    RecordedIgnoresOthers(observers, r, (name, id), others);
    var kept := Recorded(observers, others);
    if r !in observers {
      assert (observers.Keys + {r}) - {r} == others;
      RecordedWithout(after, observers.Keys + {r}, r);
      assert Recorded(after, observers.Keys + {r}) == kept + added;
      assert observers.Keys == others;
    } else {
      var replaced := multiset{Observer(observers[r].0, observers[r].1)};
      RecordedWithout(after, observers.Keys, r);
      RecordedWithout(observers, observers.Keys, r);
      assert Recorded(after, observers.Keys) == kept + added;
      assert Recorded(observers, observers.Keys) == kept + replaced;
    }
  }

  /** Moving one element from the pending part of a split to the done part keeps the split. */
  lemma MoveOne<T>(done: set<T>, pending: set<T>, all: set<T>, x: T)
    requires done + pending == all && done !! pending && x in pending
    ensures (done + {x}) + (pending - {x}) == all && (done + {x}) !! (pending - {x})
    ensures |pending - {x}| < |pending|
  {
  }

  /** Once nothing is pending, everything is done. */
  lemma AllDone<T>(done: set<T>, pending: set<T>, all: set<T>)
    requires done + pending == all && pending == {}
    ensures done == all
  {
  }

  /** Taking away two multisets in turn takes away their sum. */
  lemma SubtractTwice<T>(m: multiset<T>, a: multiset<T>, b: multiset<T>)
    ensures m - a - b == m - (a + b)
  {
    forall x
      ensures (m - a - b)[x] == (m - (a + b))[x]
    {
    }
  }

  // ---------------------------------------------------------------------
  // The service
  // ---------------------------------------------------------------------

  class SettingsService {
    /** The shared store this session registers with. */
    const registry: SharedRegistry
    const origin: OriginAttributes
    /** The broadcaster the session registered when it was created. */
    const dispatcherId: DispatcherId
    /** The remote objects the client has handed to this session. */
    var proxyTracker: map<ObjectRef, Proxy>
    /** The observers this session registered: setting name and registration id. */
    var observers: map<ObjectRef, (string, DispatcherId)>

    /**
     * `create`: registers one event dispatcher (for object 0) with the shared
     * store under the id it hands out, and starts with no proxies and no
     * observers.
     */
    constructor Create(origin: OriginAttributes, registry: SharedRegistry, dispatcherId: DispatcherId)
      modifies registry
      ensures this.registry == registry && this.origin == origin && this.dispatcherId == dispatcherId
      ensures registry.registrations == old(registry.registrations) + multiset{Dispatcher(dispatcherId)}
      ensures proxyTracker == map[] && observers == map[]
    {
      this.registry := registry;
      this.origin := origin;
      this.dispatcherId := dispatcherId;
      proxyTracker := map[];
      observers := map[];
      new;
      registry.Register(Dispatcher(dispatcherId));
    }

    /** `clear`: needs `settings:write`; the store's outcome decides between resolve and reject. */
    method Clear(cleared: bool) returns (reply: Reply)
      ensures !HasPermission(origin, SETTINGS_WRITE) ==> reply == PermissionError(SETTINGS_WRITE, "clear settings")
      ensures HasPermission(origin, SETTINGS_WRITE) ==> reply == if cleared then Resolve else Reject
    {
      if !HasPermission(origin, SETTINGS_WRITE) {
        return PermissionError(SETTINGS_WRITE, "clear settings");
      }
      reply := if cleared then Resolve else Reject;
    }

    /** `get`: needs `settings:read`; the answer is `GetReply` of the store's lookup. */
    method Get(name: string, lookup: Result<string, DbError>) returns (reply: Reply)
      ensures !HasPermission(origin, SETTINGS_READ) ==> reply == PermissionError(SETTINGS_READ, "get settings")
      ensures HasPermission(origin, SETTINGS_READ) ==> reply == GetReply(name, lookup)
    {
      if !HasPermission(origin, SETTINGS_READ) {
        return PermissionError(SETTINGS_READ, "get settings");
      }
      reply := GetReply(name, lookup);
    }

    /** `set`: needs `settings:write`; the store's outcome decides between resolve and reject. */
    method Set(settings: seq<SettingInfo>, stored: bool) returns (reply: Reply)
      ensures !HasPermission(origin, SETTINGS_WRITE) ==> reply == PermissionError(SETTINGS_WRITE, "set settings")
      ensures HasPermission(origin, SETTINGS_WRITE) ==> reply == if stored then Resolve else Reject
    {
      if !HasPermission(origin, SETTINGS_WRITE) {
        return PermissionError(SETTINGS_WRITE, "set settings");
      }
      reply := if stored then Resolve else Reject;
    }

    /** `get_batch`: needs `settings:read`; resolves with what the store found, or rejects. */
    method GetBatch(names: seq<string>, found: Option<seq<SettingInfo>>) returns (reply: Reply)
      ensures !HasPermission(origin, SETTINGS_READ) ==> reply == PermissionError(SETTINGS_READ, "get batch of settings")
      ensures HasPermission(origin, SETTINGS_READ) && found.Some? ==> reply == ResolveSettings(found.value)
      ensures HasPermission(origin, SETTINGS_READ) && found.None? ==> reply == Reject
    {
      if !HasPermission(origin, SETTINGS_READ) {
        return PermissionError(SETTINGS_READ, "get batch of settings");
      }
      match found
      case Some(values) => reply := ResolveSettings(values);
      case None => reply := Reject;
    }

    /**
     * `add_observer`: needs `settings:read`, and the reference must name a
     * tracked setting observer. Then the observer is registered with the
     * store under `name` (the store hands out `grantedId`) and the session
     * records `(name, grantedId)` under the reference, replacing any earlier
     * entry. Otherwise nothing changes.
     */
    method AddObserver(name: string, observer: ObjectRef, grantedId: DispatcherId) returns (reply: Reply)
      modifies this, registry
      ensures proxyTracker == old(proxyTracker)
      ensures !HasPermission(origin, SETTINGS_READ) ==> reply == PermissionError(SETTINGS_READ, "add setting observer")
      ensures reply == Resolve <==>
                HasPermission(origin, SETTINGS_READ) && observer in proxyTracker && proxyTracker[observer].SettingObserver?
      ensures reply == Resolve ==> observers == old(observers)[observer := (name, grantedId)]
      ensures reply == Resolve ==> registry.registrations == old(registry.registrations) + multiset{Observer(name, grantedId)}
      ensures HasPermission(origin, SETTINGS_READ) && reply != Resolve ==> reply == Reject
      ensures reply != Resolve ==> observers == old(observers) && registry.registrations == old(registry.registrations)
    {
      if !HasPermission(origin, SETTINGS_READ) {
        return PermissionError(SETTINGS_READ, "add setting observer");
      }
      if observer in proxyTracker && proxyTracker[observer].SettingObserver? {
        registry.Register(Observer(name, grantedId));
        observers := observers[observer := (name, grantedId)];
        reply := Resolve;
      } else {
        reply := Reject;
      }
    }

    /**
     * `remove_observer`: needs `settings:read`, and the reference must be both
     * tracked and recorded. Then the recorded id is unregistered under the
     * name the client gives, and the recorded entry stays.
     */
    method RemoveObserver(name: string, observer: ObjectRef) returns (reply: Reply)
      modifies registry
      ensures !HasPermission(origin, SETTINGS_READ) ==> reply == PermissionError(SETTINGS_READ, "remove setting observer")
      ensures reply == Resolve <==>
                HasPermission(origin, SETTINGS_READ) && observer in proxyTracker && observer in observers
      ensures reply == Resolve ==>
                registry.registrations == old(registry.registrations) - multiset{Observer(name, observers[observer].1)}
      ensures HasPermission(origin, SETTINGS_READ) && reply != Resolve ==> reply == Reject
      ensures reply != Resolve ==> registry.registrations == old(registry.registrations)
    {
      if !HasPermission(origin, SETTINGS_READ) {
        return PermissionError(SETTINGS_READ, "remove setting observer");
      }
      if observer in proxyTracker && observer in observers {
        registry.Unregister(Observer(name, observers[observer].1));
        reply := Resolve;
      } else {
        reply := Reject;
      }
    }

    /** `release_object`: forgets the proxy and says whether there was one; the observers stay recorded. */
    method ReleaseObject(objectId: ObjectRef) returns (released: bool)
      modifies this
      ensures released <==> objectId in old(proxyTracker)
      ensures proxyTracker == old(proxyTracker) - {objectId}
      ensures observers == old(observers)
    {
      released := objectId in proxyTracker;
      proxyTracker := proxyTracker - {objectId};
    }

    /**
     * Dropping the session unregisters its dispatcher and, one entry at a
     * time in whatever order the map yields them, every observer it recorded.
     */
    method Drop()
      modifies registry
      ensures registry.registrations ==
              old(registry.registrations) - multiset{Dispatcher(dispatcherId)} - Recorded(observers, observers.Keys)
    {
      var recorded := observers;
      registry.Unregister(Dispatcher(dispatcherId));
      ghost var start := registry.registrations;
      var pending := recorded.Keys;
      ghost var done: set<ObjectRef> := {};
      while pending != {}
        invariant done + pending == recorded.Keys && done !! pending
        invariant registry.registrations == start - Recorded(recorded, done)
        decreases |pending|
      {
        var r :| r in pending;
        var (name, id) := recorded[r];
        registry.Unregister(Observer(name, id));
        RecordedAdd(recorded, done, r);
        SubtractTwice(start, Recorded(recorded, done), multiset{Observer(name, id)});
        MoveOne(done, pending, recorded.Keys, r);
        pending := pending - {r};
        done := done + {r};
      }
      AllDone(done, pending, recorded.Keys);
    }
  }

  /**
   * A session that is created and dropped without recording an observer
   * leaves the shared store as it found it: `Drop` takes back exactly the
   * dispatcher `Create` registered.
   */
  method CreateThenDropRestores(origin: OriginAttributes, registry: SharedRegistry, id: DispatcherId)
    modifies registry
    ensures registry.registrations == old(registry.registrations)
  {
    var session := new SettingsService.Create(origin, registry, id);
    session.Drop();
    assert Recorded(map[], {}) == multiset{};
    assert old(registry.registrations) + multiset{Dispatcher(id)} - multiset{Dispatcher(id)} == old(registry.registrations);
  }
}
