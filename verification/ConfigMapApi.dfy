/** The ConfigMap as the API server keeps it: one versioned object, replaced as a whole. */
module ConfigMapApi {
  import opened Wrappers
  import opened Clock
  import opened EntryCodec
  import opened Base64Url

  type Key = seq<byte>

  type Data = map<string, Stored>

  datatype ConfigMap = ConfigMap(version: nat, data: Data)

  /** `revision` is the cluster's: it grows with every change and never repeats a version. */
  datatype Server = Server(revision: nat, configMap: Option<ConfigMap>)

  datatype ApiError = NotFound | Conflict | AlreadyExists | Unavailable

  function Create(s: Server, data: Data): (Server, Option<ApiError>) {
    if s.configMap.Some? then (s, Some(AlreadyExists))
    else (Commit(s, data), None)
  }

  function Update(s: Server, version: nat, data: Data): (Server, Option<ApiError>) {
    if s.configMap.None? then (s, Some(NotFound))
    else if s.configMap.value.version != version then (s, Some(Conflict))
    else (Commit(s, data), None)
  }

  function Commit(s: Server, data: Data): Server {
    Server(s.revision + 1, Some(ConfigMap(s.revision + 1, data)))
  }

  /** Somebody deletes the ConfigMap. */
  function Vanish(s: Server): Server {
    Server(s.revision + 1, None)
  }

  ghost predicate ServerOk(s: Server) {
    s.configMap.Some? ==> s.configMap.value.version <= s.revision
  }

  // --- the map the store stands for ---

  datatype Write = Put(key: Key, value: Stored) | Remove(key: Key) | Wipe

  function Lookup(s: Server, key: Key): Option<Stored> {
    if s.configMap.Some? && DataKey(key) in s.configMap.value.data then Some(s.configMap.value.data[DataKey(key)])
        else None
  }

  function Apply(m: map<Key, Stored>, w: Write): map<Key, Stored> {
    match w
    case Put(k, v) => m[k := v]
    case Remove(k) => m - {k}
    case Wipe => map[]
  }

  function ValueAt(m: map<Key, Stored>, key: Key): Option<Stored> {
    if key in m then Some(m[key]) else None
  }

  ghost predicate Represents(s: Server, m: map<Key, Stored>) {
    forall k: Key :: Lookup(s, k) == ValueAt(m, k)
  }

  /** What a successful Update of the fetched data does to it. */
  function Edit(data: Data, w: Write): Data {
    match w
    case Put(k, v) => data[DataKey(k) := v]
    case Remove(k) => data - {DataKey(k)}
    case Wipe => map[]
  }

  /** Because data keys are injective, editing one leaves every other key of the map alone. */
  lemma EditRefines(s: Server, data: Data, w: Write, m: map<Key, Stored>)
    requires Represents(s, m)
    requires data == if s.configMap.Some? then s.configMap.value.data else map[]
    ensures Represents(Commit(s, Edit(data, w)), Apply(m, w))
  {
    var t := Commit(s, Edit(data, w));
    forall k: Key ensures Lookup(t, k) == ValueAt(Apply(m, w), k) {
      assert Lookup(s, k) == ValueAt(m, k);
      if !w.Wipe? && DataKey(k) == DataKey(w.key) {
        DataKeyInjective(k, w.key);
      }
    }
  }

  lemma VanishRefines(s: Server)
    ensures Represents(Vanish(s), map[])
  {
  }

  /** isExpired, for the store's configured ttl. */
  predicate Expired(ttl: int, e: Entry, now: int) {
    ttl > 0 && e.scanned != ZERO_TIME && now > e.scanned + ttl
  }
}
