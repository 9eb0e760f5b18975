/**
 The store's own Get, Set and Delete: read, edit the copy, write back, retry on conflict.
 The rest of the cluster acts between the read and the write of each attempt.
 */
module ConfigMapClient {
  import opened Wrappers
  import opened Clock
  import opened EntryCodec
  import opened ConfigMapApi
  import opened ConfigMapStore

  /** What happens around attempt k: the commits of others, and whether a request fails outright. */
  datatype Traffic = Traffic(rivals: nat -> seq<Write>, readFails: nat -> bool, sendFails: nat -> bool)

  function DataOf(s: Server): Data {
    if s.configMap.Some? then s.configMap.value.data else map[]
  }

  function RivalCommit(s: Server, w: Write): Server {
    if w.Wipe? then Vanish(s) else Commit(s, Edit(DataOf(s), w))
  }

  function RivalCommits(s: Server, ws: seq<Write>): Server {
    if ws == [] then s else RivalCommit(RivalCommits(s, ws[..|ws| - 1]), ws[|ws| - 1])
  }

  /** The server after the first k batches of other clients' commits. */
  function After(s: Server, t: Traffic, k: nat): Server {
    if k == 0 then s else RivalCommits(After(s, t, k - 1), t.rivals(k))
  }

  lemma {:induction false} RivalsBumpRevision(s: Server, ws: seq<Write>)
    requires ServerOk(s)
    ensures var t := RivalCommits(s, ws);
            && ServerOk(t) && t.revision == s.revision + |ws|
            && (ws != [] && t.configMap.Some? ==> t.configMap.value.version > s.revision)
  {
    if ws == [] {
    } else {
      RivalsBumpRevision(s, ws[..|ws| - 1]);
    }
  }

  lemma {:induction false} AfterOk(s: Server, t: Traffic, k: nat)
    requires ServerOk(s)
    ensures ServerOk(After(s, t, k))
  {
    if k == 0 {
    } else {
      AfterOk(s, t, k - 1);
      RivalsBumpRevision(After(s, t, k - 1), t.rivals(k));
    }
  }

  /** One edit on top of what others had committed by then, taken at a single instant. */
  ghost predicate TookEffect(before: Server, after: Server, t: Traffic, w: Write) {
    exists k: nat :: k <= RETRY_STEPS &&
      var mid := After(before, t, k);
      || after == Commit(mid, Edit(DataOf(mid), w))
      || (after == mid && w.Remove? && Lookup(mid, w.key) == None)
  }

  /** Nothing but what others committed. */
  ghost predicate NoEffect(before: Server, after: Server, t: Traffic) {
    exists k: nat :: k <= RETRY_STEPS && after == After(before, t, k)
  }

  ghost predicate Quiet(t: Traffic) {
    forall k: nat :: t.rivals(k) == [] && !t.readFails(k) && !t.sendFails(k)
  }

  ghost predicate Contended(t: Traffic) {
    forall k: nat :: 1 <= k <= RETRY_STEPS ==> t.rivals(k) != []
  }

  /** Some request within the retry budget fails outright. */
  ghost predicate Failing(t: Traffic) {
    exists k: nat :: 1 <= k <= RETRY_STEPS && (t.readFails(k) || t.sendFails(k))
  }

  lemma {:induction false} QuietAfter(s: Server, t: Traffic, k: nat)
    requires Quiet(t)
    ensures After(s, t, k) == s
  {
    if k == 0 {
    } else {
      QuietAfter(s, t, k - 1);
    }
  }

  /** Undisturbed, an effect is there to be read. */
  lemma QuietEffect(before: Server, after: Server, t: Traffic, w: Write)
    requires Quiet(t) && TookEffect(before, after, t, w) && !w.Wipe?
    ensures Lookup(after, w.key) == if w.Put? then Some(w.value) else None
  {
    var k: nat :| k <= RETRY_STEPS &&
      var mid := After(before, t, k);
      || after == Commit(mid, Edit(DataOf(mid), w))
      || (after == mid && w.Remove? && Lookup(mid, w.key) == None);
    QuietAfter(before, t, k);
  }

  class ApiServer {
    var state: Server

    method OthersCommit(ws: seq<Write>)
      modifies this
      ensures state == RivalCommits(old(state), ws)
    {
      var i := 0;
      while i < |ws|
        invariant 0 <= i <= |ws|
        invariant state == RivalCommits(old(state), ws[..i])
      {
        state := RivalCommit(state, ws[i]);
        i := i + 1;
        assert ws[..i][..i - 1] == ws[..i - 1];
      }
      assert ws[..i] == ws;
    }

    method CreateConfigMap(data: Data) returns (error: Option<ApiError>)
      modifies this
      ensures (state, error) == Create(old(state), data)
    {
      var (s, e) := Create(state, data);
      state := s;
      return e;
    }

    method UpdateConfigMap(version: nat, data: Data) returns (error: Option<ApiError>)
      modifies this
      ensures (state, error) == Update(old(state), version, data)
    {
      var (s, e) := Update(state, version, data);
      state := s;
      return e;
    }
  }

  /** An accepted write finds the data just as they were read. */
  lemma AcceptedIsCurrent(read: Server, ws: seq<Write>, w: Write)
    requires ServerOk(read)
    ensures var now, data := RivalCommits(read, ws), Edit(DataOf(read), w);
            && (read.configMap.None? && Create(now, data).1 == None ==>
                Create(now, data).0 == Commit(now, Edit(DataOf(now), w)))
            && (read.configMap.Some? && Update(now, read.configMap.value.version, data).1 == None ==>
                  ws == [] && Update(now, read.configMap.value.version, data).0 == Commit(now, Edit(DataOf(now), w)))
  {
    RivalsBumpRevision(read, ws);
  }

  class Store {
    const api: ApiServer
    const ttl: int

    constructor (api: ApiServer, ttl: int)
      ensures this.api == api && this.ttl == ttl
    {
      this.api, this.ttl := api, ttl;
    }

    /** The body RetryOnConflict runs for a Set. */
    method SetOnce(w: Write, attempt: nat, t: Traffic) returns (error: Option<ApiError>)
      requires ServerOk(api.state) && w.Put?
      modifies api
      ensures ServerOk(api.state)
      ensures var mid := RivalCommits(old(api.state), t.rivals(attempt));
              && (error == None ==> api.state == Commit(mid, Edit(DataOf(mid), w)))
              && (error != None ==> api.state == mid || (api.state == old(api.state) && error == Some(Unavailable)))
              && (error == Some(Conflict) ==> t.rivals(attempt) != [] && api.state == mid)
      ensures t.rivals(attempt) == [] && !t.readFails(attempt) && !t.sendFails(attempt) ==> error == None
      ensures error == Some(Unavailable) <==> t.readFails(attempt) || (t.sendFails(attempt) && error != None)
    {
      if t.readFails(attempt) {
        return Some(Unavailable);
      }
      var fetched := api.state.configMap;
      AcceptedIsCurrent(api.state, t.rivals(attempt), w);
      RivalsBumpRevision(api.state, t.rivals(attempt));
      api.OthersCommit(t.rivals(attempt));
      if t.sendFails(attempt) {
        return Some(Unavailable);
      }
      if fetched == None {
        error := api.CreateConfigMap(Edit(map[], w));
      } else {
        error := api.UpdateConfigMap(fetched.value.version, Edit(fetched.value.data, w));
      }
    }

    /** The body RetryOnConflict runs for a Delete. */
    method DeleteOnce(key: Key, attempt: nat, t: Traffic) returns (error: Option<ApiError>)
      requires ServerOk(api.state)
      modifies api
      ensures ServerOk(api.state)
      ensures var mid := RivalCommits(old(api.state), t.rivals(attempt));
              && (error == None ==>
                    || api.state == Commit(mid, Edit(DataOf(mid), Remove(key)))
                    || (api.state == old(api.state) && Lookup(api.state, key) == None))
              && (error != None ==> api.state == mid || (api.state == old(api.state) && error == Some(Unavailable)))
              && (error == Some(Conflict) ==> t.rivals(attempt) != [] && api.state == mid)
      ensures t.rivals(attempt) == [] && !t.readFails(attempt) && !t.sendFails(attempt) ==> error == None
      ensures error == Some(Unavailable) <==> t.readFails(attempt) || (t.sendFails(attempt) && error != None)
    {
      if t.readFails(attempt) {
        return Some(Unavailable);
      }
      if Lookup(api.state, key) == None {
        return None;
      }
      var fetched := api.state.configMap.value;
      AcceptedIsCurrent(api.state, t.rivals(attempt), Remove(key));
      RivalsBumpRevision(api.state, t.rivals(attempt));
      api.OthersCommit(t.rivals(attempt));
      if t.sendFails(attempt) {
        return Some(Unavailable);
      }
      error := api.UpdateConfigMap(fetched.version, Edit(fetched.data, Remove(key)));
    }

    method Set(key: Key, entry: Entry, text: string, t: Traffic) returns (error: Option<ApiError>)
      requires ServerOk(api.state)
      modifies api
      ensures ServerOk(api.state)
      ensures error == None ==> TookEffect(old(api.state), api.state, t, Put(key, Stored(text, Some(Marshal(entry)))))
      ensures error != None ==> NoEffect(old(api.state), api.state, t)
      ensures error == Some(Conflict) ==> Contended(t)
      ensures error == Some(Unavailable) ==> Failing(t)
      ensures Quiet(t) ==> error == None && Lookup(api.state, key) == Some(Stored(text, Some(Marshal(entry))))
    {
      var w := Put(key, Stored(text, Some(Marshal(entry))));
      ghost var before := api.state;
      var attempt := 1;
      while true
        invariant 1 <= attempt <= RETRY_STEPS && ServerOk(api.state)
        invariant api.state == After(before, t, attempt - 1)
        invariant forall k :: 1 <= k < attempt ==> t.rivals(k) != []
        decreases RETRY_STEPS - attempt
      {
        error := SetOnce(w, attempt, t);
        assert After(before, t, attempt) == RivalCommits(After(before, t, attempt - 1), t.rivals(attempt));
        if Quiet(t) {
          QuietEffect(before, api.state, t, w);
        }
        if error != Some(Conflict) || attempt == RETRY_STEPS {
          return;
        }
        attempt := attempt + 1;
      }
    }

    method Delete(key: Key, t: Traffic) returns (error: Option<ApiError>)
      requires ServerOk(api.state)
      modifies api
      ensures ServerOk(api.state)
      ensures error == None ==> TookEffect(old(api.state), api.state, t, Remove(key))
      ensures error != None ==> NoEffect(old(api.state), api.state, t)
      ensures error == Some(Conflict) ==> Contended(t)
      ensures error == Some(Unavailable) ==> Failing(t)
      ensures Quiet(t) ==> error == None && Lookup(api.state, key) == None
    {
      ghost var before := api.state;
      var attempt := 1;
      while true
        invariant 1 <= attempt <= RETRY_STEPS && ServerOk(api.state)
        invariant api.state == After(before, t, attempt - 1)
        invariant forall k :: 1 <= k < attempt ==> t.rivals(k) != []
        decreases RETRY_STEPS - attempt
      {
        error := DeleteOnce(key, attempt, t);
        assert After(before, t, attempt) == RivalCommits(After(before, t, attempt - 1), t.rivals(attempt));
        if Quiet(t) {
          QuietEffect(before, api.state, t, Remove(key));
        }
        if error != Some(Conflict) || attempt == RETRY_STEPS {
          return;
        }
        attempt := attempt + 1;
      }
    }

    /** Answers from one read; only an expired entry makes it touch the store, and then only its own key. */
    method Get(key: Key, now: int, fails: bool, rfc3339: string -> Option<Time>, t: Traffic) returns (outcome: Outcome)
      requires ServerOk(api.state)
      modifies api
      ensures fails ==> outcome == Failed(Unavailable)
      ensures !fails ==> outcome == Read(Config(ttl, rfc3339), old(api.state), key, now)
      ensures fails || !ReadExpires(Config(ttl, rfc3339), old(api.state), key, now) ==> api.state == old(api.state)
      ensures TookEffect(old(api.state), api.state, t, Remove(key)) || NoEffect(old(api.state), api.state, t)
      ensures !fails && Quiet(t) && ReadExpires(Config(ttl, rfc3339), old(api.state), key, now) ==>
                Lookup(api.state, key) == None
    {
      assert After(api.state, t, 0) == api.state;
      if fails {
        return Failed(Unavailable);
      }
      var stored := Lookup(api.state, key);
      if stored == None {
        return Missing;
      }
      var entry := new StoredEntry();
      var ok := entry.UnmarshalStored(stored.value, rfc3339);
      if !ok {
        return ParseFailed;
      }
      if Expired(ttl, entry.View(), now) {
        var _ := Delete(key, t);
        return Missing;
      }
      return Found(entry.View());
    }
  }

  /** In terms of the map the server stands for: an effect is exactly one write, made on top of the others'. */
  lemma EffectIsOneWrite(before: Server, after: Server, t: Traffic, w: Write, k: nat, m: map<Key, Stored>)
    requires Represents(After(before, t, k), m)
    requires var mid := After(before, t, k);
             || after == Commit(mid, Edit(DataOf(mid), w))
             || (after == mid && w.Remove? && Lookup(mid, w.key) == None)
    ensures Represents(after, Apply(m, w))
  {
    var mid := After(before, t, k);
    EditRefines(mid, DataOf(mid), w, m);
    if after == mid && w.Remove? && Lookup(mid, w.key) == None {
      assert ValueAt(m, w.key) == None;
      assert Apply(m, w) == m;
    }
  }
}
