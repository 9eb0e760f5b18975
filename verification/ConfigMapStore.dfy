/**
 Concurrent clients of the ConfigMap store.  Each API request is one atomic step; between the
 read and the write of a Set or Delete any number of other steps may happen.
 */
module ConfigMapStore {
  import opened Wrappers
  import opened Clock
  import opened EntryCodec
  import opened ConfigMapApi

  /** `text` is the JSON text Marshal printed. */
  datatype Op = SetOp(key: Key, entry: Entry, text: string) | DeleteOp(key: Key) | GetOp(key: Key)

  /** How an operation ended. Done, Found and Missing are the successes. */
  datatype Outcome = Done | Found(entry: Entry) | Missing | ParseFailed | Failed(error: ApiError)

  /**
   Begin: about to read.  Creating: the ConfigMap was absent.  Writing: holds the edited copy
   of what was read.  `tries` is what remains of the retry budget; `seen` is the revision read.
   */
  datatype Phase =
    | Begin(tries: nat)
    | Creating(data: Data)
    | Writing(version: nat, data: Data, tries: nat, seen: nat)
    | Finished(outcome: Outcome)

  /**
   `lazy`: a Get that met an expired entry and is now deleting it.  `readAt` is the position in
   the log at which a Get took its answer and `readNow` the clock it compared it with; `began` is
   the revision at the operation's start.
   */
  datatype Client = Client(op: Op, lazy: bool, phase: Phase, readAt: nat, readNow: int, began: nat)

  datatype Effect = Effect(author: Option<nat>, write: Write)

  datatype State = State(server: Server, clients: seq<Client>, log: seq<Effect>)

  /** retry.DefaultRetry.Steps. */
  const RETRY_STEPS: nat := 5

  datatype Config = Config(ttl: int, rfc3339: string -> Option<Time>)

  datatype Action = Fetch(i: nat, now: int, fails: bool) | Send(i: nat, fails: bool) | Deleted

  function ValueOf(op: Op): Stored
    requires op.SetOp?
  {
    Stored(op.text, Some(Marshal(op.entry)))
  }

  /** The write an operation is out to make. */
  function Intent(op: Op): Write {
    match op
    case SetOp(k, _, _) => Put(k, ValueOf(op))
    case DeleteOp(k) => Remove(k)
    case GetOp(k) => Remove(k)
  }

  /** A Set makes its key read as the entry given, a Delete makes it read as nothing, and no other key is touched. */
  lemma IntentTouchesOwnKey(op: Op, m: map<Key, Stored>, k: Key)
    ensures ValueAt(Apply(m, Intent(op)), k) ==
            if k != op.key then ValueAt(m, k)
            else if op.SetOp? then Some(Stored(op.text, Some(Marshal(op.entry)))) else None
  {
  }

  /** A lazy delete's own result is ignored: the Get answers "missing" either way. */
  function Ending(c: Client, outcome: Outcome): Client {
    c.(phase := Finished(if c.lazy then Missing else outcome))
  }

  function Read(cfg: Config, s: Server, key: Key, now: int): Outcome {
    match Lookup(s, key)
    case None => Missing
    case Some(stored) =>
      var (e, ok) := Unmarshal(EMPTY, stored, cfg.rfc3339);
      if !ok then ParseFailed else if Expired(cfg.ttl, e, now) then Missing else Found(e)
  }

  predicate ReadExpires(cfg: Config, s: Server, key: Key, now: int) {
    Lookup(s, key).Some? &&
    var (e, ok) := Unmarshal(EMPTY, Lookup(s, key).value, cfg.rfc3339);
    ok && Expired(cfg.ttl, e, now)
  }

  ghost predicate Enabled(s: State, a: Action) {
    match a
    case Fetch(i, _, _) => i < |s.clients| && s.clients[i].phase.Begin?
    case Send(i, _) => i < |s.clients| && (s.clients[i].phase.Creating? || s.clients[i].phase.Writing?)
    case Deleted => true
  }

  /**
   The read at the head of every operation: the client after it, and whether it completed a
   Delete that found nothing to remove.  `position` is the length of the log.
   */
  function AfterFetch(cfg: Config, server: Server, position: nat, c: Client, now: int, fails: bool): (Client, bool)
    requires c.phase.Begin?
  {
    if fails then
      (Ending(c, Failed(Unavailable)), false)
    else if c.op.GetOp? && !c.lazy then
      var read := c.(readAt := position, readNow := now);
      if ReadExpires(cfg, server, c.op.key, now)
      then (read.(lazy := true, phase := Begin(RETRY_STEPS), began := server.revision), false)
      else (read.(phase := Finished(Read(cfg, server, c.op.key, now))), false)
    else if c.op.SetOp? && server.configMap == None then
      (c.(phase := Creating(Edit(map[], Intent(c.op)))), false)
    else if !c.op.SetOp? && Lookup(server, c.op.key) == None then
      (Ending(c, Done), true)
    else
      var cm := server.configMap.value;
      (c.(phase := Writing(cm.version, Edit(cm.data, Intent(c.op)), c.phase.tries, server.revision)), false)
  }

  function EffectOf(i: nat, c: Client): Effect {
    Effect(Some(i), Intent(c.op))
  }

  function Logged(log: seq<Effect>, i: nat, c: Client, commits: bool): seq<Effect> {
    if commits then log + [EffectOf(i, c)] else log
  }

  ghost function FetchStep(cfg: Config, s: State, i: nat, now: int, fails: bool): State
    requires Enabled(s, Fetch(i, now, fails))
  {
    var c := s.clients[i];
    var (d, commits) := AfterFetch(cfg, s.server, |s.log|, c, now, fails);
    State(s.server, s.clients[i := d], Logged(s.log, i, c, commits))
  }

  /** The Create or Update that ends an attempt; only conflicts are retried. */
  function AfterSend(server: Server, c: Client, fails: bool): (Server, Client, bool)
    requires c.phase.Creating? || c.phase.Writing?
  {
    if fails then
      (server, Ending(c, Failed(Unavailable)), false)
    else
      var (after, error) := if c.phase.Creating? then Create(server, c.phase.data)
                            else Update(server, c.phase.version, c.phase.data);
      match error
      case None => (after, Ending(c, Done), true)
      case Some(err) =>
        if err == Conflict && c.phase.Writing? && c.phase.tries > 1
        then (after, c.(phase := Begin(c.phase.tries - 1)), false)
        else (after, Ending(c, Failed(err)), false)
  }

  ghost function SendStep(s: State, i: nat, fails: bool): State
    requires Enabled(s, Send(i, fails))
  {
    var c := s.clients[i];
    var (server, d, commits) := AfterSend(s.server, c, fails);
    State(server, s.clients[i := d], Logged(s.log, i, c, commits))
  }

  ghost function Step(cfg: Config, s: State, a: Action): State
    requires Enabled(s, a)
  {
    match a
    case Fetch(i, now, fails) => FetchStep(cfg, s, i, now, fails)
    case Send(i, fails) => SendStep(s, i, fails)
    case Deleted => State(Vanish(s.server), s.clients, s.log + [Effect(None, Wipe)])
  }

  ghost function Execute(cfg: Config, s: State, actions: seq<Action>): Option<State> {
    if actions == [] then Some(s)
    else
      match Execute(cfg, s, actions[..|actions| - 1])
      case None => None
      case Some(t) =>
        if Enabled(t, actions[|actions| - 1]) then Some(Step(cfg, t, actions[|actions| - 1])) else None
  }

  function Initial(server: Server, ops: seq<Op>): State {
    State(server, seq(|ops|,
        i requires 0 <= i < |ops| => Client(ops[i], false, Begin(RETRY_STEPS), 0, 0, server.revision)), [])
  }

  // --- the invariant ---

  function Replay(m: map<Key, Stored>, log: seq<Effect>): map<Key, Stored> {
    if log == [] then m else Apply(Replay(m, log[..|log| - 1]), log[|log| - 1].write)
  }

  function WritesBy(log: seq<Effect>, i: nat): seq<Write> {
    if log == [] then []
    else WritesBy(log[..|log| - 1], i) + if log[|log| - 1].author == Some(i) then [log[|log| - 1].write] else []
  }

  predicate Mutates(c: Client) {
    c.lazy || !c.op.GetOp?
  }

  /** The optimistic lock: a copy whose version is still current is an edit of the current data. */
  ghost predicate CopyOk(s: Server, c: Client) {
    match c.phase
    case Writing(v, data, _, seen) =>
      && v <= seen <= s.revision
      && (s.revision == seen ==> s.configMap.Some? && s.configMap.value.version == v)
      && (s.configMap.Some? && s.configMap.value.version == v ==> data == Edit(s.configMap.value.data, Intent(c.op)))
    case Creating(data) => c.op.SetOp? && data == Edit(map[], Intent(c.op))
    case _ => true
  }

  /** Each conflict so far is matched by a commit of somebody else's. */
  ghost predicate BudgetOk(s: Server, c: Client) {
    && c.began <= s.revision
    && (match c.phase
        case Begin(t) => 1 <= t <= RETRY_STEPS && c.began + (RETRY_STEPS - t) <= s.revision
        case Writing(_, _, t, seen) => 1 <= t <= RETRY_STEPS && c.began + (RETRY_STEPS - t) <= seen
        case Finished(outcome) => outcome == Failed(Conflict) ==> c.began + RETRY_STEPS <= s.revision
        case Creating(_) => true)
  }

  /** The writes a client has in the log: its intent once if it succeeded, nothing if it failed. */
  ghost predicate EffectsFit(writes: seq<Write>, c: Client) {
    && (!Mutates(c) ==> writes == [])
    && (!c.phase.Finished? ==> writes == [])
    && (c.phase.Finished? && !c.op.GetOp? ==>
          && (c.phase.outcome.Done? || c.phase.outcome.Failed?)
          && writes == if c.phase.outcome.Done? then [Intent(c.op)] else [])
    && (c.lazy ==> c.op.GetOp? && (writes == [] || writes == [Intent(c.op)]))
    && (c.lazy && c.phase.Finished? ==> c.phase.outcome == Missing)
    && (c.phase.Creating? || c.phase.Writing? ==> Mutates(c))
  }

  /** ... and a lazy delete is not in the log before the read that led to it. */
  ghost predicate EffectsOk(log: seq<Effect>, i: nat, c: Client) {
    && EffectsFit(WritesBy(log, i), c)
    && (c.lazy ==> c.readAt <= |log| && WritesBy(log[..c.readAt], i) == [])
  }

  /** The stored value decodes to an entry that has, or has not, expired by then. */
  predicate ExpiredAt(cfg: Config, v: Option<Stored>, now: int) {
    && v.Some? && Unmarshal(EMPTY, v.value, cfg.rfc3339).1
    && Expired(cfg.ttl, Unmarshal(EMPTY, v.value, cfg.rfc3339).0, now)
  }

  predicate LiveAt(cfg: Config, v: Option<Stored>, now: int) {
    && v.Some? && Unmarshal(EMPTY, v.value, cfg.rfc3339).1
    && !Expired(cfg.ttl, Unmarshal(EMPTY, v.value, cfg.rfc3339).0, now)
  }

  /** What a Get that read v may do: answer with it while it is live, and delete it only once it has expired. */
  predicate AnswerFits(cfg: Config, v: Option<Stored>, c: Client) {
    && (c.lazy ==> ExpiredAt(cfg, v, c.readNow))
    && (c.phase.Finished? ==>
          match c.phase.outcome
          case Found(e) => LiveAt(cfg, v, c.readNow) && Unmarshal(EMPTY, v.value, cfg.rfc3339).0 == e
          case ParseFailed => v.Some? && !Unmarshal(EMPTY, v.value, cfg.rfc3339).1
          case Missing => v == None || ExpiredAt(cfg, v, c.readNow)
          case Done => false
          case Failed(_) => true)
  }

  predicate HasRead(c: Client) {
    c.lazy || (c.phase.Finished? && !c.phase.outcome.Failed?)
  }

  /** A Get's answer is the value the log had given its key at the moment of the read. */
  ghost predicate AnswerOk(cfg: Config, m0: map<Key, Stored>, log: seq<Effect>, c: Client) {
    c.op.GetOp? && HasRead(c) ==>
      c.readAt <= |log| && AnswerFits(cfg, ValueAt(Replay(m0, log[..c.readAt]), c.op.key), c)
  }

  ghost predicate ClientOk(cfg: Config, m0: map<Key, Stored>, s: State, i: nat, c: Client) {
    CopyOk(s.server, c) && BudgetOk(s.server, c) && EffectsOk(s.log, i, c) && AnswerOk(cfg, m0, s.log, c)
  }

  ghost predicate Inv(cfg: Config, m0: map<Key, Stored>, s: State) {
    && ServerOk(s.server)
    && Represents(s.server, Replay(m0, s.log))
    && (forall e :: e in s.log && e.author.Some? ==> e.author.value < |s.clients|)
    && (forall i :: 0 <= i < |s.clients| ==> ClientOk(cfg, m0, s, i, s.clients[i]))
  }

  lemma LogGrows(log: seq<Effect>, e: Effect, m0: map<Key, Stored>)
    ensures Replay(m0, log + [e]) == Apply(Replay(m0, log), e.write)
    ensures forall i: nat :: WritesBy(log + [e], i) == WritesBy(log, i) + if e.author == Some(i) then [e.write] else []
    ensures forall n :: 0 <= n <= |log| ==> (log + [e])[..n] == log[..n]
  {
    assert (log + [e])[..|log|] == log;
  }

  lemma WritesGrow(log: seq<Effect>, e: Effect, i: nat)
    ensures WritesBy(log + [e], i) == WritesBy(log, i) + if e.author == Some(i) then [e.write] else []
  {
    assert (log + [e])[..|log|] == log;
  }

  /** A commit leaves every other client's obligations intact. */
  lemma OthersUndisturbed(cfg: Config, m0: map<Key, Stored>, s: State, t: State, e: Effect, j: nat)
    requires j < |s.clients| && ClientOk(cfg, m0, s, j, s.clients[j]) && ServerOk(s.server)
    requires t.log == s.log + [e] && e.author != Some(j)
    requires t.server == s.server || (t.server.revision == s.server.revision + 1 &&
               (t.server.configMap.Some? ==> t.server.configMap.value.version == t.server.revision))
    ensures ClientOk(cfg, m0, t, j, s.clients[j])
  {
    LogGrows(s.log, e, m0);
  }

  /** ... so a step of client i that commits at most its own intent leaves the others' intact. */
  lemma RestUndisturbed(cfg: Config, m0: map<Key, Stored>, s: State, t: State, i: nat)
    requires Inv(cfg, m0, s) && i < |s.clients|
    requires |t.clients| == |s.clients| && forall j :: 0 <= j < |s.clients| && j != i ==> t.clients[j] == s.clients[j]
    requires (t.log == s.log && t.server == s.server) || t.log == s.log + [Effect(Some(i), Intent(s.clients[i].op))]
    requires t.server == s.server || (t.server.revision == s.server.revision + 1 &&
               (t.server.configMap.Some? ==> t.server.configMap.value.version == t.server.revision))
    ensures forall j :: 0 <= j < |t.clients| && j != i ==> ClientOk(cfg, m0, t, j, t.clients[j])
  {
    forall j | 0 <= j < |t.clients| && j != i ensures ClientOk(cfg, m0, t, j, t.clients[j]) {
      assert ClientOk(cfg, m0, s, j, s.clients[j]);
      if t.log != s.log {
        OthersUndisturbed(cfg, m0, s, t, Effect(Some(i), Intent(s.clients[i].op)), j);
      }
    }
  }

  lemma FetchKeepsCopyAndBudget(cfg: Config, server: Server, n: nat, c: Client, now: int, fails: bool)
    requires c.phase.Begin? && ServerOk(server) && CopyOk(server, c) && BudgetOk(server, c)
    ensures var d := AfterFetch(cfg, server, n, c, now, fails).0;
            CopyOk(server, d) && BudgetOk(server, d)
  {
  }

  lemma FetchKeepsEffectsFit(cfg: Config, server: Server, n: nat, c: Client, now: int, fails: bool, writes: seq<Write>)
    requires c.phase.Begin? && EffectsFit(writes, c)
    ensures var (d, commits) := AfterFetch(cfg, server, n, c, now, fails);
            && EffectsFit(writes + (if commits then [Intent(c.op)] else []), d)
            && (d.lazy && !c.lazy ==> d.readAt == n)
            && (c.lazy ==> d.lazy && d.readAt == c.readAt)
  {
    assert writes == [];
  }

  lemma FetchKeepsAnswerFit(cfg: Config, server: Server, n: nat, c: Client, now: int, fails: bool)
    requires c.phase.Begin? && c.op.GetOp?
    requires c.lazy ==> c.readAt <= n
    ensures var d := AfterFetch(cfg, server, n, c, now, fails).0;
            && d.op == c.op && (c.lazy ==> d.readAt == c.readAt)
            && (!c.lazy && HasRead(d) ==>
                  d.readAt == n && AnswerFits(cfg, Lookup(server, c.op.key), d))
            && (c.lazy ==> forall v :: AnswerFits(cfg, v, c) ==> AnswerFits(cfg, v, d))
  {
  }

  lemma FetchKeepsEffects(cfg: Config, s: State, i: nat, now: int, fails: bool)
    requires Enabled(s, Fetch(i, now, fails)) && EffectsOk(s.log, i, s.clients[i])
    ensures var t := FetchStep(cfg, s, i, now, fails);
            EffectsOk(t.log, i, t.clients[i])
  {
    FetchKeepsEffectsFit(cfg, s.server, |s.log|, s.clients[i], now, fails, WritesBy(s.log, i));
    LoggedWrites(s.log, i, s.clients[i], AfterFetch(cfg, s.server, |s.log|, s.clients[i], now, fails).1);
    assert s.log[..|s.log|] == s.log;
  }

  lemma FetchKeepsAnswer(cfg: Config, m0: map<Key, Stored>, s: State, i: nat, now: int, fails: bool)
    requires Enabled(s, Fetch(i, now, fails)) && AnswerOk(cfg, m0, s.log, s.clients[i])
    requires EffectsOk(s.log, i, s.clients[i])
    requires Lookup(s.server, s.clients[i].op.key) == ValueAt(Replay(m0, s.log), s.clients[i].op.key)
    ensures var t := FetchStep(cfg, s, i, now, fails);
            AnswerOk(cfg, m0, t.log, t.clients[i])
  {
    var c := s.clients[i];
    var (d, commits) := AfterFetch(cfg, s.server, |s.log|, c, now, fails);
    var log := Logged(s.log, i, c, commits);
    LoggedWrites(s.log, i, c, commits);
    if c.op.GetOp? {
      FetchKeepsAnswerFit(cfg, s.server, |s.log|, c, now, fails);
      if c.lazy {
        assert AnswerFits(cfg, ValueAt(Replay(m0, s.log[..c.readAt]), c.op.key), d);
        assert log[..c.readAt] == s.log[..c.readAt];
      } else {
        assert log[..|s.log|] == s.log[..|s.log|] == s.log;
      }
    }
    assert AnswerOk(cfg, m0, log, d);
  }

  lemma LoggedWrites(log: seq<Effect>, i: nat, c: Client, commits: bool)
    ensures WritesBy(Logged(log, i, c, commits), i) == WritesBy(log, i) + if commits then [Intent(c.op)] else []
    ensures |log| <= |Logged(log, i, c, commits)|
    ensures forall n :: 0 <= n <= |log| ==> Logged(log, i, c, commits)[..n] == log[..n]
  {
    if commits {
      WritesGrow(log, EffectOf(i, c), i);
    }
  }

  lemma FetchKeepsClient(cfg: Config, m0: map<Key, Stored>, s: State, i: nat, now: int, fails: bool)
    requires Inv(cfg, m0, s) && Enabled(s, Fetch(i, now, fails))
    ensures var t := FetchStep(cfg, s, i, now, fails);
            ClientOk(cfg, m0, t, i, t.clients[i])
  {
    assert ClientOk(cfg, m0, s, i, s.clients[i]);
    FetchKeepsCopyAndBudget(cfg, s.server, |s.log|, s.clients[i], now, fails);
    FetchKeepsEffects(cfg, s, i, now, fails);
    FetchKeepsAnswer(cfg, m0, s, i, now, fails);
  }

  /** A Delete that found nothing removes nothing from the map either. */
  lemma FetchRefines(cfg: Config, m0: map<Key, Stored>, s: State, i: nat, now: int, fails: bool)
    requires Enabled(s, Fetch(i, now, fails)) && Represents(s.server, Replay(m0, s.log))
    ensures var t := FetchStep(cfg, s, i, now, fails);
            Represents(t.server, Replay(m0, t.log))
  {
    var c, m := s.clients[i], Replay(m0, s.log);
    if AfterFetch(cfg, s.server, |s.log|, c, now, fails).1 {
      RemovesNothing(cfg, s.server, |s.log|, c, now, fails, m);
      LogGrows(s.log, EffectOf(i, c), m0);
    }
  }

  lemma RemovesNothing(cfg: Config, server: Server, position: nat, c: Client, now: int, fails: bool,
                       m: map<Key, Stored>)
    requires c.phase.Begin? && AfterFetch(cfg, server, position, c, now, fails).1 && Represents(server, m)
    requires c.op.GetOp? ==> c.lazy
    ensures Apply(m, Intent(c.op)) == m
  {
    assert ValueAt(m, c.op.key) == None;
    assert m - {c.op.key} == m;
  }

  lemma FetchKeepsInv(cfg: Config, m0: map<Key, Stored>, s: State, i: nat, now: int, fails: bool)
    requires Inv(cfg, m0, s) && Enabled(s, Fetch(i, now, fails))
    ensures Inv(cfg, m0, FetchStep(cfg, s, i, now, fails))
  {
    var t := FetchStep(cfg, s, i, now, fails);
    FetchKeepsClient(cfg, m0, s, i, now, fails);
    FetchRefines(cfg, m0, s, i, now, fails);
    RestUndisturbed(cfg, m0, s, t, i);
    EffectsStayNamed(s.log, i, s.clients[i], AfterFetch(cfg, s.server, |s.log|, s.clients[i], now, fails).1,
        |s.clients|);
  }

  lemma EffectsStayNamed(log: seq<Effect>, i: nat, c: Client, commits: bool, n: nat)
    requires i < n && forall e :: e in log && e.author.Some? ==> e.author.value < n
    ensures forall e :: e in Logged(log, i, c, commits) && e.author.Some? ==> e.author.value < n
  {
  }

  lemma SendKeepsCopyAndBudget(server: Server, c: Client, fails: bool)
    requires (c.phase.Creating? || c.phase.Writing?) && ServerOk(server) && CopyOk(server, c) && BudgetOk(server, c)
    ensures var (after, d, _) := AfterSend(server, c, fails);
            CopyOk(after, d) && BudgetOk(after, d)
  {
  }

  lemma SendKeepsEffectsFit(server: Server, c: Client, fails: bool, writes: seq<Write>)
    requires (c.phase.Creating? || c.phase.Writing?) && EffectsFit(writes, c)
    ensures var (_, d, commits) := AfterSend(server, c, fails);
            && EffectsFit(writes + (if commits then [Intent(c.op)] else []), d)
            && d.op == c.op && d.lazy == c.lazy && d.readAt == c.readAt && d.readNow == c.readNow
            && (c.lazy && d.phase.Finished? ==> d.phase.outcome == Missing)
  {
    assert writes == [];
  }

  lemma SendKeepsEffectsAndAnswer(cfg: Config, m0: map<Key, Stored>, s: State, i: nat, fails: bool)
    requires Enabled(s, Send(i, fails)) && AnswerOk(cfg, m0, s.log, s.clients[i]) && EffectsOk(s.log, i, s.clients[i])
    ensures var t := SendStep(s, i, fails);
            EffectsOk(t.log, i, t.clients[i]) && AnswerOk(cfg, m0, t.log, t.clients[i])
  {
    var c := s.clients[i];
    SendKeepsEffectsFit(s.server, c, fails, WritesBy(s.log, i));
    LoggedWrites(s.log, i, c, AfterSend(s.server, c, fails).2);
  }

  lemma SendRefines(cfg: Config, m0: map<Key, Stored>, s: State, i: nat, fails: bool)
    requires Enabled(s, Send(i, fails)) && ServerOk(s.server) && CopyOk(s.server, s.clients[i])
    requires Represents(s.server, Replay(m0, s.log))
    ensures var t := SendStep(s, i, fails);
            ServerOk(t.server) && Represents(t.server, Replay(m0, t.log))
  {
    var e := EffectOf(i, s.clients[i]);
    LogGrows(s.log, e, m0);
    EditRefines(s.server, if s.server.configMap.Some? then s.server.configMap.value.data else map[], e.write,
        Replay(m0, s.log));
  }

  /** A write moves the revision by one and is logged; anything else leaves both. */
  lemma SendMovesServer(server: Server, c: Client, fails: bool)
    requires c.phase.Creating? || c.phase.Writing?
    ensures var (after, _, commits) := AfterSend(server, c, fails);
            if commits then
              after.revision == server.revision + 1 && after.configMap.Some?
                  && after.configMap.value.version == after.revision
            else after == server
  {
  }

  lemma SendKeepsInv(cfg: Config, m0: map<Key, Stored>, s: State, i: nat, fails: bool)
    requires Inv(cfg, m0, s) && Enabled(s, Send(i, fails))
    ensures Inv(cfg, m0, SendStep(s, i, fails))
  {
    var t, c := SendStep(s, i, fails), s.clients[i];
    assert ClientOk(cfg, m0, s, i, c);
    SendKeepsCopyAndBudget(s.server, c, fails);
    SendKeepsEffectsAndAnswer(cfg, m0, s, i, fails);
    SendRefines(cfg, m0, s, i, fails);
    SendMovesServer(s.server, c, fails);
    RestUndisturbed(cfg, m0, s, t, i);
    EffectsStayNamed(s.log, i, c, AfterSend(s.server, c, fails).2, |s.clients|);
  }

  lemma DeletedKeepsInv(cfg: Config, m0: map<Key, Stored>, s: State)
    requires Inv(cfg, m0, s)
    ensures Inv(cfg, m0, Step(cfg, s, Deleted))
  {
    var t := Step(cfg, s, Deleted);
    var e := Effect(None, Wipe);
    LogGrows(s.log, e, m0);
    forall j | 0 <= j < |t.clients| ensures ClientOk(cfg, m0, t, j, t.clients[j]) {
      OthersUndisturbed(cfg, m0, s, t, e, j);
    }
    VanishRefines(s.server);
  }

  // --- what every execution guarantees ---

  ghost predicate Reaches(cfg: Config, server: Server, ops: seq<Op>, actions: seq<Action>, s: State) {
    Execute(cfg, Initial(server, ops), actions) == Some(s)
  }

  lemma InitialInv(cfg: Config, server: Server, m0: map<Key, Stored>, ops: seq<Op>)
    requires ServerOk(server) && Represents(server, m0)
    ensures Inv(cfg, m0, Initial(server, ops))
  {
    var s := Initial(server, ops);
    forall i | 0 <= i < |s.clients| ensures ClientOk(cfg, m0, s, i, s.clients[i]) {
    }
  }

  lemma StepKeepsInv(cfg: Config, m0: map<Key, Stored>, s: State, a: Action)
    requires Inv(cfg, m0, s) && Enabled(s, a)
    ensures Inv(cfg, m0, Step(cfg, s, a))
  {
    match a {
      case Fetch(i, now, fails) => FetchKeepsInv(cfg, m0, s, i, now, fails);
      case Send(i, fails) => SendKeepsInv(cfg, m0, s, i, fails);
      case Deleted => DeletedKeepsInv(cfg, m0, s);
    }
  }

  lemma StepKeepsOps(cfg: Config, s: State, a: Action)
    requires Enabled(s, a)
    ensures |Step(cfg, s, a).clients| == |s.clients|
    ensures forall i :: 0 <= i < |s.clients| ==> Step(cfg, s, a).clients[i].op == s.clients[i].op
  {
  }

  lemma {:induction false} InvAlways(cfg: Config, server: Server, m0: map<Key, Stored>, ops: seq<Op>,
                                     actions: seq<Action>, s: State)
    requires ServerOk(server) && Represents(server, m0) && Reaches(cfg, server, ops, actions, s)
    ensures Inv(cfg, m0, s)
    ensures |s.clients| == |ops| && forall i :: 0 <= i < |ops| ==> s.clients[i].op == ops[i]
  {
    if actions == [] {
      InitialInv(cfg, server, m0, ops);
    } else {
      var t, a := Execute(cfg, Initial(server, ops), actions[..|actions| - 1]).value, actions[|actions| - 1];
      InvAlways(cfg, server, m0, ops, actions[..|actions| - 1], t);
      StepKeepsInv(cfg, m0, t, a);
      StepKeepsOps(cfg, t, a);
    }
  }

  /** The position of a Get's answer in the log. */
  function Cut(s: State, i: nat): (n: nat)
    requires i < |s.clients|
    ensures n <= |s.log|
  {
    if s.clients[i].readAt <= |s.log| then s.clients[i].readAt else 0
  }

  /** What its key held then. */
  function ValueRead(m0: map<Key, Stored>, s: State, i: nat): Option<Stored>
    requires i < |s.clients|
  {
    ValueAt(Replay(m0, s.log[..Cut(s, i)]), s.clients[i].op.key)
  }

  lemma LatestReading(cfg: Config, t: State, a: Action, i: nat)
    requires Enabled(t, a) && i < |t.clients| && t.clients[i].op.GetOp?
    requires t.clients[i].phase.Creating? || t.clients[i].phase.Writing? ==> Mutates(t.clients[i])
    ensures var c, d := t.clients[i], Step(cfg, t, a).clients[i];
            && (HasRead(c) ==> d.readNow == c.readNow && d.readAt == c.readAt)
            && (!HasRead(c) && HasRead(d) ==> a == Fetch(i, d.readNow, false) && d.readAt == |t.log|)
  {
  }

  lemma StepExtendsLog(cfg: Config, t: State, a: Action)
    requires Enabled(t, a)
    ensures t.log <= Step(cfg, t, a).log
  {
  }

  /**
   An answer belongs to one Fetch of that Get: it compares with the clock given to it, and it is
   read off the log as it stood then.
   */
  lemma {:induction false} AnswerIsReading(cfg: Config, server: Server, m0: map<Key, Stored>, ops: seq<Op>,
                                           actions: seq<Action>, s: State, i: nat) returns (n: nat, t: State)
    requires ServerOk(server) && Represents(server, m0) && Reaches(cfg, server, ops, actions, s) && i < |s.clients|
    requires s.clients[i].op.GetOp? && HasRead(s.clients[i])
    ensures n < |actions| && actions[n] == Fetch(i, s.clients[i].readNow, false)
    ensures Reaches(cfg, server, ops, actions[..n], t)
    ensures |t.log| == s.clients[i].readAt && t.log <= s.log
  {
    if actions == [] {
      assert false;
    } else {
      var last := |actions| - 1;
      var rest, a := actions[..last], actions[last];
      var u := Execute(cfg, Initial(server, ops), rest).value;
      InvAlways(cfg, server, m0, ops, rest, u);
      StepKeepsOps(cfg, u, a);
      assert ClientOk(cfg, m0, u, i, u.clients[i]);
      LatestReading(cfg, u, a, i);
      StepExtendsLog(cfg, u, a);
      if HasRead(u.clients[i]) {
        n, t := AnswerIsReading(cfg, server, m0, ops, rest, u, i);
        assert rest[..n] == actions[..n];
      } else {
        n, t := last, u;
      }
    }
  }

  /**
   The store refines a map.  The server's data always stand for the log's writes replayed on
   the initial map; a Set or Delete that succeeded is in the log exactly once, one that failed
   is not there at all; and a Get answers with what its key held at some point of the log: with
   an entry live at that moment, or "missing" if there was none or it had expired.  It changes at
   most its own key, and that only if the entry it read had expired.
   */
  lemma StoreRefinesMap(cfg: Config, server: Server, m0: map<Key, Stored>, ops: seq<Op>, actions: seq<Action>,
                        s: State, i: nat)
    requires ServerOk(server) && Represents(server, m0) && Reaches(cfg, server, ops, actions, s)
    requires i < |ops|
    ensures Represents(s.server, Replay(m0, s.log))
    ensures |s.clients| == |ops| && s.clients[i].op == ops[i]
    ensures var phase, writes := s.clients[i].phase, WritesBy(s.log, i);
            && (!ops[i].GetOp? ==>
                  writes == if phase == Finished(Done) then [Intent(ops[i])] else [])
            && (ops[i].GetOp? ==> writes == [] || writes == [Remove(ops[i].key)])
            && (ops[i].GetOp? && phase.Finished? ==>
                  phase.outcome.Failed? || AnswerFits(cfg, ValueRead(m0, s, i), s.clients[i]))
            && (ops[i].GetOp? && writes != [] ==> ExpiredAt(cfg, ValueRead(m0, s, i), s.clients[i].readNow))
  {
    InvAlways(cfg, server, m0, ops, actions, s);
    assert ClientOk(cfg, m0, s, i, s.clients[i]);
  }

  predicate Touches(w: Write, key: Key) {
    w.Wipe? || w.key == key
  }

  lemma {:induction false} ReplayUntouched(m: map<Key, Stored>, log: seq<Effect>, key: Key)
    requires forall e :: e in log ==> !Touches(e.write, key)
    ensures ValueAt(Replay(m, log), key) == ValueAt(m, key)
  {
    if log == [] {
    } else {
      assert log[|log| - 1] in log;
      ReplayUntouched(m, log[..|log| - 1], key);
    }
  }

  lemma {:induction false} ReplayConcat(m: map<Key, Stored>, a: seq<Effect>, b: seq<Effect>)
    ensures Replay(m, a + b) == Replay(Replay(m, a), b)
  {
    if b == [] {
      assert a + b == a;
    } else {
      assert (a + b)[..|a + b| - 1] == a + b[..|b| - 1];
      ReplayConcat(m, a, b[..|b| - 1]);
    }
  }

  /**
   No lost updates: a key holds the last value written to it, whatever other keys' writers did
   in between, and that value decodes to the entry given to Set, cut to whole seconds.
   */
  lemma LastWriteWins(cfg: Config, server: Server, m0: map<Key, Stored>, ops: seq<Op>, actions: seq<Action>, s: State,
                      n: nat, op: Op)
    requires ServerOk(server) && Represents(server, m0) && Reaches(cfg, server, ops, actions, s)
    requires n < |s.log| && op.SetOp? && s.log[n].write == Intent(op)
    requires forall e :: e in s.log[n + 1..] ==> !Touches(e.write, op.key)
    ensures Lookup(s.server, op.key) == Some(ValueOf(op))
    ensures Unmarshal(EMPTY, ValueOf(op), cfg.rfc3339) == (Persisted(op.entry), true)
  {
    InvAlways(cfg, server, m0, ops, actions, s);
    var before, after := s.log[..n], s.log[n + 1..];
    assert s.log == before + [s.log[n]] + after;
    ReplayConcat(m0, before + [s.log[n]], after);
    LogGrows(before, s.log[n], m0);
    ReplayUntouched(Replay(m0, before + [s.log[n]]), after, op.key);
    assert Lookup(s.server, op.key) == ValueAt(Replay(m0, s.log), op.key);
    RoundTrip(op.entry, EMPTY, op.text, cfg.rfc3339);
  }

  /** A Set or Delete gives up on conflicts only after five commits by others during the call. */
  lemma ConflictNeedsRivals(cfg: Config, server: Server, m0: map<Key, Stored>, ops: seq<Op>, actions: seq<Action>,
                            s: State, i: nat)
    requires ServerOk(server) && Represents(server, m0) && Reaches(cfg, server, ops, actions, s)
    requires i < |s.clients| && s.clients[i].phase == Finished(Failed(Conflict))
    ensures WritesBy(s.log, i) == []
    ensures s.server.revision >= s.clients[i].began + RETRY_STEPS
  {
    InvAlways(cfg, server, m0, ops, actions, s);
    assert ClientOk(cfg, m0, s, i, s.clients[i]);
  }

  // --- a race the store does not exclude ---

  /** A write by client i stands at position q of the log. */
  lemma {:induction false} WritesByNone(log: seq<Effect>, i: nat, q: nat)
    requires WritesBy(log, i) == [] && q < |log|
    ensures log[q].author != Some(i)
  {
    var n := |log| - 1;
    if q == n {
    } else {
      WritesByNone(log[..n], i, q);
    }
  }

  /** The last write that touches the key, if any does. */
  lemma {:induction false} LastTouch(log: seq<Effect>, key: Key) returns (n: int)
    ensures -1 <= n < |log| && (n >= 0 ==> Touches(log[n].write, key))
    ensures forall k :: n < k < |log| ==> !Touches(log[k].write, key)
  {
    n := |log| - 1;
    while n >= 0 && !Touches(log[n].write, key)
      invariant -1 <= n < |log|
      invariant forall k :: n < k < |log| ==> !Touches(log[k].write, key)
    {
      n := n - 1;
    }
  }

  /** A key's value follows from the last write that touched it. */
  lemma ValueAfterTouch(m0: map<Key, Stored>, log: seq<Effect>, key: Key, n: nat)
    requires n < |log| && Touches(log[n].write, key)
    requires forall k :: n < k < |log| ==> !Touches(log[k].write, key)
    ensures ValueAt(Replay(m0, log), key) == if log[n].write.Put? then Some(log[n].write.value) else None
  {
    var upTo, after := log[..n + 1], log[n + 1..];
    assert log == upTo + after;
    ReplayConcat(m0, upTo, after);
    assert upTo[..n] == log[..n];
    ReplayUntouched(Replay(m0, upTo), after, key);
  }

  lemma ValueUntouchedSince(m0: map<Key, Stored>, log: seq<Effect>, key: Key, n: nat)
    requires n <= |log| && forall k :: n <= k < |log| ==> !Touches(log[k].write, key)
    ensures ValueAt(Replay(m0, log), key) == ValueAt(Replay(m0, log[..n]), key)
  {
    assert log == log[..n] + log[n..];
    ReplayConcat(m0, log[..n], log[n..]);
    ReplayUntouched(Replay(m0, log[..n]), log[n..], key);
  }

  /** Since position `from`, the last write to the key put an entry there that is live at `now`. */
  ghost predicate Renewed(cfg: Config, log: seq<Effect>, from: nat, key: Key, now: int) {
    exists n: nat :: from <= n < |log| && RenewedAt(cfg, log, n, key, now)
  }

  ghost predicate RenewedAt(cfg: Config, log: seq<Effect>, n: nat, key: Key, now: int)
    requires n < |log|
  {
    && log[n].write.Put? && log[n].write.key == key && LiveAt(cfg, Some(log[n].write.value), now)
    && forall k :: n < k < |log| ==> !Touches(log[k].write, key)
  }

  lemma LiveExactlyIfRenewed(cfg: Config, m0: map<Key, Stored>, log: seq<Effect>, from: nat, key: Key, now: int)
    requires from <= |log| && !LiveAt(cfg, ValueAt(Replay(m0, log[..from]), key), now)
    ensures LiveAt(cfg, ValueAt(Replay(m0, log), key), now) <==> Renewed(cfg, log, from, key, now)
  {
    var n := LastTouch(log, key);
    if n < from {
      ValueUntouchedSince(m0, log, key, from);
    } else {
      ValueAfterTouch(m0, log, key, n);
      assert LiveAt(cfg, ValueAt(Replay(m0, log), key), now) ==> RenewedAt(cfg, log, n, key, now);
    }
  }

  /**
   A Get deletes only after reading an expired entry.  It removes what it read unless some write
   touched the key in between, and it removes an entry that is live by its own clock exactly when
   the last such write put one there.
   */
  lemma LazyRemoveExactly(cfg: Config, server: Server, m0: map<Key, Stored>, ops: seq<Op>, actions: seq<Action>,
                          s: State, q: nat, i: nat)
    requires ServerOk(server) && Represents(server, m0) && Reaches(cfg, server, ops, actions, s)
    requires i < |ops| && ops[i].GetOp? && q < |s.log| && s.log[q].author == Some(i)
    ensures |s.clients| == |ops| && s.clients[i].op == ops[i] && Cut(s, i) <= q
    ensures ExpiredAt(cfg, ValueRead(m0, s, i), s.clients[i].readNow)
    ensures var removed := ValueAt(Replay(m0, s.log[..q]), ops[i].key);
            && (removed != ValueRead(m0, s, i) ==>
                  exists n :: Cut(s, i) <= n < q && Touches(s.log[n].write, ops[i].key))
            && (LiveAt(cfg, removed, s.clients[i].readNow) <==>
                  Renewed(cfg, s.log[..q], Cut(s, i), ops[i].key, s.clients[i].readNow))
  {
    InvAlways(cfg, server, m0, ops, actions, s);
    var c, key := s.clients[i], ops[i].key;
    assert ClientOk(cfg, m0, s, i, c);
    if WritesBy(s.log, i) == [] {
      WritesByNone(s.log, i, q);
    }
    if q < c.readAt {
      WritesByNone(s.log[..c.readAt], i, q);
    }
    var before, from := s.log[..q], c.readAt;
    assert before[..from] == s.log[..from];
    LiveExactlyIfRenewed(cfg, m0, before, from, key, c.readNow);
    if forall n :: from <= n < q ==> !Touches(s.log[n].write, key) {
      ValueUntouchedSince(m0, before, key, from);
    }
  }

  /** What the log holds comes from the operations, and from the ConfigMap being deleted. */
  ghost predicate FromOps(ops: seq<Op>, e: Effect) {
    if e.author.Some? then e.author.value < |ops| && e.write == Intent(ops[e.author.value]) else e.write == Wipe
  }

  lemma StepLogsOps(cfg: Config, ops: seq<Op>, t: State, a: Action, q: nat)
    requires Enabled(t, a) && |t.clients| == |ops| && forall i :: 0 <= i < |ops| ==> t.clients[i].op == ops[i]
    requires |t.log| <= q < |Step(cfg, t, a).log|
    ensures FromOps(ops, Step(cfg, t, a).log[q])
  {
  }

  lemma {:induction false} LogFromOps(cfg: Config, server: Server, m0: map<Key, Stored>, ops: seq<Op>,
                                      actions: seq<Action>, s: State, q: nat)
    requires ServerOk(server) && Represents(server, m0) && Reaches(cfg, server, ops, actions, s) && q < |s.log|
    ensures FromOps(ops, s.log[q])
  {
    if actions == [] {
    } else {
      var rest, a := actions[..|actions| - 1], actions[|actions| - 1];
      var t := Execute(cfg, Initial(server, ops), rest).value;
      InvAlways(cfg, server, m0, ops, rest, t);
      StepExtendsLog(cfg, t, a);
      if q < |t.log| {
        LogFromOps(cfg, server, m0, ops, rest, t, q);
      } else {
        StepLogsOps(cfg, ops, t, a, q);
      }
    }
  }

  lemma NoPut(ops: seq<Op>, e: Effect, key: Key)
    requires FromOps(ops, e) && forall op :: op in ops && op.SetOp? ==> op.key != key
    ensures e.write.Put? ==> e.write.key != key
  {
    assert e.author.Some? ==> ops[e.author.value] in ops;
  }

  /** Without a Set of its key among the operations a Get never deletes a live entry. */
  lemma NoSetNoLiveRemoved(cfg: Config, server: Server, m0: map<Key, Stored>, ops: seq<Op>, actions: seq<Action>,
                           s: State, q: nat, i: nat)
    requires ServerOk(server) && Represents(server, m0) && Reaches(cfg, server, ops, actions, s)
    requires i < |ops| && ops[i].GetOp? && q < |s.log| && s.log[q].author == Some(i)
    requires forall op :: op in ops && op.SetOp? ==> op.key != ops[i].key
    ensures i < |s.clients| && !LiveAt(cfg, ValueAt(Replay(m0, s.log[..q]), ops[i].key), s.clients[i].readNow)
  {
    LazyRemoveExactly(cfg, server, m0, ops, actions, s, q, i);
    forall n | 0 <= n < q ensures !RenewedAt(cfg, s.log[..q], n, ops[i].key, s.clients[i].readNow) {
      LogFromOps(cfg, server, m0, ops, actions, s, n);
      NoPut(ops, s.log[n], ops[i].key);
    }
  }

  /** A Get meets an expired entry, and before it deletes the key a Set renews it. */
  lemma RenewedBeforeDelete(cfg: Config, server: Server, key: Key, expired: Stored, renewed: Entry, text: string,
                            now: int)
    returns (actions: seq<Action>, s: State)
    requires server == Server(1, Some(ConfigMap(1, Edit(map[], Put(key, expired)))))
             && ExpiredAt(cfg, Some(expired), now)
    ensures Execute(cfg, Initial(server, [GetOp(key), SetOp(key, renewed, text)]), actions) == Some(s)
    ensures s.clients == [Client(GetOp(key), true, Begin(RETRY_STEPS), 0, now, 1),
                          Client(SetOp(key, renewed, text), false, Finished(Done), 0, 0, 1)]
    ensures s.server == Server(2, Some(ConfigMap(2, Edit(map[], Put(key, Stored(text, Some(Marshal(renewed))))))))
  {
    var s0 := Initial(server, [GetOp(key), SetOp(key, renewed, text)]);
    var s1 := Step(cfg, s0, Fetch(0, now, false));
    ExecuteOneMore(cfg, s0, [], s0, Fetch(0, now, false));
    var s2 := Step(cfg, s1, Fetch(1, now, false));
    ExecuteOneMore(cfg, s0, [] + [Fetch(0, now, false)], s1, Fetch(1, now, false));
    s := Step(cfg, s2, Send(1, false));
    actions := [] + [Fetch(0, now, false)] + [Fetch(1, now, false)] + [Send(1, false)];
    ExecuteOneMore(cfg, s0, [] + [Fetch(0, now, false)] + [Fetch(1, now, false)], s2, Send(1, false));
    var w := Put(key, Stored(text, Some(Marshal(renewed))));
    assert Edit(Edit(map[], Put(key, expired)), w) == Edit(map[], w);
    assert s.clients[0] == Client(GetOp(key), true, Begin(RETRY_STEPS), 0, now, 1);
    assert s.clients[1] == Client(SetOp(key, renewed, text), false, Finished(Done), 0, 0, 1);
  }

  /**
   A Get that meets an expired entry deletes the key in a second round trip.  A Set that
   completes in between is undone: it reported success, nobody called Delete, and the key is gone.
   */
  lemma LazyExpiryDropsFreshEntry(rfc3339: string -> Option<Time>, key: Key, stale: Entry, renewed: Entry,
                                  text: string, ttl: int, now: int)
    returns (server: Server, actions: seq<Action>, s: State)
    requires Expired(ttl, Persisted(stale), now) && !Expired(ttl, Persisted(renewed), now)
    ensures ServerOk(server) && Lookup(server, key) == Some(Stored(text, Some(Marshal(stale))))
    ensures var cfg, ops := Config(ttl, rfc3339), [GetOp(key), SetOp(key, renewed, text)];
            && Reaches(cfg, server, ops, actions, s)
            && |s.clients| == 2 && s.clients[0].phase == Finished(Missing) && s.clients[1].phase == Finished(Done)
            && Lookup(s.server, key) == None
  {
    var cfg, ops := Config(ttl, rfc3339), [GetOp(key), SetOp(key, renewed, text)];
    var expired := Stored(text, Some(Marshal(stale)));
    server := Server(1, Some(ConfigMap(1, Edit(map[], Put(key, expired)))));
    RoundTrip(stale, EMPTY, text, rfc3339);
    var s0 := Initial(server, ops);
    var before, s3 := RenewedBeforeDelete(cfg, server, key, expired, renewed, text, now);
    var s4 := Step(cfg, s3, Fetch(0, now, false));
    ExecuteOneMore(cfg, s0, before, s3, Fetch(0, now, false));
    s := Step(cfg, s4, Send(0, false));
    ExecuteOneMore(cfg, s0, before + [Fetch(0, now, false)], s4, Send(0, false));
    actions := before + [Fetch(0, now, false)] + [Send(0, false)];
  }

  /** The ConfigMap is there, and nobody has found it missing or is about to create it. */
  ghost predicate NeverMissing(s: State) {
    && s.server.configMap.Some?
    && forall c :: c in s.clients ==>
         !c.phase.Creating?
         && (c.phase.Finished? ==> c.phase.outcome != Failed(AlreadyExists) && c.phase.outcome != Failed(NotFound))
  }

  lemma StepKeepsPresent(cfg: Config, s: State, a: Action)
    requires NeverMissing(s) && Enabled(s, a) && !a.Deleted?
    ensures NeverMissing(Step(cfg, s, a))
  {
    assert s.clients[a.i] in s.clients;
  }

  /** Once the ConfigMap exists, and as long as nobody deletes it, no operation fails for finding or missing it. */
  lemma {:induction false} NoRaceOncePresent(cfg: Config, server: Server, ops: seq<Op>, actions: seq<Action>, s: State)
    requires server.configMap.Some? && Reaches(cfg, server, ops, actions, s) && Deleted !in actions
    ensures NeverMissing(s)
  {
    if actions == [] {
    } else {
      var rest, a := actions[..|actions| - 1], actions[|actions| - 1];
      assert a in actions;
      var t := Execute(cfg, Initial(server, ops), rest).value;
      NoRaceOncePresent(cfg, server, ops, rest, t);
      StepKeepsPresent(cfg, t, a);
    }
  }

  /** Two Sets that both find no ConfigMap: the second to create it fails, though nothing else went wrong. */
  lemma CreateRaceLost(cfg: Config, server: Server, first: Op, second: Op) returns (actions: seq<Action>, s: State)
    requires server.configMap == None && first.SetOp? && second.SetOp?
    ensures Reaches(cfg, server, [first, second], actions, s) && |s.clients| == 2
    ensures s.clients[0].phase == Finished(Done) && s.clients[1].phase == Finished(Failed(AlreadyExists))
    ensures s.log == [Effect(Some(0), Intent(first))]
  {
    var s0 := Initial(server, [first, second]);
    var s1 := Step(cfg, s0, Fetch(0, 0, false));
    ExecuteOneMore(cfg, s0, [], s0, Fetch(0, 0, false));
    var a1 := [] + [Fetch(0, 0, false)];
    var s2 := Step(cfg, s1, Fetch(1, 0, false));
    ExecuteOneMore(cfg, s0, a1, s1, Fetch(1, 0, false));
    var a2 := a1 + [Fetch(1, 0, false)];
    var s3 := Step(cfg, s2, Send(0, false));
    ExecuteOneMore(cfg, s0, a2, s2, Send(0, false));
    var a3 := a2 + [Send(0, false)];
    s := Step(cfg, s3, Send(1, false));
    ExecuteOneMore(cfg, s0, a3, s3, Send(1, false));
    actions := a3 + [Send(1, false)];
    assert s.log == [] + [Effect(Some(0), Intent(first))];
  }

  lemma ExecuteOneMore(cfg: Config, s: State, actions: seq<Action>, t: State, a: Action)
    requires Execute(cfg, s, actions) == Some(t) && Enabled(t, a)
    ensures Execute(cfg, s, actions + [a]) == Some(Step(cfg, t, a))
  {
    assert (actions + [a])[..|actions|] == actions;
  }
}
