/** The provider cache and cluster removal. The mutex covers the cache but not the store, so a
    lookup may read a row that a removal is about to delete; every interleaving is covered. The store
    finds a cluster by the value of its id, the cache by its spelling. */
module Registry {
  import opened Text

  datatype Error = NotFound | StoreFailed | Conflict | AdminTokenUnreadable | SystemSecretUnreadable | UnknownProvider

  datatype Result<+T> = Ok(value: T) | Err(error: Error)

  /** The columns of a cluster row that decide its provider; none of them is ever updated. */
  datatype Config = Config(kind: string, s3Endpoint: string, region: string, adminEndpoint: string, webEndpoint: string,
                           adminTokenEnc: string, accessKeyId: string, systemSecretEnc: string)

  datatype Row = Row(config: Config, live: bool)

  datatype Provider = Provider(kind: string, s3Endpoint: string, region: string, adminUrl: string, adminToken: string,
                               accessKeyId: string, secretAccessKey: string, publicEndpoint: string)

  /** What does not change while the process runs: the id of the primary cluster and its public
      endpoint, the stored spelling of an id (Postgres compares UUID values, SQLite the text),
      decryption, and the providers that can be constructed. */
  datatype Env = Env(primary: string, publicEndpoint: string, canon: string -> string,
                     unseal: string -> Option<string>, constructible: Provider -> bool)

  const GARAGE := "garage"

  function Unseal(env: Env, sealed: string): Option<string> {
    if sealed == "" then Some("") else env.unseal(sealed)
  }

  function PublicEndpoint(env: Env, c: Config): string {
    if c.kind == GARAGE then env.publicEndpoint
    else if c.webEndpoint != "" then c.webEndpoint
    else c.s3Endpoint
  }

  function Build(env: Env, c: Config): Result<Provider> {
    var token := Unseal(env, c.adminTokenEnc);
    if token.None? then Err(AdminTokenUnreadable)
    else
      var secret := Unseal(env, c.systemSecretEnc);
      if secret.None? then Err(SystemSecretUnreadable)
      else
        var p := Provider(c.kind, c.s3Endpoint, c.region, c.adminEndpoint, token.value,
                          c.accessKeyId, secret.value, PublicEndpoint(env, c));
        if env.constructible(p) then Ok(p) else Err(UnknownProvider)
  }

  /** The text that a sealed column stands for: empty when the column is. */
  ghost predicate Opens(env: Env, sealed: string, plain: string) {
    if sealed == "" then plain == "" else env.unseal(sealed) == Some(plain)
  }

  ghost predicate Unreadable(env: Env, sealed: string) {
    sealed != "" && env.unseal(sealed) == None
  }

  /** The provider has the row's settings and its two secrets, each opened; URLs are signed for the
      configured public endpoint on Garage, elsewhere for the web endpoint or else the S3 endpoint. */
  ghost predicate MadeFrom(env: Env, c: Config, p: Provider) {
    && p.kind == c.kind && p.s3Endpoint == c.s3Endpoint && p.region == c.region && p.adminUrl == c.adminEndpoint
    && p.accessKeyId == c.accessKeyId && Opens(env, c.adminTokenEnc, p.adminToken) && Opens(env, c.systemSecretEnc, p.secretAccessKey)
    && (c.kind == "garage" ==> p.publicEndpoint == env.publicEndpoint)
    && (c.kind != "garage" && c.webEndpoint != "" ==> p.publicEndpoint == c.webEndpoint)
    && (c.kind != "garage" && c.webEndpoint == "" ==> p.publicEndpoint == c.s3Endpoint)
  }

  /** What building gives, and exactly when it fails with which error. */
  lemma BuildMeaning(env: Env, c: Config)
    ensures Build(env, c).Ok? ==> MadeFrom(env, c, Build(env, c).value) && env.constructible(Build(env, c).value)
    ensures Build(env, c) == Err(AdminTokenUnreadable) <==> Unreadable(env, c.adminTokenEnc)
    ensures Build(env, c) == Err(SystemSecretUnreadable) <==> !Unreadable(env, c.adminTokenEnc) && Unreadable(env, c.systemSecretEnc)
    ensures Build(env, c) == Err(UnknownProvider) <==>
      && !Unreadable(env, c.adminTokenEnc) && !Unreadable(env, c.systemSecretEnc)
      && forall p :: MadeFrom(env, c, p) ==> !env.constructible(p)
  {
    if !Unreadable(env, c.adminTokenEnc) && !Unreadable(env, c.systemSecretEnc) {
      var p := Provider(c.kind, c.s3Endpoint, c.region, c.adminEndpoint, Unseal(env, c.adminTokenEnc).value,
                        c.accessKeyId, Unseal(env, c.systemSecretEnc).value, PublicEndpoint(env, c));
      assert MadeFrom(env, c, p);
      assert forall q :: MadeFrom(env, c, q) ==> q == p;
    }
  }

  /** The answer without a cache. */
  function Resolve(env: Env, rows: map<string, Row>, id: string): Result<Provider> {
    var k := env.canon(id);
    if k in rows && rows[k].live then Build(env, rows[k].config) else Err(NotFound)
  }

  predicate Resolves(env: Env, rows: map<string, Row>, id: string) {
    env.canon(id) in rows && rows[env.canon(id)].live
  }

  // ---- Interleavings ----

  datatype LookupPhase = Calling | Locked | Missed | HasRow(config: Config)

  datatype RemovePhase = Checking | Counting | Deleting | Deleted | Dropping

  /** A call in progress; ids as the callers spelled them. A lookup is `late` when a removal by the same
      spelling had already returned. `Refresh` is the invalidation at the end of adding a cluster. */
  datatype Call =
    | Lookup(id: string, late: bool, look: LookupPhase)
    | Remove(id: string, remove: RemovePhase)
    | Refresh(id: string, holding: bool)

  datatype Answer = Answer(id: string, late: bool, result: Result<Provider>)

  /** Rows by stored id, cache entries by spelling. `removed` holds the spellings by which a removal has
      returned successfully; `orphans` the clusters whose deletion took effect in the store although
      the statement reported an error. */
  datatype World = World(rows: map<string, Row>, cache: map<string, Provider>, mutex: Option<nat>, calls: map<nat, Call>,
                         removed: set<string>, orphans: set<string>, answers: seq<Answer>)

  datatype DeleteOutcome = Done | Refused | Unacknowledged

  datatype Step =
    | StartLookup(t: nat, id: string)
    | StartRemove(t: nat, id: string)
    | Create(t: nat, id: string, config: Config)
    | Acquire(t: nat)
    | Peek(t: nat)
    | ReadRow(t: nat, ok: bool)
    | Construct(t: nat)
    | CheckRow(t: nat, ok: bool)
    | CountBuckets(t: nat, buckets: Option<nat>)
    | SoftDelete(t: nat, outcome: DeleteOutcome)
    | Drop(t: nat)
    | Restart

  predicate Holds(c: Call) {
    match c
    case Lookup(_, _, look) => !look.Calling?
    case Remove(_, phase) => phase.Dropping?
    case Refresh(_, holding) => holding
  }

  predicate Live(s: World, k: string) {
    k in s.rows && s.rows[k].live
  }

  function Put(s: World, t: nat, c: Call): World {
    s.(calls := s.calls[t := c])
  }

  function Return(s: World, t: nat): World {
    s.(calls := s.calls - {t})
  }

  /** A lookup returns and unlocks. */
  function Reply(s: World, t: nat, id: string, late: bool, r: Result<Provider>): World {
    Return(s, t).(mutex := None, answers := s.answers + [Answer(id, late, r)])
  }

  function DeleteRow(s: World, k: string): World {
    if k in s.rows then s.(rows := s.rows[k := s.rows[k].(live := false)]) else s
  }

  function AfterSoftDelete(env: Env, s: World, t: nat, id: string, outcome: DeleteOutcome): World {
    match outcome
    case Done => Put(DeleteRow(s, env.canon(id)), t, Remove(id, Deleted))
    case Refused => Return(s, t)
    case Unacknowledged => Return(DeleteRow(s, env.canon(id)), t).(orphans := s.orphans + {env.canon(id)})
  }

  function AfterDrop(s: World, t: nat, id: string, removal: bool): World {
    Return(s, t).(mutex := None, cache := s.cache - {id}, removed := s.removed + if removal then {id} else {})
  }

  /** A call begins; creating a cluster inserts its row under a fresh id, as the store spells it. */
  function Begin(env: Env, s: World, a: Step): World
    requires a.StartLookup? || a.StartRemove? || a.Create?
  {
    if a.t in s.calls then s
    else if a.StartLookup? then Put(s, a.t, Lookup(a.id, a.id in s.removed, Calling))
    else if a.StartRemove? then Put(s, a.t, Remove(a.id, Checking))
    else if a.id in s.rows || env.canon(a.id) != a.id then s
    else Put(s, a.t, Refresh(a.id, false)).(rows := s.rows[a.id := Row(a.config, true)])
  }

  /** The next action of a lookup. */
  function LookupStep(env: Env, s: World, t: nat, c: Call, a: Step): World
    requires c.Lookup?
  {
    match c.look
    case Calling => if a.Acquire? && s.mutex.None? then Put(s, t, c.(look := Locked)).(mutex := Some(t)) else s
    case Locked =>
      if !a.Peek? then s
      else if c.id in s.cache then Reply(s, t, c.id, c.late, Ok(s.cache[c.id]))
      else Put(s, t, c.(look := Missed))
    case Missed =>
      if !a.ReadRow? then s
      else if !a.ok then Reply(s, t, c.id, c.late, Err(StoreFailed))
      else if Live(s, env.canon(c.id)) then Put(s, t, c.(look := HasRow(s.rows[env.canon(c.id)].config)))
      else Reply(s, t, c.id, c.late, Err(NotFound))
    case HasRow(config) =>
      if !a.Construct? then s
      else
        var p := Build(env, config);
        var s' := Reply(s, t, c.id, c.late, p);
        if p.Ok? then s'.(cache := s.cache[c.id := p.value]) else s'
  }

  /** The next action of a removal. */
  function RemoveStep(env: Env, s: World, t: nat, c: Call, a: Step): World
    requires c.Remove?
  {
    match c.remove
    case Checking =>
      if !a.CheckRow? then s
      else if a.ok && Live(s, env.canon(c.id)) && env.canon(c.id) != env.primary then Put(s, t, c.(remove := Counting))
      else Return(s, t)
    case Counting =>
      if !a.CountBuckets? then s
      else if a.buckets == Some(0) then Put(s, t, c.(remove := Deleting))
      else Return(s, t)
    case Deleting => if a.SoftDelete? then AfterSoftDelete(env, s, t, c.id, a.outcome) else s
    case Deleted => if a.Acquire? && s.mutex.None? then Put(s, t, c.(remove := Dropping)).(mutex := Some(t)) else s
    case Dropping => if a.Drop? then AfterDrop(s, t, c.id, true) else s
  }

  function RefreshStep(s: World, t: nat, c: Call, a: Step): World
    requires c.Refresh?
  {
    if !c.holding then
      if a.Acquire? && s.mutex.None? then Put(s, t, c.(holding := true)).(mutex := Some(t)) else s
    else if a.Drop? then AfterDrop(s, t, c.id, false)
    else s
  }

  /** One action of one call; an action that is not the call's next one does nothing. */
  function Next(env: Env, s: World, a: Step): World {
    if a.Restart? then s.(cache := map[], mutex := None, calls := map[])
    else if a.StartLookup? || a.StartRemove? || a.Create? then Begin(env, s, a)
    else if a.t !in s.calls then s
    else
      var c := s.calls[a.t];
      match c
      case Lookup(_, _, _) => LookupStep(env, s, a.t, c, a)
      case Remove(_, _) => RemoveStep(env, s, a.t, c, a)
      case Refresh(_, _) => RefreshStep(s, a.t, c, a)
  }

  function Run(env: Env, s: World, steps: seq<Step>): World
    decreases |steps|
  {
    if steps == [] then s else Run(env, Next(env, s, steps[0]), steps[1..])
  }

  predicate Init(s: World) {
    s.cache == map[] && s.mutex == None && s.calls == map[] && s.removed == {} && s.orphans == {} && s.answers == []
  }

  // ---- The invariant ----

  /** A removal has deleted the row and still has to invalidate the cache. */
  predicate Pending(c: Call) {
    c.Remove? && (c.remove.Deleted? || c.remove.Dropping?)
  }

  ghost predicate PendsIn(env: Env, s: World, t: nat, k: string) {
    t in s.calls && Pending(s.calls[t]) && env.canon(s.calls[t].id) == k
  }

  ghost predicate RemovedBySome(env: Env, s: World, k: string) {
    exists z :: z in s.removed && env.canon(z) == k
  }

  /** The cluster is live; or it was deleted by a removal that still has to invalidate the cache, or
      that has returned, or by a statement that reported an error. */
  ghost predicate Justified(env: Env, s: World, k: string) {
    && k in s.rows
    && (s.rows[k].live || k in s.orphans || RemovedBySome(env, s, k) || exists t :: PendsIn(env, s, t, k))
  }

  predicate HasRowOf(c: Call, id: string) {
    c.Lookup? && c.id == id && c.look.HasRow?
  }

  ghost predicate CallOk(env: Env, s: World, t: nat)
    requires t in s.calls
  {
    var c := s.calls[t];
    var k := env.canon(c.id);
    && (Holds(c) <==> s.mutex == Some(t))
    && (c.Lookup? && c.look.HasRow? ==> Justified(env, s, k) && s.rows[k].config == c.look.config && c.id !in s.removed)
    && (c.Lookup? && c.late ==> c.id in s.removed)
    && (c.Remove? && !c.remove.Checking? ==> k in s.rows)
    && (Pending(c) ==> !s.rows[k].live)
  }

  ghost predicate CacheOk(env: Env, s: World, id: string)
    requires id in s.cache
  {
    var k := env.canon(id);
    Justified(env, s, k) && Build(env, s.rows[k].config) == Ok(s.cache[id]) && id !in s.removed
  }

  ghost predicate AnswerOk(env: Env, s: World, a: Answer) {
    && (a.late ==> a.result.Err?)
    && (a.result.Ok? ==> env.canon(a.id) in s.rows && Build(env, s.rows[env.canon(a.id)].config) == a.result)
  }

  ghost predicate RemovedOk(env: Env, s: World) {
    forall id :: id in s.removed ==> env.canon(id) in s.rows && !s.rows[env.canon(id)].live
  }

  ghost predicate Inv(env: Env, s: World) {
    && (s.mutex.Some? ==> s.mutex.value in s.calls)
    && (forall t :: t in s.calls ==> CallOk(env, s, t))
    && (forall id :: id in s.cache ==> CacheOk(env, s, id))
    && RemovedOk(env, s)
    && (forall i :: 0 <= i < |s.answers| ==> AnswerOk(env, s, s.answers[i]))
  }

  // ---- Every step keeps it ----

  ghost predicate RowsEvolve(s: World, s': World) {
    forall id :: id in s.rows ==>
      id in s'.rows && s'.rows[id].config == s.rows[id].config && (s'.rows[id].live ==> s.rows[id].live)
  }

  ghost predicate OthersStay(s: World, s': World, t: nat) {
    forall u :: u != t ==>
      && (u in s.calls <==> u in s'.calls)
      && (u in s.calls ==> s'.calls[u] == s.calls[u])
      && (s.mutex == Some(u) <==> s'.mutex == Some(u))
  }

  /** What a step of call t may do to a row: kill it if t then owes the invalidation (or the deletion
      went unacknowledged). */
  ghost predicate RowMoves(env: Env, s: World, s': World, t: nat, k: string) {
    && (Live(s, k) && !Live(s', k) ==> k in s'.orphans || PendsIn(env, s', t, k))
    && (PendsIn(env, s, t, k) ==> PendsIn(env, s', t, k) || RemovedBySome(env, s', k))
  }

  /** What it may do to a cache entry: holding the mutex, drop or insert it; a returned removal has
      dropped the entry of its own spelling. */
  ghost predicate CacheMoves(env: Env, s: World, s': World, t: nat, id: string) {
    && (id in s'.cache ==>
          || (id in s.cache && s'.cache[id] == s.cache[id])
          || (t in s.calls && HasRowOf(s.calls[t], id) && Build(env, s.calls[t].look.config) == Ok(s'.cache[id])))
    && (id in s'.removed && id !in s.removed ==> s.mutex == Some(t) && id !in s'.cache)
  }

  ghost predicate Frame(env: Env, s: World, s': World, t: nat) {
    && RowsEvolve(s, s') && OthersStay(s, s', t)
    && s.removed <= s'.removed && s.orphans <= s'.orphans
    && (forall k :: RowMoves(env, s, s', t, k))
    && (forall id :: CacheMoves(env, s, s', t, id))
  }

  /** The moving call stays in order, and so do the removed clusters. */
  ghost predicate MoverOk(env: Env, s': World, t: nat) {
    && (t in s'.calls ==> CallOk(env, s', t))
    && (s'.mutex == Some(t) ==> t in s'.calls)
    && RemovedOk(env, s')
  }

  /** At most one answer, given by the moving lookup. */
  ghost predicate Answers(env: Env, s: World, s': World, t: nat) {
    && s.answers <= s'.answers && |s'.answers| <= |s.answers| + 1
    && (|s'.answers| > |s.answers| ==>
          var x := s'.answers[|s.answers|];
          AnswerOk(env, s', x) && t in s.calls && s.calls[t].Lookup? && s.calls[t].id == x.id && s.calls[t].late == x.late)
  }

  ghost predicate Moves(env: Env, s: World, s': World, t: nat) {
    Frame(env, s, s', t) && MoverOk(env, s', t) && Answers(env, s, s', t)
  }

  ghost predicate Before(env: Env, s: World, t: nat) {
    && RemovedOk(env, s)
    && (s.mutex.Some? ==> s.mutex.value in s.calls)
    && (t in s.calls ==> CallOk(env, s, t) && (s.calls[t].id in s.cache ==> CacheOk(env, s, s.calls[t].id)))
  }

  lemma BeginFrame(env: Env, s: World, a: Step)
    requires a.StartLookup? || a.StartRemove? || a.Create?
    requires s.mutex.Some? ==> s.mutex.value in s.calls
    ensures Frame(env, s, Begin(env, s, a), a.t)
  {
  }

  lemma BeginMoves(env: Env, s: World, a: Step)
    requires (a.StartLookup? || a.StartRemove? || a.Create?) && Before(env, s, a.t)
    ensures Moves(env, s, Begin(env, s, a), a.t)
  {
    BeginFrame(env, s, a);
  }

  /** A step that leaves rows, cache and history alone and does not end a removal. */
  lemma QuietFrame(env: Env, s: World, s': World, t: nat)
    requires s'.rows == s.rows && s'.cache == s.cache && s'.removed == s.removed && s'.orphans == s.orphans
    requires OthersStay(s, s', t)
    requires forall k :: PendsIn(env, s, t, k) ==> PendsIn(env, s', t, k)
    ensures Frame(env, s, s', t)
  {
  }

  lemma LookupOthers(env: Env, s: World, t: nat, a: Step)
    requires t in s.calls && s.calls[t].Lookup? && CallOk(env, s, t)
    ensures OthersStay(s, LookupStep(env, s, t, s.calls[t], a), t)
  {
  }

  lemma LookupFrame(env: Env, s: World, t: nat, a: Step)
    requires t in s.calls && s.calls[t].Lookup? && CallOk(env, s, t)
    ensures Frame(env, s, LookupStep(env, s, t, s.calls[t], a), t)
  {
    LookupOthers(env, s, t, a);
    var s' := LookupStep(env, s, t, s.calls[t], a);
    if s'.cache == s.cache {
      QuietFrame(env, s, s', t);
    } else {
      assert s.calls[t].look.HasRow? && s'.rows == s.rows;
    }
  }

  lemma LookupAnswers(env: Env, s: World, t: nat, a: Step)
    requires t in s.calls && s.calls[t].Lookup? && Before(env, s, t)
    ensures Answers(env, s, LookupStep(env, s, t, s.calls[t], a), t)
  {
  }

  lemma LookupMover(env: Env, s: World, t: nat, a: Step)
    requires t in s.calls && s.calls[t].Lookup? && Before(env, s, t)
    ensures MoverOk(env, LookupStep(env, s, t, s.calls[t], a), t)
  {
  }

  lemma SoftDeleteFrame(env: Env, s: World, t: nat, outcome: DeleteOutcome)
    requires t in s.calls && s.calls[t].Remove? && s.calls[t].remove.Deleting? && CallOk(env, s, t)
    ensures Frame(env, s, AfterSoftDelete(env, s, t, s.calls[t].id, outcome), t)
  {
  }

  lemma DropFrame(env: Env, s: World, t: nat)
    requires t in s.calls && !s.calls[t].Lookup? && Holds(s.calls[t]) && CallOk(env, s, t)
    ensures Frame(env, s, AfterDrop(s, t, s.calls[t].id, s.calls[t].Remove?), t)
  {
    var s' := AfterDrop(s, t, s.calls[t].id, s.calls[t].Remove?);
    assert s.calls[t].Remove? ==> s.calls[t].id in s'.removed;
  }

  lemma RemoveFrame(env: Env, s: World, t: nat, a: Step)
    requires t in s.calls && s.calls[t].Remove? && CallOk(env, s, t)
    ensures Frame(env, s, RemoveStep(env, s, t, s.calls[t], a), t)
  {
    var c := s.calls[t];
    if a.SoftDelete? && c.remove.Deleting? {
      SoftDeleteFrame(env, s, t, a.outcome);
    } else if a.Drop? && c.remove.Dropping? {
      DropFrame(env, s, t);
    } else {
      QuietFrame(env, s, RemoveStep(env, s, t, c, a), t);
    }
  }

  lemma RemoveMover(env: Env, s: World, t: nat, a: Step)
    requires t in s.calls && s.calls[t].Remove? && Before(env, s, t)
    ensures MoverOk(env, RemoveStep(env, s, t, s.calls[t], a), t)
    ensures RemoveStep(env, s, t, s.calls[t], a).answers == s.answers
  {
  }

  lemma RefreshFrame(env: Env, s: World, t: nat, a: Step)
    requires t in s.calls && s.calls[t].Refresh? && CallOk(env, s, t)
    ensures Frame(env, s, RefreshStep(s, t, s.calls[t], a), t)
  {
  }

  lemma RefreshMover(env: Env, s: World, t: nat, a: Step)
    requires t in s.calls && s.calls[t].Refresh? && Before(env, s, t)
    ensures MoverOk(env, RefreshStep(s, t, s.calls[t], a), t)
    ensures RefreshStep(s, t, s.calls[t], a).answers == s.answers
  {
  }

  lemma StepMoves(env: Env, s: World, a: Step)
    requires !a.Restart? && Before(env, s, a.t)
    ensures Moves(env, s, Next(env, s, a), a.t)
  {
    if a.StartLookup? || a.StartRemove? || a.Create? {
      BeginMoves(env, s, a);
    } else if a.t in s.calls {
      var c := s.calls[a.t];
      if c.Lookup? {
        LookupFrame(env, s, a.t, a);
        LookupMover(env, s, a.t, a);
        LookupAnswers(env, s, a.t, a);
      } else if c.Remove? {
        RemoveFrame(env, s, a.t, a);
        RemoveMover(env, s, a.t, a);
      } else {
        RefreshFrame(env, s, a.t, a);
        RefreshMover(env, s, a.t, a);
      }
    }
  }

  lemma JustifiedStays(env: Env, s: World, s': World, t: nat, k: string)
    requires Frame(env, s, s', t) && Justified(env, s, k)
    ensures Justified(env, s', k)
  {
    assert RowMoves(env, s, s', t, k);
    if u :| PendsIn(env, s, u, k) {
      assert u != t ==> PendsIn(env, s', u, k);
    }
    if z :| z in s.removed && env.canon(z) == k {
      assert z in s'.removed;
    }
  }

  /** A call that did not move keeps what it knows: while it holds a row, it holds the mutex, so the
      mover cannot finish a removal. */
  lemma WaitingCallStaysOk(env: Env, s: World, s': World, t: nat, u: nat)
    requires Frame(env, s, s', t) && u != t && u in s.calls && CallOk(env, s, u)
    ensures CallOk(env, s', u)
  {
    var c := s.calls[u];
    assert CacheMoves(env, s, s', t, c.id);
    if HasRowOf(c, c.id) {
      JustifiedStays(env, s, s', t, env.canon(c.id));
    }
  }

  lemma CacheStaysOk(env: Env, s: World, s': World, t: nat, id: string)
    requires Frame(env, s, s', t) && id in s'.cache
    requires t in s.calls ==> CallOk(env, s, t)
    requires id in s.cache ==> CacheOk(env, s, id)
    ensures CacheOk(env, s', id)
  {
    assert CacheMoves(env, s, s', t, id);
    JustifiedStays(env, s, s', t, env.canon(id));
  }

  lemma AnswersStayOk(env: Env, s: World, s': World, x: Answer)
    requires RowsEvolve(s, s') && AnswerOk(env, s, x)
    ensures AnswerOk(env, s', x)
  {
  }

  lemma MoveKeepsInv(env: Env, s: World, s': World, t: nat)
    requires Inv(env, s) && Moves(env, s, s', t)
    ensures Inv(env, s')
  {
    forall u | u in s'.calls ensures CallOk(env, s', u) {
      if u != t {
        WaitingCallStaysOk(env, s, s', t, u);
      }
    }
    assert t in s.calls ==> CallOk(env, s, t);
    forall id | id in s'.cache ensures CacheOk(env, s', id) {
      CacheStaysOk(env, s, s', t, id);
    }
    forall i | 0 <= i < |s'.answers| ensures AnswerOk(env, s', s'.answers[i]) {
      if i < |s.answers| {
        AnswersStayOk(env, s, s', s.answers[i]);
      }
    }
  }

  lemma StepKeepsInv(env: Env, s: World, a: Step)
    requires Inv(env, s)
    ensures Inv(env, Next(env, s, a))
    ensures !a.Restart? ==> Moves(env, s, Next(env, s, a), a.t)
    ensures s.removed <= Next(env, s, a).removed && s.answers <= Next(env, s, a).answers
  {
    if !a.Restart? {
      assert a.t in s.calls ==> CallOk(env, s, a.t);
      StepMoves(env, s, a);
      MoveKeepsInv(env, s, Next(env, s, a), a.t);
    }
  }

  lemma {:induction false} RunKeepsInv(env: Env, s: World, steps: seq<Step>)
    requires Inv(env, s)
    ensures Inv(env, Run(env, s, steps))
    ensures s.removed <= Run(env, s, steps).removed && s.answers <= Run(env, s, steps).answers
    decreases |steps|
  {
    if steps != [] {
      StepKeepsInv(env, s, steps[0]);
      RunKeepsInv(env, Next(env, s, steps[0]), steps[1..]);
    }
  }

  /** In every interleaving, a lookup that starts after a removal by the same spelling has returned
      never resolves the cluster; every resolved provider is the one built from the cluster's row; and
      a cached cluster is live, or is waiting for a removal's invalidation, or was deleted by a
      statement that reported an error or by a removal that spelled the id otherwise. */
  lemma RemovedClustersNeverResolve(env: Env, s: World, steps: seq<Step>)
    requires Init(s)
    ensures var s' := Run(env, s, steps);
      && (forall i :: 0 <= i < |s'.answers| && s'.answers[i].late ==> s'.answers[i].result.Err?)
      && (forall i :: 0 <= i < |s'.answers| && s'.answers[i].result.Ok? ==>
            AnswerOk(env, s', s'.answers[i]) && MadeFrom(env, s'.rows[env.canon(s'.answers[i].id)].config, s'.answers[i].result.value))
      && (forall id :: id in s'.cache ==> CacheOk(env, s', id) && MadeFrom(env, s'.rows[env.canon(id)].config, s'.cache[id]))
  {
    RunKeepsInv(env, s, steps);
    var s' := Run(env, s, steps);
    forall i | 0 <= i < |s'.answers| && s'.answers[i].result.Ok?
      ensures AnswerOk(env, s', s'.answers[i]) && MadeFrom(env, s'.rows[env.canon(s'.answers[i].id)].config, s'.answers[i].result.value)
    {
      assert AnswerOk(env, s', s'.answers[i]);
      BuildMeaning(env, s'.rows[env.canon(s'.answers[i].id)].config);
    }
    forall id | id in s'.cache ensures CacheOk(env, s', id) && MadeFrom(env, s'.rows[env.canon(id)].config, s'.cache[id]) {
      assert CacheOk(env, s', id);
      BuildMeaning(env, s'.rows[env.canon(id)].config);
    }
  }

  // ---- An undisturbed lookup ----

  function Looking(s: World, t: nat, id: string, phase: LookupPhase): World {
    s.(calls := s.calls[t := Lookup(id, id in s.removed, phase)], mutex := Some(t))
  }

  lemma MissReachesRow(env: Env, s: World, t: nat, id: string)
    requires s.mutex == None && t !in s.calls && id !in s.cache
    ensures Next(env, Next(env, Next(env, s, StartLookup(t, id)), Acquire(t)), Peek(t)) == Looking(s, t, id, Missed)
  {
    var s1 := Next(env, s, StartLookup(t, id));
    assert s1 == s.(calls := s.calls[t := Lookup(id, id in s.removed, Calling)]);
    var s2 := Next(env, s1, Acquire(t));
    assert s2 == Looking(s, t, id, Locked);
  }

  /** With the mutex free and nothing cached, a lookup answers what the row gives, and caches a provider. */
  lemma SoloLookup(env: Env, s: World, t: nat, id: string)
    requires s.mutex == None && t !in s.calls && id !in s.cache
    ensures var s3 := Next(env, Next(env, Next(env, s, StartLookup(t, id)), Acquire(t)), Peek(t));
            var s5 := Next(env, Next(env, s3, ReadRow(t, true)), Construct(t));
            var answer := Resolve(env, s.rows, id);
      && s5.answers == s.answers + [Answer(id, id in s.removed, answer)] && s5.mutex == None
      && s5.cache == (if answer.Ok? then s.cache[id := answer.value] else s.cache)
      && s5.calls == s.calls && s5.rows == s.rows
  {
    MissReachesRow(env, s, t, id);
    var s4 := Next(env, Looking(s, t, id, Missed), ReadRow(t, true));
    if Live(s, env.canon(id)) {
      assert s4 == Looking(s, t, id, HasRow(s.rows[env.canon(id)].config));
      assert s4.calls - {t} == s.calls;
    } else {
      assert s4.calls == s.calls;
    }
  }

  // ---- Exactly when a deleted cluster still resolves ----

  /** From answer n on, every answer about the id is an error. */
  ghost predicate ErrorsFrom(s: World, id: string, n: nat) {
    n <= |s.answers| && forall i :: n <= i < |s.answers| && s.answers[i].id == id ==> s.answers[i].result.Err?
  }

  /** Whatever happens from here on, every answer about the id is an error. */
  ghost predicate OnlyErrorsFollow(env: Env, s: World, id: string) {
    forall steps :: ErrorsFrom(Run(env, s, steps), id, |s.answers|)
  }

  predicate Dead(env: Env, s: World, id: string) {
    env.canon(id) in s.rows && !s.rows[env.canon(id)].live
  }

  /** The mutex is held by a call that is about to drop the entry. */
  predicate BeingDropped(s: World, id: string) {
    && s.mutex.Some? && s.mutex.value in s.calls
    && !s.calls[s.mutex.value].Lookup? && s.calls[s.mutex.value].id == id
  }

  predicate WillResolve(env: Env, c: Call, id: string) {
    HasRowOf(c, id) && Build(env, c.look.config).Ok?
  }

  /** The entry is cached and not being dropped, or a lookup holds the row and can build from it. */
  ghost predicate Reachable(env: Env, s: World, id: string) {
    || (id in s.cache && !BeingDropped(s, id))
    || exists t :: t in s.calls && WillResolve(env, s.calls[t], id)
  }

  /** No lookup newly gets hold of a dead row. */
  lemma HeldRowWasHeld(env: Env, s: World, a: Step, id: string, t: nat)
    requires !a.Restart? && Dead(env, s, id) && t in Next(env, s, a).calls && HasRowOf(Next(env, s, a).calls[t], id)
    ensures t in s.calls && s.calls[t] == Next(env, s, a).calls[t]
  {
  }

  /** An entry being dropped stays so until it is dropped. */
  lemma DroppedEntryStays(env: Env, s: World, s': World, a: Step, id: string)
    requires !a.Restart? && s' == Next(env, s, a) && OthersStay(s, s', a.t)
    requires BeingDropped(s, id) && Holds(s.calls[s.mutex.value]) && id in s'.cache
    ensures BeingDropped(s', id)
  {
    var h := s.mutex.value;
    if a.t == h && !(a.StartLookup? || a.StartRemove? || a.Create?) {
      assert s.calls[h].Remove? ==> s' == RemoveStep(env, s, h, s.calls[h], a);
      assert s.calls[h].Refresh? ==> s' == RefreshStep(s, h, s.calls[h], a);
    }
  }

  lemma UnreachableStep(env: Env, s: World, s': World, a: Step, id: string)
    requires Inv(env, s) && Dead(env, s, id) && !Reachable(env, s, id) && s' == Next(env, s, a)
    requires !a.Restart? && Frame(env, s, s', a.t)
    ensures !Reachable(env, s', id)
  {
    assert CacheMoves(env, s, s', a.t, id);
    if id in s'.cache {
      assert CallOk(env, s, s.mutex.value);
      DroppedEntryStays(env, s, s', a, id);
    }
    forall t | t in s'.calls ensures !WillResolve(env, s'.calls[t], id) {
      if HasRowOf(s'.calls[t], id) {
        HeldRowWasHeld(env, s, a, id, t);
      }
    }
  }

  lemma UnreachableAnswer(env: Env, s: World, a: Step, id: string)
    requires Inv(env, s) && Dead(env, s, id) && !Reachable(env, s, id)
    requires !a.Restart? && Answers(env, s, Next(env, s, a), a.t)
    ensures ErrorsFrom(Next(env, s, a), id, |s.answers|)
  {
    assert a.t in s.calls ==> CallOk(env, s, a.t);
  }

  lemma {:induction false} UnreachableStays(env: Env, s: World, steps: seq<Step>, id: string, n: nat)
    requires Inv(env, s) && Dead(env, s, id) && !Reachable(env, s, id) && ErrorsFrom(s, id, n)
    ensures ErrorsFrom(Run(env, s, steps), id, n)
    decreases |steps|
  {
    if steps != [] {
      var s' := Next(env, s, steps[0]);
      StepKeepsInv(env, s, steps[0]);
      if !steps[0].Restart? {
        UnreachableStep(env, s, s', steps[0], id);
        UnreachableAnswer(env, s, steps[0], id);
        ErrorsJoin(s, s', id, n);
      }
      UnreachableStays(env, s', steps[1..], id, n);
    }
  }

  lemma ErrorsJoin(s: World, s': World, id: string, n: nat)
    requires ErrorsFrom(s, id, n) && ErrorsFrom(s', id, |s.answers|) && s.answers <= s'.answers
    ensures ErrorsFrom(s', id, n)
  {
  }

  // Conversely, a run that resolves it.

  lemma {:induction false} RunAppends(env: Env, s: World, a: seq<Step>, b: seq<Step>)
    ensures Run(env, s, a + b) == Run(env, Run(env, s, a), b)
    decreases |a|
  {
    if a == [] {
      assert a + b == b;
    } else {
      assert (a + b)[1..] == a[1..] + b;
      RunAppends(env, Next(env, s, a[0]), a[1..], b);
    }
  }

  lemma RunOne(env: Env, s: World, a: Step)
    ensures Run(env, s, [a]) == Next(env, s, a)
  {
    assert [a][1..] == [];
  }

  lemma {:induction false} FreshCall(used: set<nat>) returns (u: nat)
    ensures u !in used && forall x :: x in used ==> x < u
    decreases |used|
  {
    if used == {} {
      u := 0;
    } else {
      var x :| x in used;
      var v := FreshCall(used - {x});
      u := if v > x then v else x + 1;
      forall y | y in used ensures y < u {
        assert y != x ==> y in used - {x};
      }
    }
  }

  /** The action by which a holder of the mutex comes closer to releasing it. */
  function Unlocking(t: nat, c: Call): Step {
    match c
    case Lookup(_, _, look) => if look.Locked? then Peek(t) else if look.Missed? then ReadRow(t, false) else Construct(t)
    case _ => Drop(t)
  }

  /** It releases the mutex, or a lookup has missed and will release it next; the entry stays. */
  lemma UnlockingKeeps(env: Env, s: World, t: nat, id: string)
    requires t in s.calls && Holds(s.calls[t]) && id in s.cache && (s.calls[t].Lookup? || s.calls[t].id != id)
    ensures var s' := Next(env, s, Unlocking(t, s.calls[t]));
      && id in s'.cache && s.answers <= s'.answers
      && (s'.mutex == None || (s.calls[t].Lookup? && s.calls[t].look.Locked? &&
            t in s'.calls && s'.calls[t].Lookup? && s'.calls[t].look.Missed?))
  {
  }

  lemma MutexCanBeFreed(env: Env, s: World, id: string) returns (steps: seq<Step>)
    requires s.mutex.Some? ==> s.mutex.value in s.calls && Holds(s.calls[s.mutex.value])
    requires id in s.cache && !BeingDropped(s, id)
    ensures var s' := Run(env, s, steps);
      s'.mutex == None && id in s'.cache && s.answers <= s'.answers
  {
    if s.mutex == None {
      return [];
    }
    var t := s.mutex.value;
    var a := Unlocking(t, s.calls[t]);
    UnlockingKeeps(env, s, t, id);
    RunOne(env, s, a);
    var s1 := Next(env, s, a);
    if s1.mutex == None {
      return [a];
    }
    UnlockingKeeps(env, s1, t, id);
    RunOne(env, s1, ReadRow(t, false));
    RunAppends(env, s, [a], [ReadRow(t, false)]);
    return [a] + [ReadRow(t, false)];
  }

  /** With the mutex free, a lookup finds the cached entry. */
  lemma CachedEntryAnswers(env: Env, s: World, u: nat, id: string)
    requires s.mutex == None && id in s.cache && u !in s.calls
    ensures var s' := Next(env, Next(env, Next(env, s, StartLookup(u, id)), Acquire(u)), Peek(u));
      s'.answers == s.answers + [Answer(id, id in s.removed, Ok(s.cache[id]))]
  {
    var s1 := Next(env, s, StartLookup(u, id));
    var s2 := Next(env, s1, Acquire(u));
    assert s2.calls[u] == Lookup(id, id in s.removed, Locked) && s2.cache == s.cache && s2.answers == s.answers;
  }

  lemma CachedEntryResolves(env: Env, s: World, id: string)
    requires Inv(env, s) && id in s.cache && !BeingDropped(s, id)
    ensures !OnlyErrorsFollow(env, s, id)
  {
    if s.mutex.Some? {
      assert CallOk(env, s, s.mutex.value);
    }
    var freeing := MutexCanBeFreed(env, s, id);
    var s1 := Run(env, s, freeing);
    var u := FreshCall(s1.calls.Keys);
    CachedEntryAnswers(env, s1, u, id);
    var a, b, c := StartLookup(u, id), Acquire(u), Peek(u);
    var s2 := Next(env, s1, a);
    var s3 := Next(env, s2, b);
    var s4 := Next(env, s3, c);
    RunOne(env, s1, a);
    RunOne(env, s2, b);
    RunOne(env, s3, c);
    RunAppends(env, s1, [a], [b]);
    RunAppends(env, s1, [a] + [b], [c]);
    RunAppends(env, s, freeing, [a] + [b] + [c]);
    assert s4.answers[|s1.answers|] == Answer(id, id in s1.removed, Ok(s1.cache[id]));
    assert !ErrorsFrom(Run(env, s, freeing + ([a] + [b] + [c])), id, |s.answers|);
  }

  lemma HeldRowResolves(env: Env, s: World, t: nat, id: string)
    requires t in s.calls && WillResolve(env, s.calls[t], id)
    ensures !OnlyErrorsFollow(env, s, id)
  {
    var s' := Next(env, s, Construct(t));
    RunOne(env, s, Construct(t));
    assert s'.answers[|s.answers|].result.Ok?;
    assert !ErrorsFrom(Run(env, s, [Construct(t)]), id, |s.answers|);
  }

  /** A deleted cluster can still be resolved by an id exactly when that spelling is cached and not
      being dropped, or a lookup by it holds the row. */
  lemma DeletedResolvesExactly(env: Env, s: World, id: string)
    requires Inv(env, s) && Dead(env, s, id)
    ensures !OnlyErrorsFollow(env, s, id) <==> Reachable(env, s, id)
  {
    if Reachable(env, s, id) {
      if id in s.cache && !BeingDropped(s, id) {
        CachedEntryResolves(env, s, id);
      } else {
        var t :| t in s.calls && WillResolve(env, s.calls[t], id);
        HeldRowResolves(env, s, t, id);
      }
    } else {
      forall steps ensures ErrorsFrom(Run(env, s, steps), id, |s.answers|) {
        UnreachableStays(env, s, steps, id, |s.answers|);
      }
    }
  }

  /** The moment a removal returns, it protects a spelling of its cluster for good exactly when it used
      that spelling itself, or that spelling was not cached. */
  lemma RemovalProtectsExactly(env: Env, s: World, t: nat, id: string)
    requires Inv(env, s) && t in s.calls && s.calls[t].Remove? && s.calls[t].remove.Dropping?
    requires env.canon(id) == env.canon(s.calls[t].id)
    ensures OnlyErrorsFollow(env, Next(env, s, Drop(t)), id) <==> id == s.calls[t].id || id !in s.cache
  {
    var s' := Next(env, s, Drop(t));
    StepKeepsInv(env, s, Drop(t));
    assert CallOk(env, s, t);
    DeletedResolvesExactly(env, s', id);
    NoRowHeldWithoutMutex(env, s', id);
  }

  lemma NoRowHeldWithoutMutex(env: Env, s: World, id: string)
    requires Inv(env, s) && s.mutex == None
    ensures Reachable(env, s, id) <==> id in s.cache
  {
    forall u | u in s.calls ensures !WillResolve(env, s.calls[u], id) {
      assert CallOk(env, s, u);
    }
  }

  /** An undisturbed removal up to its last action. */
  function AlmostRemoved(env: Env, s: World, t: nat, id: string): World {
    var s3 := Next(env, Next(env, Next(env, s, StartRemove(t, id)), CheckRow(t, true)), CountBuckets(t, Some(0)));
    Next(env, Next(env, s3, SoftDelete(t, Done)), Acquire(t))
  }

  lemma AlmostRemovedIsDropping(env: Env, s: World, t: nat, id: string)
    requires s.calls == map[] && s.mutex == None && Live(s, env.canon(id)) && env.canon(id) != env.primary
    ensures var s5 := AlmostRemoved(env, s, t, id);
      s5.calls == map[t := Remove(id, Dropping)] && s5.cache == s.cache
  {
    var s1 := Next(env, s, StartRemove(t, id));
    assert s1 == s.(calls := map[t := Remove(id, Checking)]);
    var s2 := Next(env, s1, CheckRow(t, true));
    assert s2 == s.(calls := map[t := Remove(id, Counting)]);
    var s3 := Next(env, s2, CountBuckets(t, Some(0)));
    assert s3 == s.(calls := map[t := Remove(id, Deleting)]);
    var s4 := Next(env, s3, SoftDelete(t, Done));
    assert s4.calls == map[t := Remove(id, Deleted)] && s4.cache == s.cache && s4.mutex == None;
  }

  lemma AlmostRemovedKeepsInv(env: Env, s: World, t: nat, id: string)
    requires Inv(env, s)
    ensures Inv(env, AlmostRemoved(env, s, t, id))
  {
    var s1 := Next(env, s, StartRemove(t, id));
    var s2 := Next(env, s1, CheckRow(t, true));
    var s3 := Next(env, s2, CountBuckets(t, Some(0)));
    StepInv(env, s, StartRemove(t, id));
    StepInv(env, s1, CheckRow(t, true));
    StepInv(env, s2, CountBuckets(t, Some(0)));
    StepInv(env, s3, SoftDelete(t, Done));
    StepInv(env, Next(env, s3, SoftDelete(t, Done)), Acquire(t));
  }

  lemma StepInv(env: Env, s: World, a: Step)
    requires Inv(env, s)
    ensures Inv(env, Next(env, s, a))
  {
    StepKeepsInv(env, s, a);
  }

  /** A whole removal by another spelling returns successfully, and the entry still resolves. */
  lemma RemovalByOtherSpellingLeavesEntry(env: Env, s: World, t: nat, id: string, spelling: string)
    requires Inv(env, s) && s.calls == map[] && s.mutex == None && id in s.cache
    requires spelling != id && env.canon(spelling) == env.canon(id) && Live(s, env.canon(id)) && env.canon(id) != env.primary
    ensures var s' := Next(env, AlmostRemoved(env, s, t, spelling), Drop(t));
      spelling in s'.removed && !OnlyErrorsFollow(env, s', id)
  {
    AlmostRemovedIsDropping(env, s, t, spelling);
    AlmostRemovedKeepsInv(env, s, t, spelling);
    RemovalProtectsExactly(env, AlmostRemoved(env, s, t, spelling), t, id);
  }

  // ---- What an unacknowledged deletion leaves behind ----

  /** Right after a deletion that took effect but reported an error, a spelling of the cluster can still
      be resolved exactly when it was cached (and not being dropped) or a lookup held its row. */
  lemma UnacknowledgedDeleteResolvesExactly(env: Env, s: World, t: nat, id: string)
    requires Inv(env, s) && t in s.calls && s.calls[t].Remove? && s.calls[t].remove.Deleting?
    requires env.canon(id) == env.canon(s.calls[t].id)
    ensures !OnlyErrorsFollow(env, Next(env, s, SoftDelete(t, Unacknowledged)), id) <==> Reachable(env, s, id)
  {
    var s' := Next(env, s, SoftDelete(t, Unacknowledged));
    StepKeepsInv(env, s, SoftDelete(t, Unacknowledged));
    assert CallOk(env, s, t);
    DeletedResolvesExactly(env, s', id);
    if u :| u in s.calls && WillResolve(env, s.calls[u], id) {
      assert u in s'.calls && WillResolve(env, s'.calls[u], id);
    }
  }

  /** Calls by this id other than t are lookups, or removals that have yet to check the row. */
  ghost predicate NoDropper(s: World, t: Option<nat>, id: string) {
    forall u :: u in s.calls && s.calls[u].id == id && Some(u) != t ==>
      s.calls[u].Lookup? || (s.calls[u].Remove? && s.calls[u].remove.Checking?)
  }

  ghost predicate Stuck(env: Env, s: World, id: string) {
    Dead(env, s, id) && id in s.cache && NoDropper(s, None, id)
  }

  lemma StuckBegins(env: Env, s: World, a: Step, id: string)
    requires Stuck(env, s, id) && (a.StartLookup? || a.StartRemove? || a.Create?)
    ensures Stuck(env, Begin(env, s, a), id)
  {
  }

  lemma StuckLookup(env: Env, s: World, t: nat, a: Step, id: string)
    requires Stuck(env, s, id) && t in s.calls && s.calls[t].Lookup?
    ensures Stuck(env, LookupStep(env, s, t, s.calls[t], a), id)
  {
  }

  lemma StuckRemove(env: Env, s: World, t: nat, a: Step, id: string)
    requires Stuck(env, s, id) && t in s.calls && s.calls[t].Remove?
    ensures Stuck(env, RemoveStep(env, s, t, s.calls[t], a), id)
  {
  }

  lemma StuckRefresh(env: Env, s: World, t: nat, a: Step, id: string)
    requires Stuck(env, s, id) && t in s.calls && s.calls[t].Refresh?
    ensures Stuck(env, RefreshStep(s, t, s.calls[t], a), id)
  {
  }

  lemma StuckStays(env: Env, s: World, a: Step, id: string)
    requires Stuck(env, s, id) && !a.Restart?
    ensures Stuck(env, Next(env, s, a), id)
  {
    if a.StartLookup? || a.StartRemove? || a.Create? {
      StuckBegins(env, s, a, id);
    } else if a.t in s.calls {
      if s.calls[a.t].Lookup? {
        StuckLookup(env, s, a.t, a, id);
      } else if s.calls[a.t].Remove? {
        StuckRemove(env, s, a.t, a, id);
      } else {
        StuckRefresh(env, s, a.t, a, id);
      }
    }
  }

  lemma {:induction false} StuckRun(env: Env, s: World, steps: seq<Step>, id: string)
    requires Stuck(env, s, id) && forall i :: 0 <= i < |steps| ==> !steps[i].Restart?
    ensures Stuck(env, Run(env, s, steps), id)
    decreases |steps|
  {
    if steps != [] {
      StuckStays(env, s, steps[0], id);
      StuckRun(env, Next(env, s, steps[0]), steps[1..], id);
    }
  }

  /** When a deletion took effect but reported an error, a cached spelling stays cached until the process
      restarts, and every lookup by it that gets the mutex is answered from the cache: a repeated
      removal stops at the missing row. */
  lemma UnacknowledgedDeleteStaysCached(env: Env, s: World, t: nat, id: string, steps: seq<Step>, u: nat)
    requires t in s.calls && s.calls[t].Remove? && s.calls[t].remove.Deleting? && env.canon(s.calls[t].id) in s.rows
    requires env.canon(id) == env.canon(s.calls[t].id) && id in s.cache && NoDropper(s, Some(t), id)
    requires forall i :: 0 <= i < |steps| ==> !steps[i].Restart?
    ensures var s' := Run(env, Next(env, s, SoftDelete(t, Unacknowledged)), steps);
      && id in s'.cache
      && (u in s'.calls && s'.calls[u].Lookup? && s'.calls[u].id == id && s'.calls[u].look.Locked? ==>
            Next(env, s', Peek(u)).answers == s'.answers + [Answer(id, s'.calls[u].late, Ok(s'.cache[id]))])
  {
    var s1 := Next(env, s, SoftDelete(t, Unacknowledged));
    assert s1.calls == s.calls - {t};
    StuckRun(env, s1, steps, id);
  }

  // ---- One caller at a time ----

  class ClusterService {
    var rows: map<string, Row>
    var cache: map<string, Provider>

    /** Cached providers are those of the rows. */
    ghost predicate Valid(env: Env)
      reads this
    {
      forall id :: id in cache ==> env.canon(id) in rows && Build(env, rows[env.canon(id)].config) == Ok(cache[id])
    }

    /** The entry of a deleted cluster. */
    ghost predicate Stale(env: Env, id: string)
      reads this
    {
      id in cache && env.canon(id) in rows && !rows[env.canon(id)].live
    }

    constructor (rows: map<string, Row>)
      ensures this.rows == rows && cache == map[]
      ensures forall env :: Valid(env)
    {
      this.rows, cache := rows, map[];
    }

    /** Returns the provider of a cluster, building it on first use: the answer of the rows, unless the
        entry is stale. `storeOk` says whether the store can be read. */
    method Provider(env: Env, id: string, storeOk: bool) returns (r: Result<Provider>)
      requires Valid(env)
      modifies `cache
      ensures Valid(env)
      ensures if old(Stale(env, id)) then r == Ok(old(cache)[id])
        else if id !in old(cache) && !storeOk then r == Err(StoreFailed)
        else r == Resolve(env, rows, id)
      ensures r.Ok? ==> env.canon(id) in rows && MadeFrom(env, rows[env.canon(id)].config, r.value)
      ensures id !in old(cache) && storeOk ==> (r == Err(NotFound) <==> !(env.canon(id) in rows && rows[env.canon(id)].live))
      ensures id !in old(cache) && storeOk && env.canon(id) in rows && rows[env.canon(id)].live ==>
        && (r == Err(AdminTokenUnreadable) <==> Unreadable(env, rows[env.canon(id)].config.adminTokenEnc))
        && (r.Ok? ==> env.constructible(r.value))
      ensures cache == if r.Ok? then old(cache)[id := r.value] else old(cache)
    {
      if id in cache {
        BuildMeaning(env, rows[env.canon(id)].config);
        return Ok(cache[id]);
      }
      if !storeOk {
        return Err(StoreFailed);
      }
      var k := env.canon(id);
      if k !in rows || !rows[k].live {
        return Err(NotFound);
      }
      BuildMeaning(env, rows[k].config);
      r := Build(env, rows[k].config);
      if r.Ok? {
        cache := cache[id := r.value];
      }
    }

    method Invalidate(id: string)
      modifies `cache
      ensures cache == old(cache) - {id}
    {
      cache := cache - {id};
    }

    /** Removes an empty cluster other than the primary one. `buckets` is the bucket count, None
        when it cannot be read. Only the entry of the spelling used is dropped. */
    method RemoveCluster(env: Env, id: string, storeOk: bool, buckets: Option<nat>, outcome: DeleteOutcome)
      returns (r: Result<()>)
      requires Valid(env)
      modifies this
      ensures Valid(env)
      ensures r.Ok? <==> storeOk && Resolves(env, old(rows), id) && env.canon(id) != env.primary && buckets == Some(0) && outcome == Done
      ensures r == Err(Conflict) ==> env.canon(id) == env.primary || (buckets.Some? && buckets.value > 0)
      ensures cache == if r.Ok? then old(cache) - {id} else old(cache)
      ensures rows == old(rows) || (
        && Resolves(env, old(rows), id) && outcome != Refused
        && rows == old(rows)[env.canon(id) := old(rows)[env.canon(id)].(live := false)])
      ensures r.Ok? ==> !Resolves(env, rows, id)
      ensures r.Ok? ==> forall k :: Stale(env, k) <==>
        k != id && (old(Stale(env, k)) || (k in old(cache) && env.canon(k) == env.canon(id)))
    {
      var k := env.canon(id);
      if !storeOk {
        return Err(StoreFailed);
      }
      if k !in rows || !rows[k].live {
        return Err(NotFound);
      }
      if k == env.primary {
        return Err(Conflict);
      }
      if buckets.None? {
        return Err(StoreFailed);
      }
      if buckets.value > 0 {
        return Err(Conflict);
      }
      if outcome == Refused {
        return Err(StoreFailed);
      }
      rows := rows[k := rows[k].(live := false)];
      if outcome == Unacknowledged {
        return Err(StoreFailed);
      }
      Invalidate(id);
      return Ok(());
    }
  }
}
