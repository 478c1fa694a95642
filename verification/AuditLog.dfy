/** Writing the audit log: the statements of concurrent audit transactions, interleaved in any way.

    Each transaction takes a lock derived from its organisation, reads the last hash of that
    organisation's committed rows, inserts its row (which draws the next id of a shared sequence),
    computes the hash and commits. Rows become visible, and the lock is released, at commit.
    A failed statement rolls the transaction back; a drawn id is then lost. */
module AuditLog {
  import opened Text
  import opened AuditText
  import opened AuditChain

  type TxId = nat

  /** The caller's arguments. */
  datatype Request = Request(org: string, actor: string, actorType: string, action: string,
                             targetType: string, targetId: string, ip: string)

  datatype Phase = Begun | Locked | PrevRead(prev: Option<Digest>) | Inserted(row: Row) | Hashed(row: Row)

  datatype Tx = Tx(request: Request, phase: Phase)

  /** The committed table by id, the id sequence, the held advisory locks, the open transactions. */
  datatype Db = Db(table: map<nat, Row>, nextId: nat, locks: map<int, TxId>, open: map<TxId, Tx>)

  datatype Step =
    | Begin(t: TxId, request: Request)
    | Lock(t: TxId)
    | ReadPrev(t: TxId)
    | Insert(t: TxId, metadata: string, at: Instant)
    | SetHash(t: TxId)
    | Commit(t: TxId)
    | Rollback(t: TxId)
    | LoseId

  /** The chained rows of an organisation with id below n, in id order. */
  function OrgRowsBelow(table: map<nat, Row>, org: string, n: nat): seq<Row> {
    if n == 0 then []
    else
      var rest := OrgRowsBelow(table, org, n - 1);
      if n - 1 in table && table[n - 1].event.org == org && table[n - 1].hash.Some?
      then rest + [table[n - 1]]
      else rest
  }

  function OrgRows(s: Db, org: string): seq<Row> {
    OrgRowsBelow(s.table, org, s.nextId)
  }

  function LastHash(rows: seq<Row>): Option<Digest> {
    if rows == [] then None else rows[|rows| - 1].hash
  }

  function NewRow(id: nat, r: Request, metadata: string, at: Instant, prev: Option<Digest>): Row {
    Row(Event(id, r.org, r.actor, r.actorType, r.action, r.targetType, r.targetId, metadata, at), r.ip, prev, None)
  }

  function Release(locks: map<int, TxId>, t: TxId): map<int, TxId> {
    map k | k in locks && locks[k] != t :: locks[k]
  }

  function Advance(s: Db, t: TxId, phase: Phase): Db
    requires t in s.open
  {
    s.(open := s.open[t := s.open[t].(phase := phase)])
  }

  /** One statement of one transaction; a statement that cannot run now leaves the state alone.
      `key` is the lock key of an organisation: any function, so that two organisations may share one
      (a constant models the single writer connection of the SQLite driver). */
  function Next(key: string -> int, s: Db, a: Step): Db {
    if a.LoseId? then s.(nextId := s.nextId + 1)
    else if a.Begin? then
      if a.t in s.open then s else s.(open := s.open[a.t := Tx(a.request, Begun)])
    else if a.t !in s.open then s
    else
      var tx := s.open[a.t];
      match a
      case Lock(t) =>
        var k := key(tx.request.org);
        if tx.phase.Begun? && k !in s.locks then Advance(s, t, Locked).(locks := s.locks[k := t]) else s
      case ReadPrev(t) =>
        if tx.phase.Locked? then Advance(s, t, PrevRead(LastHash(OrgRows(s, tx.request.org)))) else s
      case Insert(t, metadata, at) =>
        if tx.phase.PrevRead?
        then Advance(s, t, Inserted(NewRow(s.nextId, tx.request, metadata, at, tx.phase.prev))).(nextId := s.nextId + 1)
        else s
      case SetHash(t) =>
        if tx.phase.Inserted?
        then Advance(s, t, Hashed(tx.phase.row.(hash := Some(RowHash(tx.phase.row.prev, tx.phase.row.event)))))
        else s
      case Commit(t) =>
        if tx.phase.Hashed?
        then Db(s.table[tx.phase.row.event.id := tx.phase.row], s.nextId, Release(s.locks, t), s.open - {t})
        else s
      case Rollback(t) => s.(locks := Release(s.locks, t), open := s.open - {t})
      case _ => s
  }

  function Run(key: string -> int, s: Db, steps: seq<Step>): Db
    decreases |steps|
  {
    if steps == [] then s else Run(key, Next(key, s, steps[0]), steps[1..])
  }

  /** A database in which no chained row has been written; unchained rows may exist. */
  ghost predicate Init(s: Db) {
    && s.locks == map[] && s.open == map[]
    && forall id :: id in s.table ==> id < s.nextId && s.table[id].event.id == id && s.table[id].hash.None?
  }

  // ---- The invariant ----

  ghost predicate TableOk(s: Db) {
    forall id :: id in s.table ==> id < s.nextId && s.table[id].event.id == id
  }

  ghost predicate ChainOk(rows: seq<Row>) {
    Intact(rows) && (rows != [] ==> rows[0].prev == None)
  }

  predicate HasRow(p: Phase) {
    p.Inserted? || p.Hashed?
  }

  /** What holds of an open transaction: past Begun it owns its lock, the hash it read is still the
      last one, and its row comes after every committed row of its organisation. */
  ghost predicate TxOk(key: string -> int, s: Db, t: TxId)
    requires t in s.open
  {
    var tx := s.open[t];
    var org := tx.request.org;
    && (!tx.phase.Begun? ==> key(org) in s.locks && s.locks[key(org)] == t)
    && (tx.phase.PrevRead? ==> tx.phase.prev == LastHash(OrgRows(s, org)))
    && (HasRow(tx.phase) ==>
          var row := tx.phase.row;
          && row.event.org == org && row.prev == LastHash(OrgRows(s, org))
          && row.event.id < s.nextId && row.event.id !in s.table
          && (forall id :: id in s.table && s.table[id].event.org == org && s.table[id].hash.Some? ==> id < row.event.id))
    && (tx.phase.Hashed? ==> tx.phase.row.hash == Some(RowHash(tx.phase.row.prev, tx.phase.row.event)))
  }

  ghost predicate IdsApart(s: Db, t: TxId, u: TxId)
    requires t in s.open && u in s.open && HasRow(s.open[t].phase) && HasRow(s.open[u].phase)
  {
    s.open[t].phase.row.event.id != s.open[u].phase.row.event.id
  }

  ghost predicate Inv(key: string -> int, s: Db) {
    && TableOk(s)
    && (forall org :: ChainOk(OrgRows(s, org)))
    && (forall t :: t in s.open ==> TxOk(key, s, t))
    && (forall t, u :: t in s.open && u in s.open && t != u && HasRow(s.open[t].phase) && HasRow(s.open[u].phase) ==>
          IdsApart(s, t, u))
  }

  // ---- How the query sees changes of the table ----

  lemma {:induction false} QueryOfUnchained(table: map<nat, Row>, org: string, n: nat)
    requires forall id :: id in table ==> table[id].hash.None?
    ensures OrgRowsBelow(table, org, n) == []
  {
    if n > 0 {
      QueryOfUnchained(table, org, n - 1);
    }
  }

  /** Query results carry ascending ids below the bound. */
  lemma {:induction false} QueryAscends(table: map<nat, Row>, org: string, n: nat)
    requires forall id :: id in table ==> table[id].event.id == id
    ensures AscendingIds(OrgRowsBelow(table, org, n))
    ensures forall i :: 0 <= i < |OrgRowsBelow(table, org, n)| ==> OrgRowsBelow(table, org, n)[i].event.id < n
  {
    if n > 0 {
      QueryAscends(table, org, n - 1);
    }
  }

  /** A committed row is invisible to other organisations and last in its own. */
  lemma {:induction false} QueryAfterInsert(table: map<nat, Row>, row: Row, org: string, n: nat)
    requires row.event.id !in table && row.hash.Some?
    requires row.event.org == org ==>
               forall id :: id in table && table[id].event.org == org && table[id].hash.Some? ==> id < row.event.id
    ensures OrgRowsBelow(table[row.event.id := row], org, n) ==
            OrgRowsBelow(table, org, n) + if row.event.org == org && row.event.id < n then [row] else []
  {
    if n > 0 {
      QueryAfterInsert(table, row, org, n - 1);
    }
  }

  lemma ChainGrows(rows: seq<Row>, row: Row)
    requires ChainOk(rows) && row.prev == LastHash(rows) && row.hash == Some(RowHash(row.prev, row.event))
    ensures ChainOk(rows + [row])
  {
    var longer := rows + [row];
    forall i | 0 <= i < |longer| ensures !LinkBroken(longer, i) && !HashBroken(longer, i) {
      if i < |rows| {
        assert !LinkBroken(rows, i) && !HashBroken(rows, i);
      }
    }
  }

  // ---- Every step keeps the invariant ----

  lemma CommitKeepsInv(key: string -> int, s: Db, t: TxId)
    requires Inv(key, s) && t in s.open && s.open[t].phase.Hashed?
    ensures Inv(key, Next(key, s, Commit(t)))
  {
    var s' := Next(key, s, Commit(t));
    var row := s.open[t].phase.row;
    assert TxOk(key, s, t);
    forall org ensures ChainOk(OrgRows(s', org)) {
      QueryAfterInsert(s.table, row, org, s.nextId);
      assert ChainOk(OrgRows(s, org));
      if row.event.org == org {
        ChainGrows(OrgRows(s, org), row);
      } else {
        assert OrgRows(s', org) == OrgRows(s, org);
      }
    }
    forall u | u in s'.open ensures TxOk(key, s', u) {
      assert TxOk(key, s, u);
      var org := s.open[u].request.org;
      QueryAfterInsert(s.table, row, org, s.nextId);
      if !s.open[u].phase.Begun? {
        assert org != row.event.org;
        assert OrgRows(s', org) == OrgRows(s, org);
        assert HasRow(s.open[u].phase) ==> IdsApart(s, t, u);
      }
    }
    forall u, w | u in s'.open && w in s'.open && u != w && HasRow(s'.open[u].phase) && HasRow(s'.open[w].phase)
      ensures IdsApart(s', u, w)
    {
      assert IdsApart(s, u, w);
    }
  }

  lemma OtherStepKeepsQueries(key: string -> int, s: Db, a: Step, org: string)
    requires TableOk(s) && !a.Commit?
    ensures var s' := Next(key, s, a);
      s'.table == s.table && s.nextId <= s'.nextId <= s.nextId + 1 && OrgRows(s', org) == OrgRows(s, org)
  {
    assert s.nextId !in s.table;
  }

  lemma OtherStepKeepsTx(key: string -> int, s: Db, a: Step, u: TxId)
    requires TableOk(s) && !a.Commit? && u in Next(key, s, a).open
    requires u in s.open ==> TxOk(key, s, u)
    ensures TxOk(key, Next(key, s, a), u)
  {
    OtherStepKeepsQueries(key, s, a, Next(key, s, a).open[u].request.org);
  }

  /** A row's id is the one it had before the step, or was just drawn from the sequence. */
  lemma RowIdOrigin(key: string -> int, s: Db, a: Step, t: TxId)
    requires !a.Commit? && t in Next(key, s, a).open && HasRow(Next(key, s, a).open[t].phase)
    ensures t in s.open
    ensures var id := Next(key, s, a).open[t].phase.row.event.id;
      || (HasRow(s.open[t].phase) && id == s.open[t].phase.row.event.id)
      || (a.Insert? && a.t == t && id == s.nextId)
  {
  }

  lemma OtherStepKeepsIdsApart(key: string -> int, s: Db, a: Step, t: TxId, u: TxId)
    requires Inv(key, s) && !a.Commit? && t != u
    requires var s' := Next(key, s, a);
      t in s'.open && u in s'.open && HasRow(s'.open[t].phase) && HasRow(s'.open[u].phase)
    ensures IdsApart(Next(key, s, a), t, u)
  {
    RowIdOrigin(key, s, a, t);
    RowIdOrigin(key, s, a, u);
    assert TxOk(key, s, t) && TxOk(key, s, u);
    assert HasRow(s.open[t].phase) && HasRow(s.open[u].phase) ==> IdsApart(s, t, u);
  }

  lemma OtherStepKeepsInv(key: string -> int, s: Db, a: Step)
    requires Inv(key, s) && !a.Commit?
    ensures Inv(key, Next(key, s, a))
  {
    var s' := Next(key, s, a);
    forall org ensures ChainOk(OrgRows(s', org)) {
      OtherStepKeepsQueries(key, s, a, org);
      assert ChainOk(OrgRows(s, org));
    }
    forall u | u in s'.open ensures TxOk(key, s', u) {
      OtherStepKeepsTx(key, s, a, u);
    }
    forall t, u | t in s'.open && u in s'.open && t != u && HasRow(s'.open[t].phase) && HasRow(s'.open[u].phase)
      ensures IdsApart(s', t, u)
    {
      OtherStepKeepsIdsApart(key, s, a, t, u);
    }
    OtherStepKeepsQueries(key, s, a, "");
  }

  lemma {:induction false} RunKeepsInv(key: string -> int, s: Db, steps: seq<Step>)
    requires Inv(key, s)
    ensures Inv(key, Run(key, s, steps))
    decreases |steps|
  {
    if steps != [] {
      if steps[0].Commit? {
        if steps[0].t in s.open && s.open[steps[0].t].phase.Hashed? {
          CommitKeepsInv(key, s, steps[0].t);
        }
      } else {
        OtherStepKeepsInv(key, s, steps[0]);
      }
      RunKeepsInv(key, Next(key, s, steps[0]), steps[1..]);
    }
  }

  /** In every interleaving of any number of audit transactions over any organisations, with
      rollbacks and lost ids anywhere, each organisation's committed rows form one unforked chain
      in id order, and verification succeeds having checked every one of them. */
  lemma ConcurrentWritesNeverForkTheChain(key: string -> int, s: Db, steps: seq<Step>, org: string)
    requires Init(s)
    ensures var rows := OrgRows(Run(key, s, steps), org);
      && Verify(rows) == Verdict(|rows|, true, 0, "")
      && AscendingIds(rows)
      && (rows != [] ==> rows[0].prev == None)
      && (forall i, j :: 0 <= i < j < |rows| ==> rows[i].prev != rows[j].prev)
  {
    forall o ensures ChainOk(OrgRows(s, o)) {
      QueryOfUnchained(s.table, o, s.nextId);
    }
    RunKeepsInv(key, s, steps);
    var s' := Run(key, s, steps);
    var rows := OrgRows(s', org);
    assert ChainOk(rows);
    IntactVerifies(rows);
    QueryAscends(s'.table, org, s'.nextId);
    forall i, j | 0 <= i < j < |rows| ensures rows[i].prev != rows[j].prev {
      assert !LinkBroken(rows, j) && !HashBroken(rows, j - 1);
      if i > 0 && rows[i].prev == rows[j].prev {
        IntactIsUnforked(rows, i, j);
      }
    }
  }

  /** The log is append-only: later steps only extend what an organisation's readers saw. */
  lemma {:induction false} CommittedRowsStay(key: string -> int, s: Db, steps: seq<Step>, org: string)
    requires Inv(key, s)
    ensures OrgRows(s, org) <= OrgRows(Run(key, s, steps), org)
    decreases |steps|
  {
    if steps != [] {
      var s' := Next(key, s, steps[0]);
      RunKeepsInv(key, s, steps[..1]);
      assert Run(key, s', steps[..1][1..]) == s';
      if steps[0].Commit? && steps[0].t in s.open && s.open[steps[0].t].phase.Hashed? {
        assert TxOk(key, s, steps[0].t);
        QueryAfterInsert(s.table, s.open[steps[0].t].phase.row, org, s.nextId);
      } else {
        assert s.nextId !in s.table;
      }
      assert OrgRows(s, org) <= OrgRows(s', org);
      CommittedRowsStay(key, s', steps[1..], org);
    }
  }

  // ---- What the rows say ----

  /** The row holds the request's fields and what the insert adds to them. */
  predicate Carries(row: Row, r: Request, metadata: string, at: Instant) {
    && row.event.org == r.org && row.event.actor == r.actor && row.event.actorType == r.actorType
    && row.event.action == r.action && row.event.targetType == r.targetType && row.event.targetId == r.targetId
    && row.event.metadata == metadata && row.event.at == at && row.ip == r.ip
  }

  /** The history contains the beginning of this transaction. */
  ghost predicate Began(h: seq<Step>, t: TxId, r: Request) {
    exists i :: 0 <= i < |h| && h[i] == Begin(t, r)
  }

  /** The row was inserted, in this history, by a transaction that began with a request it carries. */
  ghost predicate WrittenBy(h: seq<Step>, row: Row, t: TxId) {
    exists r, metadata, at :: Began(h, t, r) && Insert(t, metadata, at) in h && Carries(row, r, metadata, at)
  }

  ghost predicate Recorded(h: seq<Step>, row: Row) {
    exists t :: WrittenBy(h, row, t)
  }

  /** Open transactions began in the history, and rows not in `before` were inserted in it. */
  ghost predicate Told(h: seq<Step>, before: map<nat, Row>, s: Db) {
    && (forall t :: t in s.open ==> Began(h, t, s.open[t].request))
    && (forall t :: t in s.open && HasRow(s.open[t].phase) ==> WrittenBy(h, s.open[t].phase.row, t))
    && (forall id :: id in s.table && !(id in before && before[id] == s.table[id]) ==> Recorded(h, s.table[id]))
  }

  lemma HistoryGrows(h: seq<Step>, a: Step, row: Row, t: TxId)
    requires WrittenBy(h, row, t)
    ensures WrittenBy(h + [a], row, t)
  {
    var r, metadata, at :| Began(h, t, r) && Insert(t, metadata, at) in h && Carries(row, r, metadata, at);
    BeganStays(h, a, t, r);
    assert Insert(t, metadata, at) in h + [a];
  }

  lemma BeganStays(h: seq<Step>, a: Step, t: TxId, r: Request)
    requires Began(h, t, r)
    ensures Began(h + [a], t, r)
  {
    var i :| 0 <= i < |h| && h[i] == Begin(t, r);
    assert (h + [a])[i] == Begin(t, r);
  }

  /** A row keeps what it carries when its hash is set. */
  lemma HashKeepsRow(h: seq<Step>, row: Row, hash: Option<Digest>, t: TxId)
    requires WrittenBy(h, row, t)
    ensures WrittenBy(h, row.(hash := hash), t)
  {
    var r, metadata, at :| Began(h, t, r) && Insert(t, metadata, at) in h && Carries(row, r, metadata, at);
    assert Carries(row.(hash := hash), r, metadata, at);
  }

  lemma RequestStays(key: string -> int, s: Db, a: Step, t: TxId)
    requires t in Next(key, s, a).open
    ensures if t in s.open then Next(key, s, a).open[t].request == s.open[t].request else a == Begin(t, Next(key, s, a).open[t].request)
  {
  }

  /** Where the row of an open transaction comes from in a step. */
  lemma RowOrigin(key: string -> int, s: Db, a: Step, t: TxId)
    requires t in Next(key, s, a).open && HasRow(Next(key, s, a).open[t].phase)
    ensures t in s.open
    ensures var row := Next(key, s, a).open[t].phase.row;
      || (HasRow(s.open[t].phase) && exists hash :: row == s.open[t].phase.row.(hash := hash))
      || (a.Insert? && a.t == t && Carries(row, s.open[t].request, a.metadata, a.at))
  {
    var row := Next(key, s, a).open[t].phase.row;
    if HasRow(s.open[t].phase) {
      assert row == s.open[t].phase.row.(hash := row.hash);
    }
  }

  lemma OpenRowsAreTold(key: string -> int, h: seq<Step>, before: map<nat, Row>, s: Db, a: Step, t: TxId)
    requires Told(h, before, s) && t in Next(key, s, a).open && HasRow(Next(key, s, a).open[t].phase)
    ensures WrittenBy(h + [a], Next(key, s, a).open[t].phase.row, t)
  {
    var row := Next(key, s, a).open[t].phase.row;
    RowOrigin(key, s, a, t);
    if HasRow(s.open[t].phase) {
      var hash :| row == s.open[t].phase.row.(hash := hash);
      HashKeepsRow(h, s.open[t].phase.row, hash, t);
      HistoryGrows(h, a, row, t);
    } else {
      BeganStays(h, a, t, s.open[t].request);
      assert (h + [a])[|h|] == Insert(t, a.metadata, a.at);
      assert Insert(t, a.metadata, a.at) in h + [a];
    }
  }

  lemma TableIsTold(key: string -> int, h: seq<Step>, before: map<nat, Row>, s: Db, a: Step, id: nat)
    requires Told(h, before, s) && id in Next(key, s, a).table && !(id in before && before[id] == Next(key, s, a).table[id])
    ensures Recorded(h + [a], Next(key, s, a).table[id])
  {
    var row := Next(key, s, a).table[id];
    var t: TxId;
    if id in s.table && s.table[id] == row {
      t :| WrittenBy(h, row, t);
    } else {
      t := a.t;
    }
    HistoryGrows(h, a, row, t);
  }

  lemma StepIsTold(key: string -> int, h: seq<Step>, before: map<nat, Row>, s: Db, a: Step)
    requires Told(h, before, s)
    ensures Told(h + [a], before, Next(key, s, a))
  {
    var s' := Next(key, s, a);
    forall t | t in s'.open ensures Began(h + [a], t, s'.open[t].request) {
      RequestStays(key, s, a, t);
      if t in s.open {
        BeganStays(h, a, t, s.open[t].request);
      } else {
        assert (h + [a])[|h|] == Begin(t, s'.open[t].request);
      }
    }
    forall t | t in s'.open && HasRow(s'.open[t].phase) ensures WrittenBy(h + [a], s'.open[t].phase.row, t) {
      OpenRowsAreTold(key, h, before, s, a, t);
    }
    forall id | id in s'.table && !(id in before && before[id] == s'.table[id]) ensures Recorded(h + [a], s'.table[id]) {
      TableIsTold(key, h, before, s, a, id);
    }
  }

  lemma {:induction false} RunIsTold(key: string -> int, h: seq<Step>, before: map<nat, Row>, s: Db, steps: seq<Step>)
    requires Told(h, before, s)
    ensures Told(h + steps, before, Run(key, s, steps))
    decreases |steps|
  {
    if steps == [] {
      assert h + steps == h;
    } else {
      StepIsTold(key, h, before, s, steps[0]);
      RunIsTold(key, h + [steps[0]], before, Next(key, s, steps[0]), steps[1..]);
      assert h + [steps[0]] + steps[1..] == h + steps;
    }
  }

  /** In every run, every row that was not there before says what its writer asked for: actor, action,
      target and address are those of a request of the run, metadata and time those of its insert. */
  lemma RowsSayWhatWasAsked(key: string -> int, s: Db, steps: seq<Step>)
    requires s.open == map[]
    ensures var s' := Run(key, s, steps);
      forall id :: id in s'.table && !(id in s.table && s.table[id] == s'.table[id]) ==> Recorded(steps, s'.table[id])
  {
    RunIsTold(key, [], s.table, s, steps);
    assert [] + steps == steps;
  }

  // ---- The store as its callers see it ----

  /** The statements of one call, in order. */
  function Script(t: TxId, r: Request, metadata: string, at: Instant): seq<Step> {
    [Begin(t, r), Lock(t), ReadPrev(t), Insert(t, metadata, at), SetHash(t), Commit(t)]
  }

  function FinishedRow(s: Db, r: Request, metadata: string, at: Instant): Row {
    var row := NewRow(s.nextId, r, metadata, at, LastHash(OrgRows(s, r.org)));
    row.(hash := Some(RowHash(row.prev, row.event)))
  }

  lemma SoloStates(key: string -> int, s: Db, t: TxId, r: Request, metadata: string, at: Instant)
    requires s.locks == map[] && s.open == map[]
    ensures var s2 := Next(key, Next(key, s, Begin(t, r)), Lock(t));
            var s4 := Next(key, Next(key, s2, ReadPrev(t)), Insert(t, metadata, at));
            Next(key, Next(key, s4, SetHash(t)), Commit(t)) ==
            s.(table := s.table[s.nextId := FinishedRow(s, r, metadata, at)], nextId := s.nextId + 1)
  {
    var s2 := Next(key, Next(key, s, Begin(t, r)), Lock(t));
    var s4 := Next(key, Next(key, s2, ReadPrev(t)), Insert(t, metadata, at));
    var s5 := Next(key, s4, SetHash(t));
    assert s5.open == map[t := Tx(r, Hashed(FinishedRow(s, r, metadata, at)))];
    assert s5.locks == map[key(r.org) := t];
    assert Release(s5.locks, t) == map[];
  }

  /** A call that no other transaction overlaps appends one finished row. */
  lemma SoloCall(key: string -> int, s: Db, t: TxId, r: Request, metadata: string, at: Instant)
    requires s.locks == map[] && s.open == map[]
    ensures Run(key, s, Script(t, r, metadata, at)) ==
            s.(table := s.table[s.nextId := FinishedRow(s, r, metadata, at)], nextId := s.nextId + 1)
    ensures var row := Run(key, s, Script(t, r, metadata, at)).table[s.nextId];
      && Carries(row, r, metadata, at) && row.event.id == s.nextId
      && row.prev == LastHash(OrgRows(s, r.org)) && row.hash == Some(Sha256(row.prev, Canonical(row.event)))
  {
    SoloStates(key, s, t, r, metadata, at);
    RunSix(key, s, Begin(t, r), Lock(t), ReadPrev(t), Insert(t, metadata, at), SetHash(t), Commit(t));
  }

  lemma RunFirst(key: string -> int, s: Db, a: Step, rest: seq<Step>)
    ensures Run(key, s, [a] + rest) == Run(key, Next(key, s, a), rest)
  {
    assert ([a] + rest)[1..] == rest;
  }

  lemma RunSix(key: string -> int, s: Db, a: Step, b: Step, c: Step, d: Step, e: Step, f: Step)
    ensures Run(key, s, [a, b, c, d, e, f]) ==
            Next(key, Next(key, Next(key, Next(key, Next(key, Next(key, s, a), b), c), d), e), f)
  {
    var s3 := Next(key, Next(key, Next(key, s, a), b), c);
    RunFirst(key, s, a, [b] + [c, d, e, f]);
    RunFirst(key, Next(key, s, a), b, [c] + [d, e, f]);
    RunFirst(key, Next(key, Next(key, s, a), b), c, [d, e, f]);
    RunFirst(key, s3, d, [e] + [f]);
    RunFirst(key, Next(key, s3, d), e, [f] + []);
    RunFirst(key, Next(key, Next(key, s3, d), e), f, []);
    assert [a, b, c, d, e, f] == [a] + ([b] + [c, d, e, f]) && [c, d, e, f] == [c] + [d, e, f];
    assert [d, e, f] == [d] + ([e] + [f]) && [f] == [f] + [];
  }

  class AuditStore {
    var table: map<nat, Row>
    var nextId: nat

    function Snapshot(): Db
      reads this
    {
      Db(table, nextId, map[], map[])
    }

    ghost predicate Valid()
      reads this
    {
      TableOk(Snapshot()) && forall org :: ChainOk(OrgRows(Snapshot(), org))
    }

    constructor ()
      ensures Valid() && table == map[]
    {
      table, nextId := map[], 1;
      new;
      forall org ensures ChainOk(OrgRows(Snapshot(), org)) {
        QueryOfUnchained(table, org, nextId);
      }
    }

    /** Appends an audit event. `failing` is the statement that fails, if any: 1 the lock, 2 the
        insert (having drawn an id), 3 the hash update, 4 the commit. */
    method WriteAudit(r: Request, metadata: string, at: Instant, failing: nat) returns (ok: bool)
      requires Valid()
      modifies this
      ensures Valid()
      ensures ok <==> !(1 <= failing <= 4)
      ensures ok ==> forall key: string -> int, t: TxId :: Snapshot() == Run(key, old(Snapshot()), Script(t, r, metadata, at))
      ensures ok ==> |OrgRows(Snapshot(), r.org)| == |old(OrgRows(Snapshot(), r.org))| + 1
      ensures ok ==> old(OrgRows(Snapshot(), r.org)) <= OrgRows(Snapshot(), r.org)
      ensures ok ==>
        var row := OrgRows(Snapshot(), r.org)[|old(OrgRows(Snapshot(), r.org))|];
        && Carries(row, r, metadata, at) && row.event.id == old(nextId)
        && row.prev == old(LastHash(OrgRows(Snapshot(), r.org))) && row.hash == Some(Sha256(row.prev, Canonical(row.event)))
      ensures ok ==> forall org :: org != r.org ==> OrgRows(Snapshot(), org) == old(OrgRows(Snapshot(), org))
      ensures !ok ==> table == old(table) && forall org :: OrgRows(Snapshot(), org) == old(OrgRows(Snapshot(), org))
    {
      ghost var s := Snapshot();
      assert nextId !in table;
      if failing == 1 {
        return false;
      }
      var prev := LastHash(OrgRowsBelow(table, r.org, nextId));
      forall org ensures OrgRowsBelow(table, org, nextId + 1) == OrgRows(s, org) { }
      var row := NewRow(nextId, r, metadata, at, prev);
      nextId := nextId + 1;
      var hash := RowHash(prev, row.event);
      if 2 <= failing <= 4 {
        forall org ensures ChainOk(OrgRows(Snapshot(), org)) {
          assert ChainOk(OrgRows(s, org));
        }
        return false;
      }
      table := table[row.event.id := row.(hash := Some(hash))];
      forall key: string -> int, t: TxId ensures Snapshot() == Run(key, s, Script(t, r, metadata, at)) {
        SoloCall(key, s, t, r, metadata, at);
      }
      forall org ensures ChainOk(OrgRows(Snapshot(), org)) && (org != r.org ==> OrgRows(Snapshot(), org) == OrgRows(s, org)) {
        QueryAfterInsert(s.table, FinishedRow(s, r, metadata, at), org, nextId);
        assert ChainOk(OrgRows(s, org));
        if org == r.org {
          ChainGrows(OrgRows(s, org), FinishedRow(s, r, metadata, at));
        } else {
          assert OrgRows(Snapshot(), org) == OrgRows(s, org);
        }
      }
      QueryAfterInsert(s.table, FinishedRow(s, r, metadata, at), r.org, nextId);
      assert OrgRows(Snapshot(), r.org) == OrgRows(s, r.org) + [FinishedRow(s, r, metadata, at)];
      return true;
    }

    /** Replays the chain of one organisation, whatever the table holds; a table written through
        WriteAudit alone gives OK. */
    method VerifyAuditChain(org: string) returns (res: Verdict)
      ensures res == Verify(OrgRows(Snapshot(), org))
      ensures res.ok <==> Intact(OrgRows(Snapshot(), org))
      ensures Valid() ==> res == Verdict(|OrgRows(Snapshot(), org)|, true, 0, "")
    {
      res := VerifyRows(OrgRowsBelow(table, org, nextId));
      VerdictMeaning(OrgRows(Snapshot(), org), 0);
      if Valid() {
        IntactVerifies(OrgRows(Snapshot(), org));
      }
    }
  }
}
