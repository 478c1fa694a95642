/** Trash: objects move to a reserved prefix by copy, delete and record, and back by copy, delete
    and mark; any number of such operations may overlap, and each may stop anywhere. */
module Trash {
  import opened Text

  const TRASH_PREFIX := ".trash/"

  /** Where an object goes; `now` is the time of the request in nanoseconds. */
  function TrashKey(now: nat, key: string): string {
    TRASH_PREFIX + (Decimal(now) + "/" + key)
  }

  lemma TrashKeyInjective(now: nat, key: string, now': nat, key': string)
    requires TrashKey(now, key) == TrashKey(now', key')
    ensures now == now' && key == key'
  {
    var n := |TRASH_PREFIX|;
    assert TrashKey(now, key)[n..] == Decimal(now) + "/" + key;
    assert TrashKey(now', key')[n..] == Decimal(now') + "/" + key';
    CutAtFirst(Decimal(now), key, Decimal(now'), key', '/');
    DecimalInjective(now, now');
  }

  predicate Reserved(key: string) {
    TRASH_PREFIX <= key
  }

  type Bucket = map<string, string>

  /** A trash row that has not been restored. */
  datatype Item = Item(originalKey: string, trashKey: string, size: nat)

  // ---- Overlapping operations ----

  datatype TrashPhase = ToCopy | ToDelete(size: nat) | ToRecord(size: nat)

  datatype RestorePhase = Copying | Deleting | Marking

  /** A request in progress: `todo` are the keys not yet done, the current one first. */
  datatype Op =
    | Trashing(now: nat, todo: seq<string>, phase: TrashPhase)
    | Restoring(id: nat, item: Item, stage: RestorePhase)

  /** `used` are the request times so far, `recorded` the trash keys that ever had a row. */
  datatype World = World(bucket: Bucket, rows: map<nat, Item>, nextRow: nat, ops: map<nat, Op>,
                         used: set<nat>, recorded: set<string>)

  /** `End` is a crash, a failed request, or the end of the operation. */
  datatype Step =
    | StartTrash(o: nat, now: nat, keys: seq<string>)
    | StartRestore(o: nat, id: nat)
    | Act(o: nat, headOk: bool)
    | End(o: nat)

  function Put(s: World, o: nat, op: Op): World {
    s.(ops := s.ops[o := op])
  }

  function Stop(s: World, o: nat): World {
    s.(ops := s.ops - {o})
  }

  /** The next request of a trashing operation; copying a missing object fails. */
  function TrashAct(s: World, o: nat, op: Op, headOk: bool): World
    requires op.Trashing?
  {
    if op.todo == [] then Stop(s, o)
    else
      var key := op.todo[0];
      match op.phase
      case ToCopy =>
        if key in s.bucket
        then Put(s, o, op.(phase := ToDelete(if headOk then |s.bucket[key]| else 0)))
             .(bucket := s.bucket[TrashKey(op.now, key) := s.bucket[key]])
        else Stop(s, o)
      case ToDelete(size) => Put(s, o, op.(phase := ToRecord(size))).(bucket := s.bucket - {key})
      case ToRecord(size) =>
        Put(s, o, Trashing(op.now, op.todo[1..], ToCopy))
        .(rows := s.rows[s.nextRow := Item(key, TrashKey(op.now, key), size)], nextRow := s.nextRow + 1,
          recorded := s.recorded + {TrashKey(op.now, key)})
  }

  function RestoreAct(s: World, o: nat, op: Op): World
    requires op.Restoring?
  {
    var item := op.item;
    match op.stage
    case Copying =>
      if item.trashKey in s.bucket
      then Put(s, o, op.(stage := Deleting)).(bucket := s.bucket[item.originalKey := s.bucket[item.trashKey]])
      else Stop(s, o)
    case Deleting => Put(s, o, op.(stage := Marking)).(bucket := s.bucket - {item.trashKey})
    case Marking => Stop(s, o).(rows := s.rows - {op.id})
  }

  function Next(s: World, a: Step): World {
    match a
    case StartTrash(o, now, keys) =>
      if o in s.ops then s else Put(s, o, Trashing(now, keys, ToCopy)).(used := s.used + {now})
    case StartRestore(o, id) =>
      if o in s.ops || id !in s.rows then s else Put(s, o, Restoring(id, s.rows[id], Copying))
    case Act(o, headOk) =>
      if o !in s.ops then s
      else if s.ops[o].Trashing? then TrashAct(s, o, s.ops[o], headOk)
      else RestoreAct(s, o, s.ops[o])
    case End(o) => Stop(s, o)
  }

  function Run(s: World, steps: seq<Step>): World
    decreases |steps|
  {
    if steps == [] then s else Run(Next(s, steps[0]), steps[1..])
  }

  predicate Distinct(keys: seq<string>) {
    forall i, j :: 0 <= i < j < |keys| ==> keys[i] != keys[j]
  }

  /** The request time is new and none of its trash keys was there at the start. */
  ghost predicate FreshTime(b0: Bucket, used: set<nat>, now: nat) {
    now !in used && forall k :: TrashKey(now, k) !in b0
  }

  /** All keys before position i name objects: a request gets no further than the first that does not. */
  predicate Reaches(b0: Bucket, keys: seq<string>, i: nat) {
    forall m :: 0 <= m < i && m < |keys| ==> keys[m] in b0
  }

  /** No key is named again where a request could get to. */
  predicate Orderly(b0: Bucket, keys: seq<string>) {
    forall i, j :: 0 <= i < j < |keys| && keys[i] == keys[j] ==> !Reaches(b0, keys, j)
  }

  /** What is asked of a request: a fresh time, no repeated key within reach, and keys outside the
      reserved prefix. */
  ghost predicate Allowed(b0: Bucket, s: World, a: Step) {
    a.StartTrash? && a.o !in s.ops ==>
      FreshTime(b0, s.used, a.now) && Orderly(b0, a.keys) && forall i :: 0 <= i < |a.keys| ==> !Reserved(a.keys[i])
  }

  ghost predicate AllAllowed(b0: Bucket, s: World, steps: seq<Step>)
    decreases |steps|
  {
    steps == [] || (Allowed(b0, s, steps[0]) && AllAllowed(b0, Next(s, steps[0]), steps[1..]))
  }

  // ---- The invariant ----

  /** What may be stored under a key: its own original content, or that of the object trashed to it. */
  ghost predicate Legit(b0: Bucket, used: set<nat>, key: string, value: string) {
    || (key in b0 && b0[key] == value)
    || exists ts, k :: ts in used && k in b0 && b0[k] == value && key == TrashKey(ts, k)
  }

  ghost predicate LegitAt(b0: Bucket, s: World, key: string) {
    key in s.bucket ==> Legit(b0, s.used, key, s.bucket[key])
  }

  /** A restore is about to delete this trash copy. */
  predicate Dooms(op: Op, trashKey: string) {
    op.Restoring? && op.stage.Deleting? && op.item.trashKey == trashKey
  }

  ghost predicate Doomed(s: World, trashKey: string) {
    exists o :: o in s.ops && Dooms(s.ops[o], trashKey)
  }

  ghost predicate SafeCopy(s: World, key: string, ts: nat) {
    ts in s.used && TrashKey(ts, key) in s.bucket && !Doomed(s, TrashKey(ts, key))
  }

  /** The object is in place, or has a trash copy that nobody is about to delete. */
  ghost predicate Safe(s: World, key: string) {
    key in s.bucket || exists ts :: SafeCopy(s, key, ts)
  }

  ghost predicate SafeAt(b0: Bucket, s: World, key: string) {
    key in b0 ==> Safe(s, key)
  }

  ghost predicate ItemOk(b0: Bucket, s: World, item: Item) {
    && item.originalKey in b0 && item.trashKey in s.recorded
    && exists ts :: ts in s.used && item.trashKey == TrashKey(ts, item.originalKey)
  }

  /** A trashing operation: no row knows the trash keys of its remaining keys yet. */
  ghost predicate TrashingOk(b0: Bucket, s: World, op: Op)
    requires op.Trashing?
  {
    && op.now in s.used && Orderly(b0, op.todo)
    && (forall i :: 0 <= i < |op.todo| ==> !Reserved(op.todo[i]))
    && (forall i :: 0 <= i < |op.todo| && Reaches(b0, op.todo, i) ==> TrashKey(op.now, op.todo[i]) !in s.recorded)
    && (!op.phase.ToCopy? ==> op.todo != [] && op.todo[0] in b0)
    && (op.phase.ToDelete? ==> TrashKey(op.now, op.todo[0]) in s.bucket)
  }

  ghost predicate OpOk(b0: Bucket, s: World, op: Op) {
    if op.Trashing? then TrashingOk(b0, s, op) else ItemOk(b0, s, op.item)
  }

  ghost predicate TimesApart(s: World) {
    forall o, p :: o in s.ops && p in s.ops && o != p && s.ops[o].Trashing? && s.ops[p].Trashing? ==>
      s.ops[o].now != s.ops[p].now
  }

  ghost predicate Unused(b0: Bucket, ts: nat) {
    forall k :: TrashKey(ts, k) !in b0
  }

  /** Recorded trash keys come from request times that were used. */
  ghost predicate FromUsed(s: World, trashKey: string) {
    exists ts, k :: ts in s.used && trashKey == TrashKey(ts, k)
  }

  ghost predicate Inv(b0: Bucket, s: World) {
    && TimesApart(s)
    && (forall ts :: ts in s.used ==> Unused(b0, ts))
    && (forall tk :: tk in s.recorded ==> FromUsed(s, tk))
    && (forall key :: LegitAt(b0, s, key))
    && (forall key :: SafeAt(b0, s, key))
    && (forall id :: id in s.rows ==> ItemOk(b0, s, s.rows[id]))
    && (forall o :: o in s.ops ==> OpOk(b0, s, s.ops[o]))
  }

  // ---- What the parts rest on ----

  /** Objects outside the trash hold their own content, trash copies that of their object. */
  lemma OwnContent(b0: Bucket, s: World, key: string)
    requires key in s.bucket && LegitAt(b0, s, key) && !Reserved(key)
    ensures key in b0 && s.bucket[key] == b0[key]
  {
  }

  lemma CopyContent(b0: Bucket, s: World, ts: nat, key: string)
    requires Unused(b0, ts) && TrashKey(ts, key) in s.bucket && LegitAt(b0, s, TrashKey(ts, key))
    ensures key in b0 && s.bucket[TrashKey(ts, key)] == b0[key]
  {
    assert TrashKey(ts, key) !in b0;
    var ts', k :| ts' in s.used && k in b0 && b0[k] == s.bucket[TrashKey(ts, key)] && TrashKey(ts, key) == TrashKey(ts', k);
    TrashKeyInjective(ts, key, ts', k);
  }

  /** An object that is not in place stays safe while its safe copies do. */
  lemma SafeStays(s: World, s': World, key: string)
    requires Safe(s, key) && s.used <= s'.used
    requires key in s.bucket ==> Safe(s', key)
    requires forall ts :: SafeCopy(s, key, ts) ==> TrashKey(ts, key) in s'.bucket && !Doomed(s', TrashKey(ts, key))
    ensures Safe(s', key)
  {
    if key !in s.bucket {
      var ts :| SafeCopy(s, key, ts);
      assert SafeCopy(s', key, ts);
    }
  }

  /** Operations other than o are as before; o may have started or ended. */
  ghost predicate OthersStay(s: World, s': World, o: nat) {
    forall p :: p in s'.ops && p != o ==> p in s.ops && s'.ops[p] == s.ops[p]
  }

  lemma DoomStays(s: World, s': World, o: nat, trashKey: string)
    requires OthersStay(s, s', o) && Doomed(s', trashKey)
    ensures Doomed(s, trashKey) || (o in s'.ops && Dooms(s'.ops[o], trashKey))
  {
    var p :| p in s'.ops && Dooms(s'.ops[p], trashKey);
  }

  /** When keys only appear and no deletion becomes due, everything stays safe. */
  lemma SafeWhenGrowing(b0: Bucket, s: World, s': World, o: nat)
    requires OthersStay(s, s', o) && s.used <= s'.used && s.bucket.Keys <= s'.bucket.Keys
    requires o in s'.ops ==> forall tk :: !Dooms(s'.ops[o], tk)
    requires forall key :: SafeAt(b0, s, key)
    ensures forall key :: SafeAt(b0, s', key)
  {
    forall key ensures SafeAt(b0, s', key) {
      assert SafeAt(b0, s, key);
      if key in b0 {
        forall ts | SafeCopy(s, key, ts) ensures TrashKey(ts, key) in s'.bucket && !Doomed(s', TrashKey(ts, key)) {
          if Doomed(s', TrashKey(ts, key)) {
            DoomStays(s, s', o, TrashKey(ts, key));
          }
        }
        SafeStays(s, s', key);
      }
    }
  }

  lemma LegitWhenUnchanged(b0: Bucket, s: World, s': World)
    requires s'.bucket.Keys <= s.bucket.Keys && s.used <= s'.used
    requires forall key :: key in s'.bucket ==> s'.bucket[key] == s.bucket[key]
    requires forall key :: LegitAt(b0, s, key)
    ensures forall key :: LegitAt(b0, s', key)
  {
    forall key ensures LegitAt(b0, s', key) {
      assert LegitAt(b0, s, key);
    }
  }

  lemma LegitAfterPut(b0: Bucket, s: World, s': World, key: string, value: string)
    requires s'.bucket == s.bucket[key := value] && s.used == s'.used && Legit(b0, s.used, key, value)
    requires forall k :: LegitAt(b0, s, k)
    ensures forall k :: LegitAt(b0, s', k)
  {
    forall k ensures LegitAt(b0, s', k) {
      assert LegitAt(b0, s, k);
    }
  }

  /** An operation keeps its facts while no row learns a key of its list and its finished copy stays. */
  lemma OpStaysOk(b0: Bucket, s: World, s': World, op: Op)
    requires OpOk(b0, s, op) && s.used <= s'.used && s.recorded <= s'.recorded
    requires op.Trashing? ==>
      forall i :: 0 <= i < |op.todo| && Reaches(b0, op.todo, i) ==> TrashKey(op.now, op.todo[i]) !in s'.recorded
    requires op.Trashing? && op.phase.ToDelete? ==> TrashKey(op.now, op.todo[0]) in s'.bucket
    ensures OpOk(b0, s', op)
  {
  }

  /** The frame of most steps: no row is added and no trash copy that is being finished goes. */
  lemma OthersStayOk(b0: Bucket, s: World, s': World, o: nat)
    requires OthersStay(s, s', o) && s.used <= s'.used && s.recorded == s'.recorded
    requires forall p :: p in s.ops ==> OpOk(b0, s, s.ops[p])
    requires forall tk :: tk in s.bucket && tk !in s.recorded && Reserved(tk) ==> tk in s'.bucket
    ensures forall p :: p in s'.ops && p != o ==> OpOk(b0, s', s'.ops[p])
  {
    forall p | p in s'.ops && p != o ensures OpOk(b0, s', s'.ops[p]) {
      assert OpOk(b0, s, s.ops[p]);
      OpStaysOk(b0, s, s', s.ops[p]);
    }
  }

  lemma RowsStayOk(b0: Bucket, s: World, s': World)
    requires s.used <= s'.used && s.recorded <= s'.recorded
    requires forall id :: id in s'.rows ==> id in s.rows && s'.rows[id] == s.rows[id]
    requires forall id :: id in s.rows ==> ItemOk(b0, s, s.rows[id])
    ensures forall id :: id in s'.rows ==> ItemOk(b0, s', s'.rows[id])
  {
  }

  lemma TimesStay(s: World, s': World)
    requires s.used <= s'.used && s'.recorded == s.recorded && forall tk :: tk in s.recorded ==> FromUsed(s, tk)
    ensures forall tk :: tk in s'.recorded ==> FromUsed(s', tk)
  {
    forall tk | tk in s'.recorded ensures FromUsed(s', tk) {
      assert FromUsed(s, tk);
    }
  }

  // ---- Every step keeps it ----

  lemma TrashCopyKeepsInv(b0: Bucket, s: World, o: nat, headOk: bool)
    requires Inv(b0, s) && o in s.ops && s.ops[o].Trashing? && s.ops[o].phase.ToCopy?
    requires s.ops[o].todo != [] && s.ops[o].todo[0] in s.bucket
    ensures Inv(b0, TrashAct(s, o, s.ops[o], headOk))
  {
    var op := s.ops[o];
    var key := op.todo[0];
    var s' := TrashAct(s, o, op, headOk);
    assert OpOk(b0, s, op) && LegitAt(b0, s, key);
    OwnContent(b0, s, key);
    assert TimesApart(s') && TrashingOk(b0, s', s'.ops[o]);
    assert Legit(b0, s.used, TrashKey(op.now, key), b0[key]);
    LegitAfterPut(b0, s, s', TrashKey(op.now, key), b0[key]);
    SafeWhenGrowing(b0, s, s', o);
    OthersStayOk(b0, s, s', o);
    TimesStay(s, s');
    RowsStayOk(b0, s, s');
  }

  lemma TrashDeleteKeepsInv(b0: Bucket, s: World, o: nat)
    requires Inv(b0, s) && o in s.ops && s.ops[o].Trashing? && s.ops[o].phase.ToDelete? && s.ops[o].todo != []
    ensures Inv(b0, TrashAct(s, o, s.ops[o], false))
  {
    var op := s.ops[o];
    var s' := TrashAct(s, o, op, false);
    assert OpOk(b0, s, op);
    assert TimesApart(s') && TrashingOk(b0, s', s'.ops[o]);
    LegitWhenUnchanged(b0, s, s');
    SafeAfterDelete(b0, s, s', o);
    OthersStayOk(b0, s, s', o);
    TimesStay(s, s');
    RowsStayOk(b0, s, s');
  }

  /** The deleted object is safe in its trash copy, which no restore knows; no trash copy goes. */
  lemma SafeAfterDelete(b0: Bucket, s: World, s': World, o: nat)
    requires o in s.ops && o in s'.ops && s.ops[o].Trashing? && s'.ops[o].Trashing? && OthersStay(s, s', o)
    requires s.ops[o].phase.ToDelete? && s.ops[o].todo != [] && OpOk(b0, s, s.ops[o])
    requires s'.bucket == s.bucket - {s.ops[o].todo[0]} && s'.used == s.used
    requires forall p :: p in s.ops ==> OpOk(b0, s, s.ops[p])
    requires forall key :: SafeAt(b0, s, key)
    ensures forall key :: SafeAt(b0, s', key)
  {
    var key, tk := s.ops[o].todo[0], TrashKey(s.ops[o].now, s.ops[o].todo[0]);
    assert Reserved(tk);
    NotDoomed(b0, s, tk);
    if Doomed(s', tk) {
      DoomStays(s, s', o, tk);
    }
    assert SafeCopy(s', key, s.ops[o].now);
    forall k ensures SafeAt(b0, s', k) {
      assert SafeAt(b0, s, k);
      if k in b0 && k != key {
        forall ts | SafeCopy(s, k, ts) ensures TrashKey(ts, k) in s'.bucket && !Doomed(s', TrashKey(ts, k)) {
          assert Reserved(TrashKey(ts, k));
          if Doomed(s', TrashKey(ts, k)) {
            DoomStays(s, s', o, TrashKey(ts, k));
          }
        }
        SafeStays(s, s', k);
      }
    }
  }

  /** A trash key without a row is not about to be deleted. */
  lemma NotDoomed(b0: Bucket, s: World, trashKey: string)
    requires trashKey !in s.recorded && forall p :: p in s.ops ==> OpOk(b0, s, s.ops[p])
    ensures !Doomed(s, trashKey)
  {
    forall o | o in s.ops ensures !Dooms(s.ops[o], trashKey) {
      assert OpOk(b0, s, s.ops[o]);
    }
  }

  /** After recording a key, no other list holds a recorded trash key: times and keys are distinct. */
  lemma RecordKeepsOps(b0: Bucket, s: World, s': World, o: nat, p: nat)
    requires o in s.ops && s.ops[o].Trashing? && s.ops[o].todo != [] && p in s.ops && p != o
    requires OpOk(b0, s, s.ops[p]) && (s.ops[p].Trashing? ==> s.ops[p].now != s.ops[o].now)
    requires s'.used == s.used && s'.bucket == s.bucket
    requires s'.recorded == s.recorded + {TrashKey(s.ops[o].now, s.ops[o].todo[0])}
    ensures OpOk(b0, s', s.ops[p])
  {
    var op := s.ops[p];
    if op.Trashing? {
      forall i | 0 <= i < |op.todo| && Reaches(b0, op.todo, i) ensures TrashKey(op.now, op.todo[i]) !in s'.recorded {
        if TrashKey(op.now, op.todo[i]) == TrashKey(s.ops[o].now, s.ops[o].todo[0]) {
          TrashKeyInjective(op.now, op.todo[i], s.ops[o].now, s.ops[o].todo[0]);
        }
      }
    }
    OpStaysOk(b0, s, s', op);
  }

  lemma RecordKeepsOwn(b0: Bucket, s: World, s': World, op: Op)
    requires op.Trashing? && op.todo != [] && op.todo[0] in b0 && TrashingOk(b0, s, op)
    requires s'.used == s.used && s'.recorded == s.recorded + {TrashKey(op.now, op.todo[0])}
    ensures TrashingOk(b0, s', Trashing(op.now, op.todo[1..], ToCopy))
  {
    var rest := op.todo[1..];
    forall i | 0 <= i < |rest| && Reaches(b0, rest, i) ensures Reaches(b0, op.todo, i + 1) {
      forall m | 0 <= m < i + 1 && m < |op.todo| ensures op.todo[m] in b0 {
        assert m > 0 ==> op.todo[m] == rest[m - 1];
      }
    }
    forall i, j | 0 <= i < j < |rest| && rest[i] == rest[j] ensures !Reaches(b0, rest, j) {
      assert op.todo[i + 1] == op.todo[j + 1];
    }
    forall i | 0 <= i < |rest| && Reaches(b0, rest, i) ensures TrashKey(op.now, rest[i]) !in s'.recorded {
      assert rest[i] == op.todo[i + 1] && Reaches(b0, op.todo, i + 1);
      if TrashKey(op.now, rest[i]) == TrashKey(op.now, op.todo[0]) {
        TrashKeyInjective(op.now, rest[i], op.now, op.todo[0]);
      }
    }
  }

  lemma TrashRecordKeepsInv(b0: Bucket, s: World, o: nat)
    requires Inv(b0, s) && o in s.ops && s.ops[o].Trashing? && s.ops[o].phase.ToRecord? && s.ops[o].todo != []
    ensures Inv(b0, TrashAct(s, o, s.ops[o], false))
  {
    var op := s.ops[o];
    var s' := TrashAct(s, o, op, false);
    assert OpOk(b0, s, op);
    LegitWhenUnchanged(b0, s, s');
    SafeWhenGrowing(b0, s, s', o);
    RecordKeepsOwn(b0, s, s', op);
    forall p | p in s'.ops ensures OpOk(b0, s', s'.ops[p]) {
      if p != o {
        RecordKeepsOps(b0, s, s', o, p);
      }
    }
    forall tk | tk in s'.recorded ensures FromUsed(s', tk) {
      assert tk in s.recorded ==> FromUsed(s, tk);
    }
    forall id | id in s'.rows ensures ItemOk(b0, s', s'.rows[id]) {
      assert id != s.nextRow ==> ItemOk(b0, s, s.rows[id]);
    }
  }

  lemma RestoreCopyKeepsInv(b0: Bucket, s: World, o: nat)
    requires Inv(b0, s) && o in s.ops && s.ops[o].Restoring? && s.ops[o].stage.Copying?
    requires s.ops[o].item.trashKey in s.bucket
    ensures Inv(b0, RestoreAct(s, o, s.ops[o]))
  {
    var item := s.ops[o].item;
    var s' := RestoreAct(s, o, s.ops[o]);
    assert OpOk(b0, s, s.ops[o]);
    var ts :| ts in s.used && item.trashKey == TrashKey(ts, item.originalKey);
    assert LegitAt(b0, s, item.trashKey);
    assert TimesApart(s') && ItemOk(b0, s', item);
    CopyContent(b0, s, ts, item.originalKey);
    LegitAfterPut(b0, s, s', item.originalKey, b0[item.originalKey]);
    SafeAfterRestoreCopy(b0, s, s', o, ts);
    OthersStayOk(b0, s, s', o);
    TimesStay(s, s');
    RowsStayOk(b0, s, s');
  }

  /** The trash copy becomes due for deletion, but its object is in place; other objects' copies are
      other keys. */
  lemma SafeAfterRestoreCopy(b0: Bucket, s: World, s': World, o: nat, ts: nat)
    requires o in s'.ops && s'.ops[o].Restoring? && OthersStay(s, s', o) && s'.used == s.used
    requires s.bucket.Keys + {s'.ops[o].item.originalKey} <= s'.bucket.Keys
    requires s'.ops[o].item.trashKey == TrashKey(ts, s'.ops[o].item.originalKey)
    requires forall key :: SafeAt(b0, s, key)
    ensures forall key :: SafeAt(b0, s', key)
  {
    var item := s'.ops[o].item;
    forall k ensures SafeAt(b0, s', k) {
      assert SafeAt(b0, s, k);
      if k in b0 && k != item.originalKey {
        forall t | SafeCopy(s, k, t) ensures TrashKey(t, k) in s'.bucket && !Doomed(s', TrashKey(t, k)) {
          if TrashKey(t, k) == item.trashKey {
            TrashKeyInjective(t, k, ts, item.originalKey);
          }
          if Doomed(s', TrashKey(t, k)) {
            DoomStays(s, s', o, TrashKey(t, k));
          }
        }
        SafeStays(s, s', k);
      }
    }
  }

  lemma RestoreDeleteKeepsInv(b0: Bucket, s: World, o: nat)
    requires Inv(b0, s) && o in s.ops && s.ops[o].Restoring? && s.ops[o].stage.Deleting?
    ensures Inv(b0, RestoreAct(s, o, s.ops[o]))
  {
    var item := s.ops[o].item;
    var s' := RestoreAct(s, o, s.ops[o]);
    assert OpOk(b0, s, s.ops[o]);
    assert item.trashKey !in b0 by {
      var ts :| ts in s.used && item.trashKey == TrashKey(ts, item.originalKey);
      assert Unused(b0, ts);
    }
    LegitWhenUnchanged(b0, s, s');
    SafeAfterRestoreDelete(b0, s, s', o);
    OthersStayOk(b0, s, s', o);
    TimesStay(s, s');
    RowsStayOk(b0, s, s');
  }

  /** Only the copy that was due goes, and no safe copy was due. */
  lemma SafeAfterRestoreDelete(b0: Bucket, s: World, s': World, o: nat)
    requires o in s.ops && s.ops[o].Restoring? && s.ops[o].stage.Deleting? && s.ops[o].item.trashKey !in b0
    requires o in s'.ops && s'.ops[o].Restoring? && s'.ops[o].stage.Marking?
    requires OthersStay(s, s', o) && s'.used == s.used && s'.bucket == s.bucket - {s.ops[o].item.trashKey}
    requires forall key :: SafeAt(b0, s, key)
    ensures forall key :: SafeAt(b0, s', key)
  {
    assert Dooms(s.ops[o], s.ops[o].item.trashKey) && Doomed(s, s.ops[o].item.trashKey);
    forall k ensures SafeAt(b0, s', k) {
      assert SafeAt(b0, s, k);
      if k in b0 {
        forall t | SafeCopy(s, k, t) ensures TrashKey(t, k) in s'.bucket && !Doomed(s', TrashKey(t, k)) {
          if Doomed(s', TrashKey(t, k)) {
            DoomStays(s, s', o, TrashKey(t, k));
          }
        }
        SafeStays(s, s', k);
      }
    }
  }

  /** An operation ends; a restore may take its row with it. */
  lemma StopKeepsInv(b0: Bucket, s: World, o: nat, gone: set<nat>)
    requires Inv(b0, s)
    ensures Inv(b0, Stop(s, o).(rows := s.rows - gone))
  {
    var s' := Stop(s, o).(rows := s.rows - gone);
    LegitWhenUnchanged(b0, s, s');
    SafeWhenGrowing(b0, s, s', o);
    OthersStayOk(b0, s, s', o);
    TimesStay(s, s');
    RowsStayOk(b0, s, s');
  }

  lemma StartTrashKeepsInv(b0: Bucket, s: World, a: Step)
    requires Inv(b0, s) && a.StartTrash? && Allowed(b0, s, a) && a.o !in s.ops
    ensures Inv(b0, Next(s, a))
  {
    var s' := Next(s, a);
    assert Unused(b0, a.now);
    LegitWhenUnchanged(b0, s, s');
    SafeWhenGrowing(b0, s, s', a.o);
    OthersStayOk(b0, s, s', a.o);
    TimesStay(s, s');
    RowsStayOk(b0, s, s');
    forall k ensures TrashKey(a.now, k) !in s.recorded {
      NewTimeIsUnrecorded(s, a.now, k);
    }
    forall p | p in s.ops && s.ops[p].Trashing? ensures s.ops[p].now != a.now {
      assert OpOk(b0, s, s.ops[p]);
    }
  }

  lemma NewTimeIsUnrecorded(s: World, now: nat, key: string)
    requires now !in s.used && forall tk :: tk in s.recorded ==> FromUsed(s, tk)
    ensures TrashKey(now, key) !in s.recorded
  {
    if TrashKey(now, key) in s.recorded {
      assert FromUsed(s, TrashKey(now, key));
      var ts, k :| ts in s.used && TrashKey(now, key) == TrashKey(ts, k);
      TrashKeyInjective(now, key, ts, k);
    }
  }

  lemma StartRestoreKeepsInv(b0: Bucket, s: World, o: nat, id: nat)
    requires Inv(b0, s) && o !in s.ops && id in s.rows
    ensures Inv(b0, Next(s, StartRestore(o, id)))
  {
    var s' := Next(s, StartRestore(o, id));
    assert ItemOk(b0, s, s.rows[id]);
    assert TimesApart(s') && ItemOk(b0, s', s.rows[id]);
    LegitWhenUnchanged(b0, s, s');
    SafeWhenGrowing(b0, s, s', o);
    OthersStayOk(b0, s, s', o);
    TimesStay(s, s');
    RowsStayOk(b0, s, s');
  }

  lemma ActKeepsInv(b0: Bucket, s: World, o: nat, headOk: bool)
    requires Inv(b0, s) && o in s.ops
    ensures Inv(b0, Next(s, Act(o, headOk)))
  {
    var op := s.ops[o];
    assert s.rows - {} == s.rows;
    if op.Trashing? {
      if op.todo == [] || (op.phase.ToCopy? && op.todo[0] !in s.bucket) {
        StopKeepsInv(b0, s, o, {});
      } else if op.phase.ToCopy? {
        TrashCopyKeepsInv(b0, s, o, headOk);
      } else if op.phase.ToDelete? {
        TrashDeleteKeepsInv(b0, s, o);
      } else {
        TrashRecordKeepsInv(b0, s, o);
      }
    } else if op.stage.Copying? {
      if op.item.trashKey in s.bucket {
        RestoreCopyKeepsInv(b0, s, o);
      } else {
        StopKeepsInv(b0, s, o, {});
      }
    } else if op.stage.Deleting? {
      RestoreDeleteKeepsInv(b0, s, o);
    } else {
      StopKeepsInv(b0, s, o, {op.id});
    }
  }

  lemma StepKeepsInv(b0: Bucket, s: World, a: Step)
    requires Inv(b0, s) && Allowed(b0, s, a)
    ensures Inv(b0, Next(s, a))
  {
    match a
    case StartTrash(o, now, keys) =>
      if o !in s.ops {
        StartTrashKeepsInv(b0, s, a);
      }
    case StartRestore(o, id) =>
      if o !in s.ops && id in s.rows {
        StartRestoreKeepsInv(b0, s, o, id);
      }
    case Act(o, headOk) =>
      if o in s.ops {
        ActKeepsInv(b0, s, o, headOk);
      }
    case End(o) =>
      StopKeepsInv(b0, s, o, {});
      assert s.rows - {} == s.rows;
  }

  lemma {:induction false} RunKeepsInv(b0: Bucket, s: World, steps: seq<Step>)
    requires Inv(b0, s) && AllAllowed(b0, s, steps)
    ensures Inv(b0, Run(s, steps))
    decreases |steps|
  {
    if steps != [] {
      StepKeepsInv(b0, s, steps[0]);
      RunKeepsInv(b0, Next(s, steps[0]), steps[1..]);
    }
  }

  /** The object is in the bucket with its content, in place or under a new trash key of its own. */
  ghost predicate Kept(b0: Bucket, b: Bucket, key: string)
    requires key in b0
  {
    || (key in b && b[key] == b0[key])
    || exists ts :: TrashKey(ts, key) in b && TrashKey(ts, key) !in b0 && b[TrashKey(ts, key)] == b0[key]
  }

  ghost predicate AllKept(b0: Bucket, b: Bucket) {
    forall k :: k in b0 ==> Kept(b0, b, k)
  }

  lemma SafeIsKept(b0: Bucket, s: World, key: string)
    requires Inv(b0, s) && key in b0
    ensures Kept(b0, s.bucket, key)
  {
    assert SafeAt(b0, s, key) && LegitAt(b0, s, key);
    if key !in s.bucket {
      var ts :| SafeCopy(s, key, ts);
      assert LegitAt(b0, s, TrashKey(ts, key)) && Unused(b0, ts);
      CopyContent(b0, s, ts, key);
    }
  }

  /** Whatever trash and restore requests overlap, fail or crash at any point, every original object
      is still there with its content, under its own key or under a trash key of its own; and the
      bucket holds nothing else. */
  lemma NothingIsLost(s: World, steps: seq<Step>)
    requires s.rows == map[] && s.ops == map[] && s.used == {} && s.recorded == {}
    requires AllAllowed(s.bucket, s, steps)
    ensures var s' := Run(s, steps);
      && AllKept(s.bucket, s'.bucket)
      && (forall key :: key in s'.bucket ==> Legit(s.bucket, s'.used, key, s'.bucket[key]))
  {
    RunKeepsInv(s.bucket, s, steps);
    var b0, s' := s.bucket, Run(s, steps);
    forall k | k in b0 ensures Kept(b0, s'.bucket, k) {
      SafeIsKept(b0, s', k);
    }
    forall key | key in s'.bucket ensures Legit(b0, s'.used, key, s'.bucket[key]) {
      assert LegitAt(b0, s', key);
    }
  }

  // ---- One request at a time ----

  function TrashOne(b: Bucket, now: nat, key: string): Bucket {
    if key in b then b[TrashKey(now, key) := b[key]] - {key} else b
  }

  function TrashAll(b: Bucket, now: nat, keys: seq<string>): Bucket {
    if keys == [] then b else TrashOne(TrashAll(b, now, keys[..|keys| - 1]), now, keys[|keys| - 1])
  }

  function RestoreOne(b: Bucket, item: Item): Bucket {
    if item.trashKey in b then b[item.originalKey := b[item.trashKey]] - {item.trashKey} else b
  }

  function RestoreAll(b: Bucket, items: seq<Item>): Bucket {
    if items == [] then b else RestoreOne(RestoreAll(b, items[..|items| - 1]), items[|items| - 1])
  }

  /** The keys are present, and their trash keys are free. */
  ghost predicate Movable(b: Bucket, now: nat, keys: set<string>) {
    forall k :: k in keys ==> k in b && TrashKey(now, k) !in b
  }

  /** The bucket with the objects of `gone` under their trash keys and everything else untouched. */
  ghost predicate Moved(b: Bucket, now: nat, gone: set<string>, b': Bucket) {
    && (forall k :: k in b && k !in gone ==> k in b' && b'[k] == b[k])
    && (forall k :: k in gone ==> k in b && k !in b' && TrashKey(now, k) in b' && b'[TrashKey(now, k)] == b[k])
    && (forall x :: x in b' ==> x in b || exists k :: k in gone && x == TrashKey(now, k))
  }

  lemma TrashOneMoves(b: Bucket, now: nat, gone: set<string>, b': Bucket, key: string)
    requires Movable(b, now, gone + {key}) && key !in gone && Moved(b, now, gone, b')
    ensures Moved(b, now, gone + {key}, TrashOne(b', now, key))
  {
    var b'' := TrashOne(b', now, key);
    forall k | k in gone + {key}
      ensures k !in b'' && TrashKey(now, k) in b'' && b''[TrashKey(now, k)] == b[k]
    {
      if TrashKey(now, k) == TrashKey(now, key) {
        TrashKeyInjective(now, k, now, key);
      }
    }
  }

  lemma RestoreOneMovesBack(b: Bucket, now: nat, gone: set<string>, b': Bucket, key: string, size: nat)
    requires Movable(b, now, gone) && key in gone && Moved(b, now, gone, b')
    ensures Moved(b, now, gone - {key}, RestoreOne(b', Item(key, TrashKey(now, key), size)))
  {
    var b'' := RestoreOne(b', Item(key, TrashKey(now, key), size));
    forall k | k in gone - {key}
      ensures k !in b'' && TrashKey(now, k) in b'' && b''[TrashKey(now, k)] == b[k]
    {
      if TrashKey(now, k) == TrashKey(now, key) {
        TrashKeyInjective(now, k, now, key);
      }
    }
  }

  function KeySet(keys: seq<string>): set<string> {
    set i | 0 <= i < |keys| :: keys[i]
  }

  lemma KeySetOfFront(keys: seq<string>)
    requires keys != []
    ensures KeySet(keys) == KeySet(keys[..|keys| - 1]) + {keys[|keys| - 1]}
    ensures Distinct(keys) ==> Distinct(keys[..|keys| - 1]) && keys[|keys| - 1] !in KeySet(keys[..|keys| - 1])
  {
    var front := keys[..|keys| - 1];
    forall k | k in KeySet(keys) ensures k in KeySet(front) + {keys[|keys| - 1]} {
      var i :| 0 <= i < |keys| && keys[i] == k;
      assert i < |front| ==> front[i] == k;
    }
    forall k | k in KeySet(front) ensures k in KeySet(keys) {
      var i :| 0 <= i < |front| && front[i] == k;
      assert keys[i] == k;
    }
  }

  lemma {:induction false} TrashAllMoves(b: Bucket, now: nat, keys: seq<string>)
    requires Distinct(keys) && Movable(b, now, KeySet(keys))
    ensures Moved(b, now, KeySet(keys), TrashAll(b, now, keys))
  {
    if keys != [] {
      KeySetOfFront(keys);
      var front := keys[..|keys| - 1];
      TrashAllMoves(b, now, front);
      TrashOneMoves(b, now, KeySet(front), TrashAll(b, now, front), keys[|keys| - 1]);
    }
  }

  /** The rows of a request, whatever sizes they recorded. */
  ghost predicate RowsOf(now: nat, keys: seq<string>, items: seq<Item>) {
    |items| == |keys| && forall i :: 0 <= i < |items| ==>
      items[i].originalKey == keys[i] && items[i].trashKey == TrashKey(now, keys[i])
  }

  lemma {:induction false} RestoreAllMovesBack(b: Bucket, now: nat, gone: set<string>, b': Bucket, order: seq<string>, items: seq<Item>)
    requires Movable(b, now, gone) && Moved(b, now, gone, b')
    requires Distinct(order) && KeySet(order) <= gone && RowsOf(now, order, items)
    ensures Moved(b, now, gone - KeySet(order), RestoreAll(b', items))
  {
    if order == [] {
      assert gone - KeySet(order) == gone;
    } else {
      KeySetOfFront(order);
      var n := |order| - 1;
      RestoreAllMovesBack(b, now, gone, b', order[..n], items[..n]);
      var left := gone - KeySet(order[..n]);
      RestoreOneMovesBack(b, now, left, RestoreAll(b', items[..n]), order[n], items[n].size);
      assert items[n] == Item(order[n], TrashKey(now, order[n]), items[n].size);
      assert left - {order[n]} == gone - KeySet(order);
    }
  }

  /** Trashing any distinct present keys and restoring the rows in any order gives back the bucket. */
  lemma TrashThenRestore(b: Bucket, now: nat, keys: seq<string>, order: seq<string>, items: seq<Item>)
    requires Distinct(keys) && Movable(b, now, KeySet(keys))
    requires Distinct(order) && KeySet(order) == KeySet(keys) && RowsOf(now, order, items)
    ensures RestoreAll(TrashAll(b, now, keys), items) == b
  {
    TrashAllMoves(b, now, keys);
    RestoreAllMovesBack(b, now, KeySet(keys), TrashAll(b, now, keys), order, items);
    assert KeySet(keys) - KeySet(order) == {};
  }

  // ---- Exactly which requests are safe ----

  function Fresh(b0: Bucket): World {
    World(b0, map[], 0, map[], {}, {})
  }

  ghost predicate NoNewRequests(steps: seq<Step>) {
    forall i :: 0 <= i < |steps| ==> !steps[i].StartTrash?
  }

  lemma {:induction false} RunAppends(s: World, a: seq<Step>, b: seq<Step>)
    ensures Run(s, a + b) == Run(Run(s, a), b)
    decreases |a|
  {
    if a == [] {
      assert a + b == b;
    } else {
      assert (a + b)[1..] == a[1..] + b;
      RunAppends(Next(s, a[0]), a[1..], b);
    }
  }

  lemma RunThree(s: World, a: Step, b: Step, c: Step)
    ensures Run(s, [a, b, c]) == Next(Next(Next(s, a), b), c)
  {
    assert [a, b, c][1..] == [b, c] && [b, c][1..] == [c] && [c][1..] == [];
    assert Run(Next(s, a), [b, c]) == Run(Next(Next(s, a), b), [c]);
    assert Run(Next(Next(s, a), b), [c]) == Next(Next(Next(s, a), b), c);
  }

  /** The first n keys are in the trash, with rows numbered from 0, and the request goes on. */
  ghost predicate Halfway(s: World, b0: Bucket, now: nat, keys: seq<string>, n: nat) {
    && n <= |keys| && s.bucket == TrashAll(b0, now, keys[..n])
    && s.ops == map[0 := Trashing(now, keys[n..], ToCopy)] && s.nextRow == n
    && (forall i :: 0 <= i < n ==> i in s.rows && s.rows[i].originalKey == keys[i] && s.rows[i].trashKey == TrashKey(now, keys[i]))
  }

  lemma OneMoreTrashed(s: World, b0: Bucket, now: nat, keys: seq<string>, n: nat)
    requires Halfway(s, b0, now, keys, n) && n < |keys| && keys[n] in s.bucket
    ensures Halfway(Next(Next(Next(s, Act(0, true)), Act(0, true)), Act(0, true)), b0, now, keys, n + 1)
  {
    var todo, key := keys[n..], keys[n];
    var size := |s.bucket[key]|;
    var s1 := Next(s, Act(0, true));
    assert s1 == s.(ops := map[0 := Trashing(now, todo, ToDelete(size))], bucket := s.bucket[TrashKey(now, key) := s.bucket[key]]);
    var s2 := Next(s1, Act(0, true));
    assert s2 == s.(ops := map[0 := Trashing(now, todo, ToRecord(size))], bucket := TrashOne(s.bucket, now, key));
    var s3 := Next(s2, Act(0, true));
    assert todo[1..] == keys[n + 1..] && keys[..n + 1][..n] == keys[..n];
    assert s3.ops == map[0 := Trashing(now, keys[n + 1..], ToCopy)];
  }

  /** The actions that trash n keys. */
  function Moving(n: nat): seq<Step> {
    if n == 0 then [] else Moving(n - 1) + [Act(0, true), Act(0, true), Act(0, true)]
  }

  lemma {:induction false} MovingIsQuiet(n: nat)
    ensures NoNewRequests(Moving(n))
  {
    if n > 0 {
      MovingIsQuiet(n - 1);
    }
  }

  lemma NextKeyIsPresent(b0: Bucket, now: nat, keys: seq<string>, n: nat)
    requires n < |keys| && Distinct(keys[..n + 1]) && Movable(b0, now, KeySet(keys[..n + 1]))
    ensures keys[n] in TrashAll(b0, now, keys[..n])
    ensures Distinct(keys[..n]) && Movable(b0, now, KeySet(keys[..n]))
  {
    assert keys[..n + 1][..n] == keys[..n];
    KeySetOfFront(keys[..n + 1]);
    TrashAllMoves(b0, now, keys[..n]);
  }

  lemma {:induction false} TrashesPrefix(b0: Bucket, now: nat, keys: seq<string>, n: nat)
    requires n <= |keys| && Distinct(keys[..n]) && Movable(b0, now, KeySet(keys[..n]))
    ensures Halfway(Run(Next(Fresh(b0), StartTrash(0, now, keys)), Moving(n)), b0, now, keys, n)
  {
    var s0 := Next(Fresh(b0), StartTrash(0, now, keys));
    if n == 0 {
      assert keys[..0] == [] && keys[0..] == keys;
    } else {
      NextKeyIsPresent(b0, now, keys, n - 1);
      TrashesPrefix(b0, now, keys, n - 1);
      var s := Run(s0, Moving(n - 1));
      OneMoreTrashed(s, b0, now, keys, n - 1);
      RunAppends(s0, Moving(n - 1), [Act(0, true), Act(0, true), Act(0, true)]);
      RunThree(s, Act(0, true), Act(0, true), Act(0, true));
    }
  }

  /** The restore of the first move, interleaved with the second one. */
  const COLLISION := [Act(1, true), Act(0, true), Act(1, true), Act(0, true)]

  lemma CollisionLoses(s: World, now: nat, key: string, todo: seq<string>, id: nat)
    requires s.ops == map[0 := Trashing(now, todo, ToCopy)] && todo != [] && todo[0] == key
    requires id in s.rows && s.rows[id].originalKey == key && s.rows[id].trashKey == TrashKey(now, key)
    requires TrashKey(now, key) in s.bucket && key !in s.bucket
    ensures Run(Next(s, StartRestore(1, id)), COLLISION).bucket == s.bucket - {TrashKey(now, key)}
  {
    var tk, item := TrashKey(now, key), s.rows[id];
    var v := s.bucket[tk];
    var s1 := Next(s, StartRestore(1, id));
    assert s1 == s.(ops := s.ops[1 := Restoring(id, item, Copying)]);
    var s2 := Next(s1, Act(1, true));
    assert s2 == s.(ops := s.ops[1 := Restoring(id, item, Deleting)], bucket := s.bucket[key := v]);
    var s3 := Next(s2, Act(0, true));
    assert s3.bucket == s.bucket[key := v] && s3.ops[1] == s2.ops[1] && s3.ops[0] == Trashing(now, todo, ToDelete(|v|));
    var s4 := Next(s3, Act(1, true));
    assert s4.bucket == s3.bucket - {tk} && s4.ops[0] == s3.ops[0];
    var s5 := Next(s4, Act(0, true));
    assert COLLISION == [Act(1, true)] + [Act(0, true), Act(1, true), Act(0, true)];
    RunAppends(s1, [Act(1, true)], [Act(0, true), Act(1, true), Act(0, true)]);
    assert Run(s1, [Act(1, true)]) == s2 by {
      assert [Act(1, true)][1..] == [];
    }
    RunThree(s2, Act(0, true), Act(1, true), Act(0, true));
  }

  lemma ReachedKeysAreMovable(b0: Bucket, now: nat, keys: seq<string>, j: nat)
    requires j < |keys| && Reaches(b0, keys, j) && forall k :: TrashKey(now, k) !in b0
    ensures Movable(b0, now, KeySet(keys[..j]))
  {
    forall k | k in KeySet(keys[..j]) ensures k in b0 {
      var m :| 0 <= m < j && keys[..j][m] == k;
      assert keys[m] == k;
    }
  }

  function Colliding(i: nat, j: nat): seq<Step> {
    Moving(j) + ([StartRestore(1, i)] + COLLISION)
  }

  lemma CollidingRun(b0: Bucket, now: nat, keys: seq<string>, i: nat, j: nat)
    requires i < j < |keys| && keys[i] == keys[j] && Distinct(keys[..j]) && Movable(b0, now, KeySet(keys[..j]))
    ensures Run(Next(Fresh(b0), StartTrash(0, now, keys)), Colliding(i, j)).bucket ==
            TrashAll(b0, now, keys[..j]) - {TrashKey(now, keys[j])}
  {
    var s0 := Next(Fresh(b0), StartTrash(0, now, keys));
    assert keys[..j][i] == keys[j];
    TrashesPrefix(b0, now, keys, j);
    TrashAllMoves(b0, now, keys[..j]);
    var s := Run(s0, Moving(j));
    CollisionLoses(s, now, keys[j], keys[j..], i);
    assert ([StartRestore(1, i)] + COLLISION)[1..] == COLLISION;
    RunAppends(s0, Moving(j), [StartRestore(1, i)] + COLLISION);
  }

  /** Such a run, for every request whose first repetition it can get to: the object is gone. */
  lemma RepeatedKeyCanBeLost(b0: Bucket, now: nat, keys: seq<string>, i: nat, j: nat) returns (steps: seq<Step>)
    requires i < j < |keys| && keys[i] == keys[j] && Reaches(b0, keys, j) && Distinct(keys[..j])
    requires forall k :: TrashKey(now, k) !in b0
    ensures NoNewRequests(steps) && keys[j] in b0
    ensures !Kept(b0, Run(Next(Fresh(b0), StartTrash(0, now, keys)), steps).bucket, keys[j])
  {
    steps := Colliding(i, j);
    ReachedKeysAreMovable(b0, now, keys, j);
    assert keys[..j][i] == keys[j] && keys[j] in KeySet(keys[..j]);
    CollidingRun(b0, now, keys, i, j);
    MovingIsQuiet(j);
    TrashedThenDeletedIsLost(b0, now, keys[..j], keys[j]);
  }

  lemma TrashedThenDeletedIsLost(b0: Bucket, now: nat, keys: seq<string>, key: string)
    requires Distinct(keys) && Movable(b0, now, KeySet(keys)) && key in KeySet(keys)
    ensures key in b0 && !Kept(b0, TrashAll(b0, now, keys) - {TrashKey(now, key)}, key)
  {
    TrashAllMoves(b0, now, keys);
    CollidedIsLost(b0, now, KeySet(keys), TrashAll(b0, now, keys), key);
  }

  lemma CollidedIsLost(b0: Bucket, now: nat, gone: set<string>, b: Bucket, key: string)
    requires Moved(b0, now, gone, b) && key in gone
    ensures !Kept(b0, b - {TrashKey(now, key)}, key)
  {
    var left := b - {TrashKey(now, key)};
    forall ts ensures TrashKey(ts, key) in left ==> TrashKey(ts, key) in b0 {
      if TrashKey(ts, key) in left && TrashKey(ts, key) !in b0 {
        var k :| k in gone && TrashKey(ts, key) == TrashKey(now, k);
        TrashKeyInjective(ts, key, now, k);
      }
    }
  }

  lemma {:induction false} FirstRepetition(b0: Bucket, keys: seq<string>, i: nat, j: nat) returns (p: nat, q: nat)
    requires i < j < |keys| && keys[i] == keys[j] && Reaches(b0, keys, j)
    ensures p < q < |keys| && keys[p] == keys[q] && Reaches(b0, keys, q) && Distinct(keys[..q])
    decreases j
  {
    if Distinct(keys[..j]) {
      return i, j;
    }
    var m, n :| 0 <= m < n < j && keys[..j][m] == keys[..j][n];
    p, q := FirstRepetition(b0, keys, m, n);
  }

  lemma {:induction false} QuietStepsAreAllowed(b0: Bucket, s: World, steps: seq<Step>)
    requires NoNewRequests(steps)
    ensures AllAllowed(b0, s, steps)
    decreases |steps|
  {
    if steps != [] {
      assert !steps[0].StartTrash?;
      QuietStepsAreAllowed(b0, Next(s, steps[0]), steps[1..]);
    }
  }

  /** After the request, this run of actions and restores loses nothing. */
  ghost predicate KeepsAll(b0: Bucket, now: nat, keys: seq<string>, steps: seq<Step>) {
    NoNewRequests(steps) ==> AllKept(b0, Run(Next(Fresh(b0), StartTrash(0, now, keys)), steps).bucket)
  }

  /** A request, overlapped by any restores and crashes, can lose an object exactly when it names a key
      a second time with only keys of existing objects before that. */
  lemma RequestIsSafeExactly(b0: Bucket, now: nat, keys: seq<string>)
    requires FreshTime(b0, {}, now) && forall i :: 0 <= i < |keys| ==> !Reserved(keys[i])
    ensures (forall steps :: KeepsAll(b0, now, keys, steps)) <==> Orderly(b0, keys)
  {
    var start := StartTrash(0, now, keys);
    if Orderly(b0, keys) {
      forall steps ensures KeepsAll(b0, now, keys, steps) {
        if NoNewRequests(steps) {
          QuietStepsAreAllowed(b0, Next(Fresh(b0), start), steps);
          assert ([start] + steps)[1..] == steps;
          NothingIsLost(Fresh(b0), [start] + steps);
        }
      }
    } else {
      var i, j :| 0 <= i < j < |keys| && keys[i] == keys[j] && Reaches(b0, keys, j);
      var p, q := FirstRepetition(b0, keys, i, j);
      var steps := RepeatedKeyCanBeLost(b0, now, keys, p, q);
      assert !KeepsAll(b0, now, keys, steps);
    }
  }

  // ---- Other writers ----

  function Act1(s: World, o: nat): World {
    Next(s, Act(o, true))
  }

  /** The operation finishes with its current object, undisturbed. */
  function Finish(s: World, o: nat): World
    requires o in s.ops
  {
    var op := s.ops[o];
    if (op.Trashing? && op.phase.ToCopy?) || (op.Restoring? && op.stage.Copying?) then Act1(Act1(Act1(s, o), o), o)
    else if (op.Trashing? && op.phase.ToDelete?) || (op.Restoring? && op.stage.Deleting?) then Act1(Act1(s, o), o)
    else Act1(s, o)
  }

  /** Somebody else stores an object. */
  function Write(s: World, key: string, value: string): World {
    s.(bucket := s.bucket[key := value])
  }

  predicate Stores(b: Bucket, key: string, value: string) {
    key in b && b[key] == value
  }

  /** An upload that overlaps the move of its key to the trash survives, in place or in the trash, exactly
      when it does not fall between the copy and the delete (or stores what was just copied). */
  lemma WriteSurvivesTrashExactly(s: World, o: nat, value: string)
    requires o in s.ops && s.ops[o].Trashing? && s.ops[o].todo != []
    ensures var op := s.ops[o];
            var key, tk := op.todo[0], TrashKey(op.now, op.todo[0]);
            var b := Finish(Write(s, key, value), o).bucket;
            (Stores(b, key, value) || Stores(b, tk, value)) <==> (!op.phase.ToDelete? || Stores(s.bucket, tk, value))
  {
    var op := s.ops[o];
    var key, tk := op.todo[0], TrashKey(op.now, op.todo[0]);
    assert |tk| > |key|;
    var w := Write(s, key, value);
    var w1 := Act1(w, o);
    match op.phase
    case ToCopy =>
      assert w1.bucket == w.bucket[tk := value] && w1.ops[o] == op.(phase := ToDelete(|value|));
      var w2 := Act1(w1, o);
      assert w2.bucket == w1.bucket - {key} && w2.ops[o] == op.(phase := ToRecord(|value|));
    case ToDelete(size) =>
      assert w1.bucket == w.bucket - {key} && w1.ops[o] == op.(phase := ToRecord(size));
    case ToRecord(_) =>
  }

  /** An upload to the original key of an object being restored survives exactly when the copy has been
      made already (or stores the same, or there is nothing left to restore). */
  lemma WriteSurvivesRestoreExactly(s: World, o: nat, value: string)
    requires o in s.ops && s.ops[o].Restoring? && s.ops[o].item.trashKey != s.ops[o].item.originalKey
    ensures var op := s.ops[o];
            var b := Finish(Write(s, op.item.originalKey, value), o).bucket;
            Stores(b, op.item.originalKey, value) <==>
            (!op.stage.Copying? || op.item.trashKey !in s.bucket || Stores(s.bucket, op.item.trashKey, value))
  {
    var op := s.ops[o];
    var key, tk := op.item.originalKey, op.item.trashKey;
    var w := Write(s, key, value);
    var w1 := Act1(w, o);
    match op.stage
    case Copying =>
      if tk in s.bucket {
        assert w1.bucket == w.bucket[key := s.bucket[tk]] && w1.ops[o] == op.(stage := Deleting);
        var w2 := Act1(w1, o);
        assert w2.bucket == w1.bucket - {tk} && w2.ops[o] == op.(stage := Marking);
      } else {
        assert w1.bucket == w.bucket && o !in w1.ops;
      }
    case Deleting =>
      assert w1.bucket == w.bucket - {tk} && w1.ops[o] == op.(stage := Marking);
    case Marking =>
  }

  // ---- Keys that the copy request decodes ----

  /** The move of one object when the backend decodes the source named in a copy request. */
  function TrashDecoded(decode: string -> string, b: Bucket, now: nat, key: string): Bucket {
    if decode(key) in b then b[TrashKey(now, key) := b[decode(key)]] - {key} else b
  }

  /** The source is sent unencoded: the object is lost exactly when its decoded name is that of another
      object with other content. */
  lemma DecodedMoveKeepsExactly(decode: string -> string, b: Bucket, now: nat, key: string)
    requires key in b && TrashKey(now, key) !in b
    ensures var b' := TrashDecoded(decode, b, now, key);
      (Stores(b', key, b[key]) || Stores(b', TrashKey(now, key), b[key])) <==> (decode(key) in b ==> b[decode(key)] == b[key])
    ensures decode(key) == key ==> TrashDecoded(decode, b, now, key) == TrashOne(b, now, key)
  {
  }

  // ---- The service ----

  /** An object of the bucket is in place, or (if it was asked for) under its trash key. */
  ghost predicate StillThere(b: Bucket, now: nat, keys: seq<string>, b': Bucket, k: string) {
    k in b ==>
      || (k in b' && b'[k] == b[k])
      || (k in KeySet(keys) && TrashKey(now, k) in b' && b'[TrashKey(now, k)] == b[k])
  }

  ghost predicate HalfMoved(b: Bucket, now: nat, keys: seq<string>, b': Bucket) {
    forall k :: StillThere(b, now, keys, b', k)
  }

  lemma CopyKeepsHalfMoved(b: Bucket, now: nat, keys: seq<string>, key: string, b': Bucket)
    requires Movable(b, now, KeySet(keys)) && key in KeySet(keys) && HalfMoved(b, now, keys, b')
    ensures HalfMoved(b, now, keys, b'[TrashKey(now, key) := b[key]])
  {
    var b'' := b'[TrashKey(now, key) := b[key]];
    forall k ensures StillThere(b, now, keys, b'', k) {
      assert StillThere(b, now, keys, b', k);
      if TrashKey(now, k) == TrashKey(now, key) {
        TrashKeyInjective(now, k, now, key);
      }
    }
  }

  lemma DeleteKeepsHalfMoved(b: Bucket, now: nat, keys: seq<string>, key: string, b': Bucket)
    requires Movable(b, now, KeySet(keys)) && key in KeySet(keys) && HalfMoved(b, now, keys, b')
    requires TrashKey(now, key) in b' && b'[TrashKey(now, key)] == b[key]
    ensures HalfMoved(b, now, keys, b' - {key})
  {
    assert TrashKey(now, key) != key;
    forall k ensures StillThere(b, now, keys, b' - {key}, k) {
      assert StillThere(b, now, keys, b', k);
    }
  }

  /** The keys from n on have not been touched. */
  ghost predicate Untouched(b: Bucket, keys: seq<string>, n: nat, b': Bucket) {
    forall j :: n <= j < |keys| ==> keys[j] in b && keys[j] in b' && b'[keys[j]] == b[keys[j]]
  }

  lemma TrashOneKeepsRest(b: Bucket, now: nat, keys: seq<string>, n: nat, b': Bucket)
    requires Distinct(keys) && Movable(b, now, KeySet(keys)) && n < |keys| && Untouched(b, keys, n, b')
    ensures Untouched(b, keys, n + 1, TrashOne(b', now, keys[n]))
  {
    assert keys[n] in KeySet(keys);
    forall j | n < j < |keys| ensures keys[j] != keys[n] && keys[j] != TrashKey(now, keys[n]) {
    }
  }

  /** The keys are distinct, present, and have free trash keys. */
  ghost predicate Proper(b: Bucket, now: nat, keys: seq<string>) {
    Distinct(keys) && Movable(b, now, KeySet(keys))
  }

  /** For a proper request: nothing is lost and the keys from n on are untouched. */
  ghost predicate Progress(b: Bucket, now: nat, keys: seq<string>, n: nat, b': Bucket) {
    Proper(b, now, keys) ==> HalfMoved(b, now, keys, b') && Untouched(b, keys, n, b')
  }

  /** The buckets one move passes through. */
  ghost predicate Passes(b: Bucket, now: nat, key: string, b': Bucket) {
    b' == b || (key in b && (b' == b[TrashKey(now, key) := b[key]] || b' == TrashOne(b, now, key)))
  }

  lemma StartsInProgress(b: Bucket, now: nat, keys: seq<string>)
    ensures Progress(b, now, keys, 0, b)
  {
    forall j | 0 <= j < |keys| ensures keys[j] in KeySet(keys) {
    }
  }

  /** Wherever the move of the next key stops, nothing is lost. */
  lemma OneMoreKey(b: Bucket, now: nat, keys: seq<string>, n: nat, b': Bucket, b'': Bucket)
    requires n < |keys| && Progress(b, now, keys, n, b') && Passes(b', now, keys[n], b'')
    ensures Proper(b, now, keys) ==> keys[n] in b' && HalfMoved(b, now, keys, b'')
    ensures b'' == TrashOne(b', now, keys[n]) ==> Progress(b, now, keys, n + 1, b'')
  {
    if Proper(b, now, keys) {
      var key := keys[n];
      assert key in KeySet(keys);
      CopyKeepsHalfMoved(b, now, keys, key, b');
      DeleteKeepsHalfMoved(b, now, keys, key, b'[TrashKey(now, key) := b[key]]);
      TrashOneKeepsRest(b, now, keys, n, b');
    }
  }

  /** The rows of the first n keys of a request, numbered from `first`. */
  ghost predicate RowsWritten(rows: map<nat, Item>, first: nat, now: nat, keys: seq<string>, sizes: string -> nat, n: nat) {
    n <= |keys| && forall id :: first <= id < first + n ==>
      id in rows && rows[id] == Item(keys[id - first], TrashKey(now, keys[id - first]), sizes(keys[id - first]))
  }

  /** The request stopped at key n: the keys before it are moved and have their rows. */
  ghost predicate StoppedAt(b: Bucket, b': Bucket, rows: map<nat, Item>, first: nat, now: nat, keys: seq<string>, sizes: string -> nat, n: nat)
    requires n < |keys|
  {
    Passes(TrashAll(b, now, keys[..n]), now, keys[n], b') && RowsWritten(rows, first, now, keys, sizes, n)
  }

  /** The first n keys are moved, with their rows, and the rest is untouched. */
  ghost predicate MovedUpTo(b: Bucket, b': Bucket, rows: map<nat, Item>, first: nat, now: nat, keys: seq<string>, sizes: string -> nat, n: nat) {
    && n <= |keys| && b' == TrashAll(b, now, keys[..n])
    && Progress(b, now, keys, n, b') && RowsWritten(rows, first, now, keys, sizes, n)
  }

  ghost predicate Preserves(rows: map<nat, Item>, rows': map<nat, Item>) {
    forall id :: id in rows ==> id in rows' && rows'[id] == rows[id]
  }

  lemma MoveGoesOn(b: Bucket, b': Bucket, b'': Bucket, rows: map<nat, Item>, rows': map<nat, Item>, first: nat, now: nat, keys: seq<string>, sizes: string -> nat, n: nat)
    requires n < |keys| && MovedUpTo(b, b', rows, first, now, keys, sizes, n) && Passes(b', now, keys[n], b'') && Preserves(rows, rows')
    ensures StoppedAt(b, b'', rows', first, now, keys, sizes, n)
    ensures Proper(b, now, keys) ==> keys[n] in b' && HalfMoved(b, now, keys, b'')
    ensures b'' == TrashOne(b', now, keys[n]) && rows' == rows[first + n := Item(keys[n], TrashKey(now, keys[n]), sizes(keys[n]))] ==>
      MovedUpTo(b, b'', rows', first, now, keys, sizes, n + 1)
  {
    OneMoreKey(b, now, keys, n, b', b'');
    OneMoreRow(rows, first, now, keys, sizes, n);
    TrashAllNext(b, now, keys, n);
  }

  lemma OneMoreRow(rows: map<nat, Item>, first: nat, now: nat, keys: seq<string>, sizes: string -> nat, n: nat)
    requires n < |keys| && RowsWritten(rows, first, now, keys, sizes, n)
    ensures RowsWritten(rows[first + n := Item(keys[n], TrashKey(now, keys[n]), sizes(keys[n]))], first, now, keys, sizes, n + 1)
  {
  }

  lemma TrashAllNext(b: Bucket, now: nat, keys: seq<string>, n: nat)
    requires n < |keys|
    ensures TrashAll(b, now, keys[..n + 1]) == TrashOne(TrashAll(b, now, keys[..n]), now, keys[n])
  {
    assert keys[..n + 1][..n] == keys[..n];
  }

  /** A row as trashing writes it. */
  ghost predicate Written(item: Item) {
    exists ts :: item.trashKey == TrashKey(ts, item.originalKey)
  }

  /** How many requests take effect when the one after `stop` successful ones fails. */
  function Landed(stop: nat, landed: bool): nat {
    if landed then stop + 1 else stop
  }

  class TrashService {
    var bucket: Bucket
    var rows: map<nat, Item>
    var nextRow: nat

    ghost predicate Valid()
      reads this
    {
      forall id :: id in rows ==> id < nextRow && Written(rows[id])
    }

    constructor (bucket: Bucket)
      ensures Valid() && this.bucket == bucket && rows == map[] && nextRow == 0
    {
      this.bucket, rows, nextRow := bucket, map[], 0;
    }

    /** Moves one object to the trash: the request after `stop` successful ones fails, and may have
        taken effect (`landed`). */
    method TrashObject(key: string, now: nat, size: nat, stop: nat, landed: bool) returns (ok: bool)
      requires Valid()
      modifies this
      ensures Valid()
      ensures ok <==> key in old(bucket) && stop >= 3
      ensures Passes(old(bucket), now, key, bucket)
      ensures key !in old(bucket) || Landed(stop, landed) == 0 ==> bucket == old(bucket)
      ensures key in old(bucket) && Landed(stop, landed) == 1 ==> bucket == old(bucket)[TrashKey(now, key) := old(bucket)[key]]
      ensures key in old(bucket) && Landed(stop, landed) >= 2 ==> bucket == TrashOne(old(bucket), now, key)
      ensures !(key in old(bucket) && Landed(stop, landed) >= 3) ==> rows == old(rows) && nextRow == old(nextRow)
      ensures ok ==> bucket == TrashOne(old(bucket), now, key) && nextRow == old(nextRow) + 1
      ensures ok ==> rows == old(rows)[old(nextRow) := Item(key, TrashKey(now, key), size)]
      ensures Preserves(old(rows), rows)
    {
      if key !in bucket || (stop == 0 && !landed) {
        return false;
      }
      bucket := bucket[TrashKey(now, key) := bucket[key]];
      if stop == 0 || (stop == 1 && !landed) {
        return false;
      }
      bucket := bucket - {key};
      if stop <= 1 || (stop == 2 && !landed) {
        return false;
      }
      var item := Item(key, TrashKey(now, key), size);
      assert Written(item);
      rows := rows[nextRow := item];
      nextRow := nextRow + 1;
      return stop > 2;
    }

    /** Moves objects to the trash, stopping at the first failure. `sizes` answers the metadata
        requests (0 when one fails). */
    method TrashObjects(keys: seq<string>, now: nat, sizes: string -> nat, stop: nat, landed: bool) returns (ok: bool)
      requires Valid()
      modifies this
      ensures Valid()
      ensures ok ==> bucket == TrashAll(old(bucket), now, keys) && nextRow == old(nextRow) + |keys|
      ensures ok ==> RowsWritten(rows, old(nextRow), now, keys, sizes, |keys|)
      ensures !ok ==> exists n :: 0 <= n < |keys| && StoppedAt(old(bucket), bucket, rows, old(nextRow), now, keys, sizes, n)
      ensures Proper(old(bucket), now, keys) ==> HalfMoved(old(bucket), now, keys, bucket)
      ensures Proper(old(bucket), now, keys) && stop >= 3 * |keys| ==> ok
      ensures Preserves(old(rows), rows)
    {
      var left: nat, n := stop, 0;
      StartsInProgress(bucket, now, keys);
      while n < |keys|
        invariant n <= |keys| && Valid() && nextRow == old(nextRow) + n
        invariant MovedUpTo(old(bucket), bucket, rows, old(nextRow), now, keys, sizes, n)
        invariant stop >= 3 * |keys| ==> left >= 3 * (|keys| - n)
        invariant Preserves(old(rows), rows)
      {
        ghost var before, had := bucket, rows;
        ok := TrashObject(keys[n], now, sizes(keys[n]), left, landed);
        MoveGoesOn(old(bucket), before, bucket, had, rows, old(nextRow), now, keys, sizes, n);
        if !ok {
          return;
        }
        left := left - 3;
        n := n + 1;
      }
      assert keys[..n] == keys;
      ok := true;
    }

    /** Moves a trashed object back. */
    method RestoreObject(id: nat, stop: nat, landed: bool) returns (ok: bool)
      requires Valid()
      modifies this
      ensures Valid()
      ensures ok <==> id in old(rows) && old(rows)[id].trashKey in old(bucket) && stop >= 3
      ensures ok ==> bucket == RestoreOne(old(bucket), old(rows)[id]) && rows == old(rows) - {id}
      ensures id in old(rows) && old(rows)[id].trashKey in old(bucket) ==>
        var item, content := old(rows)[id], old(bucket)[old(rows)[id].trashKey];
        || (item.trashKey in bucket && bucket[item.trashKey] == content)
        || (item.originalKey in bucket && bucket[item.originalKey] == content)
      ensures forall k :: k in old(bucket) && (id in old(rows) ==> k != old(rows)[id].trashKey && k != old(rows)[id].originalKey) ==>
        k in bucket && bucket[k] == old(bucket)[k]
      ensures id in old(rows) && old(rows)[id].trashKey in old(bucket) ==>
        && (Landed(stop, landed) == 0 ==> bucket == old(bucket))
        && (Landed(stop, landed) == 1 ==> bucket == old(bucket)[old(rows)[id].originalKey := old(bucket)[old(rows)[id].trashKey]])
        && (Landed(stop, landed) >= 2 ==> bucket == RestoreOne(old(bucket), old(rows)[id]))
      ensures nextRow == old(nextRow)
      ensures rows == if id in old(rows) && old(rows)[id].trashKey in old(bucket) && Landed(stop, landed) >= 3 then old(rows) - {id} else old(rows)
    {
      if id !in rows {
        return false;
      }
      var item := rows[id];
      assert |item.trashKey| > |item.originalKey|;
      if item.trashKey !in bucket || (stop == 0 && !landed) {
        return false;
      }
      bucket := bucket[item.originalKey := bucket[item.trashKey]];
      if stop == 0 || (stop == 1 && !landed) {
        return false;
      }
      bucket := bucket - {item.trashKey};
      if stop == 1 || (stop == 2 && !landed) {
        return false;
      }
      rows := rows - {id};
      return stop > 2;
    }
  }
}
