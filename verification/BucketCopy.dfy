/** Resumable bucket-to-bucket copy: the replication and migration workers, crashes and restarts
    anywhere, and any number of workers on the same job. */
module BucketCopy {

  /** A source object; its size is the length of its data. */
  datatype Obj = Obj(key: string, data: string, isPrefix: bool)

  /** Replication skips objects the destination already holds at the same size; migration does not. */
  datatype Mode = Replication | Migration

  datatype Status = Pending | Running | Completed | Failed | Canceled

  /** A continuation token: empty, or pointing behind the first n source objects. */
  datatype Cursor = Empty | At(n: nat)

  datatype Job = Job(status: Status, cursor: Cursor, copied: nat, skipped: nat, bytes: nat)

  /** Where a worker is: at the cancellation check, listing, copying the object `next` of a page that
      ends before `end`, or about to mark the job completed. */
  datatype Phase = Checking | Listing | Copying(next: nat, end: nat) | Finishing

  datatype Worker = Worker(cursor: Cursor, copied: nat, skipped: nat, bytes: nat, phase: Phase)

  /** The job row, the destination bucket and the running workers. `lastSaves` counts the progress
      saves of a last page. */
  datatype World = World(job: Job, dst: map<string, string>, workers: map<nat, Worker>, lastSaves: nat)

  const PAGE := 1000

  function Pos(c: Cursor): nat {
    if c.At? then c.n else 0
  }

  predicate DistinctKeys(src: seq<Obj>) {
    forall i, j :: 0 <= i < j < |src| ==> src[i].key != src[j].key
  }

  /** What a listing from position p may return: a page that advances unless nothing is left. */
  predicate ValidPage(src: seq<Obj>, p: nat, end: nat) {
    p <= end <= |src| && end - p <= PAGE && (p < |src| ==> p < end)
  }

  /** The token of a page: non-empty exactly when the listing is truncated. */
  function NextToken(src: seq<Obj>, end: nat): Cursor {
    if end < |src| then At(end) else Empty
  }

  predicate Skippable(mode: Mode, dst: map<string, string>, o: Obj) {
    mode == Replication && o.key in dst && |dst[o.key]| == |o.data|
  }

  datatype Step =
    | Launch(w: nat)
    | Check(w: nat, readOk: bool)
    | List(w: nat, end: nat)
    | Handle(w: nat, headOk: bool)
    | CopyError(w: nat, landed: bool)
    | GiveUp(w: nat)
    | Save(w: nat, written: bool)
    | Finish(w: nat, written: bool)
    | Crash(w: nat)
    | Cancel

  function Stop(s: World, w: nat): World {
    s.(workers := s.workers - {w})
  }

  function Fail(s: World, w: nat): World {
    Stop(s, w).(job := s.job.(status := Failed))
  }

  function Move(s: World, w: nat, worker: Worker): World {
    s.(workers := s.workers[w := worker])
  }

  function HandleObject(mode: Mode, src: seq<Obj>, s: World, w: nat, headOk: bool): World
    requires w in s.workers && s.workers[w].phase.Copying? && s.workers[w].phase.next < |src|
  {
    var k := s.workers[w];
    var o := src[k.phase.next];
    var moved := k.(phase := Copying(k.phase.next + 1, k.phase.end));
    if o.isPrefix then Move(s, w, moved)
    else if headOk && Skippable(mode, s.dst, o) then Move(s, w, moved.(skipped := k.skipped + 1))
    else Move(s, w, moved.(copied := k.copied + 1, bytes := k.bytes + |o.data|)).(dst := s.dst[o.key := o.data])
  }

  function SaveProgress(src: seq<Obj>, s: World, w: nat, written: bool): World
    requires w in s.workers && s.workers[w].phase.Copying?
  {
    var k := s.workers[w];
    var last := !(k.phase.end < |src|);
    var cursor := NextToken(src, k.phase.end);
    var s' := Move(s, w, k.(cursor := cursor, phase := if last then Finishing else Checking));
    if written
    then s'.(job := Job(Running, cursor, k.copied, k.skipped, k.bytes), lastSaves := s.lastSaves + if last then 1 else 0)
    else s'
  }

  /** One action of a worker; an action that is not the worker's next one does nothing. */
  function Next(mode: Mode, src: seq<Obj>, s: World, a: Step): World {
    if a.Cancel? then s.(job := s.job.(status := Canceled))
    else if a.Launch? then
      if a.w in s.workers || s.job.status == Completed || s.job.status == Canceled then s
      else Move(s, a.w, Worker(s.job.cursor, s.job.copied, s.job.skipped, s.job.bytes, Checking))
    else if a.w !in s.workers then s
    else
      var k := s.workers[a.w];
      match a
      case Check(w, readOk) =>
        if !k.phase.Checking? then s
        else if readOk && s.job.status == Canceled then Stop(s, w)
        else Move(s, w, k.(phase := Listing))
      case List(w, end) =>
        if k.phase.Listing? && ValidPage(src, Pos(k.cursor), end)
        then Move(s, w, k.(phase := Copying(Pos(k.cursor), end)))
        else s
      case Handle(w, headOk) =>
        if k.phase.Copying? && k.phase.next < k.phase.end && k.phase.next < |src|
        then HandleObject(mode, src, s, w, headOk)
        else s
      case CopyError(w, landed) =>
        if k.phase.Copying? && k.phase.next < k.phase.end && k.phase.next < |src| then
          var o := src[k.phase.next];
          if landed && !o.isPrefix then Fail(s, w).(dst := s.dst[o.key := o.data]) else Fail(s, w)
        else s
      case GiveUp(w) => if k.phase.Checking? || k.phase.Listing? then Fail(s, w) else s
      case Save(w, written) =>
        if k.phase.Copying? && k.phase.next == k.phase.end then SaveProgress(src, s, w, written) else s
      case Finish(w, written) =>
        if !k.phase.Finishing? then s
        else if written then Stop(s, w).(job := s.job.(status := Completed))
        else Stop(s, w)
      case Crash(w) => Stop(s, w)
      case _ => s
  }

  function Run(mode: Mode, src: seq<Obj>, s: World, steps: seq<Step>): World
    decreases |steps|
  {
    if steps == [] then s else Run(mode, src, Next(mode, src, s, steps[0]), steps[1..])
  }

  predicate Init(s: World) {
    s.job == Job(Pending, Empty, 0, 0, 0) && s.workers == map[] && s.lastSaves == 0
  }

  // ---- What has been copied ----

  /** Object i is in the destination at its size: with the source's data or, in a replication only,
      with data the destination held from the start. */
  ghost predicate LandedAt(mode: Mode, src: seq<Obj>, dst0: map<string, string>, dst: map<string, string>, i: nat)
    requires i < |src|
  {
    var o := src[i];
    o.isPrefix || (
      && o.key in dst && |dst[o.key]| == |o.data|
      && (dst[o.key] == o.data || (mode == Replication && o.key in dst0 && dst0[o.key] == dst[o.key])))
  }

  ghost predicate Landed(mode: Mode, src: seq<Obj>, dst0: map<string, string>, dst: map<string, string>, n: nat) {
    n <= |src| && forall i :: 0 <= i < n ==> LandedAt(mode, src, dst0, dst, i)
  }

  /** Only source keys are written, and only with source data. */
  ghost predicate OnlySourceWrites(src: seq<Obj>, dst0: map<string, string>, dst: map<string, string>) {
    && (forall k :: k in dst0 ==> k in dst)
    && (forall k :: k in dst ==>
          || (k in dst0 && dst[k] == dst0[k])
          || exists i :: 0 <= i < |src| && !src[i].isPrefix && src[i].key == k && src[i].data == dst[k])
  }

  /** The number of source objects a worker knows to be in the destination. */
  function Behind(src: seq<Obj>, k: Worker): nat {
    match k.phase
    case Checking => Pos(k.cursor)
    case Listing => Pos(k.cursor)
    case Copying(next, _) => next
    case Finishing => |src|
  }

  ghost predicate WorkerOk(mode: Mode, src: seq<Obj>, dst0: map<string, string>, dst: map<string, string>, k: Worker) {
    && Landed(mode, src, dst0, dst, Behind(src, k))
    && (k.phase.Copying? ==> k.phase.next <= k.phase.end <= |src|)
  }

  ghost predicate Inv(mode: Mode, src: seq<Obj>, dst0: map<string, string>, s: World) {
    && OnlySourceWrites(src, dst0, s.dst)
    && Landed(mode, src, dst0, s.dst, Pos(s.job.cursor))
    && (s.job.status == Completed ==> Landed(mode, src, dst0, s.dst, |src|))
    && (forall w :: w in s.workers ==> WorkerOk(mode, src, dst0, s.dst, s.workers[w]))
  }

  lemma PutKeepsLanded(mode: Mode, src: seq<Obj>, dst0: map<string, string>, dst: map<string, string>, i: nat, n: nat)
    requires DistinctKeys(src) && i < |src| && !src[i].isPrefix && Landed(mode, src, dst0, dst, n)
    ensures Landed(mode, src, dst0, dst[src[i].key := src[i].data], n)
    ensures LandedAt(mode, src, dst0, dst[src[i].key := src[i].data], i)
  {
    var dst' := dst[src[i].key := src[i].data];
    forall j | 0 <= j < n ensures LandedAt(mode, src, dst0, dst', j) {
      assert LandedAt(mode, src, dst0, dst, j);
      assert i < j ==> src[i].key != src[j].key;
      assert j < i ==> src[j].key != src[i].key;
    }
  }

  lemma PutKeepsInv(mode: Mode, src: seq<Obj>, dst0: map<string, string>, s: World, i: nat)
    requires DistinctKeys(src) && i < |src| && !src[i].isPrefix && Inv(mode, src, dst0, s)
    ensures Inv(mode, src, dst0, s.(dst := s.dst[src[i].key := src[i].data]))
  {
    var s' := s.(dst := s.dst[src[i].key := src[i].data]);
    PutKeepsLanded(mode, src, dst0, s.dst, i, Pos(s.job.cursor));
    if s.job.status == Completed {
      PutKeepsLanded(mode, src, dst0, s.dst, i, |src|);
    }
    forall w | w in s.workers ensures WorkerOk(mode, src, dst0, s'.dst, s.workers[w]) {
      PutKeepsLanded(mode, src, dst0, s.dst, i, Behind(src, s.workers[w]));
    }
  }

  lemma HandleKeepsInv(mode: Mode, src: seq<Obj>, dst0: map<string, string>, s: World, w: nat, headOk: bool)
    requires DistinctKeys(src) && Inv(mode, src, dst0, s) && w in s.workers
    requires s.workers[w].phase.Copying? && s.workers[w].phase.next < s.workers[w].phase.end
    ensures s.workers[w].phase.next < |src| && Inv(mode, src, dst0, HandleObject(mode, src, s, w, headOk))
  {
    var k := s.workers[w];
    var i := k.phase.next;
    assert WorkerOk(mode, src, dst0, s.dst, k);
    var s' := HandleObject(mode, src, s, w, headOk);
    if src[i].isPrefix || (headOk && Skippable(mode, s.dst, src[i])) {
      assert LandedAt(mode, src, dst0, s.dst, i) by {
        SkippedIsLanded(mode, src, dst0, s.dst, i);
      }
      assert Landed(mode, src, dst0, s'.dst, i + 1);
    } else {
      PutKeepsInv(mode, src, dst0, s, i);
      PutKeepsLanded(mode, src, dst0, s.dst, i, i);
      assert Landed(mode, src, dst0, s'.dst, i + 1);
    }
  }

  /** A skipped object is the source's or the destination's own: nothing else is ever stored. */
  lemma SkippedIsLanded(mode: Mode, src: seq<Obj>, dst0: map<string, string>, dst: map<string, string>, i: nat)
    requires DistinctKeys(src) && i < |src| && OnlySourceWrites(src, dst0, dst)
    requires src[i].isPrefix || Skippable(mode, dst, src[i])
    ensures LandedAt(mode, src, dst0, dst, i)
  {
    var o := src[i];
    if !o.isPrefix && !(o.key in dst0 && dst[o.key] == dst0[o.key]) {
      var j :| 0 <= j < |src| && !src[j].isPrefix && src[j].key == o.key && src[j].data == dst[o.key];
      assert j == i;
    }
  }

  lemma SaveKeepsInv(mode: Mode, src: seq<Obj>, dst0: map<string, string>, s: World, w: nat, written: bool)
    requires Inv(mode, src, dst0, s) && w in s.workers
    requires s.workers[w].phase.Copying? && s.workers[w].phase.next == s.workers[w].phase.end
    ensures Inv(mode, src, dst0, SaveProgress(src, s, w, written))
  {
    var k, s' := s.workers[w], SaveProgress(src, s, w, written);
    assert WorkerOk(mode, src, dst0, s.dst, k);
    assert WorkerOk(mode, src, dst0, s.dst, s'.workers[w]);
  }

  /** The other actions that leave the destination alone. */
  lemma OtherStepKeepsInv(mode: Mode, src: seq<Obj>, dst0: map<string, string>, s: World, a: Step)
    requires Inv(mode, src, dst0, s) && !a.Handle? && !a.CopyError? && !a.Save?
    ensures Inv(mode, src, dst0, Next(mode, src, s, a))
  {
    var s' := Next(mode, src, s, a);
    if !a.Cancel? && a.w in s.workers {
      assert WorkerOk(mode, src, dst0, s.dst, s.workers[a.w]);
    }
    if !a.Cancel? && a.w in s'.workers {
      assert WorkerOk(mode, src, dst0, s.dst, s'.workers[a.w]);
    }
  }

  lemma CopyErrorKeepsInv(mode: Mode, src: seq<Obj>, dst0: map<string, string>, s: World, w: nat, landed: bool)
    requires DistinctKeys(src) && Inv(mode, src, dst0, s)
    ensures Inv(mode, src, dst0, Next(mode, src, s, CopyError(w, landed)))
  {
    if w in s.workers {
      var k := s.workers[w];
      assert WorkerOk(mode, src, dst0, s.dst, k);
      assert Inv(mode, src, dst0, Fail(s, w));
      if k.phase.Copying? && k.phase.next < k.phase.end && landed && !src[k.phase.next].isPrefix {
        PutKeepsInv(mode, src, dst0, Fail(s, w), k.phase.next);
      }
    }
  }

  lemma StepKeepsInv(mode: Mode, src: seq<Obj>, dst0: map<string, string>, s: World, a: Step)
    requires DistinctKeys(src) && Inv(mode, src, dst0, s)
    ensures Inv(mode, src, dst0, Next(mode, src, s, a))
  {
    if a.Handle? {
      if a.w in s.workers && s.workers[a.w].phase.Copying? && s.workers[a.w].phase.next < s.workers[a.w].phase.end {
        HandleKeepsInv(mode, src, dst0, s, a.w, a.headOk);
      }
    } else if a.CopyError? {
      CopyErrorKeepsInv(mode, src, dst0, s, a.w, a.landed);
    } else if a.Save? {
      if a.w in s.workers && s.workers[a.w].phase.Copying? && s.workers[a.w].phase.next == s.workers[a.w].phase.end {
        SaveKeepsInv(mode, src, dst0, s, a.w, a.written);
      }
    } else {
      OtherStepKeepsInv(mode, src, dst0, s, a);
    }
  }

  lemma {:induction false} RunKeepsInv(mode: Mode, src: seq<Obj>, dst0: map<string, string>, s: World, steps: seq<Step>)
    requires DistinctKeys(src) && Inv(mode, src, dst0, s)
    ensures Inv(mode, src, dst0, Run(mode, src, s, steps))
    decreases |steps|
  {
    if steps != [] {
      StepKeepsInv(mode, src, dst0, s, steps[0]);
      RunKeepsInv(mode, src, dst0, Next(mode, src, s, steps[0]), steps[1..]);
    }
  }

  /** Whatever crashes, restarts, failures, cancellations and concurrent workers occur: everything
      before the saved cursor is in the destination, a completed job has copied every source object
      (a migration byte for byte), and nothing else in the destination was touched. */
  lemma CompletedJobHasCopiedEverything(mode: Mode, src: seq<Obj>, s: World, steps: seq<Step>)
    requires DistinctKeys(src) && Init(s)
    ensures var s' := Run(mode, src, s, steps);
      && Landed(mode, src, s.dst, s'.dst, Pos(s'.job.cursor))
      && (s'.job.status == Completed ==> Landed(mode, src, s.dst, s'.dst, |src|))
      && OnlySourceWrites(src, s.dst, s'.dst)
  {
    RunKeepsInv(mode, src, s.dst, s, steps);
  }

  // ---- Cancellation ----

  lemma {:induction false} CanceledStays(mode: Mode, src: seq<Obj>, s: World, steps: seq<Step>)
    requires s.job.status == Canceled && s.workers == map[]
    ensures Run(mode, src, s, steps).job.status == Canceled
    decreases |steps|
  {
    if steps != [] {
      CanceledStays(mode, src, Next(mode, src, s, steps[0]), steps[1..]);
    }
  }

  /** A status write that a running worker may make next, overwriting a cancellation. */
  function Overwriting(w: nat, k: Worker): Step {
    match k.phase
    case Checking => GiveUp(w)
    case Listing => GiveUp(w)
    case Copying(next, end) => if next < end then CopyError(w, false) else Save(w, true)
    case Finishing => Finish(w, true)
  }

  predicate EndsCanceled(mode: Mode, src: seq<Obj>, s: World, steps: seq<Step>) {
    Run(mode, src, s, steps).job.status == Canceled
  }

  /** Cancellation is not sticky: a cancelled job is sure to stay cancelled exactly when no worker is
      running it, because every worker's status writes are unconditional. */
  lemma CancelIsFinalExactlyWithoutWorkers(mode: Mode, src: seq<Obj>, dst0: map<string, string>, s: World)
    requires Inv(mode, src, dst0, s) && s.job.status == Canceled
    ensures (forall steps :: EndsCanceled(mode, src, s, steps)) <==> s.workers == map[]
  {
    if s.workers == map[] {
      forall steps ensures EndsCanceled(mode, src, s, steps) {
        CanceledStays(mode, src, s, steps);
      }
    } else {
      var w :| w in s.workers;
      assert WorkerOk(mode, src, dst0, s.dst, s.workers[w]);
      var a := Overwriting(w, s.workers[w]);
      assert Next(mode, src, s, a).job.status != Canceled;
      assert Run(mode, src, s, [a]) == Next(mode, src, s, a);
      assert !EndsCanceled(mode, src, s, [a]);
    }
  }

  // ---- Jobs can be completed ----

  /** At the check a worker stops exactly when it reads that the job is cancelled; else it lists. */
  lemma CheckMeaning(mode: Mode, src: seq<Obj>, s: World, w: nat, readOk: bool)
    requires w in s.workers && s.workers[w].phase.Checking?
    ensures var s' := Next(mode, src, s, Check(w, readOk));
      && (w !in s'.workers <==> readOk && s.job.status == Canceled)
      && (w in s'.workers ==> s'.workers[w] == s.workers[w].(phase := Listing))
      && s'.job == s.job && s'.dst == s.dst
  {
  }

  lemma {:induction false} RunAppends(mode: Mode, src: seq<Obj>, s: World, a: seq<Step>, b: seq<Step>)
    ensures Run(mode, src, s, a + b) == Run(mode, src, Run(mode, src, s, a), b)
    decreases |a|
  {
    if a == [] {
      assert a + b == b;
    } else {
      assert (a + b)[1..] == a[1..] + b;
      RunAppends(mode, src, Next(mode, src, s, a[0]), a[1..], b);
    }
  }

  lemma RunOne(mode: Mode, src: seq<Obj>, s: World, a: Step)
    ensures Run(mode, src, s, [a]) == Next(mode, src, s, a)
  {
    assert [a][1..] == [];
  }

  /** A worker gets through its page. */
  lemma {:induction false} PageCanBeCopied(mode: Mode, src: seq<Obj>, s: World, w: nat) returns (steps: seq<Step>)
    requires w in s.workers && s.workers[w].phase.Copying? && s.workers[w].phase.next <= s.workers[w].phase.end <= |src|
    ensures var s' := Run(mode, src, s, steps);
            var k := s.workers[w];
      w in s'.workers && s'.job == s.job && s'.workers[w].phase == Copying(k.phase.end, k.phase.end) && s'.workers[w].cursor == k.cursor
    decreases s.workers[w].phase.end - s.workers[w].phase.next
  {
    if s.workers[w].phase.next == s.workers[w].phase.end {
      return [];
    }
    var a := Handle(w, true);
    var s1 := Next(mode, src, s, a);
    assert s1 == HandleObject(mode, src, s, w, true);
    var rest := PageCanBeCopied(mode, src, s1, w);
    RunOne(mode, src, s, a);
    RunAppends(mode, src, s, [a], rest);
    return [a] + rest;
  }

  lemma ListAndCheck(mode: Mode, src: seq<Obj>, s: World, w: nat, end: nat)
    requires w in s.workers && s.workers[w].phase.Checking? && s.job.status != Canceled && ValidPage(src, Pos(s.workers[w].cursor), end)
    ensures var s' := Run(mode, src, s, [Check(w, true)] + [List(w, end)]);
      s' == Move(s, w, s.workers[w].(phase := Copying(Pos(s.workers[w].cursor), end)))
  {
    var s1 := Next(mode, src, s, Check(w, true));
    assert s1 == Move(s, w, s.workers[w].(phase := Listing));
    RunOne(mode, src, s, Check(w, true));
    RunOne(mode, src, s1, List(w, end));
    RunAppends(mode, src, s, [Check(w, true)], [List(w, end)]);
    assert Next(mode, src, s1, List(w, end)).workers == s.workers[w := s.workers[w].(phase := Copying(Pos(s.workers[w].cursor), end))];
  }

  /** From the check a worker that nobody disturbs completes the job, whatever pages are left. */
  lemma {:induction false} WorkerCanComplete(mode: Mode, src: seq<Obj>, s: World, w: nat) returns (steps: seq<Step>)
    requires w in s.workers && s.workers[w].phase.Checking? && s.job.status != Canceled && Pos(s.workers[w].cursor) <= |src|
    ensures Run(mode, src, s, steps).job.status == Completed
    decreases |src| - Pos(s.workers[w].cursor)
  {
    var p := Pos(s.workers[w].cursor);
    var end := if p + PAGE < |src| then p + PAGE else |src|;
    var first := [Check(w, true)] + [List(w, end)];
    ListAndCheck(mode, src, s, w, end);
    var s2 := Run(mode, src, s, first);
    var page := PageCanBeCopied(mode, src, s2, w);
    var s3 := Run(mode, src, s2, page);
    var s4 := Next(mode, src, s3, Save(w, true));
    assert s4 == SaveProgress(src, s3, w, true);
    RunAppends(mode, src, s, first, page);
    RunOne(mode, src, s3, Save(w, true));
    RunAppends(mode, src, s, first + page, [Save(w, true)]);
    var last: seq<Step>;
    if end < |src| {
      last := WorkerCanComplete(mode, src, s4, w);
    } else {
      last := [Finish(w, true)];
      RunOne(mode, src, s4, Finish(w, true));
    }
    RunAppends(mode, src, s, first + page + [Save(w, true)], last);
    return first + page + [Save(w, true)] + last;
  }

  /** Every unfinished job can be completed, wherever crashes, failures and other workers left it. */
  lemma EveryJobCanComplete(mode: Mode, src: seq<Obj>, dst0: map<string, string>, s: World, w: nat) returns (steps: seq<Step>)
    requires Inv(mode, src, dst0, s) && w !in s.workers && s.job.status != Completed && s.job.status != Canceled
    ensures Run(mode, src, s, steps).job.status == Completed
  {
    var s1 := Next(mode, src, s, Launch(w));
    assert s1.workers[w] == Worker(s.job.cursor, s.job.copied, s.job.skipped, s.job.bytes, Checking) && s1.job == s.job;
    var rest := WorkerCanComplete(mode, src, s1, w);
    RunOne(mode, src, s, Launch(w));
    RunAppends(mode, src, s, [Launch(w)], rest);
    return [Launch(w)] + rest;
  }

  // ---- Counting ----

  /** The objects among the first n, and their bytes. */
  function Objects(src: seq<Obj>, n: nat): nat
    requires n <= |src|
  {
    if n == 0 then 0 else Objects(src, n - 1) + if src[n - 1].isPrefix then 0 else 1
  }

  function Bytes(src: seq<Obj>, n: nat): nat
    requires n <= |src|
  {
    if n == 0 then 0 else Bytes(src, n - 1) + if src[n - 1].isPrefix then 0 else |src[n - 1].data|
  }

  /** One worker at a time (number 0), and a progress save that fails only by crashing with the worker. */
  predicate OneWorker(steps: seq<Step>) {
    forall i :: 0 <= i < |steps| ==>
      (!steps[i].Cancel? ==> steps[i].w == 0) && (steps[i].Save? ==> steps[i].written)
  }

  /** Counters that account for n objects of the current round and for every finished round. */
  ghost predicate Accounts(mode: Mode, src: seq<Obj>, copied: nat, skipped: nat, bytes: nat, n: nat, rounds: nat) {
    && n <= |src|
    && copied + skipped == Objects(src, n) + rounds * Objects(src, |src|)
    && (mode == Migration ==> skipped == 0 && bytes == Bytes(src, n) + rounds * Bytes(src, |src|))
  }

  ghost predicate Counted(mode: Mode, src: seq<Obj>, s: World) {
    && Accounts(mode, src, s.job.copied, s.job.skipped, s.job.bytes, Pos(s.job.cursor), s.lastSaves)
    && (s.job.status == Completed ==> s.job.cursor == Empty)
    && (forall w :: w in s.workers ==> w == 0)
    && (0 in s.workers ==>
          var k := s.workers[0];
          && (k.phase.Finishing? ==> s.job.cursor == Empty)
          && (k.phase.Copying? ==> k.phase.next <= k.phase.end <= |src|)
          && Accounts(mode, src, k.copied, k.skipped, k.bytes, if k.phase.Finishing? then 0 else Behind(src, k), s.lastSaves)
          && s.job.status != Completed)
  }

  /** Finishing a round: all objects of the current one become one more whole round. */
  lemma RoundCloses(mode: Mode, src: seq<Obj>, copied: nat, skipped: nat, bytes: nat, rounds: nat)
    requires Accounts(mode, src, copied, skipped, bytes, |src|, rounds)
    ensures Accounts(mode, src, copied, skipped, bytes, 0, rounds + 1)
  {
    var n, m := Objects(src, |src|), Bytes(src, |src|);
    assert (rounds + 1) * n == rounds * n + n;
    assert (rounds + 1) * m == rounds * m + m;
  }

  lemma SaveKeepsCount(mode: Mode, src: seq<Obj>, s: World)
    requires Counted(mode, src, s) && 0 in s.workers
    requires s.workers[0].phase.Copying? && s.workers[0].phase.next == s.workers[0].phase.end
    ensures Counted(mode, src, SaveProgress(src, s, 0, true))
  {
    var k := s.workers[0];
    if k.phase.end == |src| {
      RoundCloses(mode, src, k.copied, k.skipped, k.bytes, s.lastSaves);
    }
  }

  lemma HandleKeepsCount(mode: Mode, src: seq<Obj>, s: World, headOk: bool)
    requires Counted(mode, src, s) && 0 in s.workers
    requires s.workers[0].phase.Copying? && s.workers[0].phase.next < s.workers[0].phase.end
    ensures Counted(mode, src, HandleObject(mode, src, s, 0, headOk))
  {
  }

  lemma StepKeepsCount(mode: Mode, src: seq<Obj>, s: World, a: Step)
    requires Counted(mode, src, s) && (!a.Cancel? ==> a.w == 0) && (a.Save? ==> a.written)
    ensures Counted(mode, src, Next(mode, src, s, a))
  {
    if a.Save? {
      if 0 in s.workers && s.workers[0].phase.Copying? && s.workers[0].phase.next == s.workers[0].phase.end {
        SaveKeepsCount(mode, src, s);
      }
    } else if a.Handle? {
      if 0 in s.workers && s.workers[0].phase.Copying? && s.workers[0].phase.next < s.workers[0].phase.end {
        HandleKeepsCount(mode, src, s, a.headOk);
      }
    }
  }

  lemma {:induction false} RunKeepsCount(mode: Mode, src: seq<Obj>, s: World, steps: seq<Step>)
    requires Counted(mode, src, s) && OneWorker(steps)
    ensures Counted(mode, src, Run(mode, src, s, steps))
    decreases |steps|
  {
    if steps != [] {
      StepKeepsCount(mode, src, s, steps[0]);
      RunKeepsCount(mode, src, Next(mode, src, s, steps[0]), steps[1..]);
    }
  }

  /** With one worker per job and no silently lost progress write, the saved counters count the
      objects before the saved cursor, plus the whole source once per last-page save; so a job that
      completed after a single last-page save counted every source object exactly once. */
  lemma CountersAreExact(mode: Mode, src: seq<Obj>, s: World, steps: seq<Step>)
    requires Init(s) && OneWorker(steps)
    ensures var s' := Run(mode, src, s, steps);
      && Pos(s'.job.cursor) <= |src|
      && s'.job.copied + s'.job.skipped == Objects(src, Pos(s'.job.cursor)) + s'.lastSaves * Objects(src, |src|)
      && (mode == Migration ==> s'.job.skipped == 0)
      && (mode == Migration ==> s'.job.bytes == Bytes(src, Pos(s'.job.cursor)) + s'.lastSaves * Bytes(src, |src|))
      && (s'.job.status == Completed && s'.lastSaves == 1 ==> s'.job.copied + s'.job.skipped == Objects(src, |src|))
  {
    assert Counted(mode, src, s);
    RunKeepsCount(mode, src, s, steps);
  }

  // ---- What is copied and what is skipped ----

  datatype Tally = Tally(copied: nat, skipped: nat, bytes: nat)

  /** A replication leaves an object alone: the head request succeeds and the destination holds the key
      at the same size. */
  predicate Leaves(mode: Mode, dst: map<string, string>, o: Obj, headOk: bool) {
    !o.isPrefix && mode == Replication && headOk && o.key in dst && |dst[o.key]| == |o.data|
  }

  predicate Writes(mode: Mode, dst: map<string, string>, o: Obj, headOk: bool) {
    !o.isPrefix && !Leaves(mode, dst, o, headOk)
  }

  /** One object more: written, with its size, or left, or not an object. */
  function Tallied(t: Tally, writes: bool, leaves: bool, size: nat): Tally {
    Tally(t.copied + (if writes then 1 else 0), t.skipped + (if leaves then 1 else 0), t.bytes + (if writes then size else 0))
  }

  /** Handling an object writes it or leaves it alone, and the worker counts just that. */
  lemma HandleMeaning(mode: Mode, src: seq<Obj>, s: World, w: nat, headOk: bool)
    requires w in s.workers && s.workers[w].phase.Copying? && s.workers[w].phase.next < |src|
    ensures var k, s' := s.workers[w], HandleObject(mode, src, s, w, headOk);
            var o := src[k.phase.next];
      && s'.dst == (if Writes(mode, s.dst, o, headOk) then s.dst[o.key := o.data] else s.dst)
      && w in s'.workers
      && Tally(s'.workers[w].copied, s'.workers[w].skipped, s'.workers[w].bytes) ==
         Tallied(Tally(k.copied, k.skipped, k.bytes), Writes(mode, s.dst, o, headOk), Leaves(mode, s.dst, o, headOk), |o.data|)
      && s'.workers[w].phase == Copying(k.phase.next + 1, k.phase.end) && s'.workers[w].cursor == k.cursor
      && s'.job == s.job && s'.lastSaves == s.lastSaves
      && forall v :: v != w ==> (v in s'.workers <==> v in s.workers) && (v in s.workers ==> s'.workers[v] == s.workers[v])
  {
  }

  /** An observer's count of a run with one worker: `saved` is the tally as of the last progress save,
      `live` that of the running worker, which starts from the saved one. */
  function Observed(mode: Mode, src: seq<Obj>, s: World, steps: seq<Step>, saved: Tally, live: Tally): (Tally, Tally)
    decreases |steps|
  {
    if steps == [] then (saved, live)
    else
      var a, s' := steps[0], Next(mode, src, s, steps[0]);
      if a.Launch? && 0 !in s.workers && 0 in s'.workers then Observed(mode, src, s', steps[1..], saved, saved)
      else if a.Save? && 0 in s.workers && s.workers[0].phase.Copying? && s.workers[0].phase.next == s.workers[0].phase.end then
        Observed(mode, src, s', steps[1..], live, live)
      else if a.Handle? && 0 in s.workers && s.workers[0].phase.Copying? && s.workers[0].phase.next < s.workers[0].phase.end
              && s.workers[0].phase.next < |src| then
        var o := src[s.workers[0].phase.next];
        Observed(mode, src, s', steps[1..], saved,
                 Tallied(live, Writes(mode, s.dst, o, a.headOk), Leaves(mode, s.dst, o, a.headOk), |o.data|))
      else Observed(mode, src, s', steps[1..], saved, live)
  }

  ghost predicate Matches(s: World, saved: Tally, live: Tally) {
    && Tally(s.job.copied, s.job.skipped, s.job.bytes) == saved
    && (0 in s.workers ==> Tally(s.workers[0].copied, s.workers[0].skipped, s.workers[0].bytes) == live)
  }

  /** In every run with one worker and no silently lost save, the saved and the running counters are what
      an observer counts: copied the objects written, skipped those left alone because the destination
      held them at the same size, bytes the sizes written; in both modes. */
  lemma {:induction false} CountersTellWhatHappened(mode: Mode, src: seq<Obj>, s: World, steps: seq<Step>, saved: Tally, live: Tally)
    requires Matches(s, saved, live) && OneWorker(steps)
    ensures var o := Observed(mode, src, s, steps, saved, live);
      Matches(Run(mode, src, s, steps), o.0, o.1)
    decreases |steps|
  {
    if steps != [] {
      var a, s' := steps[0], Next(mode, src, s, steps[0]);
      assert (!a.Cancel? ==> a.w == 0) && (a.Save? ==> a.written);
      if a.Launch? && 0 !in s.workers && 0 in s'.workers {
        CountersTellWhatHappened(mode, src, s', steps[1..], saved, saved);
      } else if a.Save? && 0 in s.workers && s.workers[0].phase.Copying? && s.workers[0].phase.next == s.workers[0].phase.end {
        CountersTellWhatHappened(mode, src, s', steps[1..], live, live);
      } else if a.Handle? && 0 in s.workers && s.workers[0].phase.Copying? && s.workers[0].phase.next < s.workers[0].phase.end
                && s.workers[0].phase.next < |src| {
        HandleMeaning(mode, src, s, 0, a.headOk);
        var o := src[s.workers[0].phase.next];
        var live' := Tallied(live, Writes(mode, s.dst, o, a.headOk), Leaves(mode, s.dst, o, a.headOk), |o.data|);
        CountersTellWhatHappened(mode, src, s', steps[1..], saved, live');
      } else {
        OtherStepsKeepCounters(mode, src, s, a);
        CountersTellWhatHappened(mode, src, s', steps[1..], saved, live);
      }
    }
  }

  lemma OtherStepsKeepCounters(mode: Mode, src: seq<Obj>, s: World, a: Step)
    requires !a.Handle? || !(a.w in s.workers && s.workers[a.w].phase.Copying? && s.workers[a.w].phase.next < s.workers[a.w].phase.end && s.workers[a.w].phase.next < |src|)
    requires !a.Save? || !(a.w in s.workers && s.workers[a.w].phase.Copying? && s.workers[a.w].phase.next == s.workers[a.w].phase.end)
    ensures var s' := Next(mode, src, s, a);
      && s'.job.copied == s.job.copied && s'.job.skipped == s.job.skipped && s'.job.bytes == s.job.bytes
      && forall w :: w in s'.workers && w in s.workers ==>
           s'.workers[w].copied == s.workers[w].copied && s'.workers[w].skipped == s.workers[w].skipped && s'.workers[w].bytes == s.workers[w].bytes
  {
  }

  /** The destination after the objects p to e, and what is counted for them, when `dst` is what the
      destination holds at first. */
  function After(mode: Mode, src: seq<Obj>, dst: map<string, string>, headOk: nat -> bool, p: nat, e: nat): map<string, string>
    requires p <= e <= |src|
    decreases e
  {
    if e == p then dst
    else
      var rest := After(mode, src, dst, headOk, p, e - 1);
      if Writes(mode, dst, src[e - 1], headOk(e - 1)) then rest[src[e - 1].key := src[e - 1].data] else rest
  }

  function TallyOf(mode: Mode, src: seq<Obj>, dst: map<string, string>, headOk: nat -> bool, p: nat, e: nat): Tally
    requires p <= e <= |src|
    decreases e
  {
    if e == p then Tally(0, 0, 0)
    else
      var o := src[e - 1];
      Tallied(TallyOf(mode, src, dst, headOk, p, e - 1), Writes(mode, dst, o, headOk(e - 1)), Leaves(mode, dst, o, headOk(e - 1)), |o.data|)
  }

  /** Object by object: what is written is the source's data, everything else stays as it was. */
  lemma {:induction false} AfterMeaning(mode: Mode, src: seq<Obj>, dst: map<string, string>, headOk: nat -> bool, p: nat, e: nat, i: nat)
    requires DistinctKeys(src) && p <= e <= |src| && i < |src|
    ensures var d, o := After(mode, src, dst, headOk, p, e), src[i];
      if p <= i < e && Writes(mode, dst, o, headOk(i)) then o.key in d && d[o.key] == o.data
      else (o.key in d <==> o.key in dst) && (o.key in dst ==> d[o.key] == dst[o.key])
    decreases e
  {
    if e > p {
      AfterMeaning(mode, src, dst, headOk, p, e - 1, i);
      assert i < e - 1 ==> src[i].key != src[e - 1].key;
      assert e - 1 < i ==> src[e - 1].key != src[i].key;
    }
  }

  function Plus(a: Tally, b: Tally): Tally {
    Tally(a.copied + b.copied, a.skipped + b.skipped, a.bytes + b.bytes)
  }

  /** What was done before does not change how a later object is handled. */
  lemma LaterObjectsUnaffected(mode: Mode, src: seq<Obj>, dst: map<string, string>, headOk: nat -> bool, p: nat, m: nat, i: nat)
    requires DistinctKeys(src) && p <= m <= i < |src|
    ensures var mid := After(mode, src, dst, headOk, p, m);
      && Writes(mode, mid, src[i], headOk(i)) == Writes(mode, dst, src[i], headOk(i))
      && Leaves(mode, mid, src[i], headOk(i)) == Leaves(mode, dst, src[i], headOk(i))
  {
    AfterMeaning(mode, src, dst, headOk, p, m, i);
  }

  lemma {:induction false} TalliesJoin(mode: Mode, src: seq<Obj>, dst: map<string, string>, headOk: nat -> bool, p: nat, m: nat, e: nat)
    requires DistinctKeys(src) && p <= m <= e <= |src|
    ensures Plus(TallyOf(mode, src, dst, headOk, p, m), TallyOf(mode, src, After(mode, src, dst, headOk, p, m), headOk, m, e)) ==
            TallyOf(mode, src, dst, headOk, p, e)
    decreases e
  {
    if e > m {
      TalliesJoin(mode, src, dst, headOk, p, m, e - 1);
      LaterObjectsUnaffected(mode, src, dst, headOk, p, m, e - 1);
    }
  }

  /** Two pages are handled as one longer one. */
  lemma {:induction false} PagesJoin(mode: Mode, src: seq<Obj>, dst: map<string, string>, headOk: nat -> bool, p: nat, m: nat, e: nat)
    requires DistinctKeys(src) && p <= m <= e <= |src|
    ensures After(mode, src, After(mode, src, dst, headOk, p, m), headOk, m, e) == After(mode, src, dst, headOk, p, e)
    decreases e
  {
    if e > m {
      PagesJoin(mode, src, dst, headOk, p, m, e - 1);
      LaterObjectsUnaffected(mode, src, dst, headOk, p, m, e - 1);
    }
  }

  /** Every object is either copied or skipped; a migration copies them all. */
  lemma {:induction false} TallySums(mode: Mode, src: seq<Obj>, dst: map<string, string>, headOk: nat -> bool, p: nat, e: nat)
    requires p <= e <= |src|
    ensures var t := TallyOf(mode, src, dst, headOk, p, e);
      && t.copied + t.skipped == Objects(src, e) - Objects(src, p)
      && (mode == Migration ==> t.skipped == 0 && t.bytes == Bytes(src, e) - Bytes(src, p))
    decreases e
  {
    if e > p {
      TallySums(mode, src, dst, headOk, p, e - 1);
    }
  }

  /** The objects from `from` to e are done, on top of what was counted before. */
  ghost predicate JobDone(mode: Mode, src: seq<Obj>, before: map<string, string>, headOk: nat -> bool, from: nat, e: nat,
                          dst: map<string, string>, first: Tally, t: Tally) {
    && from <= e <= |src| && dst == After(mode, src, before, headOk, from, e)
    && t == Plus(first, TallyOf(mode, src, before, headOk, from, e))
  }

  lemma JobGoesOn(mode: Mode, src: seq<Obj>, before: map<string, string>, headOk: nat -> bool, from: nat, m: nat, e: nat,
                  mid: map<string, string>, dst: map<string, string>, first: Tally, t: Tally, page: Tally)
    requires DistinctKeys(src) && JobDone(mode, src, before, headOk, from, m, mid, first, t)
    requires PageDone(mode, src, mid, headOk, m, e, dst, page)
    ensures JobDone(mode, src, before, headOk, from, e, dst, first, Plus(t, page))
  {
    PagesJoin(mode, src, before, headOk, from, m, e);
    TalliesJoin(mode, src, before, headOk, from, m, e);
  }

  ghost predicate PageDone(mode: Mode, src: seq<Obj>, before: map<string, string>, headOk: nat -> bool, p: nat, e: nat,
                           dst: map<string, string>, t: Tally) {
    && p <= e <= |src|
    && dst == After(mode, src, before, headOk, p, e) && t == TallyOf(mode, src, before, headOk, p, e)
  }

  lemma PageGoesOn(mode: Mode, src: seq<Obj>, before: map<string, string>, headOk: nat -> bool, p: nat, e: nat,
                   dst: map<string, string>, t: Tally)
    requires DistinctKeys(src) && PageDone(mode, src, before, headOk, p, e, dst, t) && e < |src|
    ensures var o := src[e];
      && Writes(mode, before, o, headOk(e)) == Writes(mode, dst, o, headOk(e))
      && PageDone(mode, src, before, headOk, p, e + 1, if Writes(mode, dst, o, headOk(e)) then dst[o.key := o.data] else dst,
                  Tallied(t, Writes(mode, dst, o, headOk(e)), Leaves(mode, dst, o, headOk(e)), |o.data|))
  {
    AfterMeaning(mode, src, before, headOk, p, e, e);
  }

  // ---- One worker's loop ----

  /** The first n objects have landed, and nothing but source objects was written. */
  ghost predicate Safe(mode: Mode, src: seq<Obj>, dst0: map<string, string>, dst: map<string, string>, n: nat) {
    OnlySourceWrites(src, dst0, dst) && Landed(mode, src, dst0, dst, n)
  }

  lemma HandledIsSafe(mode: Mode, src: seq<Obj>, dst0: map<string, string>, dst: map<string, string>, i: nat, headOk: bool)
    requires DistinctKeys(src) && i < |src| && Safe(mode, src, dst0, dst, i)
    ensures Safe(mode, src, dst0, if Writes(mode, dst, src[i], headOk) then dst[src[i].key := src[i].data] else dst, i + 1)
  {
    if Writes(mode, dst, src[i], headOk) {
      PutKeepsLanded(mode, src, dst0, dst, i, i);
    } else {
      SkippedIsLanded(mode, src, dst0, dst, i);
    }
  }

  function Counters(j: Job): Tally {
    Tally(j.copied, j.skipped, j.bytes)
  }

  class CopyWorker {
    var job: Job
    var dst: map<string, string>

    constructor (dst: map<string, string>)
      ensures job == Job(Pending, Empty, 0, 0, 0) && this.dst == dst
    {
      job := Job(Pending, Empty, 0, 0, 0);
      this.dst := dst;
    }

    /** Copies or skips the objects of one page. */
    method CopyPage(mode: Mode, src: seq<Obj>, p: nat, end: nat, headOk: nat -> bool, putOk: nat -> bool,
                    ghost dst0: map<string, string>) returns (ok: bool, copied: nat, skipped: nat, bytes: nat)
      requires DistinctKeys(src) && p <= end <= |src| && Safe(mode, src, dst0, dst, p)
      modifies `dst
      ensures Safe(mode, src, dst0, dst, if ok then end else p)
      ensures ok ==> PageDone(mode, src, old(dst), headOk, p, end, dst, Tally(copied, skipped, bytes))
      ensures !ok ==> exists n, t :: p <= n < end && !putOk(n) && PageDone(mode, src, old(dst), headOk, p, n, dst, t)
      ensures (forall i :: putOk(i)) ==> ok
    {
      copied, skipped, bytes := 0, 0, 0;
      var i := p;
      while i < end
        invariant p <= i <= end && Safe(mode, src, dst0, dst, i)
        invariant PageDone(mode, src, old(dst), headOk, p, i, dst, Tally(copied, skipped, bytes))
      {
        PageGoesOn(mode, src, old(dst), headOk, p, i, dst, Tally(copied, skipped, bytes));
        HandledIsSafe(mode, src, dst0, dst, i, headOk(i));
        var o := src[i];
        if !o.isPrefix {
          if mode == Replication && headOk(i) && o.key in dst && |dst[o.key]| == |o.data| {
            skipped := skipped + 1;
          } else {
            if !putOk(i) {
              return false, copied, skipped, bytes;
            }
            dst := dst[o.key := o.data];
            copied := copied + 1;
            bytes := bytes + |o.data|;
          }
        }
        i := i + 1;
      }
      ok := true;
    }

    /** One page, and the save of the progress behind it. */
    method CopyAndSave(mode: Mode, src: seq<Obj>, end: nat, headOk: nat -> bool, putOk: nat -> bool,
                       ghost dst0: map<string, string>) returns (ok: bool, ghost page: Tally)
      requires DistinctKeys(src) && ValidPage(src, Pos(job.cursor), end) && Safe(mode, src, dst0, dst, Pos(job.cursor))
      modifies this
      ensures !ok ==> job == old(job)
      ensures ok ==> job.status == Running && job.cursor == NextToken(src, end) && Counters(job) == Plus(old(Counters(job)), page)
      ensures ok ==> PageDone(mode, src, old(dst), headOk, Pos(old(job.cursor)), end, dst, page)
      ensures Safe(mode, src, dst0, dst, if ok then end else Pos(old(job.cursor)))
      ensures (forall i :: putOk(i)) ==> ok
    {
      var copied, skipped, bytes;
      ok, copied, skipped, bytes := CopyPage(mode, src, Pos(job.cursor), end, headOk, putOk, dst0);
      page := Tally(copied, skipped, bytes);
      if ok {
        job := Job(Running, NextToken(src, end), job.copied + copied, job.skipped + skipped, job.bytes + bytes);
      }
    }

    /** The page loop, from the saved cursor until a page is the last one. */
    method CopyPages(mode: Mode, src: seq<Obj>, pageEnd: nat -> nat, headOk: nat -> bool, putOk: nat -> bool,
                     ghost dst0: map<string, string>) returns (ok: bool)
      requires DistinctKeys(src) && forall p :: 0 <= p <= |src| ==> ValidPage(src, p, pageEnd(p))
      requires Safe(mode, src, dst0, dst, Pos(job.cursor))
      modifies this
      ensures Safe(mode, src, dst0, dst, if ok then |src| else Pos(job.cursor))
      ensures ok ==> job.cursor == Empty
      ensures ok ==> JobDone(mode, src, old(dst), headOk, Pos(old(job.cursor)), |src|, dst, old(Counters(job)), Counters(job))
      ensures (forall i :: putOk(i)) ==> ok
    {
      ghost var before, from, first := dst, Pos(job.cursor), Counters(job);
      while true
        invariant Safe(mode, src, dst0, dst, Pos(job.cursor))
        invariant JobDone(mode, src, before, headOk, from, Pos(job.cursor), dst, first, Counters(job))
        decreases |src| - Pos(job.cursor)
      {
        ghost var mid, p, t := dst, Pos(job.cursor), Counters(job);
        var end := pageEnd(Pos(job.cursor));
        var done, page := CopyAndSave(mode, src, end, headOk, putOk, dst0);
        if !done {
          return false;
        }
        JobGoesOn(mode, src, before, headOk, from, p, end, mid, dst, first, t, page);
        if !(end < |src|) || job.cursor == Empty {
          return true;
        }
      }
    }

    /** Runs the job from its saved cursor. `pageEnd` is the provider's paging, `headOk` and `putOk`
        say which requests succeed. `dst0` is the destination when the job was created. */
    method Work(mode: Mode, src: seq<Obj>, pageEnd: nat -> nat, headOk: nat -> bool, putOk: nat -> bool,
                ghost dst0: map<string, string>)
      requires DistinctKeys(src) && forall p :: 0 <= p <= |src| ==> ValidPage(src, p, pageEnd(p))
      requires Safe(mode, src, dst0, dst, Pos(job.cursor))
      modifies this
      ensures old(job.status) == Completed || old(job.status) == Canceled ==> job == old(job) && dst == old(dst)
      ensures Safe(mode, src, dst0, dst, Pos(job.cursor))
      ensures old(job.status) != Completed && job.status == Completed ==> Safe(mode, src, dst0, dst, |src|)
      ensures old(job.status) != Completed && old(job.status) != Canceled ==> job.status == Completed || job.status == Failed
      ensures (forall i :: putOk(i)) && old(job.status) != Completed && old(job.status) != Canceled ==>
        && job.status == Completed && job.cursor == Empty
        && JobDone(mode, src, old(dst), headOk, Pos(old(job.cursor)), |src|, dst, old(Counters(job)), Counters(job))
        && job.copied + job.skipped == old(job.copied + job.skipped) + Objects(src, |src|) - Objects(src, Pos(old(job.cursor)))
        && (mode == Migration ==> job.skipped == old(job.skipped) && job.bytes == old(job.bytes) + Bytes(src, |src|) - Bytes(src, Pos(old(job.cursor))))
    {
      if job.status == Completed || job.status == Canceled {
        return;
      }
      var ok := CopyPages(mode, src, pageEnd, headOk, putOk, dst0);
      job := job.(status := if ok then Completed else Failed);
      TallySums(mode, src, old(dst), headOk, Pos(old(job.cursor)), |src|);
    }
  }
}
