/** Deleting a bucket: a bounded loop deletes its objects page by page, then the backend bucket and
    the row go. */
module EmptyBucket {

  const ROUNDS := 1000
  const PAGE := 1000

  /** How the backend answers in a round: the size of the listed page; whether the two requests succeed;
      how many objects a failed deletion removed before it failed; and the keys that a successful
      batch deletion reports as not deleted, a report that the client discards. */
  datatype Round = Round(page: nat, listed: bool, deleted: bool, partly: nat, refused: string -> bool)

  /** The answers of a backend, by round and number of objects left. */
  type Backend = (nat, nat) -> Round

  /** A listing of a bucket with n objects: a page that is empty only for an empty bucket. */
  predicate ValidPage(page: nat, n: nat) {
    page <= PAGE && page <= n && (n > 0 ==> page > 0)
  }

  function Min(a: int, b: int): int {
    if a < b then a else b
  }

  /** The listed keys that stay. */
  function Refused(keys: seq<string>, refused: string -> bool): seq<string> {
    if keys == [] then []
    else Refused(keys[..|keys| - 1], refused) + if refused(keys[|keys| - 1]) then [keys[|keys| - 1]] else []
  }

  lemma {:induction false} RefusedKeys(keys: seq<string>, refused: string -> bool)
    ensures forall x :: x in Refused(keys, refused) <==> x in keys && refused(x)
    ensures (forall x :: x in keys ==> !refused(x)) ==> Refused(keys, refused) == []
  {
    if keys != [] {
      var front := keys[..|keys| - 1];
      RefusedKeys(front, refused);
      assert keys == front + [keys[|keys| - 1]];
    }
  }

  /** Every object of a is one of b. */
  predicate Within(a: seq<string>, b: seq<string>) {
    forall x :: x in a ==> x in b
  }

  /** What is left of a bucket after the deletion of its first page. */
  function AfterPage(objects: seq<string>, page: nat, refused: string -> bool): seq<string>
    requires page <= |objects|
  {
    Refused(objects[..page], refused) + objects[page..]
  }

  lemma PageDeleted(objects: seq<string>, page: nat, refused: string -> bool)
    requires page <= |objects|
    ensures Within(AfterPage(objects, page, refused), objects)
    ensures (forall x :: !refused(x)) ==> AfterPage(objects, page, refused) == objects[page..]
    ensures page == |objects| ==> AfterPage(objects, page, refused) == Refused(objects, refused)
  {
    RefusedKeys(objects[..page], refused);
    assert page == |objects| ==> objects[..page] == objects && objects[page..] == [];
  }

  lemma RefusesNothing(objects: seq<string>, refused: string -> bool)
    ensures Refused(objects, refused) == [] <==> RefusesNone(objects, refused)
  {
    RefusedKeys(objects, refused);
    if x :| x in objects && refused(x) {
      assert x in Refused(objects, refused);
    }
  }

  /** None of the objects is refused. */
  ghost predicate RefusesNone(objects: seq<string>, refused: string -> bool) {
    forall x :: x in objects ==> !refused(x)
  }

  /** The objects left when every page is full, every request succeeds and no key is refused. */
  function Left(n: nat): nat {
    if n <= ROUNDS * PAGE then 0 else n - ROUNDS * PAGE
  }

  function After(calls: nat, n: nat): nat {
    if calls == 0 then n else Left(After(calls - 1, n))
  }

  lemma {:induction false} CallsNeeded(calls: nat, n: nat)
    ensures After(calls, n) == if n <= calls * (ROUNDS * PAGE) then 0 else n - calls * (ROUNDS * PAGE)
  {
    if calls > 0 {
      CallsNeeded(calls - 1, n);
    }
  }

  ghost predicate ValidBackend(answers: Backend) {
    forall i: nat, n: nat :: ValidPage(answers(i, n).page, n)
  }

  /** Batch deletions delete every key. */
  ghost predicate Complete(answers: Backend) {
    forall i: nat, n: nat, x: string :: !answers(i, n).refused(x)
  }

  ghost predicate FullPages(answers: Backend) {
    forall i: nat, n: nat :: answers(i, n).page == Min(PAGE, n) && answers(i, n).listed && answers(i, n).deleted
  }

  ghost predicate SomeFailure(answers: Backend) {
    exists i: nat, n: nat :: i < ROUNDS && !(answers(i, n).listed && answers(i, n).deleted)
  }

  /** The round fails: at the listing, or at the deletion of a page that was not empty. */
  predicate FailsIn(answers: Backend, round: nat, listed: seq<string>) {
    !answers(round, |listed|).listed || (listed != [] && !answers(round, |listed|).deleted)
  }

  /** When deletions are complete, the rounds have removed the first `gone` objects, at least one each. */
  ghost predicate Progress(answers: Backend, before: seq<string>, round: nat, gone: nat, objects: seq<string>) {
    Complete(answers) ==>
      && round <= gone <= |before| && objects == before[gone..]
      && (FullPages(answers) ==> gone == Min(round * PAGE, |before|))
  }

  lemma RoundProgresses(answers: Backend, before: seq<string>, round: nat, gone: nat, objects: seq<string>)
    requires ValidBackend(answers) && Progress(answers, before, round, gone, objects) && objects != []
    ensures var answer := answers(round, |objects|);
      && answer.page <= |objects|
      && Progress(answers, before, round + 1, gone + answer.page, AfterPage(objects, answer.page, answer.refused))
  {
    var answer := answers(round, |objects|);
    assert ValidPage(answer.page, |objects|);
    PageDeleted(objects, answer.page, answer.refused);
    if Complete(answers) {
      assert objects[answer.page..] == before[gone + answer.page..];
    }
  }

  /** What a well-behaved backend gives: some first objects are gone; success within the budget leaves
      none, and otherwise at least one per round is gone; with full pages exactly Left are left. */
  ghost predicate WellDone(answers: Backend, before: seq<string>, ok: bool, rounds: nat, objects: seq<string>) {
    Complete(answers) ==>
      && (exists gone :: 0 <= gone <= |before| && objects == before[gone..])
      && (ok && rounds < ROUNDS ==> objects == [])
      && (ok && objects != [] ==> |before| - |objects| >= ROUNDS)
      && (FullPages(answers) ==> ok && objects == before[|before| - Left(|before|)..])
  }

  lemma StopsWellDone(answers: Backend, before: seq<string>, ok: bool, round: nat, gone: nat, objects: seq<string>)
    requires Progress(answers, before, round, gone, objects) && round <= ROUNDS
    requires ok && round < ROUNDS && Complete(answers) ==> objects == []
    requires !ok ==> !FullPages(answers)
    ensures WellDone(answers, before, ok, round, objects)
  {
  }

  lemma PartlyDeleted(answers: Backend, before: seq<string>, round: nat, gone: nat, objects: seq<string>, n: nat)
    requires Progress(answers, before, round, gone, objects) && n <= |objects| && !FullPages(answers)
    ensures WellDone(answers, before, false, round, objects[n..])
  {
    if Complete(answers) {
      assert objects[n..] == before[gone + n..];
    }
  }

  /** The last page is the whole bucket: just what it refuses is left. */
  lemma LastPageWellDone(answers: Backend, before: seq<string>, round: nat, gone: nat, last: seq<string>)
    requires ValidBackend(answers) && Progress(answers, before, round, gone, last) && round < ROUNDS
    requires answers(round, |last|).page == |last| && last != []
    ensures var left := AfterPage(last, |last|, answers(round, |last|).refused);
      && left == Refused(last, answers(round, |last|).refused)
      && (left == [] <==> RefusesNone(last, answers(round, |last|).refused))
      && WellDone(answers, before, true, round, left)
  {
    var refused := answers(round, |last|).refused;
    PageDeleted(last, |last|, refused);
    RefusesNothing(last, refused);
    RoundProgresses(answers, before, round, gone, last);
  }

  /** What is left is what the round refused; nothing exactly when it refused nothing. */
  ghost predicate LeavesRefused(answers: Backend, round: nat, last: seq<string>, objects: seq<string>) {
    && objects == Refused(last, answers(round, |last|).refused)
    && (objects == [] <==> RefusesNone(last, answers(round, |last|).refused))
  }

  datatype Outcome = Fails | Finishes | GoesOn

  datatype Row = Live | Deleted

  class BucketService {
    var objects: seq<string>
    var backend: bool
    var row: Row

    constructor (objects: seq<string>)
      ensures this.objects == objects && backend && row == Live
    {
      this.objects, backend, row := objects, true, Live;
    }

    /** One round: list a page and delete it. It fails, it finishes the bucket, or there is more to do. */
    method DeletePage(answers: Backend, round: nat, ghost before: seq<string>, ghost gone: nat) returns (outcome: Outcome, ghost page: nat)
      requires ValidBackend(answers) && round < ROUNDS && Within(objects, before) && Progress(answers, before, round, gone, objects)
      modifies `objects
      ensures Within(objects, before)
      ensures outcome == Fails <==> FailsIn(answers, round, old(objects))
      ensures outcome == Fails ==> WellDone(answers, before, false, round, objects)
      ensures !answers(round, |old(objects)|).listed ==> objects == old(objects)
      ensures outcome == Finishes ==> LeavesRefused(answers, round, old(objects), objects) && WellDone(answers, before, true, round, objects)
      ensures outcome == Finishes <==>
        !FailsIn(answers, round, old(objects)) && |old(objects)| < PAGE && answers(round, |old(objects)|).page == |old(objects)|
      ensures outcome == GoesOn ==> Progress(answers, before, round + 1, gone + page, objects)
      ensures outcome == GoesOn ==> !(FullPages(answers) && |old(objects)| < PAGE)
    {
      ghost var last := objects;
      var answer := answers(round, |objects|);
      assert ValidPage(answer.page, |objects|);
      page := answer.page;
      if !answer.listed {
        StopsWellDone(answers, before, false, round, gone, objects);
        return Fails, page;
      }
      var size := answer.page;
      var truncated := size < |objects|;
      if size == 0 {
        RefusesNothing(last, answer.refused);
        StopsWellDone(answers, before, true, round, gone, objects);
        return Finishes, page;
      }
      if !answer.deleted {
        objects := objects[Min(answer.partly, size)..];
        PartlyDeleted(answers, before, round, gone, last, Min(answer.partly, size));
        return Fails, page;
      }
      PageDeleted(objects, size, answer.refused);
      objects := AfterPage(objects, size, answer.refused);
      if !truncated && size < PAGE {
        LastPageWellDone(answers, before, round, gone, last);
        return Finishes, page;
      }
      RoundProgresses(answers, before, round, gone, last);
      return GoesOn, page;
    }

    /** Deletes the objects of the bucket, in listing order. `rounds` counts the rounds that deleted
        a page and went on, `last` is the bucket at the last listing. Before the budget of rounds is
        used up, success leaves exactly what the last round refused to delete; so the bucket is empty
        exactly when that round refused nothing. */
    method EmptyBucket(answers: Backend) returns (ok: bool, rounds: nat, ghost last: seq<string>)
      requires ValidBackend(answers)
      modifies `objects
      ensures rounds <= ROUNDS && Within(objects, old(objects))
      ensures ok && rounds < ROUNDS ==> LeavesRefused(answers, rounds, last, objects)
      ensures !ok ==> SomeFailure(answers)
      ensures !ok <==> rounds < ROUNDS && FailsIn(answers, rounds, last)
      ensures FullPages(answers) && |old(objects)| < PAGE ==> ok && rounds == 0 && last == old(objects)
      ensures rounds == 0 ==> last == old(objects)
      ensures !answers(0, |old(objects)|).listed ==> rounds == 0 && objects == old(objects)
      ensures WellDone(answers, old(objects), ok, rounds, objects)
    {
      var i := 0;
      last := objects;
      ghost var gone: nat := 0;
      while i < ROUNDS
        invariant 0 <= i <= ROUNDS && Within(objects, old(objects)) && Progress(answers, old(objects), i, gone, objects)
        invariant if i == 0 then objects == old(objects) else answers(0, |old(objects)|).listed
        invariant FullPages(answers) && |old(objects)| < PAGE ==> i == 0
      {
        last := objects;
        var outcome, page := DeletePage(answers, i, old(objects), gone);
        if outcome == Fails {
          assert SomeFailure(answers);
          return false, i, last;
        }
        if outcome == Finishes {
          return true, i, last;
        }
        gone := gone + page;
        i := i + 1;
      }
      StopsWellDone(answers, old(objects), true, i, gone, objects);
      return true, i, last;
    }

    /** Deletes the bucket. The backend refuses to delete a bucket that is not empty, and cannot list one
        that is gone. So when all requests succeed, one key that the last round refused is what makes
        the deletion fail; and once the backend bucket is gone without the row, no call ever succeeds. */
    method DeleteBucket(answers: Backend, backendOk: bool, storeOk: bool)
      returns (ok: bool, ghost rounds: nat, ghost last: seq<string>)
      requires ValidBackend(answers)
      modifies this
      ensures row == Deleted && old(row) == Live ==> ok && !backend && objects == []
      ensures old(backend) && !backend ==> objects == []
      ensures ok <==> old(row) == Live && row == Deleted
      ensures !ok ==> row == old(row)
      ensures !old(backend) ==> !ok && !backend && row == old(row) && objects == old(objects)
      ensures old(row) == Live && old(backend) && rounds < ROUNDS && FailsIn(answers, rounds, last) ==> !ok && backend
      ensures !answers(0, |old(objects)|).listed ==> !ok && backend == old(backend) && objects == old(objects)
      ensures old(row) == Live && old(backend) && backendOk && storeOk && !SomeFailure(answers) && rounds < ROUNDS ==>
        (ok <==> RefusesNone(last, answers(rounds, |last|).refused))
      ensures old(row) == Live && old(backend) && FullPages(answers) && |old(objects)| < PAGE ==>
        && rounds == 0 && last == old(objects)
        && (!backend <==> backendOk && RefusesNone(last, answers(0, |last|).refused))
        && (ok <==> !backend && storeOk)
      ensures old(row) == Live && old(backend) && backendOk && storeOk && Complete(answers) && FullPages(answers) ==>
        && (ok <==> |old(objects)| <= ROUNDS * PAGE)
        && |objects| == Left(|old(objects)|) && (!ok ==> backend)
    {
      rounds, last := 0, objects;
      if row == Deleted || !backend {
        return false, rounds, last;
      }
      var emptied, n, listed := EmptyBucket(answers);
      rounds, last := n, listed;
      if !emptied {
        return false, rounds, last;
      }
      if !backendOk || objects != [] {
        return false, rounds, last;
      }
      backend := false;
      if !storeOk {
        return false, rounds, last;
      }
      row := Deleted;
      return true, rounds, last;
    }

    /** Once the backend bucket is gone but its row is not, the row stays whatever is tried. */
    method DeleteWithoutBackend(answers: Backend, calls: nat) returns (ok: bool)
      requires ValidBackend(answers) && !backend && row == Live
      modifies this
      ensures !ok && !backend && row == Live
    {
      ok := false;
      for n := 0 to calls
        invariant !ok && !backend && row == Live
      {
        var done, _, _ := DeleteBucket(answers, true, true);
        ok := ok || done;
      }
    }

    /** An administrator who repeats the deletion until it succeeds, at most `calls` times: with a
        well-behaved backend that is enough exactly when there are a million objects per call. */
    method DeleteRepeatedly(answers: Backend, calls: nat) returns (ok: bool)
      requires ValidBackend(answers) && Complete(answers) && FullPages(answers)
      requires row == Live && backend && calls > 0
      modifies this
      ensures ok <==> |old(objects)| <= calls * (ROUNDS * PAGE)
      ensures !ok ==> row == Live && |objects| == |old(objects)| - calls * (ROUNDS * PAGE)
      ensures ok ==> row == Deleted && !backend && objects == []
    {
      ok := false;
      var n := 0;
      while n < calls && !ok
        invariant n <= calls && (n == 0 ==> !ok)
        invariant |objects| == After(n, |old(objects)|)
        invariant if ok then row == Deleted && !backend && objects == [] else row == Live && backend
        invariant !ok && n > 0 ==> objects != []
      {
        var done, _, _ := DeleteBucket(answers, true, true);
        ok := done;
        n := n + 1;
      }
      CallsNeeded(n, |old(objects)|);
      assert n * (ROUNDS * PAGE) <= calls * (ROUNDS * PAGE);
    }
  }
}
