/** Usage reporting: a ledger row is inserted under an idempotency key before the usage is posted, so
    that concurrent, repeated and crashing reporters post at most once per key. */
module Billing {
  import opened Text

  /** What is reported: the usage of a metric by an organisation on a day. */
  datatype Subject = Subject(org: string, metric: string, day: string)

  function IdemKey(u: Subject): string {
    u.org + ":" + (u.metric + ":" + u.day)
  }

  predicate ColonFree(u: Subject) {
    ':' !in u.org && ':' !in u.metric
  }

  lemma IdemKeyInjective(u: Subject, v: Subject)
    requires ColonFree(u) && ColonFree(v) && IdemKey(u) == IdemKey(v)
    ensures u == v
  {
    CutAtFirst(u.org, u.metric + ":" + u.day, v.org, v.metric + ":" + v.day, ':');
    CutAtFirst(u.metric, u.day, v.metric, v.day, ':');
  }

  /** With a colon in the metric, different subjects can share a key. */
  lemma ColonsCollide(a: string, b: string, c: string, day: string)
    ensures IdemKey(Subject(a, b + ":" + c, day)) == IdemKey(Subject(a + ":" + b, c, day))
    ensures Subject(a, b + ":" + c, day) != Subject(a + ":" + b, c, day)
  {
    var rest := ":" + day;
    assert a + ":" + ((b + ":" + c) + rest) == (a + ":" + b) + ":" + (c + rest);
    assert (b + ":" + c) + ":" + day == (b + ":" + c) + rest && c + ":" + day == c + rest;
    assert |b + ":" + c| > |c|;
  }

  datatype Entry = Entry(subject: Subject, quantity: int)

  /** A usage record sent to the payment processor. */
  datatype Post = Post(subject: Subject, item: string, quantity: int, key: string)

  type Ledger = map<string, Entry>

  // ---- Concurrent reporters ----

  /** The reply to the insert: it arrives, the insert failed, or it took effect but the reply is lost. */
  datatype Reply = Arrives | Failed | Lost

  /** What the processor does with a post: it takes it, it refuses it (or cannot be reached), or it takes
      it but the reply is lost. The reporter only logs an error. */
  datatype Outcome = Delivered | Refused | ReplyLost

  /** `due` holds, per reporter, the post it has still to send; `posts` are the posts sent, `delivered`
      the keys of those the processor took. */
  datatype World = World(ledger: Ledger, due: map<nat, Post>, posts: seq<Post>, delivered: set<string>)

  datatype Step =
    | Record(r: nat, subject: Subject, quantity: int, item: string, reply: Reply)
    | Send(r: nat, outcome: Outcome)
    | Crash(r: nat)

  function Next(s: World, a: Step): World {
    match a
    case Record(r, u, quantity, item, reply) =>
      var key := IdemKey(u);
      if r in s.due || item == "" || reply == Failed || key in s.ledger then s
      else
        var s' := s.(ledger := s.ledger[key := Entry(u, quantity)]);
        if reply == Arrives then s'.(due := s.due[r := Post(u, item, quantity, key)]) else s'
    case Send(r, outcome) =>
      if r in s.due
      then s.(due := s.due - {r}, posts := s.posts + [s.due[r]],
              delivered := s.delivered + if outcome == Refused then {} else {s.due[r].key})
      else s
    case Crash(r) => s.(due := s.due - {r})
  }

  function Run(s: World, steps: seq<Step>): World
    decreases |steps|
  {
    if steps == [] then s else Run(Next(s, steps[0]), steps[1..])
  }

  /** The post agrees with its ledger row. */
  ghost predicate Backed(ledger: Ledger, p: Post) {
    p.key == IdemKey(p.subject) && p.key in ledger && ledger[p.key] == Entry(p.subject, p.quantity)
  }

  ghost predicate KeysOnce(posts: seq<Post>) {
    forall i, j :: 0 <= i < j < |posts| ==> posts[i].key != posts[j].key
  }

  ghost predicate Posted(s: World, key: string) {
    exists i :: 0 <= i < |s.posts| && s.posts[i].key == key
  }

  ghost predicate Inv(s: World) {
    && KeysOnce(s.posts)
    && (forall key :: key in s.delivered ==> Posted(s, key))
    && (forall i :: 0 <= i < |s.posts| ==> Backed(s.ledger, s.posts[i]))
    && (forall r :: r in s.due ==> Backed(s.ledger, s.due[r]))
    && (forall r, q :: r in s.due && q in s.due && r != q ==> s.due[r].key != s.due[q].key)
    && (forall r, i :: r in s.due && 0 <= i < |s.posts| ==> s.due[r].key != s.posts[i].key)
  }

  /** A new key is neither posted nor due. */
  lemma NewKeyIsUnknown(s: World, key: string)
    requires Inv(s) && key !in s.ledger
    ensures forall i :: 0 <= i < |s.posts| ==> s.posts[i].key != key
    ensures forall r :: r in s.due ==> s.due[r].key != key
  {
    forall i | 0 <= i < |s.posts| ensures s.posts[i].key != key {
      assert Backed(s.ledger, s.posts[i]);
    }
    forall r | r in s.due ensures s.due[r].key != key {
      assert Backed(s.ledger, s.due[r]);
    }
  }

  lemma RowKeepsInv(s: World, key: string, e: Entry)
    requires Inv(s) && key !in s.ledger
    ensures Inv(s.(ledger := s.ledger[key := e]))
  {
    var s' := s.(ledger := s.ledger[key := e]);
    forall k | k in s'.delivered ensures Posted(s', k) {
      assert Posted(s, k);
    }
    forall i | 0 <= i < |s.posts| ensures Backed(s'.ledger, s.posts[i]) {
      assert Backed(s.ledger, s.posts[i]);
    }
    forall r | r in s.due ensures Backed(s'.ledger, s.due[r]) {
      assert Backed(s.ledger, s.due[r]);
    }
  }

  lemma DueKeepsInv(s: World, r: nat, p: Post)
    requires Inv(s) && r !in s.due && Backed(s.ledger, p)
    requires forall i :: 0 <= i < |s.posts| ==> s.posts[i].key != p.key
    requires forall q :: q in s.due ==> s.due[q].key != p.key
    ensures Inv(s.(due := s.due[r := p]))
  {
    forall k | k in s.delivered ensures Posted(s.(due := s.due[r := p]), k) {
      assert Posted(s, k);
    }
  }

  lemma RecordKeepsInv(s: World, a: Step)
    requires Inv(s) && a.Record?
    ensures Inv(Next(s, a))
  {
    var key := IdemKey(a.subject);
    if !(a.r in s.due || a.item == "" || a.reply == Failed || key in s.ledger) {
      NewKeyIsUnknown(s, key);
      RowKeepsInv(s, key, Entry(a.subject, a.quantity));
      if a.reply == Arrives {
        DueKeepsInv(s.(ledger := s.ledger[key := Entry(a.subject, a.quantity)]), a.r, Post(a.subject, a.item, a.quantity, key));
      }
    }
  }

  lemma PostedStays(s: World, a: Step, key: string)
    requires Posted(s, key)
    ensures Posted(Next(s, a), key)
  {
    var i :| 0 <= i < |s.posts| && s.posts[i].key == key;
    assert Next(s, a).posts[i].key == key;
  }

  lemma OtherStepKeepsInv(s: World, a: Step)
    requires Inv(s) && !a.Record?
    ensures Inv(Next(s, a))
  {
    var s' := Next(s, a);
    forall k | k in s'.delivered ensures Posted(s', k) {
      if k in s.delivered {
        PostedStays(s, a, k);
      } else {
        assert s'.posts[|s.posts|].key == k;
      }
    }
    forall i | 0 <= i < |s'.posts| ensures Backed(s'.ledger, s'.posts[i]) {
      assert i < |s.posts| ==> Backed(s.ledger, s.posts[i]);
    }
    forall r | r in s'.due ensures Backed(s'.ledger, s'.due[r]) {
      assert Backed(s.ledger, s.due[r]);
    }
  }

  lemma {:induction false} RunKeepsInv(s: World, steps: seq<Step>)
    requires Inv(s)
    ensures Inv(Run(s, steps))
    decreases |steps|
  {
    if steps != [] {
      if steps[0].Record? {
        RecordKeepsInv(s, steps[0]);
      } else {
        OtherStepKeepsInv(s, steps[0]);
      }
      RunKeepsInv(Next(s, steps[0]), steps[1..]);
    }
  }

  /** However many reporters overlap, repeat or crash, each subject is posted at most once, and with
      the quantity its ledger row holds. */
  lemma PostedAtMostOnce(s: World, steps: seq<Step>)
    requires s.due == map[] && s.posts == [] && s.delivered == {}
    ensures var s' := Run(s, steps);
      && (forall i, j :: 0 <= i < j < |s'.posts| ==> s'.posts[i].subject != s'.posts[j].subject)
      && (forall i :: 0 <= i < |s'.posts| ==>
            IdemKey(s'.posts[i].subject) in s'.ledger && s'.ledger[IdemKey(s'.posts[i].subject)].quantity == s'.posts[i].quantity)
  {
    RunKeepsInv(s, steps);
    var s' := Run(s, steps);
    forall i | 0 <= i < |s'.posts| ensures Backed(s'.ledger, s'.posts[i]) {
    }
    forall i, j | 0 <= i < j < |s'.posts| ensures s'.posts[i].subject != s'.posts[j].subject {
      assert Backed(s'.ledger, s'.posts[i]) && Backed(s'.ledger, s'.posts[j]);
    }
  }

  /** Ledger rows are never changed. */
  lemma {:induction false} LedgerOnlyGrows(s: World, steps: seq<Step>, key: string)
    requires key in s.ledger
    ensures key in Run(s, steps).ledger && Run(s, steps).ledger[key] == s.ledger[key]
    decreases |steps|
  {
    if steps != [] {
      LedgerOnlyGrows(Next(s, steps[0]), steps[1..], key);
    }
  }

  // ---- Which reports are suppressed ----

  ghost predicate Filed(ledger: Ledger) {
    forall key :: key in ledger ==> key == IdemKey(ledger[key].subject) && ColonFree(ledger[key].subject)
  }

  predicate ColonFreeRun(steps: seq<Step>) {
    forall i :: 0 <= i < |steps| && steps[i].Record? ==> ColonFree(steps[i].subject)
  }

  lemma {:induction false} FiledStays(s: World, steps: seq<Step>)
    requires Filed(s.ledger) && ColonFreeRun(steps)
    ensures Filed(Run(s, steps).ledger)
    decreases |steps|
  {
    if steps != [] {
      FiledStays(Next(s, steps[0]), steps[1..]);
    }
  }

  /** When no organisation id and no metric holds a colon, a report is suppressed exactly when its own
      subject has a ledger row: never by another subject. */
  lemma SuppressedOnlyByItself(s: World, steps: seq<Step>, u: Subject)
    requires s.ledger == map[] && ColonFreeRun(steps) && ColonFree(u)
    ensures var ledger := Run(s, steps).ledger;
      IdemKey(u) in ledger <==> exists key :: key in ledger && ledger[key].subject == u
  {
    FiledStays(s, steps);
    var ledger := Run(s, steps).ledger;
    if IdemKey(u) in ledger {
      IdemKeyInjective(u, ledger[IdemKey(u)].subject);
    }
  }

  // ---- Exactly when usage is lost ----

  ghost predicate Due(s: World, key: string) {
    exists r :: r in s.due && s.due[r].key == key
  }

  /** The subject has a row, but the processor did not take its post and none is due. */
  ghost predicate Dropped(s: World, key: string) {
    key in s.ledger && key !in s.delivered && !Due(s, key)
  }

  /** The step loses the usage of the key: the processor refuses the post, a reporter crashes with its
      post due, or the reply to a new insert is lost. */
  predicate Loses(s: World, a: Step, key: string) {
    match a
    case Send(r, outcome) => r in s.due && s.due[r].key == key && outcome == Refused
    case Crash(r) => r in s.due && s.due[r].key == key
    case Record(r, u, _, item, reply) => r !in s.due && item != "" && reply == Lost && IdemKey(u) == key && key !in s.ledger
  }

  /** A due post stays due or is delivered, unless it is refused or its reporter crashes. */
  lemma DueStays(s: World, a: Step, key: string)
    requires Inv(s) && Due(s, key) && !Loses(s, a, key)
    ensures Due(Next(s, a), key) || key in Next(s, a).delivered
  {
    var s' := Next(s, a);
    var r :| r in s.due && s.due[r].key == key;
    if !(a.Send? && a.r == r) {
      assert r in s'.due && s'.due[r].key == key;
    }
  }

  /** A new row makes its post due, unless the reply is lost. */
  lemma NewRowIsDue(s: World, a: Step, key: string)
    requires key !in s.ledger && key in Next(s, a).ledger && !Loses(s, a, key)
    ensures Due(Next(s, a), key)
  {
    assert Next(s, a).due[a.r].key == key;
  }

  lemma LosingDrops(s: World, a: Step, key: string)
    requires Inv(s) && Loses(s, a, key)
    ensures Dropped(Next(s, a), key)
  {
    var s' := Next(s, a);
    if a.Record? {
      NewKeyIsUnknown(s, key);
    } else {
      assert Backed(s.ledger, s.due[a.r]);
    }
    assert key in s.delivered ==> Posted(s, key);
    forall r | r in s'.due ensures s'.due[r].key != key {
      assert r in s.due && s'.due[r] == s.due[r];
    }
  }

  lemma DroppedStays(s: World, a: Step, key: string)
    requires Dropped(s, key)
    ensures Dropped(Next(s, a), key)
  {
    var s' := Next(s, a);
    forall r | r in s'.due ensures s'.due[r].key != key {
      assert r in s.due ==> s.due[r].key != key;
    }
    assert a.Send? && a.r in s.due ==> s.due[a.r].key != key;
  }

  /** A step drops a key exactly when it loses it. */
  lemma StepDropsExactly(s: World, a: Step, key: string)
    requires Inv(s) && !Dropped(s, key)
    ensures Dropped(Next(s, a), key) <==> Loses(s, a, key)
  {
    if Loses(s, a, key) {
      LosingDrops(s, a, key);
    } else if key !in s.ledger {
      if key in Next(s, a).ledger {
        NewRowIsDue(s, a, key);
      }
    } else if key !in s.delivered {
      DueStays(s, a, key);
    }
  }

  ghost predicate LosesIn(s: World, steps: seq<Step>, key: string)
    decreases |steps|
  {
    steps != [] && (Loses(s, steps[0], key) || LosesIn(Next(s, steps[0]), steps[1..], key))
  }

  lemma {:induction false} DroppedStaysDropped(s: World, steps: seq<Step>, key: string)
    requires Dropped(s, key)
    ensures Dropped(Run(s, steps), key)
    decreases |steps|
  {
    if steps != [] {
      DroppedStays(s, steps[0], key);
      DroppedStaysDropped(Next(s, steps[0]), steps[1..], key);
    }
  }

  /** In every run, usage that is recorded ends up delivered or due unless a step lost it: the processor
      refused the post, a reporter crashed between the row and the post, or the reply to the insert was
      lost. The row suppresses every later attempt, so such usage is never delivered. */
  lemma {:induction false} UsageIsLostExactly(s: World, steps: seq<Step>, key: string)
    requires Inv(s) && !Dropped(s, key)
    ensures Dropped(Run(s, steps), key) <==> LosesIn(s, steps, key)
    decreases |steps|
  {
    if steps != [] {
      var s' := Next(s, steps[0]);
      StepDropsExactly(s, steps[0], key);
      if Loses(s, steps[0], key) {
        DroppedStaysDropped(s', steps[1..], key);
      } else {
        if steps[0].Record? {
          RecordKeepsInv(s, steps[0]);
        } else {
          OtherStepKeepsInv(s, steps[0]);
        }
        UsageIsLostExactly(s', steps[1..], key);
      }
    }
  }

  /** So when nothing is under way any more, the processor has taken the usage of a recorded subject
      exactly when no step lost it. */
  lemma DeliveredExactlyWhenNotLost(s: World, steps: seq<Step>, key: string)
    requires s.ledger == map[] && s.due == map[] && s.posts == [] && s.delivered == {}
    ensures var s' := Run(s, steps);
      s'.due == map[] && key in s'.ledger ==> (key in s'.delivered <==> !LosesIn(s, steps, key))
  {
    UsageIsLostExactly(s, steps, key);
  }

  /** Inputs that lose usage: a refused post, a crash after the insert, and a lost reply. */
  lemma FailuresLoseUsage(s: World, r: nat, u: Subject, quantity: int, item: string)
    requires Inv(s) && r !in s.due && item != "" && IdemKey(u) !in s.ledger
    ensures Dropped(Next(Next(s, Record(r, u, quantity, item, Arrives)), Send(r, Refused)), IdemKey(u))
    ensures Dropped(Next(Next(s, Record(r, u, quantity, item, Arrives)), Crash(r)), IdemKey(u))
    ensures Dropped(Next(s, Record(r, u, quantity, item, Lost)), IdemKey(u))
  {
    var s' := Next(s, Record(r, u, quantity, item, Arrives));
    RecordKeepsInv(s, Record(r, u, quantity, item, Arrives));
    assert s'.due[r].key == IdemKey(u);
    LosingDrops(s', Send(r, Refused), IdemKey(u));
    LosingDrops(s', Crash(r), IdemKey(u));
    LosingDrops(s, Record(r, u, quantity, item, Lost), IdemKey(u));
  }

  /** An undisturbed report of a new subject is recorded, posted once and delivered. */
  lemma SoloReport(s: World, r: nat, u: Subject, quantity: int, item: string)
    requires Inv(s) && r !in s.due && item != "" && IdemKey(u) !in s.ledger
    ensures var s' := Next(Next(s, Record(r, u, quantity, item, Arrives)), Send(r, Delivered));
      && s'.ledger == s.ledger[IdemKey(u) := Entry(u, quantity)] && s'.due == s.due
      && s'.posts == s.posts + [Post(u, item, quantity, IdemKey(u))] && s'.delivered == s.delivered + {IdemKey(u)}
  {
    var s1 := Next(s, Record(r, u, quantity, item, Arrives));
    assert s1.due == s.due[r := Post(u, item, quantity, IdemKey(u))];
    assert s.due[r := Post(u, item, quantity, IdemKey(u))] - {r} == s.due;
  }

  // ---- Which quantity is billed ----

  /** The step inserts the row of the key. */
  predicate Lands(s: World, a: Step, key: string) {
    && a.Record? && a.r !in s.due && a.item != "" && a.reply != Failed
    && IdemKey(a.subject) == key && key !in s.ledger
  }

  /** The quantity of the first report of a key that reaches the ledger. */
  function FirstQuantity(s: World, steps: seq<Step>, key: string): Option<int>
    decreases |steps|
  {
    if steps == [] then None
    else if Lands(s, steps[0], key) then Some(steps[0].quantity)
    else FirstQuantity(Next(s, steps[0]), steps[1..], key)
  }

  /** A day's row holds the quantity of the first report that landed, whatever later passes read. */
  lemma {:induction false} FirstReportFixesQuantity(s: World, steps: seq<Step>, key: string)
    requires key !in s.ledger
    ensures var ledger := Run(s, steps).ledger;
      && (key in ledger <==> FirstQuantity(s, steps, key).Some?)
      && (key in ledger ==> ledger[key].quantity == FirstQuantity(s, steps, key).value)
    decreases |steps|
  {
    if steps != [] {
      var s' := Next(s, steps[0]);
      if Lands(s, steps[0], key) {
        LedgerOnlyGrows(s', steps[1..], key);
      } else {
        FirstReportFixesQuantity(s', steps[1..], key);
      }
    }
  }

  /** Every reading of the key's usage is at most the day's final one. */
  predicate ReadsUpTo(steps: seq<Step>, key: string, final: int) {
    forall i :: 0 <= i < |steps| && steps[i].Record? && IdemKey(steps[i].subject) == key ==> steps[i].quantity <= final
  }

  /** Usage that accrues after the day's first landed report is never billed: a post never exceeds the
      final usage, and equals it exactly when that first report already read it. */
  lemma DayIsBilledInFullExactly(s: World, steps: seq<Step>, key: string, final: int, i: nat)
    requires s.ledger == map[] && s.due == map[] && s.posts == [] && s.delivered == {}
    requires ReadsUpTo(steps, key, final)
    requires i < |Run(s, steps).posts| && Run(s, steps).posts[i].key == key
    ensures Run(s, steps).posts[i].quantity <= final
    ensures Run(s, steps).posts[i].quantity == final <==> FirstQuantity(s, steps, key) == Some(final)
  {
    RunKeepsInv(s, steps);
    assert Backed(Run(s, steps).ledger, Run(s, steps).posts[i]);
    FirstReportFixesQuantity(s, steps, key);
    FirstIsARead(s, steps, key, final);
  }

  lemma {:induction false} FirstIsARead(s: World, steps: seq<Step>, key: string, final: int)
    requires ReadsUpTo(steps, key, final)
    ensures FirstQuantity(s, steps, key).Some? ==> FirstQuantity(s, steps, key).value <= final
    decreases |steps|
  {
    if steps != [] && !Lands(s, steps[0], key) {
      FirstIsARead(Next(s, steps[0]), steps[1..], key, final);
    }
  }

  // ---- One pass ----

  const GIB := 0x4000_0000

  /** What the store says of an organisation: its customer row, if any, with the processor's item ids,
      and the day's usage. Bytes are not negative. */
  datatype OrgUsage = OrgUsage(org: string, customer: bool, storageItem: string, egressItem: string, requestsItem: string,
                               storageBytes: nat, egressBytes: nat, requests: nat)

  function StorageLine(o: OrgUsage, day: string): Post {
    Line(o.org, "storage_gb_month", day, o.storageBytes / GIB, o.storageItem)
  }

  function EgressLine(o: OrgUsage, day: string): Post {
    Line(o.org, "egress_gb", day, o.egressBytes / GIB, o.egressItem)
  }

  function RequestsLine(o: OrgUsage, day: string): Post {
    Line(o.org, "requests", day, o.requests, o.requestsItem)
  }

  function Line(org: string, metric: string, day: string, quantity: int, item: string): Post {
    Post(Subject(org, metric, day), item, quantity, IdemKey(Subject(org, metric, day)))
  }

  /** A post for this metric of the organisation on this day, under the key "org:metric:day". */
  predicate IsFor(p: Post, org: string, metric: string, day: string, item: string) {
    && p.subject.org == org && p.subject.metric == metric && p.subject.day == day
    && p.key == (org + ":") + (metric + ":" + day) && p.item == item
  }

  /** So many whole GiB. */
  predicate WholeGiB(quantity: int, bytes: nat) {
    quantity * 1_073_741_824 <= bytes < (quantity + 1) * 1_073_741_824
  }

  /** What is billed to an organisation for a day: its stored GiB, its outgoing GiB and its requests, each
      to its own item. */
  predicate Bills(o: OrgUsage, day: string, p: Post) {
    || (IsFor(p, o.org, "storage_gb_month", day, o.storageItem) && WholeGiB(p.quantity, o.storageBytes))
    || (IsFor(p, o.org, "egress_gb", day, o.egressItem) && WholeGiB(p.quantity, o.egressBytes))
    || (IsFor(p, o.org, "requests", day, o.requestsItem) && p.quantity == o.requests)
  }

  predicate Billed(o: OrgUsage, day: string, p: Post) {
    o.customer && p.item != "" && Bills(o, day, p)
  }

  lemma WholeGiBOf(bytes: nat)
    ensures WholeGiB(bytes / GIB, bytes)
  {
  }

  lemma LinesBill(o: OrgUsage, day: string)
    ensures Bills(o, day, StorageLine(o, day)) && Bills(o, day, EgressLine(o, day)) && Bills(o, day, RequestsLine(o, day))
    ensures StorageLine(o, day).item == o.storageItem && EgressLine(o, day).item == o.egressItem
    ensures RequestsLine(o, day).item == o.requestsItem
  {
    WholeGiBOf(o.storageBytes);
    WholeGiBOf(o.egressBytes);
    KeyLayout(StorageLine(o, day).subject);
    KeyLayout(EgressLine(o, day).subject);
    KeyLayout(RequestsLine(o, day).subject);
  }

  lemma KeyLayout(u: Subject)
    ensures IdemKey(u) == (u.org + ":") + (u.metric + ":" + u.day)
  {
  }

  ghost predicate BilledToSome(orgs: seq<OrgUsage>, n: nat, day: string, p: Post)
    requires n <= |orgs|
  {
    exists j :: 0 <= j < n && Billed(orgs[j], day, p)
  }

  predicate HasRow(ledger: Ledger, org: string, metric: string, day: string) {
    (org + ":") + (metric + ":" + day) in ledger
  }

  /** Every metric of a customer that has an item has a ledger row for the day. */
  predicate Reported(ledger: Ledger, o: OrgUsage, day: string) {
    o.customer ==>
      && (o.storageItem != "" ==> HasRow(ledger, o.org, "storage_gb_month", day))
      && (o.egressItem != "" ==> HasRow(ledger, o.org, "egress_gb", day))
      && (o.requestsItem != "" ==> HasRow(ledger, o.org, "requests", day))
  }

  lemma LinesReport(ledger: Ledger, o: OrgUsage, day: string)
    requires o.storageItem != "" ==> StorageLine(o, day).key in ledger
    requires o.egressItem != "" ==> EgressLine(o, day).key in ledger
    requires o.requestsItem != "" ==> RequestsLine(o, day).key in ledger
    ensures Reported(ledger, o, day)
  {
    LinesBill(o, day);
    KeyLayout(StorageLine(o, day).subject);
    KeyLayout(EgressLine(o, day).subject);
    KeyLayout(RequestsLine(o, day).subject);
  }

  lemma ReportedStays(ledger: Ledger, ledger': Ledger, o: OrgUsage, day: string)
    requires Reported(ledger, o, day) && forall key :: key in ledger ==> key in ledger'
    ensures Reported(ledger', o, day)
  {
  }

  ghost predicate SentSince(posts: seq<Post>, n: nat, key: string) {
    exists i :: n <= i < |posts| && posts[i].key == key
  }

  /** The ledger only grows, by a row for each new post; those bill the organisation and had no row. */
  ghost predicate Extends(l: Ledger, p: seq<Post>, l': Ledger, p': seq<Post>, o: OrgUsage, day: string) {
    && p <= p' && (forall key :: key in l ==> key in l' && l'[key] == l[key])
    && (forall i :: |p| <= i < |p'| ==> p'[i].key !in l && Billed(o, day, p'[i]))
    && (forall key :: key in l' && key !in l ==> SentSince(p', |p|, key))
  }

  lemma ExtendsTwice(l: Ledger, p: seq<Post>, l1: Ledger, p1: seq<Post>, l2: Ledger, p2: seq<Post>, o: OrgUsage, day: string)
    requires Extends(l, p, l1, p1, o, day) && Extends(l1, p1, l2, p2, o, day)
    ensures Extends(l, p, l2, p2, o, day)
  {
    forall i | |p| <= i < |p2| ensures p2[i].key !in l && Billed(o, day, p2[i]) {
      assert i < |p1| ==> p2[i] == p1[i];
    }
    forall key | key in l2 && key !in l ensures SentSince(p2, |p|, key) {
      SentStays(p1, p2, |p|, |p1|, key, key in l1);
    }
  }

  lemma SentStays(p1: seq<Post>, p2: seq<Post>, n: nat, m: nat, key: string, earlier: bool)
    requires p1 <= p2 && n <= m && (if earlier then SentSince(p1, n, key) else SentSince(p2, m, key))
    ensures SentSince(p2, n, key)
  {
    if earlier {
      var i :| n <= i < |p1| && p1[i].key == key;
      assert p2[i].key == key;
    }
  }

  /** A pass over the first n organisations: the ledger only grew, by a row for each new post, and each new
      post bills one of them and had no row before. */
  ghost predicate Passed(l: Ledger, p: seq<Post>, l': Ledger, p': seq<Post>, orgs: seq<OrgUsage>, n: nat, day: string) {
    && n <= |orgs| && p <= p' && (forall key :: key in l ==> key in l' && l'[key] == l[key])
    && (forall i :: |p| <= i < |p'| ==> p'[i].key !in l && BilledToSome(orgs, n, day, p'[i]))
    && (forall key :: key in l' && key !in l ==> SentSince(p', |p|, key))
  }

  lemma PassGoesOn(l: Ledger, p: seq<Post>, l1: Ledger, p1: seq<Post>, l2: Ledger, p2: seq<Post>, orgs: seq<OrgUsage>, n: nat, day: string)
    requires n < |orgs| && Passed(l, p, l1, p1, orgs, n, day) && Extends(l1, p1, l2, p2, orgs[n], day)
    ensures Passed(l, p, l2, p2, orgs, n + 1, day)
  {
    forall i | |p| <= i < |p2| ensures p2[i].key !in l && BilledToSome(orgs, n + 1, day, p2[i]) {
      if i < |p1| {
        assert p2[i] == p1[i] && BilledToSome(orgs, n, day, p1[i]);
      }
    }
    forall key | key in l2 && key !in l ensures SentSince(p2, |p|, key) {
      SentStays(p1, p2, |p|, |p1|, key, key in l1);
    }
  }

  ghost predicate AllReported(ledger: Ledger, orgs: seq<OrgUsage>, n: nat, day: string) {
    n <= |orgs| && forall j :: 0 <= j < n ==> Reported(ledger, orgs[j], day)
  }

  lemma ReportsGoOn(l: Ledger, l': Ledger, orgs: seq<OrgUsage>, n: nat, day: string)
    requires n < |orgs| && AllReported(l, orgs, n, day) && Reported(l', orgs[n], day) && forall key :: key in l ==> key in l'
    ensures AllReported(l', orgs, n + 1, day)
  {
    forall j | 0 <= j < n + 1 ensures Reported(l', orgs[j], day) {
      if j < n {
        ReportedStays(l, l', orgs[j], day);
      }
    }
  }

  class BillingService {
    var ledger: Ledger
    var posts: seq<Post>
    var delivered: set<string>

    /** `accepts` says which posts the processor takes; those are the delivered ones, and no post is
        ever repeated. */
    ghost predicate Valid(accepts: Post -> bool)
      reads this
    {
      && KeysOnce(posts)
      && (forall i :: 0 <= i < |posts| ==> Backed(ledger, posts[i]))
      && (forall i :: 0 <= i < |posts| ==> (posts[i].key in delivered <==> accepts(posts[i])))
      && (forall key :: key in delivered ==> exists i :: 0 <= i < |posts| && posts[i].key == key)
    }

    constructor ()
      ensures ledger == map[] && posts == [] && delivered == {}
      ensures forall accepts :: Valid(accepts)
    {
      ledger, posts, delivered := map[], [], {};
    }

    /** Inserts a row unless its key is taken. */
    method RecordUsageReport(u: Subject, quantity: int) returns (inserted: bool)
      modifies `ledger
      ensures inserted <==> IdemKey(u) !in old(ledger)
      ensures ledger == if inserted then old(ledger)[IdemKey(u) := Entry(u, quantity)] else old(ledger)
    {
      var key := IdemKey(u);
      inserted := key !in ledger;
      if inserted {
        ledger := ledger[key := Entry(u, quantity)];
      }
    }

    /** Records a metric and posts it if the row is new. A post that the processor refuses is not
        delivered, and the row keeps it from being sent again. */
    method ReportMetric(accepts: Post -> bool, u: Subject, quantity: int, item: string, storeOk: bool)
      requires Valid(accepts)
      modifies this
      ensures Valid(accepts)
      ensures if item != "" && storeOk && IdemKey(u) !in old(ledger)
        then posts == old(posts) + [Post(u, item, quantity, IdemKey(u))] && ledger == old(ledger)[IdemKey(u) := Entry(u, quantity)]
        else posts == old(posts) && ledger == old(ledger) && delivered == old(delivered)
    {
      if item == "" || !storeOk {
        return;
      }
      var inserted := RecordUsageReport(u, quantity);
      if !inserted {
        return;
      }
      forall i | 0 <= i < |posts| ensures Backed(ledger, posts[i]) && posts[i].key != IdemKey(u) {
        assert Backed(old(ledger), posts[i]);
      }
      assert IdemKey(u) !in delivered;
      var post := Post(u, item, quantity, IdemKey(u));
      ghost var before := posts;
      posts := posts + [post];
      if accepts(post) {
        delivered := delivered + {post.key};
      }
      forall key | key in delivered ensures exists i :: 0 <= i < |posts| && posts[i].key == key {
        if key == post.key {
          assert posts[|before|].key == key;
        } else {
          var i :| 0 <= i < |before| && before[i].key == key;
          assert posts[i].key == key;
        }
      }
    }

    /** Reports one metric of an organisation. */
    method ReportLine(accepts: Post -> bool, line: Post, storeOk: bool, ghost o: OrgUsage, ghost day: string)
      requires Valid(accepts) && o.customer && Bills(o, day, line) && line.key == IdemKey(line.subject)
      modifies this
      ensures Valid(accepts) && Extends(old(ledger), old(posts), ledger, posts, o, day)
      ensures storeOk && line.item != "" ==> line.key in ledger
    {
      ReportMetric(accepts, line.subject, line.quantity, line.item, storeOk);
      assert posts != old(posts) ==> posts[|old(posts)|] == line;
    }

    /** Reports the three metrics of one organisation. */
    method ReportOrg(accepts: Post -> bool, o: OrgUsage, day: string, storeOk: bool)
      requires Valid(accepts)
      modifies this
      ensures Valid(accepts) && Extends(old(ledger), old(posts), ledger, posts, o, day)
      ensures storeOk ==> Reported(ledger, o, day)
    {
      if !o.customer {
        return;
      }
      LinesBill(o, day);
      ReportLine(accepts, StorageLine(o, day), storeOk, o, day);
      ghost var l1, p1 := ledger, posts;
      ReportLine(accepts, EgressLine(o, day), storeOk, o, day);
      ExtendsTwice(old(ledger), old(posts), l1, p1, ledger, posts, o, day);
      ghost var l2, p2 := ledger, posts;
      ReportLine(accepts, RequestsLine(o, day), storeOk, o, day);
      ExtendsTwice(old(ledger), old(posts), l2, p2, ledger, posts, o, day);
      if storeOk {
        LinesReport(ledger, o, day);
      }
    }

    /** One pass over the billed organisations: every new post bills one of them, with the row's quantity,
        and every new row has its post. Nothing that has a ledger row is posted again, so a
        second pass on the same day posts nothing for them. */
    method BillingReportOnce(accepts: Post -> bool, enabled: bool, orgs: seq<OrgUsage>, day: string, storeOk: bool)
      requires Valid(accepts)
      modifies this
      ensures Valid(accepts) && Passed(old(ledger), old(posts), ledger, posts, orgs, |orgs|, day)
      ensures enabled && storeOk ==> AllReported(ledger, orgs, |orgs|, day)
      ensures !enabled ==> posts == old(posts) && ledger == old(ledger) && delivered == old(delivered)
    {
      if !enabled {
        return;
      }
      for n := 0 to |orgs|
        invariant Valid(accepts) && Passed(old(ledger), old(posts), ledger, posts, orgs, n, day)
        invariant storeOk ==> AllReported(ledger, orgs, n, day)
      {
        ghost var before, sent := ledger, posts;
        ReportOrg(accepts, orgs[n], day, storeOk);
        PassGoesOn(old(ledger), old(posts), before, sent, ledger, posts, orgs, n, day);
        if storeOk {
          ReportsGoOn(before, ledger, orgs, n, day);
        }
      }
    }
  }
}
