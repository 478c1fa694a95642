/** Editing the Garage cluster layout: stage role changes, read the version, apply current + 1.
    The remote engine is a state machine shared by any number of callers. */
module Layout {
  import opened Text
  import V = Version

  /** A role: no capacity means a gateway. */
  datatype Role = Role(zone: string, capacity: Option<int>, tags: seq<string>)

  datatype Change = Assign(node: string, role: Role) | Unassign(node: string)

  type Roles = map<string, Role>
  type Staged = map<string, Change>

  /** The current layout and the staged changes. */
  datatype Engine = Engine(version: nat, roles: Roles, staged: Staged)

  /** The role a change gives its node: none when it removes it. */
  function Outcome(c: Change): Option<Role> {
    match c
    case Assign(_, role) => Some(role)
    case Unassign(_) => None
  }

  function RoleOf(roles: Roles, node: string): Option<Role> {
    if node in roles then Some(roles[node]) else None
  }

  /** Staging adds the changes in order; a later change of a node replaces an earlier one. */
  function StageAll(staged: Staged, changes: seq<Change>): Staged {
    if changes == [] then staged
    else StageAll(staged, changes[..|changes| - 1])[changes[|changes| - 1].node := changes[|changes| - 1]]
  }

  /** The layout with the staged changes in force. */
  function Merge(roles: Roles, staged: Staged): Roles {
    map n | n in roles.Keys + staged.Keys && Planned(roles, staged, n).Some? :: Planned(roles, staged, n).value
  }

  function Planned(roles: Roles, staged: Staged, node: string): Option<Role> {
    if node in staged then Outcome(staged[node]) else RoleOf(roles, node)
  }

  function ApplyEngine(e: Engine): Engine {
    Engine(e.version + 1, Merge(e.roles, e.staged), map[])
  }

  predicate HasStorageRole(roles: Roles, node: string) {
    node in roles && roles[node].capacity.Some?
  }

  // ---- Interleavings ----

  datatype Phase = MustStage | MustRead | MustApply(version: nat)

  /** A call in progress: its changes, and the nodes whose change was replaced or reverted by
      someone else after the call had staged it. */
  datatype Caller = Caller(changes: seq<Change>, disturbed: set<string>, phase: Phase)

  /** A call that returned a version. */
  datatype Win = Win(version: nat, changes: seq<Change>, disturbed: set<string>)

  /** The engine, the layouts of past versions, the calls in progress, and the history: every version
      that was applied and every call that succeeded, in order. */
  datatype World = World(engine: Engine, layouts: map<nat, Roles>, callers: map<nat, Caller>, applied: seq<nat>, wins: seq<Win>)

  datatype Step =
    | Edit(c: nat, changes: seq<Change>)
    | Bootstrap(c: nat, node: string, role: Role)
    | Stage(c: nat, acked: bool)
    | Read(c: nat)
    | Apply(c: nat, accepted: bool, acked: bool)
    | Revert
    | Crash(c: nat)

  function Nodes(changes: seq<Change>): set<string> {
    set i | 0 <= i < |changes| :: changes[i].node
  }

  /** Nodes in `lost` are no longer as the callers staged them. */
  function Disturb(callers: map<nat, Caller>, lost: set<string>): map<nat, Caller> {
    map k | k in callers :: callers[k].(disturbed := callers[k].disturbed + lost)
  }

  function Put(s: World, c: nat, caller: Caller): World {
    s.(callers := s.callers[c := caller])
  }

  function Leave(s: World, c: nat): World {
    s.(callers := s.callers - {c})
  }

  function StageStep(s: World, c: nat, acked: bool): World
    requires c in s.callers
  {
    var k := s.callers[c];
    var s' := s.(engine := s.engine.(staged := StageAll(s.engine.staged, k.changes)), callers := Disturb(s.callers, Nodes(k.changes)));
    if acked then Put(s', c, Caller(k.changes, {}, MustRead)) else Leave(s', c)
  }

  /** The engine accepts a version only if it is the current one plus one (and may refuse it for
      reasons of its own). The reply may get lost. */
  function ApplyStep(s: World, c: nat, accepted: bool, acked: bool): World
    requires c in s.callers && s.callers[c].phase.MustApply?
  {
    var k := s.callers[c];
    if !accepted || k.phase.version != s.engine.version + 1 then Leave(s, c)
    else
      var e := ApplyEngine(s.engine);
      var s' := Leave(s, c).(engine := e, layouts := s.layouts[e.version := e.roles], applied := s.applied + [e.version]);
      if acked then s'.(wins := s.wins + [Win(k.phase.version, k.changes, k.disturbed)]) else s'
  }

  /** One action; one that is not the caller's next does nothing. An edit without changes is refused,
      a bootstrap of a node that has a storage role has nothing to do. */
  function Next(s: World, a: Step): World {
    match a
    case Edit(c, changes) =>
      if c in s.callers || changes == [] then s else Put(s, c, Caller(changes, {}, MustStage))
    case Bootstrap(c, node, role) =>
      if c in s.callers || HasStorageRole(s.engine.roles, node) then s
      else Put(s, c, Caller([Assign(node, role)], {}, MustStage))
    case Stage(c, acked) =>
      if c in s.callers && s.callers[c].phase.MustStage? then StageStep(s, c, acked) else s
    case Read(c) =>
      if c in s.callers && s.callers[c].phase.MustRead?
      then Put(s, c, s.callers[c].(phase := MustApply(s.engine.version + 1)))
      else s
    case Apply(c, accepted, acked) =>
      if c in s.callers && s.callers[c].phase.MustApply? then ApplyStep(s, c, accepted, acked) else s
    case Revert =>
      s.(engine := s.engine.(staged := map[]), callers := Disturb(s.callers, s.engine.staged.Keys))
    case Crash(c) => Leave(s, c)
  }

  function Run(s: World, steps: seq<Step>): World
    decreases |steps|
  {
    if steps == [] then s else Run(Next(s, steps[0]), steps[1..])
  }

  /** Before any call: no caller and an empty history. */
  predicate Init(s: World) {
    s.callers == map[] && s.applied == [] && s.wins == []
  }

  // ---- What staging means ----

  /** The role the last change of the node asks for. */
  function WantedRole(changes: seq<Change>, node: string): Option<Role>
    requires exists i :: 0 <= i < |changes| && changes[i].node == node
  {
    var last := changes[|changes| - 1];
    if last.node == node then Outcome(last) else WantedRole(changes[..|changes| - 1], node)
  }

  lemma {:induction false} StagedChange(staged: Staged, changes: seq<Change>, node: string)
    ensures node in Nodes(changes) ==>
      node in StageAll(staged, changes) && Outcome(StageAll(staged, changes)[node]) == WantedRole(changes, node)
    ensures node !in Nodes(changes) ==>
      (node in StageAll(staged, changes) <==> node in staged) &&
      (node in staged ==> StageAll(staged, changes)[node] == staged[node])
  {
    if changes != [] {
      var front := changes[..|changes| - 1];
      StagedChange(staged, front, node);
      assert forall i :: 0 <= i < |front| ==> front[i] == changes[i];
      if node in Nodes(changes) && changes[|changes| - 1].node != node {
        var i :| 0 <= i < |changes| && changes[i].node == node;
        assert front[i].node == node;
      }
    }
  }

  /** Applying puts into force exactly what was planned. */
  lemma MergeIsPlan(roles: Roles, staged: Staged, node: string)
    ensures RoleOf(Merge(roles, staged), node) == Planned(roles, staged, node)
  {
  }

  // ---- The invariant ----

  /** Unless disturbed, the caller's changes are what the next layout will hold, whether still staged
      or already applied by someone else. */
  ghost predicate CallerOk(e: Engine, k: Caller) {
    !k.phase.MustStage? ==>
      forall n :: n in Nodes(k.changes) && n !in k.disturbed ==> Planned(e.roles, e.staged, n) == WantedRole(k.changes, n)
  }

  ghost predicate InForce(roles: Roles, w: Win) {
    forall n :: n in Nodes(w.changes) && n !in w.disturbed ==> RoleOf(roles, n) == WantedRole(w.changes, n)
  }

  ghost predicate WinOk(s: World, w: Win) {
    w.version in s.layouts && w.version <= s.engine.version && InForce(s.layouts[w.version], w)
  }

  ghost predicate VersionsOk(v0: nat, s: World) {
    && s.engine.version == v0 + |s.applied|
    && (forall i :: 0 <= i < |s.applied| ==> s.applied[i] == v0 + 1 + i)
    && (forall i :: 0 <= i < |s.wins| ==> v0 < s.wins[i].version <= s.engine.version)
    && (forall i, j :: 0 <= i < j < |s.wins| ==> s.wins[i].version < s.wins[j].version)
  }

  ghost predicate Inv(v0: nat, s: World) {
    && VersionsOk(v0, s)
    && (forall c :: c in s.callers ==> CallerOk(s.engine, s.callers[c]))
    && (forall i :: 0 <= i < |s.wins| ==> WinOk(s, s.wins[i]))
  }

  lemma StageKeepsCallers(s: World, c: nat, acked: bool, d: nat)
    requires c in s.callers && s.callers[c].phase.MustStage? && d in StageStep(s, c, acked).callers
    requires d in s.callers ==> CallerOk(s.engine, s.callers[d])
    ensures CallerOk(StageStep(s, c, acked).engine, StageStep(s, c, acked).callers[d])
  {
    var s' := StageStep(s, c, acked);
    var k := s'.callers[d];
    forall n | n in Nodes(k.changes) && n !in k.disturbed && !k.phase.MustStage?
      ensures Planned(s'.engine.roles, s'.engine.staged, n) == WantedRole(k.changes, n)
    {
      StagedChange(s.engine.staged, s.callers[c].changes, n);
    }
  }

  lemma ApplyKeepsCallers(e: Engine, k: Caller)
    requires CallerOk(e, k)
    ensures CallerOk(ApplyEngine(e), k)
  {
    forall n | n in Nodes(k.changes) && n !in k.disturbed && !k.phase.MustStage?
      ensures Planned(ApplyEngine(e).roles, map[], n) == WantedRole(k.changes, n)
    {
      MergeIsPlan(e.roles, e.staged, n);
    }
  }

  lemma ApplyWins(e: Engine, k: Caller, w: Win)
    requires CallerOk(e, k) && !k.phase.MustStage? && w.changes == k.changes && w.disturbed == k.disturbed
    ensures InForce(ApplyEngine(e).roles, w)
  {
    forall n | n in Nodes(k.changes) && n !in k.disturbed
      ensures RoleOf(ApplyEngine(e).roles, n) == WantedRole(k.changes, n)
    {
      MergeIsPlan(e.roles, e.staged, n);
    }
  }

  lemma StageKeepsInv(v0: nat, s: World, c: nat, acked: bool)
    requires Inv(v0, s) && c in s.callers && s.callers[c].phase.MustStage?
    ensures Inv(v0, StageStep(s, c, acked))
  {
    var s' := StageStep(s, c, acked);
    forall d | d in s'.callers ensures CallerOk(s'.engine, s'.callers[d]) {
      StageKeepsCallers(s, c, acked, d);
    }
    forall i | 0 <= i < |s'.wins| ensures WinOk(s', s'.wins[i]) {
      assert WinOk(s, s.wins[i]);
    }
  }

  lemma ApplyKeepsInv(v0: nat, s: World, c: nat, accepted: bool, acked: bool)
    requires Inv(v0, s) && c in s.callers && s.callers[c].phase.MustApply?
    ensures Inv(v0, ApplyStep(s, c, accepted, acked))
  {
    var s' := ApplyStep(s, c, accepted, acked);
    var k := s.callers[c];
    forall d | d in s'.callers ensures CallerOk(s'.engine, s'.callers[d]) {
      ApplyKeepsCallers(s.engine, s.callers[d]);
    }
    ApplyWins(s.engine, k, Win(s.engine.version + 1, k.changes, k.disturbed));
    forall i | 0 <= i < |s'.wins| ensures WinOk(s', s'.wins[i]) {
      if i < |s.wins| {
        assert WinOk(s, s.wins[i]) && s'.wins[i] == s.wins[i];
      }
    }
  }

  lemma OtherStepKeepsInv(v0: nat, s: World, a: Step)
    requires Inv(v0, s) && !a.Stage? && !a.Apply?
    ensures Inv(v0, Next(s, a))
  {
    var s' := Next(s, a);
    forall d | d in s'.callers ensures CallerOk(s'.engine, s'.callers[d]) {
      if d in s.callers {
        assert CallerOk(s.engine, s.callers[d]);
      }
    }
    forall i | 0 <= i < |s'.wins| ensures WinOk(s', s'.wins[i]) {
      assert WinOk(s, s.wins[i]);
    }
  }

  lemma {:induction false} RunKeepsInv(v0: nat, s: World, steps: seq<Step>)
    requires Inv(v0, s)
    ensures Inv(v0, Run(s, steps))
    decreases |steps|
  {
    if steps != [] {
      var a := steps[0];
      if a.Stage? {
        if a.c in s.callers && s.callers[a.c].phase.MustStage? {
          StageKeepsInv(v0, s, a.c, a.acked);
        }
      } else if a.Apply? {
        if a.c in s.callers && s.callers[a.c].phase.MustApply? {
          ApplyKeepsInv(v0, s, a.c, a.accepted, a.acked);
        }
      } else {
        OtherStepKeepsInv(v0, s, a);
      }
      RunKeepsInv(v0, Next(s, a), steps[1..]);
    }
  }

  /** In every interleaving of any callers, with lost replies, crashes and reverts: each successful
      apply raises the version by exactly one; the versions returned to callers are distinct and
      ascending; and a successful call's change of a node is in force at the version it returns,
      unless someone else replaced or reverted that node's staged change meanwhile. */
  lemma SuccessfulEditsAreInForce(s: World, steps: seq<Step>)
    requires Init(s)
    ensures var s' := Run(s, steps);
      && s'.engine.version == s.engine.version + |s'.applied|
      && (forall i :: 0 <= i < |s'.applied| ==> s'.applied[i] == s.engine.version + 1 + i)
      && (forall i, j :: 0 <= i < j < |s'.wins| ==> s'.wins[i].version < s'.wins[j].version)
      && (forall i :: 0 <= i < |s'.wins| ==>
            s'.wins[i].version in s'.layouts && InForce(s'.layouts[s'.wins[i].version], s'.wins[i]))
  {
    RunKeepsInv(s.engine.version, s, steps);
    var s' := Run(s, steps);
    forall i | 0 <= i < |s'.wins| ensures WinOk(s', s'.wins[i]) { }
  }

  // ---- Single calls ----

  /** The engine changes its layout only for the version after the current one. */
  lemma OnlyNextVersionIsApplied(s: World, c: nat, accepted: bool, acked: bool)
    requires c in s.callers && s.callers[c].phase.MustApply?
    ensures var s' := Next(s, Apply(c, accepted, acked));
      && (s'.engine == s.engine || s'.engine == ApplyEngine(s.engine)) && c !in s'.callers
      && (s'.engine.version != s.engine.version <==> accepted && s.callers[c].phase.version == s.engine.version + 1)
      && (|s'.wins| > |s.wins| <==> acked && s'.engine.version != s.engine.version)
  {
  }

  /** An edit without changes does nothing; any other, left undisturbed, wins the next version, at which
      each of its nodes has the role asked for last and every other node the role planned for it. */
  lemma UndisturbedEdit(s: World, c: nat, changes: seq<Change>, node: string)
    requires c !in s.callers
    ensures changes == [] ==> Next(s, Edit(c, changes)) == s
    ensures changes != [] ==>
      var s' := Next(Next(Next(Next(s, Edit(c, changes)), Stage(c, true)), Read(c)), Apply(c, true, true));
      && s'.engine.version == s.engine.version + 1 && s'.engine.staged == map[]
      && |s'.wins| == |s.wins| + 1 && s'.wins[|s.wins|] == Win(s.engine.version + 1, changes, {})
      && RoleOf(s'.engine.roles, node) ==
         (if node in Nodes(changes) then WantedRole(changes, node) else Planned(s.engine.roles, s.engine.staged, node))
  {
    if changes != [] {
      var s1 := Next(s, Edit(c, changes));
      var s2 := Next(s1, Stage(c, true));
      assert s2.callers[c] == Caller(changes, {}, MustRead) && s2.wins == s.wins;
      assert s2.engine == s.engine.(staged := StageAll(s.engine.staged, changes));
      var s3 := Next(s2, Read(c));
      assert s3.callers[c] == Caller(changes, {}, MustApply(s.engine.version + 1)) && s3.engine == s2.engine && s3.wins == s.wins;
      StagedChange(s.engine.staged, changes, node);
      MergeIsPlan(s3.engine.roles, s3.engine.staged, node);
    }
  }

  // ---- Bootstraps of one node ----

  /** Only bootstraps of the node, one at a time, each giving it a capacity. */
  predicate OnlyBootstraps(steps: seq<Step>, node: string) {
    forall i :: 0 <= i < |steps| ==> BootstrapAction(steps[i], node)
  }

  predicate BootstrapAction(a: Step, node: string) {
    && !a.Edit? && !a.Revert? && a.c == 0
    && (a.Bootstrap? ==> a.node == node && a.role.capacity.Some?)
  }

  ghost predicate BootInv(e0: Engine, node: string, s: World) {
    && (forall c :: c in s.callers ==> c == 0)
    && (0 in s.callers ==>
          var k := s.callers[0];
          && |k.changes| == 1 && k.changes[0].Assign? && k.changes[0].node == node && k.changes[0].role.capacity.Some?
          && s.engine.version == e0.version && !HasStorageRole(e0.roles, node)
          && (!k.phase.MustStage? ==> node in s.engine.staged && s.engine.staged[node] == k.changes[0]))
    && (s.engine.version == e0.version ==> s.engine.roles == e0.roles)
    && (HasStorageRole(e0.roles, node) ==> s.engine == e0)
    && (s.engine.version == e0.version || (s.engine.version == e0.version + 1 && HasStorageRole(s.engine.roles, node)))
  }

  lemma BootStageKeeps(e0: Engine, node: string, s: World, acked: bool)
    requires BootInv(e0, node, s) && 0 in s.callers && s.callers[0].phase.MustStage?
    ensures BootInv(e0, node, StageStep(s, 0, acked))
  {
    var k := s.callers[0];
    assert k.changes[..0] == [];
    assert StageAll(s.engine.staged, k.changes) == s.engine.staged[node := k.changes[0]];
  }

  lemma BootApplyKeeps(e0: Engine, node: string, s: World, accepted: bool, acked: bool)
    requires BootInv(e0, node, s) && 0 in s.callers && s.callers[0].phase.MustApply?
    ensures BootInv(e0, node, ApplyStep(s, 0, accepted, acked))
  {
    MergeIsPlan(s.engine.roles, s.engine.staged, node);
  }

  lemma {:induction false} BootRun(e0: Engine, node: string, s: World, steps: seq<Step>)
    requires BootInv(e0, node, s) && OnlyBootstraps(steps, node)
    ensures BootInv(e0, node, Run(s, steps))
    decreases |steps|
  {
    if steps != [] {
      var a := steps[0];
      assert BootstrapAction(a, node);
      if a.Stage? {
        if 0 in s.callers && s.callers[0].phase.MustStage? {
          BootStageKeeps(e0, node, s, a.acked);
        }
      } else if a.Apply? {
        if 0 in s.callers && s.callers[0].phase.MustApply? {
          BootApplyKeeps(e0, node, s, a.accepted, a.acked);
        }
      }
      BootRun(e0, node, Next(s, a), steps[1..]);
    }
  }

  /** However often a node is bootstrapped and however the bootstraps crash, fail or lose replies, as
      long as no other layout caller is active they apply at most one version in total; none if the
      node had a storage role, and after one the node has it. */
  lemma BootstrapsApplyAtMostOnce(s: World, steps: seq<Step>, node: string)
    requires Init(s) && OnlyBootstraps(steps, node)
    ensures var e := Run(s, steps).engine;
      && s.engine.version <= e.version <= s.engine.version + 1
      && (HasStorageRole(s.engine.roles, node) ==> e == s.engine)
      && (e.version == s.engine.version ==> e.roles == s.engine.roles)
      && (e.version == s.engine.version + 1 ==> HasStorageRole(e.roles, node))
  {
    BootRun(s.engine, node, s, steps);
  }

  /** Overlapping bootstraps break this: two that both find no role apply two versions. */
  lemma OverlappingBootstrapsApplyTwice(s: World, node: string, role: Role)
    requires Init(s) && !HasStorageRole(s.engine.roles, node)
    ensures var t := Next(Next(s, Bootstrap(0, node, role)), Bootstrap(1, node, role));
            var u := Next(Next(Next(t, Stage(0, true)), Read(0)), Apply(0, true, true));
            Next(Next(Next(u, Stage(1, true)), Read(1)), Apply(1, true, true)).engine.version == s.engine.version + 2
  {
    var t := Next(Next(s, Bootstrap(0, node, role)), Bootstrap(1, node, role));
    assert t.engine == s.engine;
    SoloRound(t, 0);
    SoloRound(Next(Next(Next(t, Stage(0, true)), Read(0)), Apply(0, true, true)), 1);
  }

  /** A caller that nobody disturbs between its stage and its apply wins the next version. */
  lemma SoloRound(s: World, c: nat)
    requires c in s.callers && s.callers[c].phase.MustStage?
    ensures var s' := Next(Next(Next(s, Stage(c, true)), Read(c)), Apply(c, true, true));
      && s'.engine == ApplyEngine(s.engine.(staged := StageAll(s.engine.staged, s.callers[c].changes)))
      && s'.callers.Keys == s.callers.Keys - {c}
      && (forall d :: d in s'.callers ==> s'.callers[d].phase == s.callers[d].phase)
  {
    var s1 := Next(s, Stage(c, true));
    assert s1.callers[c].phase == MustRead;
    var s2 := Next(s1, Read(c));
    assert s2.callers[c].phase == MustApply(s.engine.version + 1) && s2.engine == s1.engine;
  }

  // ---- Overlapping bootstraps ----

  /** Bootstraps of the node by any callers, each giving it a capacity; no other layout caller. */
  predicate AnyBootstrap(a: Step, node: string) {
    !a.Edit? && !a.Revert? && (a.Bootstrap? ==> a.node == node && a.role.capacity.Some?)
  }

  predicate Storage(r: Option<Role>) {
    r.Some? && r.value.capacity.Some?
  }

  predicate IsBootstrapOf(k: Caller, node: string) {
    |k.changes| == 1 && k.changes[0].Assign? && k.changes[0].node == node && k.changes[0].role.capacity.Some?
  }

  /** Once a bootstrap has staged its change, or a version was applied, the next layout gives the node a
      storage role; after the first apply the current one does. */
  ghost predicate RoleInv(v0: nat, node: string, s: World) {
    && (forall c :: c in s.callers ==> IsBootstrapOf(s.callers[c], node))
    && (forall c :: c in s.callers && !s.callers[c].phase.MustStage? ==> Storage(Planned(s.engine.roles, s.engine.staged, node)))
    && (s.engine.version > v0 ==> Storage(Planned(s.engine.roles, s.engine.staged, node)) && HasStorageRole(s.engine.roles, node))
    && s.engine.version >= v0
  }

  /** The step is a bootstrap that passes the role check. */
  predicate Admits(s: World, a: Step) {
    a.Bootstrap? && a.c !in s.callers && !HasStorageRole(s.engine.roles, a.node)
  }

  /** The bootstraps of a run that pass the check while the version is still v0. */
  function AdmittedAt(v0: nat, s: World, steps: seq<Step>): nat
    decreases |steps|
  {
    if steps == [] then 0
    else (if s.engine.version == v0 && Admits(s, steps[0]) then 1 else 0) + AdmittedAt(v0, Next(s, steps[0]), steps[1..])
  }

  lemma StageKeepsRole(v0: nat, node: string, s: World, c: nat, acked: bool)
    requires RoleInv(v0, node, s) && c in s.callers && s.callers[c].phase.MustStage?
    ensures RoleInv(v0, node, StageStep(s, c, acked))
  {
    var k := s.callers[c];
    assert k.changes[..0] == [];
    assert StageAll(s.engine.staged, k.changes) == s.engine.staged[node := k.changes[0]];
  }

  lemma ApplyKeepsRole(v0: nat, node: string, s: World, c: nat, accepted: bool, acked: bool)
    requires RoleInv(v0, node, s) && c in s.callers && s.callers[c].phase.MustApply?
    ensures RoleInv(v0, node, ApplyStep(s, c, accepted, acked))
  {
    MergeIsPlan(s.engine.roles, s.engine.staged, node);
  }

  lemma StepKeepsRole(v0: nat, node: string, s: World, a: Step)
    requires RoleInv(v0, node, s) && AnyBootstrap(a, node)
    ensures RoleInv(v0, node, Next(s, a))
  {
    if a.Stage? {
      if a.c in s.callers && s.callers[a.c].phase.MustStage? {
        StageKeepsRole(v0, node, s, a.c, a.acked);
      }
    } else if a.Apply? {
      if a.c in s.callers && s.callers[a.c].phase.MustApply? {
        ApplyKeepsRole(v0, node, s, a.c, a.accepted, a.acked);
      }
    }
  }

  lemma CallerCount(k: map<nat, Caller>, k': map<nat, Caller>, c: nat)
    ensures k'.Keys == k.Keys ==> |k'| == |k|
    ensures k'.Keys == k.Keys + {c} ==> |k'| <= |k| + 1
    ensures k'.Keys == k.Keys - {c} ==> |k'| <= |k| && (c in k ==> |k'| == |k| - 1)
  {
    assert |k'| == |k'.Keys| && |k| == |k.Keys|;
  }

  /** Callers only appear admitted, and an apply ends its caller. */
  lemma CallersMove(s: World, a: Step)
    requires !a.Edit? && !a.Revert?
    ensures var s' := Next(s, a);
      || (s'.callers.Keys == s.callers.Keys && s'.engine.version == s.engine.version)
      || (Admits(s, a) && s'.callers.Keys == s.callers.Keys + {a.c} && s'.engine.version == s.engine.version)
      || (s'.callers.Keys == s.callers.Keys - {a.c} && s'.engine.version == s.engine.version)
      || (a.c in s.callers && s'.callers.Keys == s.callers.Keys - {a.c} && s'.engine.version == s.engine.version + 1)
  {
  }

  lemma VersionsAndCallers(v0: nat, node: string, s: World, a: Step)
    requires RoleInv(v0, node, s) && AnyBootstrap(a, node)
    ensures Next(s, a).engine.version + |Next(s, a).callers| <=
            s.engine.version + |s.callers| + if s.engine.version == v0 && Admits(s, a) then 1 else 0
  {
    CallersMove(s, a);
    CallerCount(s.callers, Next(s, a).callers, a.c);
  }

  lemma {:induction false} AppliedAtMostAdmitted(v0: nat, node: string, s: World, steps: seq<Step>)
    requires RoleInv(v0, node, s) && forall i :: 0 <= i < |steps| ==> AnyBootstrap(steps[i], node)
    ensures Run(s, steps).engine.version <= s.engine.version + |s.callers| + AdmittedAt(v0, s, steps)
    decreases |steps|
  {
    if steps != [] {
      assert AnyBootstrap(steps[0], node);
      StepKeepsRole(v0, node, s, steps[0]);
      VersionsAndCallers(v0, node, s, steps[0]);
      AppliedAtMostAdmitted(v0, node, Next(s, steps[0]), steps[1..]);
    }
  }

  /** However bootstraps of one node overlap, crash or lose replies, as long as there is no other layout
      caller they apply at most as many versions as bootstraps passed the role check before the first
      version was applied. */
  lemma OverlappingBootstrapsAreBounded(s: World, steps: seq<Step>, node: string)
    requires Init(s) && forall i :: 0 <= i < |steps| ==> AnyBootstrap(steps[i], node)
    ensures Run(s, steps).engine.version <= s.engine.version + AdmittedAt(s.engine.version, s, steps)
  {
    AppliedAtMostAdmitted(s.engine.version, node, s, steps);
  }

  // ---- One caller at a time ----

  /** A row of the layout listing. */
  datatype Entry = Entry(node: string, role: Role)

  /** The request that fails, if any; a failed write may still have taken effect. */
  datatype Fault = NoFault | StageFails(landed: bool) | ReadFails | ApplyFails(landed: bool)

  ghost predicate Lists(entries: seq<Entry>, roles: Roles) {
    && (forall i :: 0 <= i < |entries| ==> entries[i].node in roles && roles[entries[i].node] == entries[i].role)
    && (forall n :: n in roles ==> exists i :: 0 <= i < |entries| && entries[i].node == n)
  }

  method NodeHasStorageRole(layout: seq<Entry>, node: string) returns (found: bool)
    ensures found <==> exists i :: 0 <= i < |layout| && layout[i].node == node && layout[i].role.capacity.Some?
  {
    for i := 0 to |layout|
      invariant forall j :: 0 <= j < i ==> layout[j].node != node || layout[j].role.capacity.None?
    {
      if layout[i].node == node && layout[i].role.capacity.Some? {
        return true;
      }
    }
    return false;
  }

  const DEFAULT_ZONE := "dc1"
  const DEFAULT_CAPACITY := 107_374_182_400

  class LayoutClient {
    var engine: Engine

    constructor (engine: Engine)
      ensures this.engine == engine
    {
      this.engine := engine;
    }

    /** The layout listing, in any order. */
    method GetLayout() returns (entries: seq<Entry>)
      ensures Lists(entries, engine.roles)
    {
      entries := [];
      var rest := engine.roles.Keys;
      while rest != {}
        invariant rest <= engine.roles.Keys
        invariant forall i :: 0 <= i < |entries| ==>
          entries[i].node in engine.roles && engine.roles[entries[i].node] == entries[i].role
        invariant forall n :: n in engine.roles && n !in rest ==> exists i :: 0 <= i < |entries| && entries[i].node == n
        decreases |rest|
      {
        var n :| n in rest;
        ghost var before := entries;
        entries := entries + [Entry(n, engine.roles[n])];
        rest := rest - {n};
        forall m | m in engine.roles && m !in rest ensures exists i :: 0 <= i < |entries| && entries[i].node == m {
          if m == n {
            assert entries[|before|].node == m;
          } else {
            var i :| 0 <= i < |before| && before[i].node == m;
            assert entries[i].node == m;
          }
        }
      }
    }

    /** Stages the changes and applies them as the next version. */
    method StageAndApplyRoles(changes: seq<Change>, fault: Fault) returns (r: Option<nat>)
      modifies this
      ensures r.Some? <==> changes != [] && fault == NoFault
      ensures r.Some? ==> r.value == engine.version == old(engine.version) + 1
      ensures engine.version > old(engine.version) ==>
        && engine.staged == map[]
        && forall n :: RoleOf(engine.roles, n) ==
             if n in Nodes(changes) then WantedRole(changes, n) else old(Planned(engine.roles, engine.staged, n))
      ensures engine.version == old(engine.version) +
        if changes != [] && (fault == NoFault || fault == ApplyFails(true)) then 1 else 0
      ensures changes != [] && (fault == StageFails(true) || fault == ReadFails || fault == ApplyFails(false)) ==>
        engine == old(engine).(staged := StageAll(old(engine.staged), changes))
      ensures fault == StageFails(false) ==> engine == old(engine)
      ensures engine.version == old(engine.version) ==> engine.roles == old(engine.roles)
      ensures changes == [] ==> engine == old(engine)
    {
      if changes == [] {
        return None;
      }
      if fault == StageFails(false) {
        return None;
      }
      engine := engine.(staged := StageAll(engine.staged, changes));
      if fault.StageFails? || fault == ReadFails {
        return None;
      }
      var next := engine.version + 1;
      if fault == ApplyFails(false) {
        return None;
      }
      ghost var e := engine;
      engine := ApplyEngine(engine);
      forall n ensures RoleOf(engine.roles, n) ==
        if n in Nodes(changes) then WantedRole(changes, n) else old(Planned(engine.roles, engine.staged, n))
      {
        MergeIsPlan(e.roles, e.staged, n);
        StagedChange(old(engine.staged), changes, n);
      }
      if fault.ApplyFails? {
        return None;
      }
      return Some(next);
    }

    /** Gives a node its role: a storage role when the capacity is positive, else a gateway role.
        `connected` says whether the peer could be reached (true when no peer is given). */
    method AddOrUpdateNode(node: string, connected: bool, zone: string, capacity: int, tags: seq<string>, fault: Fault)
      returns (r: Option<nat>)
      modifies this
      ensures r.Some? <==> node != "" && connected && fault == NoFault
      ensures r.Some? ==> r.value == engine.version == old(engine.version) + 1
      ensures r.Some? ==> node in engine.roles && engine.roles[node].zone == zone && engine.roles[node].tags == tags
      ensures r.Some? ==> engine.roles[node].capacity == if capacity > 0 then Some(capacity) else None
      ensures r.Some? ==> (HasStorageRole(engine.roles, node) <==> capacity > 0)
      ensures r.Some? ==> forall n :: n != node ==> RoleOf(engine.roles, n) == old(Planned(engine.roles, engine.staged, n))
      ensures node == "" || !connected ==> engine == old(engine)
    {
      if node == "" || !connected {
        return None;
      }
      var change := Assign(node, Role(zone, if capacity > 0 then Some(capacity) else None, tags));
      r := StageAndApplyRoles([change], fault);
      assert Nodes([change]) == {node} by {
        assert [change][0].node == node;
      }
      assert r.Some? ==> RoleOf(engine.roles, node) == Some(change.role);
    }

    /** Takes a node out of the layout. */
    method RemoveNode(node: string, fault: Fault) returns (r: Option<nat>)
      modifies this
      ensures r.Some? <==> node != "" && fault == NoFault
      ensures r.Some? ==> r.value == engine.version == old(engine.version) + 1 && node !in engine.roles
      ensures r.Some? ==> forall n :: n != node ==> RoleOf(engine.roles, n) == old(Planned(engine.roles, engine.staged, n))
      ensures node == "" ==> engine == old(engine)
    {
      if node == "" {
        return None;
      }
      r := StageAndApplyRoles([Unassign(node)], fault);
      assert Nodes([Unassign(node)]) == {node} by {
        assert [Unassign(node)][0].node == node;
      }
      assert r.Some? ==> RoleOf(engine.roles, node) == None;
    }

    /** The version guard: an engine that reports a readable version below 2.0 is refused. */
    static predicate Admits(reported: string) {
      reported != "" && V.Parse(reported).Ok? ==> V.Supported(V.Parse(reported).version)
    }

    static function DefaultedRole(zone: string, capacity: int): Role {
      Role(if zone == "" then DEFAULT_ZONE else zone, Some(if capacity <= 0 then DEFAULT_CAPACITY else capacity), [])
    }

    /** Gives the node a storage role unless it has one; repeating it changes nothing. `readable` says
        whether the first layout read succeeds. Returns the layout version and whether it was applied. */
    method Bootstrap(node: string, reported: string, zone: string, capacity: int, readable: bool, fault: Fault)
      returns (r: Option<(nat, bool)>)
      modifies this
      ensures r.Some? ==> Admits(reported) && node != "" && HasStorageRole(engine.roles, node) && r.value.0 == engine.version
      ensures r.Some? ==> (r.value.1 <==> !HasStorageRole(old(engine.roles), node))
      ensures old(engine.version) <= engine.version <= old(engine.version) + 1
      ensures engine.version == old(engine.version) ==> engine.roles == old(engine.roles)
      ensures engine.version > old(engine.version) ==>
        && node in engine.roles && HasStorageRole(engine.roles, node)
        && engine.roles[node].zone == (if zone == "" then "dc1" else zone)
        && engine.roles[node].capacity == Some(if capacity <= 0 then 107_374_182_400 else capacity)
        && engine.roles[node].tags == []
      ensures HasStorageRole(old(engine.roles), node) || !Admits(reported) ==> engine == old(engine)
      ensures node != "" && Admits(reported) && readable && (fault == NoFault || HasStorageRole(old(engine.roles), node)) ==> r.Some?
    {
      if node == "" || !Admits(reported) || !readable {
        return None;
      }
      var layout := GetLayout();
      var has := NodeHasStorageRole(layout, node);
      assert has <==> HasStorageRole(engine.roles, node);
      if has {
        return Some((engine.version, false));
      }
      var change := Assign(node, DefaultedRole(zone, capacity));
      var v := StageAndApplyRoles([change], fault);
      assert node in Nodes([change]) by {
        assert [change][0].node == node;
      }
      assert engine.version > old(engine.version) ==> RoleOf(engine.roles, node) == Some(change.role);
      if v.None? {
        return None;
      }
      return Some((v.value, true));
    }
  }
}
