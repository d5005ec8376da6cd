/** One pass of the supervisor loop without interruption: restarting stale workers, then replacing ended ones. */
module SupervisorPass {
  import opened Options
  import opened Positions
  import opened Supervisor
  import opened Text

  function Slot(c: Config, w: WorkerId): Option<nat> {
    match WorkerIndex(w, c.prefix)
    case None => None
    case Some(i) => if 0 <= i < c.workers then Some(i) else None
  }

  /** End the slot's process, release its stale locks, start a new process. Ids of no slot are passed over. */
  function Restart(c: Config, s: State, w: WorkerId): State
    requires |s.children| == c.workers
  {
    match Slot(c, w)
    case None => s
    case Some(i) =>
      var ended := Ends(s, s.children[i]);
      Spawn(c, ended.(queue := ReleaseLocks(c, ended, w)), i)
  }

  function RestartAll(c: Config, s: State, ids: seq<WorkerId>): (t: State)
    requires |s.children| == c.workers
    ensures |t.children| == c.workers
    decreases |ids|
  {
    if ids == [] then s else RestartAll(c, Restart(c, s, ids[0]), ids[1..])
  }

  function Replace(c: Config, s: State, i: nat): (t: State)
    requires i < |s.children|
    ensures |t.children| == |s.children|
  {
    if Alive(s, s.children[i]) then s else Spawn(c, s, i)
  }

  function ReplaceFrom(c: Config, s: State, i: nat): (t: State)
    requires i <= |s.children| == c.workers
    ensures |t.children| == c.workers
    decreases c.workers - i
  {
    if i == c.workers then s else ReplaceFrom(c, Replace(c, s, i), i + 1)
  }

  function Pass(c: Config, s: State, ids: seq<WorkerId>): State
    requires |s.children| == c.workers
  {
    ReplaceFrom(c, RestartAll(c, s, ids), 0)
  }

  function Owners(c: Config, ids: seq<WorkerId>): seq<WorkerId> {
    if ids == [] then []
    else Owners(c, ids[..|ids| - 1]) + if Slot(c, ids[|ids| - 1]).Some? then [ids[|ids| - 1]] else []
  }

  lemma OwnersNext(c: Config, ids: seq<WorkerId>, k: nat)
    requires k < |ids|
    ensures Owners(c, ids[..k + 1]) == Owners(c, ids[..k]) + if Slot(c, ids[k]).Some? then [ids[k]] else []
  {
    assert ids[..k + 1][..k] == ids[..k];
  }

  ghost predicate NamesSome(c: Config, id: WorkerId) { exists i :: OwnSlot(c, id, i) }

  ghost function NamesSlot(c: Config, ids: seq<WorkerId>): nat -> bool {
    (k: nat) => k < |ids| && NamesSome(c, ids[k])
  }

  lemma SlotIffNames(c: Config, id: WorkerId)
    ensures Slot(c, id).Some? <==> NamesSome(c, id)
  {
    if Slot(c, id).Some? { assert OwnSlot(c, id, Slot(c, id).value); }
  }

  lemma OwnersStep(c: Config, ids: seq<WorkerId>, at: seq<nat>, n: nat)
    requires n < |ids| && Below(at, |ids|) && Owners(c, ids[..n]) == Pick(ids, at)
    ensures var next := if NamesSome(c, ids[n]) then at + [n] else at;
      Below(next, |ids|) && Owners(c, ids[..n + 1]) == Pick(ids, next)
  {
    OwnersNext(c, ids, n);
    SlotIffNames(c, ids[n]);
    if NamesSome(c, ids[n]) { PickNext(ids, at, n); }
  }

  lemma {:induction false} OwnersByPosition(c: Config, ids: seq<WorkerId>, n: nat)
    requires n <= |ids|
    ensures Below(Where(NamesSlot(c, ids), n), |ids|)
    ensures Owners(c, ids[..n]) == Pick(ids, Where(NamesSlot(c, ids), n))
  {
    if n == 0 {
      assert ids[..n] == [];
    } else {
      OwnersByPosition(c, ids, n - 1);
      OwnersStep(c, ids, Where(NamesSlot(c, ids), n - 1), n - 1);
    }
  }

  /** The restarted workers are the listed ids that name a slot of this supervisor, in the order listed. */
  lemma OwnersAreSlots(c: Config, ids: seq<WorkerId>)
    ensures var at := Where(NamesSlot(c, ids), |ids|);
      && (forall i, j | 0 <= i < j < |at| :: at[i] < at[j])
      && (forall k: nat :: k in at <==> k < |ids| && NamesSome(c, ids[k]))
      && |Owners(c, ids)| == |at| && forall i | 0 <= i < |at| :: at[i] < |ids| && Owners(c, ids)[i] == ids[at[i]]
  {
    WhereMeaning(NamesSlot(c, ids), |ids|);
    OwnersByPosition(c, ids, |ids|);
    PickMeaning(ids, Where(NamesSlot(c, ids), |ids|));
    assert ids[..|ids|] == ids;
  }

  lemma RestartAllNext(c: Config, s: State, ids: seq<WorkerId>, k: nat)
    requires |s.children| == c.workers && k < |ids|
    ensures RestartAll(c, s, ids[k..]) == RestartAll(c, Restart(c, s, ids[k]), ids[k + 1..])
  {
    assert ids[k..][0] == ids[k] && ids[k..][1..] == ids[k + 1..];
  }

  predicate Releasable(c: Config, now: int, row: QueueRow, w: WorkerId) {
    !row.done && row.lock.Some? && row.lock.value.owner == w && row.lock.value.at < now - c.staleSeconds
  }

  function StaleRows(c: Config, now: int, queue: map<RowId, QueueRow>, w: WorkerId): set<RowId> {
    set r | r in queue && Releasable(c, now, queue[r], w)
  }

  /** Releasing row by row is the machine's release. */
  lemma ReleasedRows(c: Config, s: State, w: WorkerId, queue: map<RowId, QueueRow>)
    requires queue.Keys == s.queue.Keys
    requires forall r | r in queue ::
      queue[r] == if Releasable(c, s.now, s.queue[r], w) then s.queue[r].(lock := None) else s.queue[r]
    ensures queue == ReleaseLocks(c, s, w)
  {
  }

  class Supervision {
    const c: Config
    var now: int
    var queue: map<RowId, QueueRow>
    var procs: seq<Process>
    var children: seq<nat>

    constructor (c: Config, now: int, queue: map<RowId, QueueRow>)
      ensures this.c == c && Slots(c, Tables())
      ensures this.now == now && this.queue == queue
    {
      this.c, this.now, this.queue := c, now, queue;
      procs := seq(c.workers, i requires 0 <= i < c.workers => Process(SlotId(c.prefix, i), true, {}));
      children := seq(c.workers, i requires 0 <= i < c.workers => i);
    }

    function Tables(): State
      reads this
    {
      State(now, queue, procs, children, Listing)
    }

    method TerminateProcessGroup(p: nat)
      modifies this`procs
      ensures Tables() == Ends(old(Tables()), p)
    {
      if p >= |procs| || !procs[p].alive { return; }
      procs := procs[p := procs[p].(alive := false)];
    }

    /** Releases one worker's stale incomplete rows, and no other, and says how many there were. */
    method ReleaseWorkerLocks(w: WorkerId) returns (unlocked: nat)
      modifies this`queue
      ensures queue.Keys == old(queue).Keys
      ensures forall r | r in queue ::
        queue[r] == if Releasable(c, now, old(queue)[r], w) then old(queue)[r].(lock := None) else old(queue)[r]
      ensures unlocked == |StaleRows(c, now, old(queue), w)|
    {
      var stale := StaleRows(c, now, queue, w);
      queue := queue + map r | r in stale :: queue[r].(lock := None);
      unlocked := |stale|;
    }

    method SpawnChild(index: nat) returns (p: nat)
      requires index < |children|
      modifies this`procs
      ensures p == old(|procs|) && Tables().(children := children[index := p]) == Spawn(c, old(Tables()), index)
    {
      p := |procs|;
      procs := procs + [Process(SlotId(c.prefix, index), true, {})];
    }

    /** End, release, respawn. */
    method RestartSlot(w: WorkerId, index: nat)
      requires |children| == c.workers && Slot(c, w) == Some(index)
      modifies this
      ensures Tables() == Restart(c, old(Tables()), w)
    {
      TerminateProcessGroup(children[index]);
      ghost var ended := Tables();
      var unlocked := ReleaseWorkerLocks(w);
      ReleasedRows(c, ended, w, queue);
      var p := SpawnChild(index);
      children := children[index := p];
    }

    method RestartStale(ids: seq<WorkerId>) returns (restarted: seq<WorkerId>)
      requires |children| == c.workers
      modifies this
      ensures Tables() == RestartAll(c, old(Tables()), ids) && restarted == Owners(c, ids)
    {
      restarted := [];
      for k := 0 to |ids|
        invariant |children| == c.workers
        invariant RestartAll(c, old(Tables()), ids) == RestartAll(c, Tables(), ids[k..])
        invariant restarted == Owners(c, ids[..k])
      {
        RestartAllNext(c, Tables(), ids, k);
        OwnersNext(c, ids, k);
        var index := WorkerIndex(ids[k], c.prefix);
        if index.None? || index.value < 0 || index.value >= |children| { continue; }
        RestartSlot(ids[k], index.value);
        restarted := restarted + [ids[k]];
      }
      assert ids[..|ids|] == ids;
    }

    method ReplaceEnded()
      requires |children| == c.workers
      modifies this
      ensures Tables() == ReplaceFrom(c, old(Tables()), 0)
    {
      for i := 0 to |children|
        invariant |children| == c.workers
        invariant ReplaceFrom(c, old(Tables()), 0) == ReplaceFrom(c, Tables(), i)
      {
        if children[i] >= |procs| || !procs[children[i]].alive {
          var p := SpawnChild(i);
          children := children[i := p];
        }
      }
    }

    /** The body of the loop for the stale ids just listed. */
    method RunPass(ids: seq<WorkerId>) returns (restarted: seq<WorkerId>)
      requires |children| == c.workers
      modifies this
      ensures Tables() == Pass(c, old(Tables()), ids) && restarted == Owners(c, ids)
    {
      restarted := RestartStale(ids);
      ReplaceEnded();
    }
  }

  // -- What a pass achieves -----------------------------------------------------------------------------

  /** Slot j keeps its process as it is. */
  ghost predicate Untouched(s: State, t: State, j: nat) {
    && j < |s.children| == |t.children| && t.children[j] == s.children[j] < |s.procs| <= |t.procs|
    && t.procs[t.children[j]] == s.procs[s.children[j]]
  }

  /** Nothing else about the queue changes than that stale locks of the given workers are released. */
  ghost predicate OnlyReleased(c: Config, s: State, t: State, ids: seq<WorkerId>) {
    && t.now == s.now && t.queue.Keys == s.queue.Keys
    && forall r | r in s.queue :: t.queue[r] == s.queue[r] ||
         (t.queue[r] == s.queue[r].(lock := None) && Stale(s.queue[r], s.now, c.staleSeconds)
          && exists w | w in ids :: Slot(c, w).Some? && HeldBy(s.queue[r], w))
  }

  /** No incomplete stale row is held under the id. */
  ghost predicate Freed(c: Config, s: State, w: WorkerId) {
    forall r | r in s.queue :: !(Stale(s.queue[r], s.now, c.staleSeconds) && HeldBy(s.queue[r], w))
  }

  lemma ChildrenDiffer(c: Config, s: State, i: nat, j: nat)
    requires Slots(c, s) && i < c.workers && j < c.workers && i != j
    ensures s.children[i] != s.children[j]
  {
    if s.children[i] == s.children[j] { SlotIdInjective(c.prefix, i, j); }
  }

  lemma SpawnMeaning(c: Config, s: State, i: nat)
    requires Slots(c, s) && i < c.workers
    ensures var t := Spawn(c, s, i);
      && Slots(c, t) && Alive(t, t.children[i]) && t.queue == s.queue && t.now == s.now
      && forall j | 0 <= j < c.workers && j != i :: Untouched(s, t, j)
  {
  }

  lemma ReleaseMeaning(c: Config, s: State, w: WorkerId)
    requires Slot(c, w).Some?
    ensures var t := s.(queue := ReleaseLocks(c, s, w));
      && OnlyReleased(c, s, t, [w])
      && Freed(c, t, w)
  {
    assert w in [w];
  }

  lemma EndMeaning(c: Config, s: State, i: nat)
    requires Slots(c, s) && i < c.workers
    ensures var t := Ends(s, s.children[i]);
      && Slots(c, t) && t.queue == s.queue && t.now == s.now && t.children == s.children && |t.procs| == |s.procs|
      && forall j | 0 <= j < c.workers && j != i :: Untouched(s, t, j)
  {
    forall j | 0 <= j < c.workers && j != i ensures Untouched(s, Ends(s, s.children[i]), j) {
      ChildrenDiffer(c, s, i, j);
    }
  }

  lemma RestartMeaning(c: Config, s: State, w: WorkerId)
    requires Slots(c, s)
    ensures var t := Restart(c, s, w);
      && Slots(c, t) && OnlyReleased(c, s, t, [w])
      && (Slot(c, w).Some? ==> Freed(c, t, w))
      && forall j | 0 <= j < c.workers && Slot(c, w) != Some(j) :: Untouched(s, t, j)
  {
    if Slot(c, w).Some? {
      var i := Slot(c, w).value;
      var ended := Ends(s, s.children[i]);
      var freed := ended.(queue := ReleaseLocks(c, ended, w));
      EndMeaning(c, s, i);
      ReleaseMeaning(c, ended, w);
      assert Slots(c, freed);
      SpawnMeaning(c, freed, i);
      assert OnlyReleased(c, s, freed, [w]);
      forall j | 0 <= j < c.workers && j != i ensures Untouched(s, Restart(c, s, w), j) {
        assert Untouched(s, ended, j) && Untouched(freed, Restart(c, s, w), j);
      }
    }
  }

  lemma ReleasedTwice(c: Config, s: State, mid: State, t: State, w: WorkerId, ids: seq<WorkerId>)
    requires OnlyReleased(c, s, mid, [w]) && OnlyReleased(c, mid, t, ids)
    ensures OnlyReleased(c, s, t, [w] + ids)
  {
    var all := [w] + ids;
    assert w in all && forall v | v in ids :: v in all;
    forall r | r in s.queue && t.queue[r] != s.queue[r]
      ensures t.queue[r] == s.queue[r].(lock := None) && Stale(s.queue[r], s.now, c.staleSeconds)
      ensures exists v | v in all :: Slot(c, v).Some? && HeldBy(s.queue[r], v)
    {
      if mid.queue[r] == s.queue[r] {
        var v :| v in ids && Slot(c, v).Some? && HeldBy(mid.queue[r], v);
        assert v in all;
      }
    }
  }

  lemma StaysFreed(c: Config, s: State, t: State, w: WorkerId, ids: seq<WorkerId>)
    requires Freed(c, s, w) && OnlyReleased(c, s, t, ids)
    ensures Freed(c, t, w)
  {
  }

  lemma {:induction false} RestartAllMeaning(c: Config, s: State, ids: seq<WorkerId>)
    requires Slots(c, s)
    ensures var t := RestartAll(c, s, ids);
      && Slots(c, t) && OnlyReleased(c, s, t, ids)
      && forall w | w in ids && Slot(c, w).Some? :: Freed(c, t, w)
    decreases |ids|
  {
    if ids != [] {
      var w, rest := ids[0], ids[1..];
      var mid := Restart(c, s, w);
      var t := RestartAll(c, mid, rest);
      RestartMeaning(c, s, w);
      RestartAllMeaning(c, mid, rest);
      ReleasedTwice(c, s, mid, t, w, rest);
      assert ids == [w] + rest;
      if Slot(c, w).Some? { StaysFreed(c, mid, t, w, rest); }
    }
  }

  lemma {:induction false} RestartAllSpares(c: Config, s: State, ids: seq<WorkerId>, j: nat)
    requires Slots(c, s) && j < c.workers && forall w | w in ids :: Slot(c, w) != Some(j)
    ensures Untouched(s, RestartAll(c, s, ids), j)
    decreases |ids|
  {
    if ids != [] {
      RestartMeaning(c, s, ids[0]);
      RestartAllSpares(c, Restart(c, s, ids[0]), ids[1..], j);
    }
  }

  lemma {:induction false} ReplaceFromMeaning(c: Config, s: State, i: nat)
    requires Slots(c, s) && i <= c.workers && forall j | 0 <= j < i :: Alive(s, s.children[j])
    ensures var t := ReplaceFrom(c, s, i);
      && Slots(c, t) && t.queue == s.queue && t.now == s.now
      && (forall j | 0 <= j < c.workers :: Alive(t, t.children[j]))
      && forall j | 0 <= j < c.workers && Alive(s, s.children[j]) :: Untouched(s, t, j)
    decreases c.workers - i
  {
    if i < c.workers {
      var mid := Replace(c, s, i);
      SpawnMeaning(c, s, i);
      assert forall j | 0 <= j < c.workers && Alive(s, s.children[j]) :: Untouched(s, mid, j);
      ReplaceFromMeaning(c, mid, i + 1);
    }
  }

  lemma SlotIsFreed(c: Config, s: State, ids: seq<WorkerId>, i: nat)
    requires Slots(c, s) && i < c.workers && forall id :: StaleHolder(c, s, id) ==> id in ids
    ensures Freed(c, Pass(c, s, ids), SlotId(c.prefix, i))
  {
    var id, mid, t := SlotId(c.prefix, i), RestartAll(c, s, ids), Pass(c, s, ids);
    RestartAllMeaning(c, s, ids);
    ReplaceFromMeaning(c, mid, 0);
    SlotRoundTrip(c.prefix, i);
    PrefixOfSlot(c.prefix, i);
    if id !in ids {
      assert !StaleHolder(c, s, id);
      assert Freed(c, s, id);
      StaysFreed(c, s, mid, id, ids);
    }
  }

  /** After a pass no incomplete stale row is held under a slot's id and every slot has a live process; only stale
      locks of listed workers were released, and a slot that was alive and not listed kept its process. */
  lemma PassMeaning(c: Config, s: State, ids: seq<WorkerId>)
    requires Slots(c, s) && forall id :: StaleHolder(c, s, id) ==> id in ids
    ensures var t := Pass(c, s, ids);
      && Slots(c, t) && (forall i | 0 <= i < c.workers :: Alive(t, t.children[i]))
      && (forall i: nat | i < c.workers :: Freed(c, t, SlotId(c.prefix, i)))
      && OnlyReleased(c, s, t, ids)
      && forall i | 0 <= i < c.workers && Alive(s, s.children[i]) && (forall w | w in ids :: Slot(c, w) != Some(i)) ::
           Untouched(s, t, i)
  {
    var mid := RestartAll(c, s, ids);
    var t := Pass(c, s, ids);
    RestartAllMeaning(c, s, ids);
    ReplaceFromMeaning(c, mid, 0);
    forall i: nat | i < c.workers ensures Freed(c, t, SlotId(c.prefix, i)) { SlotIsFreed(c, s, ids, i); }
    forall i | 0 <= i < c.workers && Alive(s, s.children[i]) && (forall w | w in ids :: Slot(c, w) != Some(i))
      ensures Untouched(s, t, i)
    {
      RestartAllSpares(c, s, ids, i);
    }
  }

  lemma PrefixOfSlot(prefix: string, i: nat)
    ensures StartsWith(SlotId(prefix, i), prefix + "-")
  {
  }

  // -- A pass is a run of the machine ---------------------------------------------------------------------

  ghost predicate Chain(c: Config, s: State, steps: seq<Step>, t: State)
    decreases |steps|
  {
    if steps == [] then s == t
    else Enabled(c, s, steps[0]) && Chain(c, Apply(c, s, steps[0]), steps[1..], t)
  }

  lemma {:induction false} ChainJoin(c: Config, s: State, a: seq<Step>, t: State, b: seq<Step>, u: State)
    requires Chain(c, s, a, t) && Chain(c, t, b, u)
    ensures Chain(c, s, a + b, u)
    decreases |a|
  {
    if a == [] {
      assert a + b == b;
    } else {
      assert (a + b)[0] == a[0] && (a + b)[1..] == a[1..] + b;
      ChainJoin(c, Apply(c, s, a[0]), a[1..], t, b, u);
    }
  }

  /** Some sequence of enabled steps leads from s to t. */
  ghost predicate Reaches(c: Config, s: State, t: State) { exists steps :: Chain(c, s, steps, t) }

  lemma ReachesJoin(c: Config, s: State, t: State, u: State)
    requires Reaches(c, s, t) && Reaches(c, t, u)
    ensures Reaches(c, s, u)
  {
    var a :| Chain(c, s, a, t);
    var b :| Chain(c, t, b, u);
    ChainJoin(c, s, a, t, b, u);
  }

  lemma OneStep(c: Config, s: State, step: Step)
    requires Enabled(c, s, step)
    ensures Chain(c, s, [step], Apply(c, s, step))
  {
    assert [step][1..] == [];
  }

  lemma ThreeInARow(c: Config, s: State, a: Step, s1: State, b: Step, s2: State, d: Step, t: State)
    requires Enabled(c, s, a) && Apply(c, s, a) == s1 && Enabled(c, s1, b) && Apply(c, s1, b) == s2
    requires Enabled(c, s2, d) && Apply(c, s2, d) == t
    ensures Chain(c, s, [a] + [b] + [d], t)
  {
    OneStep(c, s, a);
    OneStep(c, s1, b);
    OneStep(c, s2, d);
    ChainJoin(c, s, [a], s1, [b], s2);
    ChainJoin(c, s, [a] + [b], s2, [d], t);
  }

  function StepsOf(c: Config, w: WorkerId): seq<Step> {
    if Slot(c, w).Some? then [Terminate] + [Release] + [Respawn] else [Skip]
  }

  lemma TerminateStep(c: Config, s: State, ids: seq<WorkerId>, i: nat)
    requires |s.children| == c.workers && s.phase == Handling(ids) && ids != [] && Slot(c, ids[0]) == Some(i)
    ensures Enabled(c, s, Terminate)
    ensures Apply(c, s, Terminate) == Ends(s, s.children[i]).(phase := Ended(ids[0], i, ids[1..]))
  {
    assert OwnSlot(c, ids[0], i);
  }

  lemma ReleaseStep(c: Config, s: State, w: WorkerId, i: nat, todo: seq<WorkerId>)
    requires s.phase == Ended(w, i, todo)
    ensures Enabled(c, s, Release)
    ensures Apply(c, s, Release) == s.(queue := ReleaseLocks(c, s, w), phase := Released(w, i, todo))
  {
  }

  lemma RespawnStep(c: Config, s: State, w: WorkerId, i: nat, todo: seq<WorkerId>)
    requires s.phase == Released(w, i, todo)
    ensures Enabled(c, s, Respawn) && Apply(c, s, Respawn) == Spawn(c, s, i).(phase := Handling(todo))
  {
  }

  lemma ReleaseIgnoresPhase(c: Config, s: State, t: State, w: WorkerId)
    requires s.queue == t.queue && s.now == t.now
    ensures ReleaseLocks(c, s, w) == ReleaseLocks(c, t, w)
  {
  }

  lemma SkipStep(c: Config, s: State, ids: seq<WorkerId>)
    requires s.phase == Handling(ids) && ids != [] && Slot(c, ids[0]).None?
    ensures Enabled(c, s, Skip) && Apply(c, s, Skip) == s.(phase := Handling(ids[1..]))
  {
  }

  /** Handling one listed id takes the machine's steps in its order. */
  lemma RestartIsChain(c: Config, s: State, ids: seq<WorkerId>)
    requires Slots(c, s) && s.phase == Handling(ids) && ids != []
    ensures Chain(c, s, StepsOf(c, ids[0]), Restart(c, s, ids[0]).(phase := Handling(ids[1..])))
  {
    var w, todo := ids[0], ids[1..];
    match Slot(c, w)
    case None =>
      SkipStep(c, s, ids);
      OneStep(c, s, Skip);
    case Some(i) =>
      var ended := Ends(s, s.children[i]);
      var s1 := ended.(phase := Ended(w, i, todo));
      var s2 := s1.(queue := ReleaseLocks(c, s1, w), phase := Released(w, i, todo));
      TerminateStep(c, s, ids, i);
      ReleaseStep(c, s1, w, i, todo);
      RespawnStep(c, s2, w, i, todo);
      ReleaseIgnoresPhase(c, ended, s1, w);
      ThreeInARow(c, s, Terminate, s1, Release, s2, Respawn, Spawn(c, s2, i).(phase := Handling(todo)));
  }

  function AllStepsOf(c: Config, ids: seq<WorkerId>): seq<Step> {
    if ids == [] then [] else StepsOf(c, ids[0]) + AllStepsOf(c, ids[1..])
  }

  lemma {:induction false} RestartAllIsChain(c: Config, s: State, ids: seq<WorkerId>)
    requires Slots(c, s) && s.phase == Handling(ids)
    ensures Chain(c, s, AllStepsOf(c, ids), RestartAll(c, s, ids).(phase := Handling([])))
    decreases |ids|
  {
    if ids != [] {
      var mid := Restart(c, s, ids[0]).(phase := Handling(ids[1..]));
      RestartIsChain(c, s, ids);
      RestartMeaning(c, s, ids[0]);
      RestartAllIsChain(c, mid, ids[1..]);
      PhaseDoesNotMatter(c, Restart(c, s, ids[0]), ids[1..], mid.phase);
      ChainJoin(c, s, StepsOf(c, ids[0]), mid, AllStepsOf(c, ids[1..]), RestartAll(c, s, ids).(phase := Handling([])));
    }
  }

  lemma {:induction false} PhaseDoesNotMatter(c: Config, s: State, ids: seq<WorkerId>, phase: Phase)
    requires |s.children| == c.workers
    ensures RestartAll(c, s.(phase := phase), ids) == RestartAll(c, s, ids).(phase := phase)
    decreases |ids|
  {
    if ids != [] {
      assert Restart(c, s.(phase := phase), ids[0]) == Restart(c, s, ids[0]).(phase := phase);
      PhaseDoesNotMatter(c, Restart(c, s, ids[0]), ids[1..], phase);
    }
  }

  function Reaps(n: nat): seq<Step> { if n == 0 then [] else [Reap] + Reaps(n - 1) }

  lemma {:induction false} ReplaceIsChain(c: Config, s: State, i: nat)
    requires Slots(c, s) && i <= c.workers && s.phase == Reaping(i)
    ensures Chain(c, s, Reaps(c.workers - i), ReplaceFrom(c, s, i).(phase := Reaping(c.workers)))
    decreases c.workers - i
  {
    if i < c.workers {
      var mid := Replace(c, s, i).(phase := Reaping(i + 1));
      assert Apply(c, s, Reap) == mid;
      SpawnMeaning(c, s, i);
      OneStep(c, s, Reap);
      ReplaceIsChain(c, mid, i + 1);
      ReplacePhase(c, Replace(c, s, i), i + 1, mid.phase);
      ChainJoin(c, s, [Reap], mid, Reaps(c.workers - i - 1), ReplaceFrom(c, s, i).(phase := Reaping(c.workers)));
    }
  }

  lemma {:induction false} ReplacePhase(c: Config, s: State, i: nat, phase: Phase)
    requires i <= |s.children| == c.workers
    ensures ReplaceFrom(c, s.(phase := phase), i) == ReplaceFrom(c, s, i).(phase := phase)
    decreases c.workers - i
  {
    if i < c.workers {
      assert Replace(c, s.(phase := phase), i) == Replace(c, s, i).(phase := phase);
      ReplacePhase(c, Replace(c, s, i), i + 1, phase);
    }
  }

  /** From listing to the last restart. */
  lemma FirstHalf(c: Config, s: State, ids: seq<WorkerId>)
    requires Slots(c, s) && Enabled(c, s, List(ids))
    ensures Reaches(c, s, RestartAll(c, s, ids).(phase := Handling([])))
  {
    var s1 := Apply(c, s, List(ids));
    OneStep(c, s, List(ids));
    RestartAllIsChain(c, s1, ids);
    PhaseDoesNotMatter(c, s, ids, s1.phase);
    ChainJoin(c, s, [List(ids)], s1, AllStepsOf(c, ids), RestartAll(c, s, ids).(phase := Handling([])));
  }

  /** From there to the next listing. */
  lemma SecondHalf(c: Config, s: State)
    requires Slots(c, s) && s.phase == Handling([])
    ensures Reaches(c, s, ReplaceFrom(c, s, 0).(phase := Listing))
  {
    var s3 := s.(phase := Reaping(0));
    OneStep(c, s, StartReaping);
    ReplaceIsChain(c, s3, 0);
    ReplacePhase(c, s, 0, s3.phase);
    var s4 := ReplaceFrom(c, s, 0).(phase := Reaping(c.workers));
    OneStep(c, s4, NextPass);
    var end := ReplaceFrom(c, s, 0).(phase := Listing);
    ChainJoin(c, s3, Reaps(c.workers), s4, [NextPass], end);
    ChainJoin(c, s, [StartReaping], s3, Reaps(c.workers) + [NextPass], end);
  }

  lemma PassInHalves(c: Config, s: State, ids: seq<WorkerId>)
    requires Slots(c, s) && s.phase == Listing
    ensures Pass(c, s, ids) == ReplaceFrom(c, RestartAll(c, s, ids).(phase := Handling([])), 0).(phase := Listing)
  {
    RestartAllMeaning(c, s, ids);
    ReplacePhase(c, RestartAll(c, s, ids), 0, Handling([]));
    FinalPhase(c, s, ids);
  }

  /** An uninterrupted pass is one of the interleavings of the machine, so all its invariants cover the loop. */
  lemma PassIsRun(c: Config, s: State, ids: seq<WorkerId>)
    requires Slots(c, s) && Enabled(c, s, List(ids))
    ensures Reaches(c, s, Pass(c, s, ids))
  {
    var mid := RestartAll(c, s, ids).(phase := Handling([]));
    RestartAllMeaning(c, s, ids);
    FirstHalf(c, s, ids);
    SecondHalf(c, mid);
    PassInHalves(c, s, ids);
    ReachesJoin(c, s, mid, ReplaceFrom(c, mid, 0).(phase := Listing));
  }

  lemma FinalPhase(c: Config, s: State, ids: seq<WorkerId>)
    requires |s.children| == c.workers
    ensures Pass(c, s, ids).phase == s.phase
  {
    PhaseDoesNotMatter(c, s, ids, s.phase);
    ReplacePhase(c, RestartAll(c, s, ids), 0, s.phase);
    assert s.(phase := s.phase) == s;
    assert RestartAll(c, s, ids).phase == s.phase;
  }
}
