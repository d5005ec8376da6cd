/** The queue drain: worker processes that claim rows, and the supervisor that recovers stale locks. */
module Supervisor {
  import opened Options
  import opened Text

  type WorkerId = string

  // -- Slot names -----------------------------------------------------------------------------------

  function Digit(d: nat): char
    requires d < 10
  {
    '0' + d as char
  }

  function Dec(n: nat): string {
    if n < 10 then [Digit(n)] else Dec(n / 10) + [Digit(n % 10)]
  }

  predicate IsDigit(c: char) { '0' <= c <= '9' }

  /** Digits with single underscores between them; `needDigit` says a digit must come next. */
  function ParseDigits(acc: int, s: string, needDigit: bool): Option<int>
    decreases |s|
  {
    if s == "" then (if needDigit then None else Some(acc))
    else if IsDigit(s[0]) then ParseDigits(acc * 10 + (s[0] as int - '0' as int), s[1..], false)
    else if s[0] == '_' && !needDigit then ParseDigits(acc, s[1..], true)
    else None
  }

  /** `int(str)` on ASCII text: surrounding space, a sign, leading zeros and underscores are accepted. */
  function PyInt(s: string): Option<int> { ReadInt(Trim(s)) }

  function ReadInt(t: string): Option<int> {
    if t != "" && (t[0] == '-' || t[0] == '+') then
      match ParseDigits(0, t[1..], true)
      case None => None
      case Some(v) => Some(if t[0] == '-' then -v else v)
    else ParseDigits(0, t, true)
  }

  function SlotId(prefix: string, index: nat): WorkerId { prefix + "-" + Dec(index + 1) }

  function WorkerIndex(id: WorkerId, prefix: string): Option<int> {
    if !StartsWith(id, prefix + "-") then None
    else match PyInt(id[|prefix| + 1..])
      case None => None
      case Some(n) => Some(n - 1)
  }

  lemma {:induction false} ParseOneMore(acc: int, s: string, needDigit: bool, d: nat)
    requires d < 10 && ParseDigits(acc, s, needDigit).Some?
    ensures ParseDigits(acc, s + [Digit(d)], needDigit) == Some(ParseDigits(acc, s, needDigit).value * 10 + d)
    decreases |s|
  {
    if s == "" {
      assert s + [Digit(d)] == [Digit(d)];
      assert ParseDigits(acc * 10 + d, "", false) == Some(acc * 10 + d);
    } else {
      assert (s + [Digit(d)])[1..] == s[1..] + [Digit(d)];
      if IsDigit(s[0]) { ParseOneMore(acc * 10 + (s[0] as int - '0' as int), s[1..], false, d); }
      else { ParseOneMore(acc, s[1..], true, d); }
    }
  }

  lemma {:induction false} DecParses(n: nat)
    ensures ParseDigits(0, Dec(n), true) == Some(n)
    ensures Dec(n) != "" && forall i | 0 <= i < |Dec(n)| :: IsDigit(Dec(n)[i])
  {
    if n < 10 {
      assert ParseDigits(n, "", false) == Some(n);
      assert Dec(n)[1..] == "";
    } else {
      DecParses(n / 10);
      ParseOneMore(0, Dec(n / 10), true, n % 10);
    }
  }

  /** A slot's worker id names that slot again. */
  lemma SlotRoundTrip(prefix: string, index: nat)
    ensures WorkerIndex(SlotId(prefix, index), prefix) == Some(index)
  {
    PyIntDec(index + 1);
    IndexOfSuffix(prefix, Dec(index + 1));
  }

  lemma PyIntDec(n: nat)
    ensures PyInt(Dec(n)) == Some(n)
  {
    DecParses(n);
    PyIntOfDigits(Dec(n));
  }

  lemma PyIntOfDigits(s: string)
    requires s != "" && forall i | 0 <= i < |s| :: IsDigit(s[i])
    ensures PyInt(s) == ParseDigits(0, s, true)
  {
    DigitsAreNoSpaces(s[0]);
    DigitsAreNoSpaces(s[|s| - 1]);
    TrimClean(s);
    DigitFirst(s);
  }

  lemma DigitsAreNoSpaces(c: char)
    requires IsDigit(c)
    ensures !IsSpace(c)
  {
  }

  lemma DigitFirst(t: string)
    requires t != "" && IsDigit(t[0])
    ensures ReadInt(t) == ParseDigits(0, t, true)
  {
  }

  lemma IndexOfSuffix(prefix: string, suffix: string)
    ensures WorkerIndex(prefix + "-" + suffix, prefix) ==
            match PyInt(suffix) case None => None case Some(n) => Some(n - 1)
  {
    var id := prefix + "-" + suffix;
    assert id[|prefix| + 1..] == suffix && id[..|prefix| + 1] == prefix + "-";
  }

  lemma LeadingZero()
    ensures PyInt("03") == Some(3) && |Dec(3)| == 1
  {
    DecParses(0);
    ParseOneMore(0, Dec(0), true, 3);
    assert Dec(0) == "0" && Digit(3) == '3';
    assert Dec(0) + [Digit(3)] == "03";
    PyIntOfDigits("03");
  }

  /** The parser is not injective: a foreign id with a leading zero names a slot it does not own. */
  lemma ForeignIdNamesSlot(prefix: string)
    ensures WorkerIndex(prefix + "-" + "03", prefix) == Some(2) == WorkerIndex(SlotId(prefix, 2), prefix)
    ensures prefix + "-" + "03" != SlotId(prefix, 2)
  {
    SlotRoundTrip(prefix, 2);
    IndexOfSuffix(prefix, "03");
    LeadingZero();
    assert |prefix + "-" + "03"| == |prefix| + 3 && |prefix + "-" + Dec(3)| == |prefix| + 2;
  }

  /** Digits without a leading zero. */
  predicate PlainNumber(s: string) {
    s != "" && s[0] != '0' && forall i | 0 <= i < |s| :: IsDigit(s[i])
  }

  lemma {:induction false} DecIsPlain(n: nat)
    requires n > 0
    ensures PlainNumber(Dec(n))
  {
    if n >= 10 { DecIsPlain(n / 10); }
  }

  lemma {:induction false} PlainIsDec(s: string) returns (n: nat)
    requires PlainNumber(s)
    ensures n > 0 && ParseDigits(0, s, true) == Some(n) && Dec(n) == s
    decreases |s|
  {
    var init, d := s[..|s| - 1], s[|s| - 1] as int - '0' as int;
    assert s[|s| - 1] == Digit(d);
    assert s == init + [Digit(d)];
    if init == "" {
      n := d;
      assert s[1..] == "";
    } else {
      var m := PlainIsDec(init);
      ParseOneMore(0, init, true, d);
      n := m * 10 + d;
      assert n / 10 == m && n % 10 == d;
    }
  }

  lemma PlainIffDec(s: string, n: nat)
    requires n > 0 && PyInt(s) == Some(n)
    ensures s == Dec(n) <==> PlainNumber(s)
  {
    if s == Dec(n) { DecIsPlain(n); }
    if PlainNumber(s) {
      var m := PlainIsDec(s);
      PyIntOfDigits(s);
    }
  }

  lemma SameSuffix(prefix: string, id: WorkerId, index: nat)
    requires StartsWith(id, prefix + "-")
    ensures |prefix| + 1 <= |id| && (id == SlotId(prefix, index) <==> id[|prefix| + 1..] == Dec(index + 1))
  {
    assert id == prefix + "-" + id[|prefix| + 1..];
  }

  /** An id that names a slot is the slot's own id if and only if what follows the prefix is a plain number: the
      parser also takes leading zeros, signs, underscores and surrounding space. */
  lemma OwnIdIffPlainNumber(prefix: string, id: WorkerId, index: nat)
    requires WorkerIndex(id, prefix) == Some(index)
    ensures |prefix| + 1 <= |id| && (id == SlotId(prefix, index) <==> PlainNumber(id[|prefix| + 1..]))
  {
    SameSuffix(prefix, id, index);
    PlainIffDec(id[|prefix| + 1..], index + 1);
  }

  // -- The machine ----------------------------------------------------------------------------------

  type RowId = nat

  datatype Lock = Lock(owner: WorkerId, at: int)

  datatype QueueRow = QueueRow(done: bool, lock: Option<Lock>)

  datatype Process = Process(id: WorkerId, alive: bool, inFlight: set<RowId>)

  // Where the supervisor loop stands between two awaits.
  datatype Phase =
    | Listing
    | Handling(todo: seq<WorkerId>)
    | Ended(wid: WorkerId, index: nat, todo: seq<WorkerId>)
    | Released(wid: WorkerId, index: nat, todo: seq<WorkerId>)
    | Reaping(next: nat)
    | Stopped

  // `stealAfter` is the lock age at which a worker may claim a row another worker holds.
  datatype Config = Config(prefix: string, workers: nat, staleSeconds: int, stealAfter: Option<nat>)

  datatype State = State(now: int, queue: map<RowId, QueueRow>, procs: seq<Process>, children: seq<nat>, phase: Phase)

  datatype Step =
    | List(ids: seq<WorkerId>) | Skip | Terminate | Release | Respawn | StartReaping | Reap | NextPass | Stop
    | Claim(p: nat, r: RowId) | Complete(p: nat, r: RowId) | Abandon(p: nat, r: RowId) | Heartbeat(p: nat, r: RowId)
    | Recover(p: nat) | Crash(p: nat) | Tick(elapsed: nat) | Enqueue(r: RowId)

  predicate Stale(row: QueueRow, now: int, seconds: int) {
    !row.done && row.lock.Some? && row.lock.value.at < now - seconds
  }

  predicate HeldBy(row: QueueRow, id: WorkerId) { row.lock.Some? && row.lock.value.owner == id }

  predicate StaleHolder(c: Config, s: State, id: WorkerId) {
    StartsWith(id, c.prefix + "-")
    && exists r | r in s.queue :: Stale(s.queue[r], s.now, c.staleSeconds) && HeldBy(s.queue[r], id)
  }

  predicate OwnSlot(c: Config, id: WorkerId, index: int) {
    WorkerIndex(id, c.prefix) == Some(index) && 0 <= index < c.workers
  }

  predicate Alive(s: State, p: nat) { p < |s.procs| && s.procs[p].alive }

  predicate Claimable(c: Config, s: State, row: QueueRow) {
    !row.done && (row.lock.None? || (c.stealAfter.Some? && row.lock.value.at < s.now - c.stealAfter.value))
  }

  predicate Works(s: State, p: nat, r: RowId) { Alive(s, p) && r in s.procs[p].inFlight && r in s.queue }

  ghost predicate Enabled(c: Config, s: State, step: Step) {
    match step
    case List(ids) => s.phase.Listing? &&
      (if c.staleSeconds <= 0 then ids == [] else forall id :: id in ids <==> StaleHolder(c, s, id))
    case Skip => s.phase.Handling? && s.phase.todo != [] && !exists i :: OwnSlot(c, s.phase.todo[0], i)
    case Terminate => s.phase.Handling? && s.phase.todo != [] && exists i :: OwnSlot(c, s.phase.todo[0], i)
    case Release => s.phase.Ended?
    case Respawn => s.phase.Released?
    case StartReaping => s.phase == Handling([])
    case Reap => s.phase.Reaping? && s.phase.next < c.workers
    case NextPass => s.phase == Reaping(c.workers)
    case Stop => s.phase == Reaping(c.workers)
    case Claim(p, r) => Alive(s, p) && r in s.queue && Claimable(c, s, s.queue[r])
    case Complete(p, r) => Works(s, p, r)
    case Abandon(p, r) => Works(s, p, r)
    case Heartbeat(p, r) => Works(s, p, r)
    case Recover(p) => Alive(s, p) && s.procs[p].inFlight == {}
    case Crash(p) => Alive(s, p)
    case Tick(elapsed) => elapsed > 0
    case Enqueue(r) => r !in s.queue
  }

  function Ends(s: State, p: nat): State {
    if p < |s.procs| then s.(procs := s.procs[p := s.procs[p].(alive := false)]) else s
  }

  function Spawn(c: Config, s: State, index: nat): State {
    if index < |s.children| then
      s.(procs := s.procs + [Process(SlotId(c.prefix, index), true, {})], children := s.children[index := |s.procs|])
    else s
  }

  function ReleaseLocks(c: Config, s: State, id: WorkerId): map<RowId, QueueRow> {
    map r | r in s.queue ::
      if Stale(s.queue[r], s.now, c.staleSeconds) && HeldBy(s.queue[r], id) then s.queue[r].(lock := None)
      else s.queue[r]
  }

  /** A starting worker frees the incomplete rows locked under its own id (and, when stealing, old locks). */
  function RecoverLocks(c: Config, s: State, id: WorkerId): map<RowId, QueueRow> {
    map r | r in s.queue ::
      if !s.queue[r].done
         && (HeldBy(s.queue[r], id) || (c.stealAfter.Some? && Stale(s.queue[r], s.now, c.stealAfter.value)))
      then s.queue[r].(lock := None) else s.queue[r]
  }

  function WithFlight(s: State, p: nat, inFlight: set<RowId>): State
    requires p < |s.procs|
  {
    s.(procs := s.procs[p := s.procs[p].(inFlight := inFlight)])
  }

  ghost function Apply(c: Config, s: State, step: Step): State
    requires Enabled(c, s, step)
  {
    match step
    case List(ids) => s.(phase := Handling(ids))
    case Skip => s.(phase := Handling(s.phase.todo[1..]))
    case Terminate =>
      var i :| OwnSlot(c, s.phase.todo[0], i);
      Ends(s, if i < |s.children| then s.children[i] else |s.procs|).(
        phase := Ended(s.phase.todo[0], i, s.phase.todo[1..]))
    case Release =>
      s.(queue := ReleaseLocks(c, s, s.phase.wid), phase := Released(s.phase.wid, s.phase.index, s.phase.todo))
    case Respawn => Spawn(c, s, s.phase.index).(phase := Handling(s.phase.todo))
    case StartReaping => s.(phase := Reaping(0))
    case Reap =>
      var i := s.phase.next;
      if i < |s.children| && !Alive(s, s.children[i]) then Spawn(c, s, i).(phase := Reaping(i + 1))
      else s.(phase := Reaping(i + 1))
    case NextPass => s.(phase := Listing)
    case Stop =>
      s.(procs := seq(|s.procs|, p requires 0 <= p < |s.procs| => s.procs[p].(alive := false)), phase := Stopped)
    case Claim(p, r) =>
      WithFlight(s, p, s.procs[p].inFlight + {r}).(
        queue := s.queue[r := QueueRow(false, Some(Lock(s.procs[p].id, s.now)))])
    case Complete(p, r) =>
      var t := WithFlight(s, p, s.procs[p].inFlight - {r});
      if HeldBy(s.queue[r], s.procs[p].id) then t.(queue := s.queue[r := QueueRow(true, None)]) else t
    case Abandon(p, r) =>
      var t := WithFlight(s, p, s.procs[p].inFlight - {r});
      if HeldBy(s.queue[r], s.procs[p].id) then t.(queue := s.queue[r := s.queue[r].(lock := None)]) else t
    case Heartbeat(p, r) =>
      if HeldBy(s.queue[r], s.procs[p].id) && !s.queue[r].done
      then s.(queue := s.queue[r := s.queue[r].(lock := Some(Lock(s.procs[p].id, s.now)))]) else s
    case Recover(p) => s.(queue := RecoverLocks(c, s, s.procs[p].id))
    case Crash(p) => Ends(s, p)
    case Tick(elapsed) => s.(now := s.now + elapsed)
    case Enqueue(r) => s.(queue := s.queue[r := QueueRow(false, None)])
  }

  // The worker prefix belongs to this supervisor: a lock id that names a slot is that slot's own id.
  ghost predicate OwnPrefix(c: Config, queue: map<RowId, QueueRow>) {
    forall r | r in queue && queue[r].lock.Some? :: Canonical(c, queue[r].lock.value.owner)
  }

  ghost predicate Canonical(c: Config, id: WorkerId) {
    forall i: nat | OwnSlot(c, id, i) :: id == SlotId(c.prefix, i)
  }

  ghost predicate Init(c: Config, s: State) {
    && s.phase == Listing
    && s.procs == seq(c.workers, i requires 0 <= i < c.workers => Process(SlotId(c.prefix, i), true, {}))
    && s.children == seq(c.workers, i requires 0 <= i < c.workers => i)
    && OwnPrefix(c, s.queue)
  }

  /** s is reached from the initial state s0 by these steps. */
  ghost predicate Run(c: Config, s0: State, steps: seq<Step>, s: State)
    decreases |steps|
  {
    if steps == [] then s == s0 && Init(c, s0)
    else
      var init, last := steps[..|steps| - 1], steps[|steps| - 1];
      exists t :: Run(c, s0, init, t) && Enabled(c, t, last) && s == Apply(c, t, last)
  }

  // -- Invariants -------------------------------------------------------------------------------------

  ghost predicate Slots(c: Config, s: State) {
    && |s.children| == c.workers
    && forall i | 0 <= i < c.workers :: s.children[i] < |s.procs| && s.procs[s.children[i]].id == SlotId(c.prefix, i)
  }

  // Every live process is some slot's current child.
  ghost predicate NoStray(s: State) {
    forall p: nat | Alive(s, p) :: p in s.children
  }

  ghost predicate PhaseOk(c: Config, s: State) {
    match s.phase
    case Handling(todo) => forall w | w in todo :: Canonical(c, w)
    case Ended(w, i, todo) => OneGone(c, s, w, i, todo)
    case Released(w, i, todo) => OneGone(c, s, w, i, todo)
    case _ => true
  }

  ghost predicate OneGone(c: Config, s: State, w: WorkerId, i: nat, todo: seq<WorkerId>) {
    && i < c.workers && i < |s.children| && !Alive(s, s.children[i]) && w == SlotId(c.prefix, i)
    && forall v | v in todo :: Canonical(c, v)
  }

  ghost predicate Inv(c: Config, s: State) {
    Slots(c, s) && NoStray(s) && PhaseOk(c, s) && OwnPrefix(c, s.queue)
  }

  // What a live worker has in flight is locked under its id.
  ghost predicate FlightLocked(s: State) {
    forall p: nat, r | Alive(s, p) && r in s.procs[p].inFlight ::
      r in s.queue && !s.queue[r].done && HeldBy(s.queue[r], s.procs[p].id)
  }

  lemma SlotIdsCanonical(c: Config, i: nat)
    ensures Canonical(c, SlotId(c.prefix, i))
  {
    SlotRoundTrip(c.prefix, i);
  }

  lemma InitInv(c: Config, s: State)
    requires Init(c, s)
    ensures Inv(c, s) && FlightLocked(s)
  {
    forall p: nat | Alive(s, p) ensures p in s.children { assert s.children[p] == p; }
  }

  lemma SlotIdInjective(prefix: string, i: nat, j: nat)
    requires SlotId(prefix, i) == SlotId(prefix, j)
    ensures i == j
  {
    SlotRoundTrip(prefix, i);
    SlotRoundTrip(prefix, j);
  }

  /** Two live processes with one worker id are one process. */
  lemma OneLivePerId(c: Config, s: State, p: nat, q: nat)
    requires Inv(c, s) && Alive(s, p) && Alive(s, q) && s.procs[p].id == s.procs[q].id
    ensures p == q
  {
    var i :| 0 <= i < |s.children| && s.children[i] == p;
    var j :| 0 <= j < |s.children| && s.children[j] == q;
    SlotIdInjective(c.prefix, i, j);
  }

  // Same processes under the same ids, none come alive; same children and phase.
  ghost predicate Quiet(s: State, t: State) {
    && t.children == s.children && t.phase == s.phase && |t.procs| == |s.procs|
    && forall p | 0 <= p < |s.procs| :: t.procs[p].id == s.procs[p].id && (t.procs[p].alive ==> s.procs[p].alive)
  }

  lemma QuietKeepsInv(c: Config, s: State, t: State)
    requires Inv(c, s) && Quiet(s, t) && OwnPrefix(c, t.queue)
    ensures Inv(c, t)
  {
    forall p: nat | Alive(t, p) ensures p in t.children { assert Alive(s, p); }
  }

  // Every lock after the step was there before it, with the same owner, or belongs to `owner`.
  ghost predicate LocksFrom(s: State, t: State, owner: Option<WorkerId>) {
    forall r | r in t.queue && t.queue[r].lock.Some? ::
      || (r in s.queue && s.queue[r].lock.Some? && s.queue[r].lock.value.owner == t.queue[r].lock.value.owner)
      || owner == Some(t.queue[r].lock.value.owner)
  }

  lemma LocksFromOwn(c: Config, s: State, t: State, owner: Option<WorkerId>)
    requires OwnPrefix(c, s.queue) && LocksFrom(s, t, owner) && (owner.Some? ==> Canonical(c, owner.value))
    ensures OwnPrefix(c, t.queue)
  {
  }

  function NewOwner(s: State, step: Step): Option<WorkerId> {
    if step.Claim? && step.p < |s.procs| then Some(s.procs[step.p].id) else None
  }

  lemma StepLocks(c: Config, s: State, step: Step)
    requires Enabled(c, s, step)
    ensures LocksFrom(s, Apply(c, s, step), NewOwner(s, step))
  {
  }

  lemma LocksStayOwn(c: Config, s: State, step: Step)
    requires Inv(c, s) && Enabled(c, s, step)
    ensures OwnPrefix(c, Apply(c, s, step).queue)
  {
    StepLocks(c, s, step);
    if step.Claim? { LiveIdCanonical(c, s, step.p); }
    LocksFromOwn(c, s, Apply(c, s, step), NewOwner(s, step));
  }

  lemma LiveIdCanonical(c: Config, s: State, p: nat)
    requires Inv(c, s) && Alive(s, p)
    ensures Canonical(c, s.procs[p].id)
  {
    var i :| 0 <= i < |s.children| && s.children[i] == p;
    SlotIdsCanonical(c, i);
  }

  lemma SpawnKeepsSlots(c: Config, s: State, i: nat)
    requires Slots(c, s) && NoStray(s) && i < c.workers && !Alive(s, s.children[i])
    ensures var t := Spawn(c, s, i); Slots(c, t) && NoStray(t) && t.queue == s.queue && t.phase == s.phase
  {
    var t := Spawn(c, s, i);
    forall p: nat | Alive(t, p)
      ensures p in t.children
    {
      if p < |s.procs| {
        assert Alive(s, p);
        var j :| 0 <= j < |s.children| && s.children[j] == p;
        assert t.children[j] == p;
      } else {
        assert t.children[i] == p;
      }
    }
  }

  predicate IsWorkerStep(step: Step) {
    step.Claim? || step.Complete? || step.Abandon? || step.Heartbeat? || step.Recover? || step.Crash? || step.Tick?
    || step.Enqueue?
  }

  lemma ListedAreCanonical(c: Config, s: State, w: WorkerId)
    requires OwnPrefix(c, s.queue) && StaleHolder(c, s, w)
    ensures Canonical(c, w)
  {
  }

  lemma WorkerStepIsQuiet(c: Config, s: State, step: Step)
    requires Enabled(c, s, step) && IsWorkerStep(step)
    ensures Quiet(s, Apply(c, s, step))
  {
  }

  lemma EndKeepsSlots(c: Config, s: State, p: nat)
    requires Slots(c, s) && NoStray(s)
    ensures Slots(c, Ends(s, p)) && NoStray(Ends(s, p)) && !Alive(Ends(s, p), p)
  {
    var t := Ends(s, p);
    forall q: nat | Alive(t, q) ensures q in t.children { assert Alive(s, q); }
  }

  lemma TerminateKeepsInv(c: Config, s: State)
    requires Inv(c, s) && Enabled(c, s, Terminate)
    ensures Inv(c, Apply(c, s, Terminate))
  {
    var t := Apply(c, s, Terminate);
    var w, i := s.phase.todo[0], t.phase.index;
    assert w in s.phase.todo && OwnSlot(c, w, i);
    assert Canonical(c, w);
    var gone := Ends(s, s.children[i]);
    assert t == gone.(phase := t.phase);
    EndKeepsSlots(c, s, s.children[i]);
    assert Slots(c, t);
    assert NoStray(t) by { forall p: nat | Alive(t, p) ensures p in t.children { assert Alive(gone, p); } }
  }

  lemma ListKeepsInv(c: Config, s: State, ids: seq<WorkerId>)
    requires Inv(c, s) && Enabled(c, s, List(ids))
    ensures Inv(c, Apply(c, s, List(ids)))
  {
    forall w | w in ids ensures Canonical(c, w) { ListedAreCanonical(c, s, w); }
  }

  lemma SpawnStepsKeepInv(c: Config, s: State, step: Step)
    requires Inv(c, s) && Enabled(c, s, step) && (step == Respawn || step == Reap)
    ensures Inv(c, Apply(c, s, step))
  {
    if step == Respawn { SpawnKeepsSlots(c, s, s.phase.index); }
    else if !Alive(s, s.children[s.phase.next]) { SpawnKeepsSlots(c, s, s.phase.next); }
  }

  /** Every step of the supervisor, the workers and the clock keeps the invariant. */
  lemma StepKeepsInv(c: Config, s: State, step: Step)
    requires Inv(c, s) && Enabled(c, s, step)
    ensures Inv(c, Apply(c, s, step))
  {
    LocksStayOwn(c, s, step);
    if IsWorkerStep(step) {
      WorkerStepIsQuiet(c, s, step);
      QuietKeepsInv(c, s, Apply(c, s, step));
    } else {
      match step
      case List(ids) => ListKeepsInv(c, s, ids);
      case Terminate => TerminateKeepsInv(c, s);
      case Respawn => SpawnStepsKeepInv(c, s, step);
      case Reap => SpawnStepsKeepInv(c, s, step);
      case _ =>
    }
  }

  // -- Exclusive work ---------------------------------------------------------------------------------

  ghost predicate Tagged(s: State, p: nat, r: RowId)
    requires p < |s.procs|
  {
    r in s.queue && !s.queue[r].done && HeldBy(s.queue[r], s.procs[p].id)
  }

  /** One process's flight after a step, when no worker may take a locked row. */
  lemma FlightStep(c: Config, s: State, step: Step, p: nat, r: RowId)
    requires c.stealAfter.None? && Inv(c, s) && FlightLocked(s) && Enabled(c, s, step)
    requires var t := Apply(c, s, step); Alive(t, p) && r in t.procs[p].inFlight
    ensures Tagged(Apply(c, s, step), p, r)
  {
    var t := Apply(c, s, step);
    if p < |s.procs| {
      assert Alive(s, p);
      var mine := r in s.procs[p].inFlight;
      assert mine ==> Tagged(s, p, r);
      match step
      case Claim(q, r') => if r' == r && q != p { assert mine; }
      case Complete(q, r') => if r' == r && q != p { OtherOwner(c, s, p, q); }
      case Abandon(q, r') => if r' == r && q != p { OtherOwner(c, s, p, q); }
      case Heartbeat(q, r') => if r' == r && q != p { OtherOwner(c, s, p, q); }
      case Recover(q) => if q != p { OtherOwner(c, s, p, q); }
      case Release => NotReleased(c, s, p);
      case _ =>
    }
  }

  lemma OtherOwner(c: Config, s: State, p: nat, q: nat)
    requires Inv(c, s) && Alive(s, p) && Alive(s, q) && p != q
    ensures s.procs[p].id != s.procs[q].id
  {
    if s.procs[p].id == s.procs[q].id { OneLivePerId(c, s, p, q); }
  }

  /** The worker whose locks are about to be released has no live process. */
  lemma NotReleased(c: Config, s: State, p: nat)
    requires Inv(c, s) && (s.phase.Ended? || s.phase.Released?) && Alive(s, p)
    ensures s.procs[p].id != s.phase.wid
  {
    var j :| 0 <= j < |s.children| && s.children[j] == p;
    if s.procs[p].id == s.phase.wid { SlotIdInjective(c.prefix, j, s.phase.index); }
  }

  lemma StepKeepsFlight(c: Config, s: State, step: Step)
    requires c.stealAfter.None? && Inv(c, s) && FlightLocked(s) && Enabled(c, s, step)
    ensures FlightLocked(Apply(c, s, step))
  {
    var t := Apply(c, s, step);
    forall p: nat, r | Alive(t, p) && r in t.procs[p].inFlight
      ensures Tagged(t, p, r)
    {
      FlightStep(c, s, step, p, r);
    }
  }

  lemma {:induction false} RunInv(c: Config, s0: State, steps: seq<Step>, s: State)
    requires Run(c, s0, steps, s)
    ensures Inv(c, s)
    ensures c.stealAfter.None? ==> FlightLocked(s)
    decreases |steps|
  {
    if steps == [] {
      InitInv(c, s);
    } else {
      var init, last := steps[..|steps| - 1], steps[|steps| - 1];
      var t :| Run(c, s0, init, t) && Enabled(c, t, last) && s == Apply(c, t, last);
      RunInv(c, s0, init, t);
      StepKeepsInv(c, t, last);
      if c.stealAfter.None? { StepKeepsFlight(c, t, last); }
    }
  }

  /** Over every interleaving, each worker id has at most one live process. */
  lemma AtMostOneLiveProcess(c: Config, s0: State, steps: seq<Step>, s: State, p: nat, q: nat)
    requires Run(c, s0, steps, s) && Alive(s, p) && Alive(s, q) && p != q
    ensures s.procs[p].id != s.procs[q].id
  {
    RunInv(c, s0, steps, s);
    OtherOwner(c, s, p, q);
  }

  /** When the supervisor releases locks, exactly the stale incomplete rows of one worker lose them, no live
      process has that worker's id, and no process changes. */
  lemma ReleaseIsSafe(c: Config, s0: State, steps: seq<Step>, s: State)
    requires Run(c, s0, steps, s) && s.phase.Ended?
    ensures var t := Apply(c, s, Release);
      && (forall r | r in s.queue && t.queue[r] != s.queue[r] ::
            Stale(s.queue[r], s.now, c.staleSeconds) && HeldBy(s.queue[r], s.phase.wid))
      && (forall r | r in t.queue :: !(Stale(t.queue[r], t.now, c.staleSeconds) && HeldBy(t.queue[r], s.phase.wid)))
      && (forall p: nat | Alive(s, p) :: s.procs[p].id != s.phase.wid)
      && t.procs == s.procs
  {
    RunInv(c, s0, steps, s);
    forall p: nat | Alive(s, p) ensures s.procs[p].id != s.phase.wid { NotReleased(c, s, p); }
  }

  ghost predicate Exclusive(s: State) {
    forall p: nat, q: nat | Alive(s, p) && Alive(s, q) && p != q :: s.procs[p].inFlight !! s.procs[q].inFlight
  }

  lemma FlightLockedIsExclusive(c: Config, s: State)
    requires Inv(c, s) && FlightLocked(s)
    ensures Exclusive(s)
  {
    forall p: nat, q: nat, r | Alive(s, p) && Alive(s, q) && p != q && r in s.procs[p].inFlight
      ensures r !in s.procs[q].inFlight
    {
      OtherOwner(c, s, p, q);
      assert Tagged(s, p, r);
    }
  }

  ghost predicate AlwaysExclusive(c: Config) {
    forall s0, steps, s | Run(c, s0, steps, s) :: Exclusive(s)
  }

  /** With one slot there is only ever one live process. */
  lemma OneSlotIsExclusive(c: Config, s: State)
    requires Inv(c, s) && c.workers <= 1
    ensures Exclusive(s)
  {
    forall p: nat, q: nat | Alive(s, p) && Alive(s, q)
      ensures p == q
    {
      assert p in s.children && q in s.children;
    }
  }

  function Fresh(c: Config): State {
    State(0, map[0 := QueueRow(false, None)],
          seq(c.workers, i requires 0 <= i < c.workers => Process(SlotId(c.prefix, i), true, {})),
          seq(c.workers, i requires 0 <= i < c.workers => i), Listing)
  }

  lemma RunStep(c: Config, s0: State, steps: seq<Step>, s: State, step: Step)
    requires Run(c, s0, steps, s) && Enabled(c, s, step)
    ensures Run(c, s0, steps + [step], Apply(c, s, step))
  {
    assert (steps + [step])[..|steps|] == steps;
  }

  /** The second worker claims what the first holds. */
  lemma StealingSteps(c: Config, s0: State, wait: Step)
    requires c.stealAfter.Some? && c.workers >= 2 && s0 == Fresh(c) && wait == Tick(c.stealAfter.value + 1)
    ensures Enabled(c, s0, Claim(0, 0)) && Enabled(c, Apply(c, s0, Claim(0, 0)), wait)
    ensures var s2 := Apply(c, Apply(c, s0, Claim(0, 0)), wait);
      Enabled(c, s2, Claim(1, 0)) && !Exclusive(Apply(c, s2, Claim(1, 0)))
  {
    var s3 := Apply(c, Apply(c, Apply(c, s0, Claim(0, 0)), wait), Claim(1, 0));
    assert Alive(s3, 0) && Alive(s3, 1) && 0 in s3.procs[0].inFlight && 0 in s3.procs[1].inFlight;
  }

  lemma ThreeSteps(c: Config, s0: State, a: Step, s1: State, b: Step, s2: State, d: Step)
    requires Run(c, s0, [], s0) && Enabled(c, s0, a) && s1 == Apply(c, s0, a)
    requires Enabled(c, s1, b) && s2 == Apply(c, s1, b) && Enabled(c, s2, d)
    ensures Run(c, s0, [] + [a] + [b] + [d], Apply(c, s2, d))
  {
    RunStep(c, s0, [], s0, a);
    RunStep(c, s0, [] + [a], s1, b);
    RunStep(c, s0, [] + [a] + [b], s2, d);
  }

  /** Two workers and a stealing claim: the first claims, falls silent, and the second claims the same row. */
  lemma StealingDoublesWork(c: Config)
    requires c.stealAfter.Some? && c.workers >= 2
    ensures !AlwaysExclusive(c)
  {
    var s0, wait := Fresh(c), Tick(c.stealAfter.value + 1);
    assert Init(c, s0) && Run(c, s0, [], s0);
    StealingSteps(c, s0, wait);
    var s1 := Apply(c, s0, Claim(0, 0));
    ThreeSteps(c, s0, Claim(0, 0), s1, wait, Apply(c, s1, wait), Claim(1, 0));
  }

  /** No row is ever worked on by two live workers, in any run, if and only if workers never claim locked
      rows or there is at most one slot. */
  lemma ExclusiveIffNoStealing(c: Config)
    ensures AlwaysExclusive(c) <==> c.stealAfter.None? || c.workers <= 1
  {
    if c.stealAfter.None? || c.workers <= 1 {
      forall s0, steps, s | Run(c, s0, steps, s)
        ensures Exclusive(s)
      {
        RunInv(c, s0, steps, s);
        if c.stealAfter.None? { FlightLockedIsExclusive(c, s); } else { OneSlotIsExclusive(c, s); }
      }
    } else {
      StealingDoublesWork(c);
    }
  }
}
