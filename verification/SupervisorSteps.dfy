/** What each step of the queue drain does to every row and process, and how a worker id's number is read. */
module SupervisorSteps {
  import opened Options
  import opened Supervisor
  import opened Text

  // -- The number in a worker id -------------------------------------------------------------------------------

  /** Digits with single underscores between them. */
  predicate IsNumeral(s: string) {
    && s != "" && s[0] != '_' && s[|s| - 1] != '_'
    && (forall i | 0 <= i < |s| :: IsDigit(s[i]) || s[i] == '_')
    && forall i | 0 <= i < |s| - 1 && s[i] == '_' :: s[i + 1] != '_'
  }

  /** The number its digits write. */
  function Value(s: string): int
    requires forall i | 0 <= i < |s| :: IsDigit(s[i]) || s[i] == '_'
  {
    if s == "" then 0
    else
      var init, last := s[..|s| - 1], s[|s| - 1];
      if last == '_' then Value(init) else Value(init) * 10 + (last as int - '0' as int)
  }

  /** What may follow what has been read: a digit if one is needed, else the rest of a numeral. */
  predicate Continues(s: string, needDigit: bool) {
    && (s == "" ==> !needDigit) && (s != "" ==> s[|s| - 1] != '_' && (needDigit ==> s[0] != '_'))
    && (forall i | 0 <= i < |s| :: IsDigit(s[i]) || s[i] == '_')
    && forall i | 0 <= i < |s| - 1 && s[i] == '_' :: s[i + 1] != '_'
  }

  lemma ContinuesNext(s: string, needDigit: bool)
    requires s != ""
    ensures IsDigit(s[0]) ==> (Continues(s, needDigit) <==> Continues(s[1..], false))
    ensures s[0] == '_' ==> (Continues(s, needDigit) <==> !needDigit && Continues(s[1..], true))
    ensures Continues(s, needDigit) ==> IsDigit(s[0]) || s[0] == '_'
  {
    var rest := s[1..];
    assert s == [s[0]] + rest;
    if Continues(s, needDigit) {
      forall i | 0 <= i < |rest| ensures IsDigit(rest[i]) || rest[i] == '_' { assert rest[i] == s[i + 1]; }
      forall i | 0 <= i < |rest| - 1 && rest[i] == '_' ensures rest[i + 1] != '_' { assert rest[i] == s[i + 1]; }
    }
  }

  lemma {:induction false} ParsesIffContinues(acc: int, s: string, needDigit: bool)
    ensures ParseDigits(acc, s, needDigit).Some? <==> Continues(s, needDigit)
    decreases |s|
  {
    if s != "" {
      ContinuesNext(s, needDigit);
      if IsDigit(s[0]) { ParsesIffContinues(acc * 10 + (s[0] as int - '0' as int), s[1..], false); }
      else if s[0] == '_' && !needDigit { ParsesIffContinues(acc, s[1..], true); }
    }
  }

  lemma {:induction false} ParseUnderscore(acc: int, s: string, needDigit: bool, d: nat)
    requires d < 10 && ParseDigits(acc, s, needDigit).Some?
    ensures ParseDigits(acc, s + "_" + [Digit(d)], needDigit) ==
            Some(ParseDigits(acc, s, needDigit).value * 10 + d)
    decreases |s|
  {
    var longer := s + "_" + [Digit(d)];
    if s == "" {
      assert longer[1..] == [Digit(d)] && [Digit(d)][1..] == "";
      assert ParseDigits(acc * 10 + d, "", false) == Some(acc * 10 + d);
    } else {
      assert longer[1..] == s[1..] + "_" + [Digit(d)];
      if IsDigit(s[0]) { ParseUnderscore(acc * 10 + (s[0] as int - '0' as int), s[1..], false, d); }
      else { ParseUnderscore(acc, s[1..], true, d); }
    }
  }

  lemma NumeralInit(s: string)
    requires IsNumeral(s) && |s| >= 2
    ensures var init := s[..|s| - 1];
      if init[|init| - 1] == '_' then |init| >= 2 && IsNumeral(init[..|init| - 1]) else IsNumeral(init)
  {
    var init := s[..|s| - 1];
    if init[|init| - 1] == '_' {
      assert init[0] == s[0] && s[|s| - 2] == '_';
      assert s[|s| - 3] != '_';
    }
  }

  lemma {:induction false} NumeralValue(s: string)
    requires IsNumeral(s)
    ensures ParseDigits(0, s, true) == Some(Value(s))
    decreases |s|
  {
    var init, last := s[..|s| - 1], s[|s| - 1];
    var d := last as int - '0' as int;
    assert last == Digit(d) && s == init + [Digit(d)];
    if init == "" {
      assert s[1..] == "" && ParseDigits(d, "", false) == Some(d);
    } else {
      NumeralInit(s);
      if init[|init| - 1] == '_' {
        var shorter := init[..|init| - 1];
        NumeralValue(shorter);
        ParseUnderscore(0, shorter, true, d);
        assert init == shorter + "_";
      } else {
        NumeralValue(init);
        ParseOneMore(0, init, true, d);
      }
    }
  }

  lemma DigitsMeaning(s: string)
    ensures ParseDigits(0, s, true) == if IsNumeral(s) then Some(Value(s)) else None
  {
    ParsesIffContinues(0, s, true);
    assert Continues(s, true) <==> IsNumeral(s);
    if IsNumeral(s) { NumeralValue(s); }
  }

  /** A text says a number: a numeral, or a sign and a numeral. */
  predicate Says(t: string, n: int) {
    || (IsNumeral(t) && n == Value(t))
    || (t != "" && t[0] == '+' && IsNumeral(t[1..]) && n == Value(t[1..]))
    || (t != "" && t[0] == '-' && IsNumeral(t[1..]) && n == -Value(t[1..]))
  }

  /** What int() reads: exactly the number a text says between surrounding spaces. */
  lemma PyIntMeaning(s: string, n: int)
    ensures PyInt(s) == Some(n) <==> Says(Trim(s), n)
  {
    var t := Trim(s);
    DigitsMeaning(t);
    if t != "" { DigitsMeaning(t[1..]); }
  }

  lemma SuffixMeaning(prefix: string, suffix: string, index: int)
    ensures WorkerIndex(prefix + "-" + suffix, prefix) == Some(index) <==> Says(Trim(suffix), index + 1)
  {
    IndexOfSuffix(prefix, suffix);
    PyIntMeaning(suffix, index + 1);
  }

  predicate Joins(id: WorkerId, prefix: string, suffix: string) { id == prefix + "-" + suffix }

  lemma PrefixMeaning(id: WorkerId, prefix: string) returns (suffix: string)
    ensures Joins(id, prefix, suffix) <==> StartsWith(id, prefix + "-")
    ensures forall other | Joins(id, prefix, other) :: Joins(id, prefix, suffix) && other == suffix
  {
    suffix := if StartsWith(id, prefix + "-") then id[|prefix| + 1..] else "";
    forall other | Joins(id, prefix, other) ensures StartsWith(id, prefix + "-") && other == suffix {
      assert id[..|prefix| + 1] == prefix + "-" && id[|prefix| + 1..] == other;
    }
  }

  /** The slot an id names: its prefix, a dash, and a number one above the slot's. */
  lemma WorkerIndexMeaning(id: WorkerId, prefix: string, index: int)
    ensures WorkerIndex(id, prefix) == Some(index) <==>
            exists suffix :: Joins(id, prefix, suffix) && Says(Trim(suffix), index + 1)
  {
    var suffix := PrefixMeaning(id, prefix);
    if Joins(id, prefix, suffix) { SuffixMeaning(prefix, suffix, index); }
  }

  // -- Which steps can be taken --------------------------------------------------------------------------------

  /** A row not done, locked longer ago than the window. */
  predicate OldLock(row: QueueRow, now: int, window: int) {
    !row.done && row.lock.Some? && now - row.lock.value.at > window
  }

  ghost predicate HoldsOldLock(s: State, id: WorkerId, window: int) {
    exists r | r in s.queue :: OldLock(s.queue[r], s.now, window) && s.queue[r].lock.value.owner == id
  }

  /** The ids the listing query must return: under the prefix, holding a row not done since before the window. */
  ghost predicate Listed(c: Config, s: State, id: WorkerId) {
    (exists suffix :: Joins(id, c.prefix, suffix)) && HoldsOldLock(s, id, c.staleSeconds)
  }

  lemma ListedIsStaleHolder(c: Config, s: State, id: WorkerId)
    ensures Listed(c, s, id) <==> StaleHolder(c, s, id)
  {
    var suffix := PrefixMeaning(id, c.prefix);
    if StaleHolder(c, s, id) {
      var r :| r in s.queue && Stale(s.queue[r], s.now, c.staleSeconds) && HeldBy(s.queue[r], id);
      assert OldLock(s.queue[r], s.now, c.staleSeconds);
    }
    if HoldsOldLock(s, id, c.staleSeconds) {
      var r :| r in s.queue && OldLock(s.queue[r], s.now, c.staleSeconds) && s.queue[r].lock.value.owner == id;
      assert Stale(s.queue[r], s.now, c.staleSeconds) && HeldBy(s.queue[r], id);
    }
  }

  ghost predicate NamesASlot(c: Config, id: WorkerId) { exists i: nat | i < c.workers :: OwnSlot(c, id, i) }

  /** The supervisor's next step is fixed by where it stands, but for the choice after a pass; it lists all ids that
      hold an old lock and no other, or none when the window is not positive. */
  lemma SupervisorOrder(c: Config, s: State, step: Step)
    requires !IsWorkerStep(step)
    ensures Enabled(c, s, step) <==>
      match s.phase
      case Listing => step.List? &&
        if c.staleSeconds > 0 then forall id :: id in step.ids <==> Listed(c, s, id) else step.ids == []
      case Handling(todo) =>
        step == (if todo == [] then StartReaping else if NamesASlot(c, todo[0]) then Terminate else Skip)
      case Ended(_, _, _) => step == Release
      case Released(_, _, _) => step == Respawn
      case Reaping(next) => if next < c.workers then step == Reap else next == c.workers && step in {NextPass, Stop}
      case Stopped => false
  {
    if step.List? { forall id ensures Listed(c, s, id) <==> StaleHolder(c, s, id) { ListedIsStaleHolder(c, s, id); } }
    if s.phase.Handling? && s.phase.todo != [] {
      var w := s.phase.todo[0];
      if i :| OwnSlot(c, w, i) { assert OwnSlot(c, w, i as nat); }
    }
  }

  /** A worker takes part when alive; it claims rows that are not done and free, or locked longer ago than the
      stealing window if there is one; it finishes what it has in flight, and recovers only with nothing in flight. */
  lemma WorkerSteps(c: Config, s: State, p: nat, r: RowId)
    ensures var live := p < |s.procs| && s.procs[p].alive;
      var mine := live && r in s.procs[p].inFlight && r in s.queue;
      && (Enabled(c, s, Claim(p, r)) <==>
            live && r in s.queue && !s.queue[r].done
            && (s.queue[r].lock == None || (c.stealAfter.Some? && OldLock(s.queue[r], s.now, c.stealAfter.value))))
      && (Enabled(c, s, Complete(p, r)) <==> mine) && (Enabled(c, s, Abandon(p, r)) <==> mine)
      && (Enabled(c, s, Heartbeat(p, r)) <==> mine)
      && (Enabled(c, s, Recover(p)) <==> live && s.procs[p].inFlight == {}) && (Enabled(c, s, Crash(p)) <==> live)
  {
  }

  // -- What a step does ----------------------------------------------------------------------------------------

  /** A row after a step: claimed, finished, put back, refreshed, or freed, and in every other case as it was. */
  lemma RowAfterStep(c: Config, s: State, step: Step, r: RowId)
    requires Enabled(c, s, step) && r in s.queue
    ensures var row, t := s.queue[r], Apply(c, s, step);
      var holder := if row.lock.Some? then Some(row.lock.value.owner) else None;
      && r in t.queue
      && t.queue[r] ==
         match step
         case Claim(p, q) => if q == r then QueueRow(false, Some(Lock(s.procs[p].id, s.now))) else row
         case Complete(p, q) => if q == r && holder == Some(s.procs[p].id) then QueueRow(true, None) else row
         case Abandon(p, q) => if q == r && holder == Some(s.procs[p].id) then QueueRow(row.done, None) else row
         case Heartbeat(p, q) =>
           if q == r && !row.done && holder == Some(s.procs[p].id)
           then QueueRow(false, Some(Lock(s.procs[p].id, s.now))) else row
         case Recover(p) =>
           if !row.done && (holder == Some(s.procs[p].id)
                            || (c.stealAfter.Some? && OldLock(row, s.now, c.stealAfter.value)))
           then QueueRow(false, None) else row
         case Release =>
           if holder == Some(s.phase.wid) && OldLock(row, s.now, c.staleSeconds) then QueueRow(false, None) else row
         case _ => row
  {
  }

  /** The queue gains a row, free and not done, only when one is added, and loses none. */
  lemma RowsAfterStep(c: Config, s: State, step: Step)
    requires Enabled(c, s, step)
    ensures var t := Apply(c, s, step);
      && (forall r :: r in t.queue <==> r in s.queue || step == Enqueue(r))
      && (forall r | step == Enqueue(r) :: t.queue[r] == QueueRow(false, None))
      && t.now == (if step.Tick? then s.now + step.elapsed else s.now)
  {
  }

  /** The slot that gets a new process in a step: the one being restarted, or the one looked at when its process
      has ended. */
  function Refilled(s: State, step: Step): Option<nat> {
    if step == Respawn && s.phase.Released? then Some(s.phase.index)
    else if step == Reap && s.phase.Reaping? && s.phase.next < |s.children| && !Alive(s, s.children[s.phase.next])
    then Some(s.phase.next)
    else None
  }

  /** A slot gets a new process exactly then, alive, under the slot's id and with nothing in flight; the other slots
      keep theirs. */
  lemma ChildrenAfterStep(c: Config, s: State, step: Step)
    requires Enabled(c, s, step) && Inv(c, s)
    ensures var t, new_ := Apply(c, s, step), Refilled(s, step);
      && |t.children| == c.workers && |t.procs| == |s.procs| + (if new_.Some? then 1 else 0)
      && (new_.Some? ==> t.procs[|s.procs|] == Process(SlotId(c.prefix, new_.value), true, {}))
      && forall i | 0 <= i < c.workers :: t.children[i] == if new_ == Some(i) then |s.procs| else s.children[i]
  {
  }

  /** The process of the slot named by the id at the head of the list. */
  ghost predicate Terminated(c: Config, s: State, step: Step, p: nat) {
    && step == Terminate && s.phase.Handling? && s.phase.todo != []
    && exists i: nat | i < |s.children| :: OwnSlot(c, s.phase.todo[0], i) && s.children[i] == p
  }

  /** A process keeps its id; it ends when it crashes, when its slot is being restarted, or when the supervisor stops;
      a claim puts a row in its flight and finishing or giving up takes it out. */
  ghost predicate Becomes(c: Config, s: State, step: Step, p: nat, was: Process, now: Process) {
    && now.id == was.id
    && (now.alive <==> was.alive && step != Crash(p) && step != Stop && !Terminated(c, s, step, p))
    && now.inFlight ==
       match step
       case Claim(q, r) => if q == p then was.inFlight + {r} else was.inFlight
       case Complete(q, r) => if q == p then was.inFlight - {r} else was.inFlight
       case Abandon(q, r) => if q == p then was.inFlight - {r} else was.inFlight
       case _ => was.inFlight
  }

  lemma EndedProcess(c: Config, s: State, p: nat)
    requires Enabled(c, s, Terminate) && Slots(c, s) && p < |s.procs|
    ensures var t := Apply(c, s, Terminate);
      |t.procs| == |s.procs| && Becomes(c, s, Terminate, p, s.procs[p], t.procs[p])
  {
    assert OwnSlot(c, s.phase.todo[0], Apply(c, s, Terminate).phase.index);
  }

  lemma WorkersProcess(c: Config, s: State, step: Step, p: nat)
    requires Enabled(c, s, step) && IsWorkerStep(step) && p < |s.procs|
    ensures var t := Apply(c, s, step);
      |t.procs| == |s.procs| && Becomes(c, s, step, p, s.procs[p], t.procs[p])
  {
  }

  lemma ProcessAfterStep(c: Config, s: State, step: Step, p: nat)
    requires Enabled(c, s, step) && Slots(c, s) && p < |s.procs|
    ensures p < |Apply(c, s, step).procs| && Becomes(c, s, step, p, s.procs[p], Apply(c, s, step).procs[p])
  {
    if step == Terminate { EndedProcess(c, s, p); }
    else if IsWorkerStep(step) { WorkersProcess(c, s, step, p); }
  }

  /** Where the supervisor stands after a step. */
  lemma PhaseAfterStep(c: Config, s: State, step: Step)
    requires Enabled(c, s, step)
    ensures var was, now := s.phase, Apply(c, s, step).phase;
      match step
      case List(ids) => now == Handling(ids)
      case Skip => was.todo != [] && now == Handling(was.todo[1..])
      case Terminate =>
        && now.Ended? && was.todo == [now.wid] + now.todo && OwnSlot(c, now.wid, now.index)
      case Release => now == Released(was.wid, was.index, was.todo)
      case Respawn => now == Handling(was.todo)
      case StartReaping => now == Reaping(0)
      case Reap => now == Reaping(was.next + 1)
      case NextPass => now == Listing
      case Stop => now == Stopped
      case _ => now == was
  {
  }

  // -- Over a run ----------------------------------------------------------------------------------------------

  /** A run from one state to another, whatever came before. */
  ghost predicate Leads(c: Config, s: State, steps: seq<Step>, t: State)
    decreases |steps|
  {
    if steps == [] then t == s
    else
      var init, last := steps[..|steps| - 1], steps[|steps| - 1];
      exists m :: Leads(c, s, init, m) && Enabled(c, m, last) && t == Apply(c, m, last)
  }

  /** What is done stays done: no worker takes it again and no recovery touches it. */
  lemma {:induction false} DoneStaysDone(c: Config, s: State, steps: seq<Step>, t: State, r: RowId)
    requires Leads(c, s, steps, t) && r in s.queue && s.queue[r] == QueueRow(true, None)
    ensures r in t.queue && t.queue[r] == QueueRow(true, None)
    decreases |steps|
  {
    if steps != [] {
      var init, last := steps[..|steps| - 1], steps[|steps| - 1];
      var m :| Leads(c, s, init, m) && Enabled(c, m, last) && t == Apply(c, m, last);
      DoneStaysDone(c, s, init, m, r);
      RowAfterStep(c, m, last, r);
    }
  }

  /** No step of this kind gives the row up or takes it: its holder neither finishes, returns nor recovers it. */
  predicate LeavesAlone(s: State, step: Step, id: WorkerId, r: RowId) {
    match step
    case Complete(p, q) => q != r || p >= |s.procs| || s.procs[p].id != id
    case Abandon(p, q) => q != r || p >= |s.procs| || s.procs[p].id != id
    case Recover(p) => p >= |s.procs| || s.procs[p].id != id
    case _ => true
  }

  /** A lock refreshed within the window is safe: unless its own worker gives the row up, or another may steal it,
      a step leaves it with its holder, and the time of the lock never goes back. */
  lemma FreshLockIsKept(c: Config, s: State, step: Step, id: WorkerId, at: int, r: RowId)
    requires Enabled(c, s, step) && r in s.queue && s.queue[r] == QueueRow(false, Some(Lock(id, at)))
    requires s.now - at <= c.staleSeconds && (c.stealAfter.Some? ==> s.now - at <= c.stealAfter.value)
    requires LeavesAlone(s, step, id, r) && at <= s.now
    ensures var t := Apply(c, s, step);
      r in t.queue && (t.queue[r] == s.queue[r] || t.queue[r] == QueueRow(false, Some(Lock(id, s.now))))
  {
    RowAfterStep(c, s, step, r);
  }
}
