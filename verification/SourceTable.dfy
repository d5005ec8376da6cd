/** All of a tenant's installations of one source, and their provider rows: the commands pick rows by a selector, and
    two rows may yield the same provider key. */
module SourceTable {
  import opened Installations
  import opened Options

  type RowId = nat

  // The selector arguments: a row id, or a value of the scope column.
  datatype Selector = ById(id: RowId) | ByScope(scope: string)

  // Provider rows are filed under their installation ids.
  datatype Source = Source(rows: map<RowId, Row>, providers: map<string, Provider>, log: seq<string>,
                           secrets: map<Ref, string>)

  datatype Command = Command(sel: Selector, action: Action)

  predicate Matches(sel: Selector, id: RowId, row: Row) {
    match sel
    case ById(wanted) => id == wanted
    case ByScope(scope) => row.scope == Some(scope)
  }

  function Matched(sel: Selector, rows: map<RowId, Row>): set<RowId> {
    set id | id in rows && Matches(sel, id, rows[id])
  }

  function KeyOf(spec: Spec, s: Source, id: RowId): Option<string>
    requires id in s.rows
  {
    InstallationId(spec, s.rows[id])
  }

  /** One row with the provider row under its key. */
  function View(spec: Spec, s: Source, id: RowId): World
    requires id in s.rows
  {
    var key := KeyOf(spec, s, id);
    World(s.rows[id], if key.Some? && key.value in s.providers then Some(s.providers[key.value]) else None,
          s.log, s.secrets)
  }

  /** The table once that row and its provider row have become what they are in w. */
  function Put(spec: Spec, s: Source, id: RowId, w: World): Source
    requires id in s.rows
  {
    var key := KeyOf(spec, s, id);
    Source(s.rows[id := w.row],
           if key.Some? && w.provider.Some? then s.providers[key.value := w.provider.value] else s.providers,
           w.log, w.secrets)
  }

  function SetAll(rows: map<RowId, Row>, ids: set<RowId>, disabled: Option<int>): map<RowId, Row> {
    map id | id in rows :: if id in ids then rows[id].(disabledAt := disabled) else rows[id]
  }

  /** Pausing or resuming changes every matched row; the provider key is that of the row the update returns. */
  function SetStates(spec: Spec, s: Source, ids: set<RowId>, returned: RowId, disabled: Option<int>,
                     what: string): Source
    requires returned in s.rows
  {
    var w := View(spec, s, returned);
    Put(spec, s, returned, SetState(spec, w, disabled, what)).(rows := SetAll(s.rows, ids, disabled))
  }

  ghost function Choose(ids: set<RowId>): RowId
    requires ids != {}
    ensures Choose(ids) in ids
  {
    var id :| id in ids; id
  }

  /** A command on the rows its selector matches. Rotation and uninstall insist on one row. */
  ghost function Apply(spec: Spec, s: Source, c: Command): (Source, Result) {
    var ids := Matched(c.sel, s.rows);
    if ids == {} then (s, CliError)
    else
      var id := Choose(ids);
      match c.action
      case Pause(now, crash) => if crash then (s, Crashed) else (SetStates(spec, s, ids, id, Some(now), "pause"), Ok)
      case Resume(_, crash) => if crash then (s, Crashed) else (SetStates(spec, s, ids, id, None, "resume"), Ok)
      case _ =>
        if |ids| > 1 then (s, CliError)
        else
          var (w, result) := Perform(spec, View(spec, s, id), c.action);
          (Put(spec, s, id, w), result)
  }

  /** Rows matched together have the same scope or are the same row, so the provider key does not depend on which of
      them an update returns. */
  lemma MatchedShareKey(spec: Spec, s: Source, sel: Selector, a: RowId, b: RowId)
    requires a in Matched(sel, s.rows) && b in Matched(sel, s.rows)
    ensures KeyOf(spec, s, a) == KeyOf(spec, s, b)
  {
  }

  lemma ReturnedDoesNotMatter(spec: Spec, s: Source, sel: Selector, a: RowId, b: RowId, disabled: Option<int>,
                              what: string)
    requires a in Matched(sel, s.rows) && b in Matched(sel, s.rows)
    ensures var ids := Matched(sel, s.rows);
      SetStates(spec, s, ids, a, disabled, what) == SetStates(spec, s, ids, b, disabled, what)
  {
    MatchedShareKey(spec, s, sel, a, b);
  }

  lemma OnlyMember(ids: set<RowId>, id: RowId)
    requires id in ids && |ids| == 1
    ensures ids == {id} && Choose(ids) == id
  {
    var rest := ids - {id};
    assert |rest| == 0 && ids == rest + {id};
  }

  /** Nothing but the log and the store changes when the row and its provider row are put back as they were. */
  lemma PutBack(spec: Spec, s: Source, id: RowId, log: seq<string>, secrets: map<Ref, string>)
    requires id in s.rows
    ensures Put(spec, s, id, View(spec, s, id).(log := log, secrets := secrets)) == s.(log := log, secrets := secrets)
  {
    var key := KeyOf(spec, s, id);
    assert s.rows[id := s.rows[id]] == s.rows;
    if key.Some? && key.value in s.providers {
      assert s.providers[key.value := s.providers[key.value]] == s.providers;
    }
  }

  class SourceTables {
    const spec: Spec
    var rows: map<RowId, Row>
    var providers: map<string, Provider>
    var log: seq<string>
    var secrets: map<Ref, string>

    function Now(): Source
      reads this
    {
      Source(rows, providers, log, secrets)
    }

    constructor (spec: Spec, s: Source)
      ensures this.spec == spec && Now() == s
    {
      this.spec := spec;
      rows, providers, log, secrets := s.rows, s.providers, s.log, s.secrets;
    }

    /** Enables or disables the provider row filed under the key of an installation, if there is one. */
    method SetProviderEnabled(id: RowId, enabled: bool)
      requires id in rows
      modifies this`providers
      ensures var w := View(spec, old(Now()), id);
        Now() == Put(spec, old(Now()), id,
          w.(provider := if w.provider.Some? && Linked(spec, w.row) then Some(w.provider.value.(enabled := enabled))
                         else w.provider))
    {
      PutBack(spec, Now(), id, log, secrets);
      assert rows[id := rows[id]] == rows;
      var key := InstallationId(spec, rows[id]);
      if Linked(spec, rows[id]) && key.value in providers {
        providers := providers[key.value := providers[key.value].(enabled := enabled)];
      }
    }

    /** Pause (`disabled` is the time) and resume: every matched row, and the provider row of the one the update
        returns. A crash before commit changes nothing. */
    method SetDisabledAt(sel: Selector, disabled: Option<int>, crash: bool) returns (result: Result)
      modifies this
      ensures (Now(), result) ==
              Apply(spec, old(Now()),
                Command(sel, if disabled.Some? then Pause(disabled.value, crash) else Resume(0, crash)))
    {
      var ids := Matched(sel, rows);
      if ids == {} { return CliError; }
      if crash { return Crashed; }
      var returned :| returned in ids;
      var what := if disabled.Some? then "pause" else "resume";
      ReturnedDoesNotMatter(spec, Now(), sel, returned, Choose(ids), disabled, what);
      SetProviderEnabled(returned, disabled.None?);
      rows := SetAll(rows, ids, disabled);
      log := log + [what];
      result := Ok;
    }

    /** The one row a selector matches. */
    method SelectSingle(sel: Selector) returns (id: Option<RowId>)
      ensures var ids := Matched(sel, rows);
        if |ids| == 1 then id.Some? && id.value in ids && id.value == Choose(ids) else id.None?
    {
      var ids := Matched(sel, rows);
      if |ids| != 1 { return None; }
      var only :| only in ids;
      OnlyMember(ids, only);
      id := Some(only);
    }

    method RotateSecret(sel: Selector, hasStore: bool, column: Column, value: string, crash: bool)
      returns (result: Result)
      modifies this
      ensures (Now(), result) == Apply(spec, old(Now()), Command(sel, Rotate(hasStore, column, value, crash)))
    {
      if Matched(sel, rows) != {} { PutBack(spec, Now(), Choose(Matched(sel, rows)), log, secrets); }
      if !hasStore { return CliError; }
      if column !in spec.refColumns { return CliError; }
      var id := SelectSingle(sel);
      if id.None? { return CliError; }
      var row := rows[id.value];
      if !HasRef(row, column) || value == "" { return CliError; }
      if row.refs[column] !in secrets { return SecretNotFound; }
      secrets := secrets[row.refs[column] := value];
      PutBack(spec, old(Now()), id.value, log, secrets);
      if crash { return Crashed; }
      log := log + ["rotate"];
      PutBack(spec, old(Now()), id.value, log, secrets);
      result := Ok;
    }

    /** Deletes the refs' secrets one by one, until a crash. Nothing here is transactional. */
    method DeleteSecrets(row: Row, cs: seq<Column>, deliveries: Deliveries, crashAfter: Option<nat>)
      returns (cleared: set<Column>, crashed: bool)
      requires AllHaveRefs(cs, row)
      modifies this`secrets
      ensures crashed == crashAfter.Some?
      ensures crashed ==> secrets == DeleteRefs(old(secrets), row, Prefix(cs, crashAfter.value), deliveries).secrets
      ensures !crashed ==> Deletion(secrets, cleared) == DeleteRefs(old(secrets), row, cs, deliveries)
    {
      cleared := {};
      for i := 0 to |cs|
        invariant Deletion(secrets, cleared) == DeleteRefs(old(secrets), row, cs[..i], deliveries)
        invariant crashAfter.Some? ==> crashAfter.value >= i
      {
        if crashAfter == Some(i) { return cleared, true; }
        assert cs[..i + 1][..i] == cs[..i];
        match DeliveryOf(deliveries, cs[i])
        case Deleted =>
          secrets := secrets - {row.refs[cs[i]]};
          cleared := cleared + {cs[i]};
        case FailedKept =>
        case FailedGone =>
          secrets := secrets - {row.refs[cs[i]]};
      }
      assert cs[..|cs|] == cs;
      crashed := crashAfter.Some?;
    }

    /** The one commit after the deletes: both rows are disabled and what was deleted is cleared. */
    method CommitDeletion(id: RowId, now: int, done: Deletion)
      requires id in rows && secrets == done.secrets
      modifies this`rows, this`providers, this`log
      ensures Now() == Put(spec, old(Now()), id, CommitUninstall(spec, View(spec, old(Now()), id), now, done))
    {
      PutBack(spec, Now(), id, log, secrets);
      var key := InstallationId(spec, rows[id]);
      if Linked(spec, rows[id]) && key.value in providers {
        var kept := if WEBHOOK in done.cleared then None else providers[key.value].secretRef;
        providers := providers[key.value := Provider(false, kept)];
      }
      rows := rows[id := rows[id].(disabledAt := Some(now), refs := rows[id].refs - done.cleared)];
      log := log + ["uninstall"];
    }

    /** Deletes the secrets one by one, then clears what was deleted and disables both rows in one commit. */
    method Uninstall(sel: Selector, now: int, dryRun: bool, hasStore: bool, deliveries: Deliveries,
                     crashAfter: Option<nat>)
      returns (result: Result)
      modifies this
      ensures (Now(), result) ==
              Apply(spec, old(Now()), Command(sel, Action.Uninstall(now, dryRun, hasStore, deliveries, crashAfter)))
    {
      var id := SelectSingle(sel);
      if id.None? { return CliError; }
      PutBack(spec, Now(), id.value, log, secrets);
      var cs := RefsOf(spec.refColumns, rows[id.value]);
      if cs != [] && !dryRun && !hasStore { return CliError; }
      if dryRun { return Ok; }
      if !hasStore { return AssertionFailed; }
      var cleared, crashed := DeleteSecrets(rows[id.value], cs, deliveries, crashAfter);
      if crashed { PutBack(spec, old(Now()), id.value, log, secrets); return Crashed; }
      CommitDeletion(id.value, now, Deletion(secrets, cleared));
      result := Ok;
    }
  }

  // -- What the commands on the table do -----------------------------------------------------------------

  /** A rotation succeeds exactly when its selector matches one row and that row can be rotated; then the secret the
      row's ref names is the new value, and the rows, the provider rows and every other secret are as before. */
  lemma RotateOnTable(spec: Spec, s: Source, sel: Selector, hasStore: bool, c: Column, value: string, crash: bool)
    ensures var (t, result) := Apply(spec, s, Command(sel, Rotate(hasStore, c, value, crash)));
      var ids := Matched(sel, s.rows);
      && ((result == Ok || result == Crashed) <==>
            exists id | id in ids :: |ids| == 1 && Rotatable(spec, s.rows[id], hasStore, c, value)
                                     && s.rows[id].refs[c] in s.secrets)
      && (result == Ok || result == Crashed ==> (result == Crashed <==> crash))
      && t.rows == s.rows && t.providers == s.providers
      && t.log == (if result == Ok then s.log + ["rotate"] else s.log)
      && (result != Ok && result != Crashed ==> t.secrets == s.secrets)
      && forall id | (result == Ok || result == Crashed) && id in ids ::
           && c in s.rows[id].refs && t.secrets.Keys == s.secrets.Keys && s.rows[id].refs[c] in t.secrets
           && t.secrets[s.rows[id].refs[c]] == value
           && forall r | r in s.secrets && r != s.rows[id].refs[c] :: t.secrets[r] == s.secrets[r]
  {
    var command, ids := Command(sel, Rotate(hasStore, c, value, crash)), Matched(sel, s.rows);
    if |ids| == 1 {
      var id :| id in ids;
      OnlyMember(ids, id);
      OneRowCommand(spec, s, command, id);
      RotateMeaning(spec, View(spec, s, id), hasStore, c, value, crash);
      var after := Perform(spec, View(spec, s, id), command.action).0;
      PutBack(spec, s, id, after.log, after.secrets);
      assert after == View(spec, s, id).(log := after.log, secrets := after.secrets);
    }
  }

  /** Pausing or resuming sets the state of exactly the matched rows, and the flag of the one provider row they are
      linked to. */
  lemma StateOnTable(spec: Spec, s: Source, sel: Selector, now: int, crash: bool, pause: bool)
    ensures var (t, result) := Apply(spec, s, Command(sel, if pause then Pause(now, crash) else Resume(now, crash)));
      var ids := Matched(sel, s.rows);
      && result == (if ids == {} then CliError else if crash then Crashed else Ok)
      && (result != Ok ==> t == s)
      && (result == Ok ==>
            && t.secrets == s.secrets && t.log == s.log + [if pause then "pause" else "resume"]
            && t.rows.Keys == s.rows.Keys && t.providers.Keys == s.providers.Keys
            && (forall id | id in s.rows :: t.rows[id] ==
                  if id in ids then Row(s.rows[id].scope, s.rows[id].refs, if pause then Some(now) else None)
                  else s.rows[id])
            && forall key | key in s.providers :: t.providers[key] ==
                 if exists id | id in ids :: Linked(spec, s.rows[id]) && KeyOf(spec, s, id) == Some(key)
                 then Provider(!pause, s.providers[key].secretRef) else s.providers[key])
  {
    var ids := Matched(sel, s.rows);
    if ids != {} {
      var id := Choose(ids);
      forall j | j in ids
        ensures KeyOf(spec, s, j) == KeyOf(spec, s, id) && (Linked(spec, s.rows[j]) <==> Linked(spec, s.rows[id]))
      {
        MatchedShareKey(spec, s, sel, j, id);
      }
    }
  }

  // -- Both rows agree --------------------------------------------------------------------------------

  predicate HasProvider(spec: Spec, s: Source, id: RowId) { id in s.rows && View(spec, s, id).provider.Some? }

  predicate AgreeAt(spec: Spec, s: Source, id: RowId) { id in s.rows && Agree(View(spec, s, id)) }

  /** The row yields a non-empty provider key that no other row of the tenant yields. */
  predicate KeyAlone(spec: Spec, s: Source, id: RowId) {
    && id in s.rows && Linked(spec, s.rows[id])
    && forall j | j in s.rows && j != id :: KeyOf(spec, s, j) != KeyOf(spec, s, id)
  }

  // No command adds or removes a row or changes its scope.
  ghost predicate SameScopes(s: Source, t: Source) {
    t.rows.Keys == s.rows.Keys && forall id | id in s.rows :: t.rows[id].scope == s.rows[id].scope
  }

  /** Putting one row leaves a row with another key as it sees itself. */
  lemma PutOther(spec: Spec, s: Source, id: RowId, j: RowId, w: World)
    requires id in s.rows && j in s.rows && j != id && KeyOf(spec, s, j) != KeyOf(spec, s, id)
    ensures var t := Put(spec, s, j, w);
      View(spec, t, id).row == View(spec, s, id).row && View(spec, t, id).provider == View(spec, s, id).provider
  {
  }

  lemma PutOwn(spec: Spec, s: Source, id: RowId, w: World)
    requires id in s.rows && w.row.scope == s.rows[id].scope
    requires w.provider.Some? <==> View(spec, s, id).provider.Some?
    ensures View(spec, Put(spec, s, id, w), id) == w
  {
  }

  lemma PerformKeepsIdentity(spec: Spec, w: World, a: Action)
    ensures var t := Perform(spec, w, a).0; t.row.scope == w.row.scope && (t.provider.Some? <==> w.provider.Some?)
  {
  }

  lemma ApplyKeepsScopes(spec: Spec, s: Source, c: Command)
    ensures SameScopes(s, Apply(spec, s, c).0)
  {
    var ids := Matched(c.sel, s.rows);
    if ids != {} { PerformKeepsIdentity(spec, View(spec, s, Choose(ids)), c.action); }
  }

  lemma ScopesKeepKeyAlone(spec: Spec, s: Source, t: Source, id: RowId)
    requires SameScopes(s, t)
    ensures KeyAlone(spec, s, id) <==> KeyAlone(spec, t, id)
  {
  }

  /** A selector that matches a row with a key of its own matches no other row. */
  lemma AloneIsMatchedAlone(spec: Spec, s: Source, sel: Selector, id: RowId)
    requires KeyAlone(spec, s, id) && id in Matched(sel, s.rows)
    ensures Matched(sel, s.rows) == {id} && Choose(Matched(sel, s.rows)) == id
  {
    forall j | j in Matched(sel, s.rows) ensures j == id { MatchedShareKey(spec, s, sel, id, j); }
    assert Matched(sel, s.rows) == {id};
  }

  /** A command whose selector matches just one row is the command on that row. */
  lemma OneRowCommand(spec: Spec, s: Source, c: Command, id: RowId)
    requires Matched(c.sel, s.rows) == {id}
    ensures Apply(spec, s, c) ==
            (Put(spec, s, id, Perform(spec, View(spec, s, id), c.action).0),
             Perform(spec, View(spec, s, id), c.action).1)
  {
    PutBack(spec, s, id, s.log, s.secrets);
    assert Choose(Matched(c.sel, s.rows)) == id && id in s.rows by { assert id in Matched(c.sel, s.rows); }
    var row := s.rows[id];
    assert SetAll(s.rows, {id}, None) == s.rows[id := row.(disabledAt := None)];
    if c.action.Pause? {
      assert SetAll(s.rows, {id}, Some(c.action.now)) == s.rows[id := row.(disabledAt := Some(c.action.now))];
    }
  }

  /** A command that does not match the row leaves it and its provider row alone. */
  lemma OtherRowsCommand(spec: Spec, s: Source, c: Command, id: RowId)
    requires KeyAlone(spec, s, id) && id !in Matched(c.sel, s.rows)
    ensures var t := Apply(spec, s, c).0;
      id in t.rows && View(spec, t, id).row == s.rows[id] && View(spec, t, id).provider == View(spec, s, id).provider
  {
    var ids := Matched(c.sel, s.rows);
    if ids != {} {
      var j := Choose(ids);
      if c.action.Pause? { PutOther(spec, s, id, j, SetState(spec, View(spec, s, j), Some(c.action.now), "pause")); }
      else if c.action.Resume? { PutOther(spec, s, id, j, SetState(spec, View(spec, s, j), None, "resume")); }
      else { PutOther(spec, s, id, j, Perform(spec, View(spec, s, j), c.action).0); }
    }
  }

  lemma ApplyKeepsAgreement(spec: Spec, s: Source, c: Command, id: RowId)
    requires KeyAlone(spec, s, id) && AgreeAt(spec, s, id)
    ensures KeyAlone(spec, Apply(spec, s, c).0, id) && AgreeAt(spec, Apply(spec, s, c).0, id)
  {
    ApplyKeepsScopes(spec, s, c);
    ScopesKeepKeyAlone(spec, s, Apply(spec, s, c).0, id);
    if id in Matched(c.sel, s.rows) {
      var w := View(spec, s, id);
      AloneIsMatchedAlone(spec, s, c.sel, id);
      OneRowCommand(spec, s, c, id);
      PerformKeepsAgreement(spec, w, c.action);
      PerformKeepsIdentity(spec, w, c.action);
      PutOwn(spec, s, id, Perform(spec, w, c.action).0);
    } else {
      OtherRowsCommand(spec, s, c, id);
    }
  }

  ghost function ApplyAll(spec: Spec, s: Source, cs: seq<Command>): Source {
    if cs == [] then s else Apply(spec, ApplyAll(spec, s, cs[..|cs| - 1]), cs[|cs| - 1]).0
  }

  /** In every run of the commands on any rows, with failing deletes and crashes, the provider row follows a row
      whose key is its own. */
  lemma {:induction false} RunsKeepAgreement(spec: Spec, s: Source, cs: seq<Command>, id: RowId)
    requires KeyAlone(spec, s, id) && AgreeAt(spec, s, id)
    ensures KeyAlone(spec, ApplyAll(spec, s, cs), id) && AgreeAt(spec, ApplyAll(spec, s, cs), id)
  {
    if cs != [] {
      RunsKeepAgreement(spec, s, cs[..|cs| - 1], id);
      ApplyKeepsAgreement(spec, ApplyAll(spec, s, cs[..|cs| - 1]), cs[|cs| - 1], id);
    }
  }

  lemma {:induction false} RunsKeepScopes(spec: Spec, s: Source, cs: seq<Command>)
    ensures SameScopes(s, ApplyAll(spec, s, cs))
  {
    if cs != [] {
      RunsKeepScopes(spec, s, cs[..|cs| - 1]);
      ApplyKeepsScopes(spec, ApplyAll(spec, s, cs[..|cs| - 1]), cs[|cs| - 1]);
    }
  }

  /** The command that turns a row, chosen by its id, to the other state. */
  function Toggle(s: Source, shown: RowId, j: RowId): Command
    requires shown in s.rows
  {
    Command(ById(j), if s.rows[shown].disabledAt.None? then Pause(0, false) else Resume(0, false))
  }

  /** Toggling a row whose key is blank moves the row and not the provider row. */
  lemma UnlinkedDisagrees(spec: Spec, s: Source, id: RowId)
    requires HasProvider(spec, s, id) && AgreeAt(spec, s, id) && !Linked(spec, s.rows[id])
    ensures !AgreeAt(spec, Apply(spec, s, Toggle(s, id, id)).0, id)
  {
    var c := Toggle(s, id, id);
    assert Matched(c.sel, s.rows) == {id};
    OneRowCommand(spec, s, c, id);
    PerformKeepsIdentity(spec, View(spec, s, id), c.action);
    PutOwn(spec, s, id, Perform(spec, View(spec, s, id), c.action).0);
  }

  /** Toggling another row with the same key moves the provider row and not this row. */
  lemma SharedKeyDisagrees(spec: Spec, s: Source, id: RowId, j: RowId)
    requires HasProvider(spec, s, id) && AgreeAt(spec, s, id) && Linked(spec, s.rows[id])
    requires j in s.rows && j != id && KeyOf(spec, s, j) == KeyOf(spec, s, id)
    ensures !AgreeAt(spec, Apply(spec, s, Toggle(s, id, j)).0, id)
  {
    var c := Toggle(s, id, j);
    assert Matched(c.sel, s.rows) == {j};
    OneRowCommand(spec, s, c, j);
    assert Linked(spec, s.rows[j]);
  }

  /** The agreement is safe from every command on any row exactly when the row yields a non-empty provider key that
      no other row of the tenant yields: with a blank key the provider row is left behind, and with a shared one it
      follows whichever row was commanded last. */
  lemma AgreementSafeIffKeyAlone(spec: Spec, s: Source, id: RowId)
    requires HasProvider(spec, s, id) && AgreeAt(spec, s, id)
    ensures (forall c :: AgreeAt(spec, Apply(spec, s, c).0, id)) <==> KeyAlone(spec, s, id)
  {
    if KeyAlone(spec, s, id) {
      forall c ensures AgreeAt(spec, Apply(spec, s, c).0, id) { ApplyKeepsAgreement(spec, s, c, id); }
    } else if !Linked(spec, s.rows[id]) {
      UnlinkedDisagrees(spec, s, id);
    } else {
      var j :| j in s.rows && j != id && KeyOf(spec, s, j) == KeyOf(spec, s, id);
      SharedKeyDisagrees(spec, s, id, j);
    }
  }

  ghost predicate AllAgree(spec: Spec, s: Source) { forall id | HasProvider(spec, s, id) :: AgreeAt(spec, s, id) }

  ghost predicate AlwaysAgrees(spec: Spec, s: Source, id: RowId) {
    forall cs :: AgreeAt(spec, ApplyAll(spec, s, cs), id)
  }

  /** A table in which every row agrees with its provider row stays so in every run if and only if every row that
      has a provider row has it alone. */
  lemma AllRunsAgreeIff(spec: Spec, s: Source)
    requires AllAgree(spec, s)
    ensures (forall id | HasProvider(spec, s, id) :: AlwaysAgrees(spec, s, id)) <==>
            (forall id | HasProvider(spec, s, id) :: KeyAlone(spec, s, id))
  {
    forall id | HasProvider(spec, s, id)
      ensures AlwaysAgrees(spec, s, id) <==> KeyAlone(spec, s, id)
    {
      if KeyAlone(spec, s, id) {
        forall cs ensures AgreeAt(spec, ApplyAll(spec, s, cs), id) { RunsKeepAgreement(spec, s, cs, id); }
      } else {
        AgreementSafeIffKeyAlone(spec, s, id);
        var c :| !AgreeAt(spec, Apply(spec, s, c).0, id);
        OneCommandRun(spec, s, c);
      }
    }
  }

  lemma OneCommandRun(spec: Spec, s: Source, c: Command)
    ensures ApplyAll(spec, s, [c]) == Apply(spec, s, c).0
  {
    assert [c][..0] == [];
  }

  // -- Runs on one row ----------------------------------------------------------------------------------

  function OnRow(id: RowId, actions: seq<Action>): seq<Command> {
    seq(|actions|, i requires 0 <= i < |actions| => Command(ById(id), actions[i]))
  }

  /** A run of commands on one row, seen from that row, is the run of its actions. */
  lemma {:induction false} OneRowRun(spec: Spec, s: Source, id: RowId, actions: seq<Action>)
    requires id in s.rows
    ensures var t := ApplyAll(spec, s, OnRow(id, actions));
      && SameScopes(s, t) && View(spec, t, id) == PerformAll(spec, View(spec, s, id), actions)
      && forall j | j in s.rows && j != id :: t.rows[j] == s.rows[j]
  {
    RunsKeepScopes(spec, s, OnRow(id, actions));
    if actions != [] {
      var n := |actions| - 1;
      var mid, c := ApplyAll(spec, s, OnRow(id, actions[..n])), Command(ById(id), actions[n]);
      OneRowRun(spec, s, id, actions[..n]);
      assert OnRow(id, actions)[..n] == OnRow(id, actions[..n]);
      assert Matched(c.sel, mid.rows) == {id};
      OneRowCommand(spec, mid, c, id);
      PerformKeepsIdentity(spec, View(spec, mid, id), c.action);
      PutOwn(spec, mid, id, Perform(spec, View(spec, mid, id), c.action).0);
    }
  }

  // -- Refs and secrets over runs on any rows -----------------------------------------------------------------

  predicate SomeRowRefers(spec: Spec, s: Source, r: Ref) { exists id | id in s.rows :: OwnRef(spec, s.rows[id], r) }

  ghost predicate RowCleared(spec: Spec, s: Source, t: Source, id: RowId) {
    id in s.rows && id in t.rows && RefsOnlyCleared(spec, View(spec, s, id), View(spec, t, id))
  }

  /** What a run on any rows may do to refs and secrets. */
  ghost predicate OnlyCleared(spec: Spec, s: Source, t: Source) {
    && SameScopes(s, t) && (forall id | id in s.rows :: RowCleared(spec, s, t, id))
    && (forall r | r in t.secrets :: r in s.secrets)
    && (forall r | r in s.secrets && !SomeRowRefers(spec, s, r) :: r in t.secrets && t.secrets[r] == s.secrets[r])
  }

  lemma ClearedTwice(spec: Spec, s: Source, mid: Source, t: Source, id: RowId)
    requires RowCleared(spec, s, mid, id) && RowCleared(spec, mid, t, id)
    requires forall r | r in t.secrets :: r in mid.secrets
    ensures RowCleared(spec, s, t, id)
  {
    var refs, now := s.rows[id].refs, t.rows[id].refs;
    forall c | c in refs && c !in now
      ensures c in spec.refColumns && HasRef(s.rows[id], c) && refs[c] !in t.secrets
    {
      if c in mid.rows[id].refs { assert mid.rows[id].refs[c] == refs[c]; }
    }
  }

  lemma OnlyClearedTwice(spec: Spec, s: Source, mid: Source, t: Source)
    requires OnlyCleared(spec, s, mid) && OnlyCleared(spec, mid, t)
    ensures OnlyCleared(spec, s, t)
  {
    forall id | id in s.rows ensures RowCleared(spec, s, t, id) { ClearedTwice(spec, s, mid, t, id); }
    forall r | r in s.secrets && !SomeRowRefers(spec, s, r)
      ensures r in t.secrets && t.secrets[r] == s.secrets[r]
    {
      StillUnreferred(spec, s, mid, r);
    }
  }

  lemma StillUnreferred(spec: Spec, s: Source, mid: Source, r: Ref)
    requires OnlyCleared(spec, s, mid) && !SomeRowRefers(spec, s, r)
    ensures !SomeRowRefers(spec, mid, r)
  {
    forall id | id in mid.rows ensures !OwnRef(spec, mid.rows[id], r) { assert RowCleared(spec, s, mid, id); }
  }

  lemma OneRowClears(spec: Spec, s: Source, id: RowId, a: Action)
    requires id in s.rows
    ensures OnlyCleared(spec, s, Put(spec, s, id, Perform(spec, View(spec, s, id), a).0))
  {
    var w := View(spec, s, id);
    var after := Perform(spec, w, a).0;
    PerformKeepsProgress(spec, w, w, a);
    forall r | r in s.secrets && !SomeRowRefers(spec, s, r)
      ensures r in after.secrets && after.secrets[r] == s.secrets[r]
    {
      assert !OwnRef(spec, s.rows[id], r);
    }
  }

  lemma SameRefsClear(spec: Spec, s: Source, t: Source)
    requires SameScopes(s, t) && t.secrets == s.secrets
    requires forall id | id in s.rows :: t.rows[id].refs == s.rows[id].refs
    ensures OnlyCleared(spec, s, t)
  {
    forall id | id in s.rows ensures RowCleared(spec, s, t, id) {}
  }

  lemma StatesKeepRefs(spec: Spec, s: Source, ids: set<RowId>, returned: RowId, disabled: Option<int>, what: string)
    requires returned in s.rows
    ensures OnlyCleared(spec, s, s) && OnlyCleared(spec, s, SetStates(spec, s, ids, returned, disabled, what))
  {
    SameRefsClear(spec, s, s);
    SameRefsClear(spec, s, SetStates(spec, s, ids, returned, disabled, what));
  }

  lemma ApplyClears(spec: Spec, s: Source, c: Command)
    ensures OnlyCleared(spec, s, Apply(spec, s, c).0)
  {
    var ids := Matched(c.sel, s.rows);
    if ids == {} { return; }
    match c.action
    case Pause(now, _) => StatesKeepRefs(spec, s, ids, Choose(ids), Some(now), "pause");
    case Resume(_, _) => StatesKeepRefs(spec, s, ids, Choose(ids), None, "resume");
    case _ => OneRowClears(spec, s, Choose(ids), c.action);
  }

  /** In every run of commands on any rows a ref column is cleared only when its secret no longer exists, no secret
      appears, and one that no row refers to is untouched. */
  lemma {:induction false} RunsOnlyClear(spec: Spec, s: Source, cs: seq<Command>)
    ensures OnlyCleared(spec, s, ApplyAll(spec, s, cs))
  {
    if cs != [] {
      RunsOnlyClear(spec, s, cs[..|cs| - 1]);
      ApplyClears(spec, ApplyAll(spec, s, cs[..|cs| - 1]), cs[|cs| - 1]);
      OnlyClearedTwice(spec, s, ApplyAll(spec, s, cs[..|cs| - 1]), ApplyAll(spec, s, cs));
    }
  }
}
