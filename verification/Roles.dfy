/** The role console: listing, granting and revoking roles, with the first-operator bootstrap and the action log. */
module Roles {
  import opened Options

  datatype EntityType = Goal | Commitment | Decision | Resource | Tenant
  datatype Role = Owner | Contributor | Viewer | Admin | Finance | Legal | Leadership

  predicate TenantRole(role: Role) { role.Admin? || role.Finance? || role.Legal? || role.Leadership? }
  predicate OperatorRole(role: Role) { role.Admin? || role.Leadership? }

  // A command-line identifier before it is parsed.
  datatype Arg = Absent | Malformed | Uuid(id: nat)
  datatype Field = TenantField | ActorField | EntityIdField | GrantedByField | OperatorField

  datatype Error =
    | Missing(field: Field)
    | NotAUuid(field: Field)
    | TenantScopeHasEntity
    | NotATenantRole
    | EntityScopeNeedsEntity
    | NotAnEntityRole
    | NotAnActor
    | NotAnOperator
    | OperatorRequired
    | BootstrapScope
    | BootstrapActor
    | OperatorExists
    | ForeignKey

  datatype Result<T> = Ok(value: T) | Err(error: Error)

  datatype Target = Target(entityType: EntityType, entityId: Arg, role: Role)

  datatype Command =
    | List(tenant: Arg, actor: Arg, operator: Arg)
    | Grant(tenant: Arg, actor: Arg, operator: Arg, target: Target, grantedBy: Arg, allowBootstrap: bool)
    | Revoke(tenant: Arg, actor: Arg, operator: Arg, target: Target)

  /** A grant: who holds which role on what. */
  datatype Key = Key(tenant: nat, actor: nat, entityType: EntityType, entityId: Option<nat>, role: Role)
  datatype Row = Row(key: Key, grantedBy: Option<nat>, revokedAt: Option<nat>)

  datatype Action =
    | ListAction(actor: nat, count: nat)
    | GrantAction(key: Key, grantedBy: Option<nat>, bootstrap: bool)
    | RevokeAction(key: Key, revoked: bool)
  datatype Entry = Entry(tenant: nat, operator: nat, action: Action)

  /** The actors with their tenants, the rows of `actor_roles`, the action log, and the time. */
  datatype State = State(actors: map<nat, nat>, rows: seq<Row>, log: seq<Entry>, now: nat)

  datatype Output = Listed(rows: seq<Row>) | Granted | Revoked(revoked: bool)

  // -- What the tables say ----------------------------------------------------------------------------------

  predicate Active(rows: seq<Row>, key: Key) {
    exists i | 0 <= i < |rows| :: rows[i].key == key && rows[i].revokedAt == None
  }

  function OperatorKey(tenant: nat, actor: nat, role: Role): Key { Key(tenant, actor, Tenant, None, role) }

  predicate HoldsOperatorRole(rows: seq<Row>, tenant: nat, actor: nat) {
    Active(rows, OperatorKey(tenant, actor, Admin)) || Active(rows, OperatorKey(tenant, actor, Leadership))
  }

  predicate InTenant(s: State, tenant: nat, actor: nat) { actor in s.actors && s.actors[actor] == tenant }

  /** An actor of the tenant with an active tenant-wide operator role. */
  predicate Operator(s: State, tenant: nat, actor: nat) {
    InTenant(s, tenant, actor) && HoldsOperatorRole(s.rows, tenant, actor)
  }

  /** Some active operator row, whoever holds it. */
  predicate OperatorRow(row: Row, tenant: nat) {
    row.key.tenant == tenant && row.key.entityType == Tenant && row.key.entityId == None && OperatorRole(row.key.role)
    && row.revokedAt == None
  }

  predicate SomeOperatorRow(rows: seq<Row>, tenant: nat) {
    exists i | 0 <= i < |rows| :: OperatorRow(rows[i], tenant)
  }

  // -- Validation and authorisation ---------------------------------------------------------------------------

  function ParseRequired(arg: Arg, field: Field): Result<nat> {
    match arg case Absent => Err(Missing(field)) case Malformed => Err(NotAUuid(field)) case Uuid(id) => Ok(id)
  }

  function ParseOptional(arg: Arg, field: Field): Result<Option<nat>> {
    match arg case Absent => Ok(None) case Malformed => Err(NotAUuid(field)) case Uuid(id) => Ok(Some(id))
  }

  function RoleTarget(target: Target): Result<Option<nat>> {
    match ParseOptional(target.entityId, EntityIdField)
    case Err(e) => Err(e)
    case Ok(entityId) =>
      if target.entityType == Tenant then
        if entityId.Some? then Err(TenantScopeHasEntity)
        else if !TenantRole(target.role) then Err(NotATenantRole)
        else Ok(None)
      else if entityId.None? then Err(EntityScopeNeedsEntity)
      else if TenantRole(target.role) then Err(NotAnEntityRole)
      else Ok(entityId)
  }

  function RequireTenantOperator(s: State, tenant: nat, actor: nat): Result<nat> {
    if !InTenant(s, tenant, actor) then Err(NotAnActor)
    else if !HoldsOperatorRole(s.rows, tenant, actor) then Err(NotAnOperator)
    else Ok(actor)
  }

  function AuthorizedOperator(s: State, tenant: nat, operator: Arg): Result<nat> {
    match ParseRequired(operator, OperatorField)
    case Err(e) => Err(e)
    case Ok(id) => RequireTenantOperator(s, tenant, id)
  }

  function BootstrapAllowed(s: State, tenant: nat, actor: nat, target: Target, operator: nat): Result<nat> {
    if target.entityType != Tenant || !OperatorRole(target.role) then Err(BootstrapScope)
    else if !InTenant(s, tenant, operator) || !InTenant(s, tenant, actor) then Err(BootstrapActor)
    else if SomeOperatorRow(s.rows, tenant) then Err(OperatorExists)
    else Ok(operator)
  }

  datatype Approval = Approval(operator: nat, bootstrap: bool)

  function AuthorizedForGrant(s: State, tenant: nat, actor: nat, c: Command, grantedBy: Option<nat>): Result<Approval>
    requires c.Grant?
  {
    match ParseOptional(c.operator, OperatorField)
    case Err(e) => Err(e)
    case Ok(Some(id)) =>
      (match RequireTenantOperator(s, tenant, id) case Err(e) => Err(e) case Ok(_) => Ok(Approval(id, false)))
    case Ok(None) =>
      if !c.allowBootstrap then Err(OperatorRequired)
      else
        match BootstrapAllowed(s, tenant, actor, c.target, if grantedBy.Some? then grantedBy.value else actor)
        case Err(e) => Err(e)
        case Ok(operator) => Ok(Approval(operator, true))
  }

  // -- The statements -------------------------------------------------------------------------------------------

  /** INSERT ... ON CONFLICT DO NOTHING; a new row must refer to known actors. */
  function GrantRow(s: State, key: Key, grantedBy: Option<nat>): Result<seq<Row>> {
    if Active(s.rows, key) then Ok(s.rows)
    else if key.actor !in s.actors || (grantedBy.Some? && grantedBy.value !in s.actors) then Err(ForeignKey)
    else Ok(s.rows + [Row(key, grantedBy, None)])
  }

  function RevokeRows(rows: seq<Row>, key: Key, now: nat): seq<Row> {
    seq(|rows|, i requires 0 <= i < |rows| =>
      if rows[i].key == key && rows[i].revokedAt == None then rows[i].(revokedAt := Some(now)) else rows[i])
  }

  function RolesForActor(rows: seq<Row>, tenant: nat, actor: nat): seq<Row> {
    if rows == [] then []
    else
      var init, last := rows[..|rows| - 1], rows[|rows| - 1];
      RolesForActor(init, tenant, actor)
      + if last.key.tenant == tenant && last.key.actor == actor && last.revokedAt == None then [last] else []
  }

  function Logged(s: State, rows: seq<Row>, entry: Entry): State { s.(rows := rows, log := s.log + [entry]) }

  function RunList(s: State, tenant: nat, actor: nat, c: Command): (State, Result<Output>)
    requires c.List?
  {
    match AuthorizedOperator(s, tenant, c.operator)
    case Err(e) => (s, Err(e))
    case Ok(operator) =>
      var rows := RolesForActor(s.rows, tenant, actor);
      (Logged(s, s.rows, Entry(tenant, operator, ListAction(actor, |rows|))), Ok(Listed(rows)))
  }

  function RunGrant(s: State, tenant: nat, actor: nat, entityId: Option<nat>, c: Command): (State, Result<Output>)
    requires c.Grant?
  {
    match ParseOptional(c.grantedBy, GrantedByField)
    case Err(e) => (s, Err(e))
    case Ok(grantedBy) =>
      match AuthorizedForGrant(s, tenant, actor, c, grantedBy)
      case Err(e) => (s, Err(e))
      case Ok(approval) =>
        var key := Key(tenant, actor, c.target.entityType, entityId, c.target.role);
        match GrantRow(s, key, grantedBy)
        case Err(e) => (s, Err(e))
        case Ok(rows) =>
          (Logged(s, rows, Entry(tenant, approval.operator, GrantAction(key, grantedBy, approval.bootstrap))),
           Ok(Granted))
  }

  function RunRevoke(s: State, tenant: nat, actor: nat, entityId: Option<nat>, c: Command): (State, Result<Output>)
    requires c.Revoke?
  {
    match AuthorizedOperator(s, tenant, c.operator)
    case Err(e) => (s, Err(e))
    case Ok(operator) =>
      var key := Key(tenant, actor, c.target.entityType, entityId, c.target.role);
      var revoked := Active(s.rows, key);
      (Logged(s, RevokeRows(s.rows, key, s.now), Entry(tenant, operator, RevokeAction(key, revoked))),
       Ok(Revoked(revoked)))
  }

  /** One run of the script. */
  function Step(s: State, c: Command): (State, Result<Output>) {
    match ParseRequired(c.tenant, TenantField)
    case Err(e) => (s, Err(e))
    case Ok(tenant) =>
      match ParseRequired(c.actor, ActorField)
      case Err(e) => (s, Err(e))
      case Ok(actor) =>
        if c.List? then RunList(s, tenant, actor, c)
        else
          match RoleTarget(c.target)
          case Err(e) => (s, Err(e))
          case Ok(entityId) =>
            if c.Grant? then RunGrant(s, tenant, actor, entityId, c) else RunRevoke(s, tenant, actor, entityId, c)
  }

  // -- The script -------------------------------------------------------------------------------------------------

  class Console {
    const actors: map<nat, nat>
    var rows: seq<Row>
    var log: seq<Entry>
    var now: nat

    constructor (actors: map<nat, nat>)
      ensures this.actors == actors && rows == [] && log == []
    {
      this.actors, rows, log, now := actors, [], [], 0;
    }

    function Tables(): State
      reads this
    {
      State(actors, rows, log, now)
    }

    method EnsureBootstrapGrantAllowed(tenant: nat, actor: nat, target: Target, operator: nat) returns (r: Result<nat>)
      ensures r == BootstrapAllowed(Tables(), tenant, actor, target, operator)
    {
      if target.entityType != Tenant || !OperatorRole(target.role) {
        return Err(BootstrapScope);
      }
      var operatorExists, targetExists := InTenant(Tables(), tenant, operator), InTenant(Tables(), tenant, actor);
      if !operatorExists || !targetExists {
        return Err(BootstrapActor);
      }
      if SomeOperatorRow(rows, tenant) {
        return Err(OperatorExists);
      }
      return Ok(operator);
    }

    method AuthorizedForMutation(tenant: nat, actor: nat, c: Command, grantedBy: Option<nat>)
      returns (r: Result<Approval>)
      requires c.Grant?
      ensures r == AuthorizedForGrant(Tables(), tenant, actor, c, grantedBy)
    {
      var operator := ParseOptional(c.operator, OperatorField);
      if operator.Err? {
        return Err(operator.error);
      }
      if operator.value.Some? {
        var required := RequireTenantOperator(Tables(), tenant, operator.value.value);
        return if required.Err? then Err(required.error) else Ok(Approval(operator.value.value, false));
      }
      if !c.allowBootstrap {
        return Err(OperatorRequired);
      }
      var by_ := if grantedBy.Some? then grantedBy.value else actor;
      var allowed := EnsureBootstrapGrantAllowed(tenant, actor, c.target, by_);
      return if allowed.Err? then Err(allowed.error) else Ok(Approval(by_, true));
    }

    method ListRoles(tenant: nat, actor: nat, c: Command) returns (r: Result<Output>)
      requires c.List?
      modifies this
      ensures (Tables(), r) == RunList(old(Tables()), tenant, actor, c)
    {
      var operator := AuthorizedOperator(Tables(), tenant, c.operator);
      if operator.Err? {
        return Err(operator.error);
      }
      var roles := RolesForActor(rows, tenant, actor);
      log := log + [Entry(tenant, operator.value, ListAction(actor, |roles|))];
      return Ok(Listed(roles));
    }

    method GrantRole(tenant: nat, actor: nat, entityId: Option<nat>, c: Command) returns (r: Result<Output>)
      requires c.Grant?
      modifies this
      ensures (Tables(), r) == RunGrant(old(Tables()), tenant, actor, entityId, c)
    {
      var grantedBy := ParseOptional(c.grantedBy, GrantedByField);
      if grantedBy.Err? {
        return Err(grantedBy.error);
      }
      var approval := AuthorizedForMutation(tenant, actor, c, grantedBy.value);
      if approval.Err? {
        return Err(approval.error);
      }
      var key := Key(tenant, actor, c.target.entityType, entityId, c.target.role);
      var inserted := GrantRow(Tables(), key, grantedBy.value);
      if inserted.Err? {
        return Err(inserted.error);
      }
      rows := inserted.value;
      log := log + [Entry(tenant, approval.value.operator,
                          GrantAction(key, grantedBy.value, approval.value.bootstrap))];
      return Ok(Granted);
    }

    method RevokeRole(tenant: nat, actor: nat, entityId: Option<nat>, c: Command) returns (r: Result<Output>)
      requires c.Revoke?
      modifies this
      ensures (Tables(), r) == RunRevoke(old(Tables()), tenant, actor, entityId, c)
    {
      var operator := AuthorizedOperator(Tables(), tenant, c.operator);
      if operator.Err? {
        return Err(operator.error);
      }
      var key := Key(tenant, actor, c.target.entityType, entityId, c.target.role);
      var revoked := Active(rows, key);
      rows := RevokeRows(rows, key, now);
      log := log + [Entry(tenant, operator.value, RevokeAction(key, revoked))];
      return Ok(Revoked(revoked));
    }

    method RunCommand(c: Command) returns (r: Result<Output>)
      modifies this
      ensures (Tables(), r) == Step(old(Tables()), c)
    {
      var tenant := ParseRequired(c.tenant, TenantField);
      if tenant.Err? {
        return Err(tenant.error);
      }
      var actor := ParseRequired(c.actor, ActorField);
      if actor.Err? {
        return Err(actor.error);
      }
      if c.List? {
        r := ListRoles(tenant.value, actor.value, c);
        return;
      }
      var entityId := RoleTarget(c.target);
      if entityId.Err? {
        return Err(entityId.error);
      }
      if c.Grant? {
        r := GrantRole(tenant.value, actor.value, entityId.value, c);
      } else {
        r := RevokeRole(tenant.value, actor.value, entityId.value, c);
      }
    }
  }

  // -- One command ------------------------------------------------------------------------------------------------

  /** What entitles a command to be logged: the operator holds an operator role of the tenant now, or it grants
      one to an actor of the tenant while nobody holds any. */
  predicate Justified(s: State, e: Entry) {
    match e.action
    case GrantAction(key, grantedBy, true) =>
      && !SomeOperatorRow(s.rows, e.tenant)
      && key.tenant == e.tenant && key.entityType == Tenant && key.entityId == None && OperatorRole(key.role)
      && InTenant(s, e.tenant, key.actor) && InTenant(s, e.tenant, e.operator)
      && e.operator == (if grantedBy.Some? then grantedBy.value else key.actor)
    case GrantAction(key, _, false) => key.tenant == e.tenant && Operator(s, e.tenant, e.operator)
    case RevokeAction(key, revoked) =>
      key.tenant == e.tenant && Operator(s, e.tenant, e.operator) && revoked == Active(s.rows, key)
    case ListAction(_, _) => Operator(s, e.tenant, e.operator)
  }

  /** The entry records the command that was run. */
  predicate Describes(c: Command, e: Entry) {
    && c.tenant == Uuid(e.tenant)
    && match e.action
       case ListAction(actor, _) => c.List? && c.actor == Uuid(actor)
       case GrantAction(key, grantedBy, bootstrap) =>
         && c.Grant? && NamesKey(c, key) && c.grantedBy == (if grantedBy.Some? then Uuid(grantedBy.value) else Absent)
         && (bootstrap <==> c.operator == Absent) && (bootstrap ==> c.allowBootstrap)
       case RevokeAction(key, _) => c.Revoke? && NamesKey(c, key) && c.operator == Uuid(e.operator)
  }

  predicate NamesKey(c: Command, key: Key)
    requires !c.List?
  {
    && c.actor == Uuid(key.actor) && c.target.entityType == key.entityType && c.target.role == key.role
    && c.target.entityId == (if key.entityId.Some? then Uuid(key.entityId.value) else Absent)
  }

  /** The active grants after an action. */
  predicate ActiveAfter(rows: seq<Row>, action: Action, k: Key) {
    match action
    case GrantAction(key, _, _) => k == key || Active(rows, k)
    case RevokeAction(key, _) => k != key && Active(rows, k)
    case ListAction(_, _) => Active(rows, k)
  }

  lemma ActiveAppend(rows: seq<Row>, row: Row, k: Key)
    ensures Active(rows + [row], k) <==> Active(rows, k) || (row.key == k && row.revokedAt == None)
  {
    var longer := rows + [row];
    if Active(rows, k) {
      var i :| 0 <= i < |rows| && rows[i].key == k && rows[i].revokedAt == None;
      assert longer[i] == rows[i];
    }
    assert longer[|rows|] == row;
  }

  lemma ActiveRevoke(rows: seq<Row>, key: Key, now: nat, k: Key)
    ensures Active(RevokeRows(rows, key, now), k) <==> Active(rows, k) && k != key
  {
    var after := RevokeRows(rows, key, now);
    if Active(rows, k) && k != key {
      var i :| 0 <= i < |rows| && rows[i].key == k && rows[i].revokedAt == None;
      assert after[i] == rows[i];
    }
  }

  /** A failed command changes nothing; a successful one appends exactly one justified entry, which records the
      command and says what became of every grant. */
  lemma StepMeaning(s: State, c: Command)
    ensures var (after, result) := Step(s, c);
      && after.actors == s.actors && after.now == s.now
      && (result.Err? ==> after == s)
      && (result.Ok? ==>
          && |after.log| == |s.log| + 1 && after.log[..|s.log|] == s.log
          && var e := after.log[|s.log|];
             Describes(c, e) && Justified(s, e)
             && forall k :: Active(after.rows, k) <==> ActiveAfter(s.rows, e.action, k))
  {
    var (after, result) := Step(s, c);
    if result.Ok? {
      var e := after.log[|s.log|];
      forall k ensures Active(after.rows, k) <==> ActiveAfter(s.rows, e.action, k) {
        match e.action
        case GrantAction(key, grantedBy, _) =>
          if after.rows != s.rows { ActiveAppend(s.rows, Row(key, grantedBy, None), k); }
        case RevokeAction(key, _) => ActiveRevoke(s.rows, key, s.now, k);
        case ListAction(_, _) =>
      }
    }
  }

  // -- Runs -------------------------------------------------------------------------------------------------------

  function Next(s: State, c: Command): State { Step(s, c).0.(now := s.now + 1) }

  function Run(s: State, cs: seq<Command>): State {
    if cs == [] then s else Next(Run(s, cs[..|cs| - 1]), cs[|cs| - 1])
  }

  /** The table's constraints: no two rows with the same grant and the same revocation time, so at most one active
      row for a grant; tenant roles without and entity roles with an entity; known actors. */
  ghost predicate Inv(s: State) {
    && (forall i, j | 0 <= i < j < |s.rows| :: s.rows[i].key == s.rows[j].key ==>
         s.rows[i].revokedAt != s.rows[j].revokedAt)
    && (forall i | 0 <= i < |s.rows| :: RowOk(s, s.rows[i]))
    && (forall i | 0 <= i < |s.log| :: s.log[i].operator in s.actors)
  }

  predicate RowOk(s: State, row: Row) {
    && (row.key.entityType == Tenant <==> row.key.entityId == None)
    && (row.key.entityType == Tenant <==> TenantRole(row.key.role))
    && row.key.actor in s.actors && (row.grantedBy.Some? ==> row.grantedBy.value in s.actors)
    && (row.revokedAt.Some? ==> row.revokedAt.value < s.now)
  }

  lemma NextKeepsInv(s: State, c: Command)
    requires Inv(s)
    ensures Inv(Next(s, c))
  {
    StepMeaning(s, c);
    var after := Next(s, c);
    if Step(s, c).1.Ok? && c.Grant? && after.rows != s.rows {
      var row := after.rows[|s.rows|];
      assert after.rows == s.rows + [row] && !Active(s.rows, row.key);
    }
  }

  lemma {:induction false} RunKeepsInv(s: State, cs: seq<Command>)
    requires Inv(s)
    ensures Inv(Run(s, cs))
  {
    if cs != [] {
      RunKeepsInv(s, cs[..|cs| - 1]);
      NextKeepsInv(Run(s, cs[..|cs| - 1]), cs[|cs| - 1]);
    }
  }

  function Successes(s: State, cs: seq<Command>): nat {
    if cs == [] then 0
    else
      var init := cs[..|cs| - 1];
      Successes(s, init) + if Step(Run(s, init), cs[|cs| - 1]).1.Ok? then 1 else 0
  }

  /** Command k of the run wrote entry i, and was entitled to. */
  predicate Wrote(s: State, cs: seq<Command>, k: nat, i: nat) {
    && k < |cs| && i < |Run(s, cs).log|
    && |Run(s, cs[..k]).log| == i && Step(Run(s, cs[..k]), cs[k]).1.Ok?
    && Justified(Run(s, cs[..k]), Run(s, cs).log[i])
  }

  /** Over every run the log gains one entry for each successful command, and every entry was justified at the
      moment its command ran. */
  lemma {:induction false} EveryEntryJustified(s: State, cs: seq<Command>, i: nat)
    requires |s.log| <= i < |Run(s, cs).log|
    ensures exists k: nat | k < |cs| :: Wrote(s, cs, k, i)
  {
    if cs != [] {
      var init, c := cs[..|cs| - 1], cs[|cs| - 1];
      var before := Run(s, init);
      StepMeaning(before, c);
      if i < |before.log| {
        EveryEntryJustified(s, init, i);
        var k: nat :| k < |init| && Wrote(s, init, k, i);
        assert cs[..k] == init[..k];
        assert Run(s, cs).log[i] == Run(s, cs).log[..|before.log|][i] == before.log[i];
        assert Wrote(s, cs, k, i);
      } else {
        assert Wrote(s, cs, |cs| - 1, i);
      }
    }
  }

  lemma {:induction false} LogCountsSuccesses(s: State, cs: seq<Command>)
    ensures |Run(s, cs).log| == |s.log| + Successes(s, cs) && Run(s, cs).log[..|s.log|] == s.log
    ensures Run(s, cs).actors == s.actors
  {
    if cs != [] {
      var before := Run(s, cs[..|cs| - 1]);
      LogCountsSuccesses(s, cs[..|cs| - 1]);
      StepMeaning(before, cs[|cs| - 1]);
      assert Run(s, cs).log[..|s.log|] == Run(s, cs).log[..|before.log|][..|s.log|];
    }
  }

  /** The grants in force according to the log alone. */
  function Replay(log: seq<Entry>): set<Key> {
    if log == [] then {}
    else
      var before := Replay(log[..|log| - 1]);
      match log[|log| - 1].action
      case GrantAction(key, _, _) => before + {key}
      case RevokeAction(key, _) => before - {key}
      case ListAction(_, _) => before
  }

  ghost predicate Explained(s: State) { forall k :: Active(s.rows, k) <==> k in Replay(s.log) }

  /** The log explains the table: replaying it gives exactly the active grants, after every run. */
  lemma {:induction false} LogExplainsTable(s: State, cs: seq<Command>)
    requires Explained(s)
    ensures Explained(Run(s, cs))
  {
    if cs != [] {
      var before, c := Run(s, cs[..|cs| - 1]), cs[|cs| - 1];
      LogExplainsTable(s, cs[..|cs| - 1]);
      StepMeaning(before, c);
      var after := Step(before, c).0;
      if Step(before, c).1.Ok? { assert after.log[..|after.log| - 1] == before.log; }
    }
  }

  // -- Bootstrap --------------------------------------------------------------------------------------------------

  /** A well-formed bootstrap command. */
  predicate BootstrapCommand(c: Command) {
    && c.Grant? && c.tenant.Uuid? && c.actor.Uuid? && c.operator.Absent? && c.allowBootstrap && !c.grantedBy.Malformed?
    && c.target.entityType == Tenant && c.target.entityId.Absent? && OperatorRole(c.target.role)
  }

  lemma OperatorKeyRow(rows: seq<Row>, tenant: nat)
    ensures SomeOperatorRow(rows, tenant) <==> exists actor :: HoldsOperatorRole(rows, tenant, actor)
  {
    if SomeOperatorRow(rows, tenant) {
      var i :| 0 <= i < |rows| && OperatorRow(rows[i], tenant);
      assert Active(rows, OperatorKey(tenant, rows[i].key.actor, rows[i].key.role));
      assert HoldsOperatorRole(rows, tenant, rows[i].key.actor);
    }
    if actor :| HoldsOperatorRole(rows, tenant, actor) {
      var role := if Active(rows, OperatorKey(tenant, actor, Admin)) then Admin else Leadership;
      var i :| 0 <= i < |rows| && rows[i].key == OperatorKey(tenant, actor, role) && rows[i].revokedAt == None;
      assert OperatorRow(rows[i], tenant);
    }
  }

  /** Bootstrap succeeds exactly when both actors belong to the tenant and nobody holds an operator role now,
      whatever was held before. */
  lemma BootstrapIff(s: State, c: Command)
    requires BootstrapCommand(c)
    ensures Step(s, c).1.Ok? <==>
            && InTenant(s, c.tenant.id, c.actor.id)
            && (c.grantedBy.Uuid? ==> InTenant(s, c.tenant.id, c.grantedBy.id))
            && forall actor :: !HoldsOperatorRole(s.rows, c.tenant.id, actor)
  {
    OperatorKeyRow(s.rows, c.tenant.id);
  }

  const TENANT_ADMIN := Target(Tenant, Absent, Admin)

  function Bootstrap(tenant: nat, actor: nat): Command {
    Grant(Uuid(tenant), Uuid(actor), Absent, TENANT_ADMIN, Absent, true)
  }

  function GrantAdmin(tenant: nat, actor: nat, operator: nat): Command {
    Grant(Uuid(tenant), Uuid(actor), Uuid(operator), TENANT_ADMIN, Absent, false)
  }

  function RevokeAdmin(tenant: nat, actor: nat, operator: nat): Command {
    Revoke(Uuid(tenant), Uuid(actor), Uuid(operator), TENANT_ADMIN)
  }

  lemma RunNext(s: State, cs: seq<Command>, c: Command)
    ensures Run(s, cs + [c]) == Next(Run(s, cs), c)
  {
    assert (cs + [c])[..|cs|] == cs;
  }

  /** Bootstrap is not once only: when the last operator revokes their own role it is open again. */
  lemma BootstrapTwice(tenant: nat, actor: nat)
    ensures var s := State(map[actor := tenant], [], [], 0);
      var revoked := Run(s, [Bootstrap(tenant, actor), RevokeAdmin(tenant, actor, actor)]);
      Step(s, Bootstrap(tenant, actor)).1.Ok? && |revoked.log| == 2 && Step(revoked, Bootstrap(tenant, actor)).1.Ok?
  {
    var s := State(map[actor := tenant], [], [], 0);
    var c1, c2 := Bootstrap(tenant, actor), RevokeAdmin(tenant, actor, actor);
    RunNext(s, [], c1);
    RunNext(s, [c1], c2);
    assert [] + [c1] == [c1] && [c1] + [c2] == [c1, c2];
    var key := OperatorKey(tenant, actor, Admin);
    var first := Run(s, [c1]);
    assert first.rows == [Row(key, None, None)];
    assert first.rows[0].key == key;
    var second := Run(s, [c1, c2]);
    assert second.rows == [Row(key, None, Some(1))];
  }

  // -- Being able to act at all -------------------------------------------------------------------------------------

  ghost predicate CanAct(s: State, tenant: nat) {
    exists c: Command :: c.tenant == Uuid(tenant) && Step(s, c).1.Ok?
  }

  /** Some command for the tenant can succeed exactly when one of its actors is an operator, or it has an actor and
      nobody at all holds an operator role. */
  lemma CanActIff(s: State, tenant: nat)
    ensures CanAct(s, tenant) <==>
            || (exists actor :: Operator(s, tenant, actor))
            || (!SomeOperatorRow(s.rows, tenant) && exists actor :: InTenant(s, tenant, actor))
  {
    if actor :| Operator(s, tenant, actor) {
      assert Step(s, List(Uuid(tenant), Uuid(actor), Uuid(actor))).1.Ok?;
    } else if !SomeOperatorRow(s.rows, tenant) && exists actor :: InTenant(s, tenant, actor) {
      var actor :| InTenant(s, tenant, actor);
      BootstrapIff(s, Bootstrap(tenant, actor));
      OperatorKeyRow(s.rows, tenant);
      assert Step(s, Bootstrap(tenant, actor)).1.Ok?;
    }
    if c: Command :| c.tenant == Uuid(tenant) && Step(s, c).1.Ok? {
      StepMeaning(s, c);
      var e := Step(s, c).0.log[|s.log|];
      assert Operator(s, tenant, e.operator) || InTenant(s, tenant, e.operator);
    }
  }

  /** Operator rows exist, but none of their holders belongs to the tenant. */
  ghost predicate LockedOut(s: State, tenant: nat) {
    SomeOperatorRow(s.rows, tenant) && forall actor :: !Operator(s, tenant, actor)
  }

  lemma StepOnOtherTenant(s: State, c: Command, tenant: nat)
    requires c.tenant != Uuid(tenant) || Step(s, c).1.Err?
    ensures forall k: Key | k.tenant == tenant :: Active(Next(s, c).rows, k) <==> Active(s.rows, k)
    ensures forall actor :: HoldsOperatorRole(Next(s, c).rows, tenant, actor) <==>
            HoldsOperatorRole(s.rows, tenant, actor)
  {
    StepMeaning(s, c);
  }

  /** A tenant that is locked out stays so: every later command for it fails, whatever other tenants do. */
  lemma {:induction false} LockedOutForever(s: State, tenant: nat, cs: seq<Command>)
    requires LockedOut(s, tenant)
    ensures LockedOut(Run(s, cs), tenant) && !CanAct(Run(s, cs), tenant)
  {
    if cs != [] {
      var before, c := Run(s, cs[..|cs| - 1]), cs[|cs| - 1];
      LockedOutForever(s, tenant, cs[..|cs| - 1]);
      StepMeaning(before, c);
      StepOnOtherTenant(before, c, tenant);
      OperatorKeyRow(before.rows, tenant);
      OperatorKeyRow(Next(before, c).rows, tenant);
      assert forall actor :: Operator(Next(before, c), tenant, actor) ==> Operator(before, tenant, actor);
    }
    CanActIff(Run(s, cs), tenant);
  }

  /** Operator roles of the tenant are held by its own actors only. */
  ghost predicate HeldInside(s: State, tenant: nat) {
    forall actor :: HoldsOperatorRole(s.rows, tenant, actor) ==> InTenant(s, tenant, actor)
  }

  predicate StaysInside(s: State, tenant: nat, c: Command) {
    c.Grant? && c.tenant == Uuid(tenant) && c.actor.Uuid? ==> InTenant(s, tenant, c.actor.id)
  }

  lemma NextHeldInside(s: State, tenant: nat, c: Command)
    requires HeldInside(s, tenant) && StaysInside(s, tenant, c)
    ensures HeldInside(Next(s, c), tenant)
  {
    StepMeaning(s, c);
    if Step(s, c).1.Ok? {
      var e := Step(s, c).0.log[|s.log|];
      forall actor | HoldsOperatorRole(Next(s, c).rows, tenant, actor) ensures InTenant(s, tenant, actor) {
        if !HoldsOperatorRole(s.rows, tenant, actor) { assert e.action.GrantAction? && e.action.key.actor == actor; }
      }
    }
  }

  /** A tenant whose grants only ever go to its own actors is never locked out. */
  lemma {:induction false} InsideGrantsNeverLockOut(s: State, tenant: nat, cs: seq<Command>)
    requires HeldInside(s, tenant)
    requires forall c | c in cs :: StaysInside(s, tenant, c)
    ensures HeldInside(Run(s, cs), tenant) && !LockedOut(Run(s, cs), tenant)
  {
    if cs != [] {
      var init, c := cs[..|cs| - 1], cs[|cs| - 1];
      var before := Run(s, init);
      InsideGrantsNeverLockOut(s, tenant, init);
      LogCountsSuccesses(s, init);
      assert c in cs;
      NextHeldInside(before, tenant, c);
    }
    var final := Run(s, cs);
    OperatorKeyRow(final.rows, tenant);
    if SomeOperatorRow(final.rows, tenant) {
      var actor :| HoldsOperatorRole(final.rows, tenant, actor);
      assert Operator(final, tenant, actor);
    }
  }

  lemma EntryOf(s: State, c: Command)
    requires Step(s, c).1.Ok? && !c.List? && c.tenant.Uuid? && c.actor.Uuid? && c.target == TENANT_ADMIN
    ensures var key := OperatorKey(c.tenant.id, c.actor.id, Admin);
      forall k :: Active(Next(s, c).rows, k) <==>
        if c.Grant? then k == key || Active(s.rows, k) else k != key && Active(s.rows, k)
  {
    StepMeaning(s, c);
  }

  /** Without that restriction it can happen: grant the role to another tenant's actor, then give up one's own. */
  lemma CanLockOut(tenant: nat, other: nat, actor: nat, guest: nat)
    requires tenant != other && actor != guest
    ensures var s := State(map[actor := tenant, guest := other], [], [], 0);
      LockedOut(Run(s, [Bootstrap(tenant, actor), GrantAdmin(tenant, guest, actor),
                        RevokeAdmin(tenant, actor, actor)]), tenant)
  {
    var s := State(map[actor := tenant, guest := other], [], [], 0);
    var c1, c2, c3 := Bootstrap(tenant, actor), GrantAdmin(tenant, guest, actor), RevokeAdmin(tenant, actor, actor);
    RunNext(s, [], c1);
    RunNext(s, [c1], c2);
    RunNext(s, [c1, c2], c3);
    assert [] + [c1] == [c1] && [c1] + [c2] == [c1, c2] && [c1, c2] + [c3] == [c1, c2, c3];
    ThreeSteps(s, tenant, actor, guest);
  }

  lemma ThreeSteps(s: State, tenant: nat, actor: nat, guest: nat)
    requires s.rows == [] && InTenant(s, tenant, actor) && guest in s.actors && !InTenant(s, tenant, guest)
    ensures var s2 := Next(Next(s, Bootstrap(tenant, actor)), GrantAdmin(tenant, guest, actor));
      LockedOut(Next(s2, RevokeAdmin(tenant, actor, actor)), tenant)
  {
    var c1, c2, c3 := Bootstrap(tenant, actor), GrantAdmin(tenant, guest, actor), RevokeAdmin(tenant, actor, actor);
    var mine, theirs := OperatorKey(tenant, actor, Admin), OperatorKey(tenant, guest, Admin);
    BootstrapIff(s, c1);
    EntryOf(s, c1);
    var s1 := Next(s, c1);
    assert Active(s1.rows, mine);
    EntryOf(s1, c2);
    var s2 := Next(s1, c2);
    assert Active(s2.rows, mine) && Active(s2.rows, theirs);
    EntryOf(s2, c3);
    var s3 := Next(s2, c3);
    assert HoldsOperatorRole(s3.rows, tenant, guest);
    OperatorKeyRow(s3.rows, tenant);
    assert s3.actors == s.actors;
  }

  // -- Tenants --------------------------------------------------------------------------------------------------------

  lemma {:induction false} RolesAfterRevoke(rows: seq<Row>, key: Key, now: nat, tenant: nat, actor: nat)
    requires key.tenant != tenant
    ensures RolesForActor(RevokeRows(rows, key, now), tenant, actor) == RolesForActor(rows, tenant, actor)
  {
    if rows != [] {
      var init := rows[..|rows| - 1];
      RolesAfterRevoke(init, key, now, tenant, actor);
      assert RevokeRows(rows, key, now)[..|rows| - 1] == RevokeRows(init, key, now);
    }
  }

  /** A command for one tenant changes no grant of another and nothing another tenant can list. */
  lemma TenantsAreSeparate(s: State, c: Command, tenant: nat)
    requires c.tenant != Uuid(tenant)
    ensures forall k: Key | k.tenant == tenant :: Active(Next(s, c).rows, k) <==> Active(s.rows, k)
    ensures forall actor :: RolesForActor(Next(s, c).rows, tenant, actor) == RolesForActor(s.rows, tenant, actor)
  {
    StepOnOtherTenant(s, c, tenant);
    var (after, result) := Step(s, c);
    StepMeaning(s, c);
    forall actor ensures RolesForActor(after.rows, tenant, actor) == RolesForActor(s.rows, tenant, actor) {
      if result.Ok? {
        match after.log[|s.log|].action
        case RevokeAction(key, _) => RolesAfterRevoke(s.rows, key, s.now, tenant, actor);
        case GrantAction(key, grantedBy, _) =>
          if after.rows != s.rows { assert after.rows[..|after.rows| - 1] == s.rows; }
        case ListAction(_, _) =>
      }
    }
  }
}
