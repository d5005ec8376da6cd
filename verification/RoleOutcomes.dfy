/** Which error a role command reports, what a successful one writes, and what a listing shows. */
module RoleOutcomes {
  import opened Options
  import opened Positions
  import opened Roles

  // -- The checks, in order -----------------------------------------------------------------------------------

  datatype Check = Check(passes: bool, error: Error)

  /** The error of the first check that does not pass. */
  function FirstFailure(checks: seq<Check>): Option<Error> {
    if checks == [] then None else if checks[0].passes then FirstFailure(checks[1..]) else Some(checks[0].error)
  }

  lemma {:induction false} FirstFailureJoins(a: seq<Check>, b: seq<Check>)
    ensures FirstFailure(a + b) == if FirstFailure(a).Some? then FirstFailure(a) else FirstFailure(b)
  {
    if a == [] {
      assert a + b == b;
    } else {
      assert (a + b)[0] == a[0] && (a + b)[1..] == a[1..] + b;
      FirstFailureJoins(a[1..], b);
    }
  }

  function Id(arg: Arg): nat { if arg.Uuid? then arg.id else 0 }

  function Required(arg: Arg, field: Field): seq<Check> {
    [Check(arg != Absent, Missing(field)), Check(arg != Malformed, NotAUuid(field))]
  }

  function Optional(arg: Arg, field: Field): seq<Check> { [Check(arg != Malformed, NotAUuid(field))] }

  /** A tenant scope takes no entity and a tenant role; any other scope an entity and an entity role. */
  function TargetChecks(target: Target): seq<Check> {
    Optional(target.entityId, EntityIdField) +
    if target.entityType == Tenant then
      [Check(target.entityId == Absent, TenantScopeHasEntity),
       Check(target.role in {Admin, Finance, Legal, Leadership}, NotATenantRole)]
    else
      [Check(target.entityId != Absent, EntityScopeNeedsEntity),
       Check(target.role in {Owner, Contributor, Viewer}, NotAnEntityRole)]
  }

  /** The operator belongs to the tenant and holds the admin or the leadership role of it. */
  function OperatorChecks(s: State, tenant: nat, operator: nat): seq<Check> {
    [Check(operator in s.actors && s.actors[operator] == tenant, NotAnActor),
     Check(HoldsOperatorRole(s.rows, tenant, operator), NotAnOperator)]
  }

  /** Who grants in a bootstrap: the given grantor, or the actor itself. */
  function Grantor(c: Command): nat
    requires c.Grant?
  {
    if c.grantedBy.Uuid? then c.grantedBy.id else Id(c.actor)
  }

  function BootstrapChecks(s: State, c: Command): seq<Check>
    requires c.Grant?
  {
    var tenant := Id(c.tenant);
    [Check(c.allowBootstrap, OperatorRequired),
     Check(c.target.entityType == Tenant && c.target.role in {Admin, Leadership}, BootstrapScope),
     Check(InTenant(s, tenant, Grantor(c)) && InTenant(s, tenant, Id(c.actor)), BootstrapActor),
     Check(!SomeOperatorRow(s.rows, tenant), OperatorExists)]
  }

  /** The grant a command is about. */
  function TargetKey(c: Command): Key
    requires !c.List?
  {
    Key(Id(c.tenant), Id(c.actor), c.target.entityType,
        if c.target.entityType == Tenant then None else Some(Id(c.target.entityId)), c.target.role)
  }

  /** An insert refers to known actors; one that finds the grant active inserts nothing. */
  function InsertChecks(s: State, c: Command): seq<Check>
    requires c.Grant?
  {
    [Check(Active(s.rows, TargetKey(c))
           || (Id(c.actor) in s.actors && (c.grantedBy.Uuid? ==> c.grantedBy.id in s.actors)),
           ForeignKey)]
  }

  function RequiredOperator(s: State, c: Command): seq<Check> {
    Required(c.operator, OperatorField) + OperatorChecks(s, Id(c.tenant), Id(c.operator))
  }

  function GrantChecks(s: State, c: Command): seq<Check>
    requires c.Grant?
  {
    Optional(c.grantedBy, GrantedByField) + Optional(c.operator, OperatorField) +
    (if c.operator.Uuid? then OperatorChecks(s, Id(c.tenant), c.operator.id) else BootstrapChecks(s, c)) +
    InsertChecks(s, c)
  }

  function BodyChecks(s: State, c: Command): seq<Check> {
    match c
    case List(_, _, _) => RequiredOperator(s, c)
    case Grant(_, _, _, target, _, _) => TargetChecks(target) + GrantChecks(s, c)
    case Revoke(_, _, _, target) => TargetChecks(target) + RequiredOperator(s, c)
  }

  function ChecksOf(s: State, c: Command): seq<Check> {
    Required(c.tenant, TenantField) + Required(c.actor, ActorField) + BodyChecks(s, c)
  }

  // Each part of the script against its checks.

  lemma RequiredTells(arg: Arg, field: Field)
    ensures FirstFailure(Required(arg, field)) == None <==> arg.Uuid?
    ensures ParseRequired(arg, field) ==
            match FirstFailure(Required(arg, field)) case None => Ok(Id(arg)) case Some(e) => Err(e)
  {
    TwoChecks(Required(arg, field)[0], Required(arg, field)[1]);
  }

  lemma OptionalTells(arg: Arg, field: Field)
    ensures ParseOptional(arg, field) ==
            match FirstFailure(Optional(arg, field))
            case None => Ok(if arg.Uuid? then Some(arg.id) else None)
            case Some(e) => Err(e)
  {
    assert Optional(arg, field)[1..] == [];
  }

  lemma TwoChecks(a: Check, b: Check)
    ensures FirstFailure([a, b]) == if !a.passes then Some(a.error) else if !b.passes then Some(b.error) else None
  {
    assert [a, b][1..] == [b] && [b][1..] == [];
    assert FirstFailure([b]) == if b.passes then None else Some(b.error);
  }

  lemma FourChecks(a: Check, b: Check, c: Check, d: Check)
    ensures FirstFailure([a, b, c, d]) ==
            if !a.passes then Some(a.error) else if !b.passes then Some(b.error)
            else if !c.passes then Some(c.error) else if !d.passes then Some(d.error) else None
  {
    assert [a, b, c, d] == [a, b] + [c, d];
    FirstFailureJoins([a, b], [c, d]);
    TwoChecks(a, b);
    TwoChecks(c, d);
  }

  lemma TargetTells(target: Target)
    ensures RoleTarget(target) ==
            match FirstFailure(TargetChecks(target))
            case None => Ok(if target.entityType == Tenant then None else Some(Id(target.entityId)))
            case Some(e) => Err(e)
  {
    var first := Optional(target.entityId, EntityIdField);
    OptionalTells(target.entityId, EntityIdField);
    if target.entityType == Tenant {
      var a := Check(target.entityId == Absent, TenantScopeHasEntity);
      var b := Check(target.role in {Admin, Finance, Legal, Leadership}, NotATenantRole);
      FirstFailureJoins(first, [a, b]);
      TwoChecks(a, b);
    } else {
      var a := Check(target.entityId != Absent, EntityScopeNeedsEntity);
      var b := Check(target.role in {Owner, Contributor, Viewer}, NotAnEntityRole);
      FirstFailureJoins(first, [a, b]);
      TwoChecks(a, b);
    }
  }

  lemma OperatorTells(s: State, tenant: nat, operator: nat)
    ensures RequireTenantOperator(s, tenant, operator) ==
            match FirstFailure(OperatorChecks(s, tenant, operator)) case None => Ok(operator) case Some(e) => Err(e)
  {
    var checks := OperatorChecks(s, tenant, operator);
    TwoChecks(checks[0], checks[1]);
  }

  lemma RequiredOperatorTells(s: State, c: Command)
    ensures AuthorizedOperator(s, Id(c.tenant), c.operator) ==
            match FirstFailure(RequiredOperator(s, c)) case None => Ok(Id(c.operator)) case Some(e) => Err(e)
  {
    RequiredTells(c.operator, OperatorField);
    OperatorTells(s, Id(c.tenant), Id(c.operator));
    FirstFailureJoins(Required(c.operator, OperatorField), OperatorChecks(s, Id(c.tenant), Id(c.operator)));
  }

  lemma BootstrapTells(s: State, c: Command)
    requires c.Grant?
    ensures var allowed := BootstrapAllowed(s, Id(c.tenant), Id(c.actor), c.target, Grantor(c));
      FirstFailure(BootstrapChecks(s, c)) ==
      if !c.allowBootstrap then Some(OperatorRequired) else if allowed.Err? then Some(allowed.error) else None
    ensures var allowed := BootstrapAllowed(s, Id(c.tenant), Id(c.actor), c.target, Grantor(c));
      allowed.Ok? ==> allowed.value == Grantor(c)
  {
    var checks := BootstrapChecks(s, c);
    FourChecks(checks[0], checks[1], checks[2], checks[3]);
  }

  /** Whether and by whom a grant is authorised. */
  lemma AuthorisedTells(s: State, c: Command)
    requires c.Grant? && c.grantedBy != Malformed
    ensures var first :=
        if c.operator.Uuid? then OperatorChecks(s, Id(c.tenant), c.operator.id) else BootstrapChecks(s, c);
      var grantedBy := if c.grantedBy.Uuid? then Some(c.grantedBy.id) else None;
      AuthorizedForGrant(s, Id(c.tenant), Id(c.actor), c, grantedBy) ==
      match FirstFailure(Optional(c.operator, OperatorField) + first)
      case None => Ok(if c.operator.Uuid? then Approval(c.operator.id, false) else Approval(Grantor(c), true))
      case Some(e) => Err(e)
  {
    var first := if c.operator.Uuid? then OperatorChecks(s, Id(c.tenant), c.operator.id) else BootstrapChecks(s, c);
    OptionalTells(c.operator, OperatorField);
    FirstFailureJoins(Optional(c.operator, OperatorField), first);
    if c.operator.Uuid? { OperatorTells(s, Id(c.tenant), c.operator.id); } else { BootstrapTells(s, c); }
  }

  // -- What a successful command writes ---------------------------------------------------------------------------

  function Given(arg: Arg): Option<nat> { if arg.Uuid? then Some(arg.id) else None }

  /** The entry a successful command logs. */
  function EntryFor(s: State, c: Command): Entry {
    match c
    case List(_, _, _) =>
      Entry(Id(c.tenant), Id(c.operator), ListAction(Id(c.actor), |RolesForActor(s.rows, Id(c.tenant), Id(c.actor))|))
    case Grant(_, _, _, _, _, _) =>
      Entry(Id(c.tenant), if c.operator.Uuid? then c.operator.id else Grantor(c),
            GrantAction(TargetKey(c), Given(c.grantedBy), c.operator == Absent))
    case Revoke(_, _, _, _) =>
      Entry(Id(c.tenant), Id(c.operator), RevokeAction(TargetKey(c), Active(s.rows, TargetKey(c))))
  }

  /** The answer: the listing, the grant, or whether there was something to revoke. */
  function AnswerTo(s: State, c: Command): Output {
    match c
    case List(_, _, _) => Listed(RolesForActor(s.rows, Id(c.tenant), Id(c.actor)))
    case Grant(_, _, _, _, _, _) => Granted
    case Revoke(_, _, _, _) => Revoked(Active(s.rows, TargetKey(c)))
  }

  /** A grant that is not active yet is a new row behind the others; a revocation stamps the active row of the grant;
      nothing else about the rows changes. */
  predicate RowsAfter(s: State, c: Command, rows: seq<Row>) {
    match c
    case List(_, _, _) => rows == s.rows
    case Grant(_, _, _, _, _, _) =>
      rows == if Active(s.rows, TargetKey(c)) then s.rows else s.rows + [Row(TargetKey(c), Given(c.grantedBy), None)]
    case Revoke(_, _, _, _) =>
      && |rows| == |s.rows|
      && forall i | 0 <= i < |rows| ::
           rows[i].key == s.rows[i].key && rows[i].grantedBy == s.rows[i].grantedBy
           && rows[i].revokedAt == if s.rows[i].key == TargetKey(c) && s.rows[i].revokedAt == None then Some(s.now)
                                   else s.rows[i].revokedAt
  }

  ghost predicate Outcome(s: State, c: Command, failure: Option<Error>) {
    var (after, result) := Step(s, c);
    match failure
    case Some(e) => result == Err(e) && after == s
    case None =>
      && result == Ok(AnswerTo(s, c)) && after.log == s.log + [EntryFor(s, c)]
      && after.actors == s.actors && after.now == s.now && RowsAfter(s, c, after.rows)
  }

  lemma ListOutcome(s: State, c: Command)
    requires c.List? && c.tenant.Uuid? && c.actor.Uuid?
    ensures Outcome(s, c, FirstFailure(BodyChecks(s, c)))
  {
    RequiredOperatorTells(s, c);
  }

  lemma RevokeOutcome(s: State, c: Command)
    requires c.Revoke? && c.tenant.Uuid? && c.actor.Uuid?
    ensures Outcome(s, c, FirstFailure(BodyChecks(s, c)))
  {
    TargetTells(c.target);
    RequiredOperatorTells(s, c);
    FirstFailureJoins(TargetChecks(c.target), RequiredOperator(s, c));
  }

  lemma GrantOutcome(s: State, c: Command)
    requires c.Grant? && c.tenant.Uuid? && c.actor.Uuid?
    ensures Outcome(s, c, FirstFailure(BodyChecks(s, c)))
  {
    var a, b := Optional(c.grantedBy, GrantedByField), Optional(c.operator, OperatorField);
    var d := if c.operator.Uuid? then OperatorChecks(s, Id(c.tenant), c.operator.id) else BootstrapChecks(s, c);
    var e := InsertChecks(s, c);
    TargetTells(c.target);
    OptionalTells(c.grantedBy, GrantedByField);
    assert GrantChecks(s, c) == a + ((b + d) + e);
    FirstFailureJoins(TargetChecks(c.target), GrantChecks(s, c));
    FirstFailureJoins(a, (b + d) + e);
    FirstFailureJoins(b + d, e);
    assert e[1..] == [];
    if c.grantedBy != Malformed { AuthorisedTells(s, c); }
  }

  /** A command reports the first of its checks that fails and then changes nothing; when none fails, its answer, its
      one log entry and what becomes of every row are these. */
  lemma CommandOutcome(s: State, c: Command)
    ensures Outcome(s, c, FirstFailure(ChecksOf(s, c)))
  {
    var a, b, body := Required(c.tenant, TenantField), Required(c.actor, ActorField), BodyChecks(s, c);
    RequiredTells(c.tenant, TenantField);
    RequiredTells(c.actor, ActorField);
    FirstFailureJoins(a + b, body);
    FirstFailureJoins(a, b);
    if c.tenant.Uuid? && c.actor.Uuid? {
      match c
      case List(_, _, _) => ListOutcome(s, c);
      case Grant(_, _, _, _, _, _) => GrantOutcome(s, c);
      case Revoke(_, _, _, _) => RevokeOutcome(s, c);
    }
  }

  // -- What a listing shows -----------------------------------------------------------------------------------------

  predicate Shown(row: Row, tenant: nat, actor: nat) {
    row.key.tenant == tenant && row.key.actor == actor && row.revokedAt == None
  }

  function ShownIn(rows: seq<Row>, tenant: nat, actor: nat): nat -> bool {
    (k: nat) => k < |rows| && Shown(rows[k], tenant, actor)
  }

  lemma {:induction false} ListedByPosition(rows: seq<Row>, tenant: nat, actor: nat, n: nat)
    requires n <= |rows|
    ensures Below(Where(ShownIn(rows, tenant, actor), n), |rows|)
    ensures RolesForActor(rows[..n], tenant, actor) == Pick(rows, Where(ShownIn(rows, tenant, actor), n))
  {
    WhereMeaning(ShownIn(rows, tenant, actor), n);
    if n == 0 {
      assert rows[..n] == [];
    } else {
      ListedByPosition(rows, tenant, actor, n - 1);
      assert rows[..n][..n - 1] == rows[..n - 1];
      PickNext(rows, Where(ShownIn(rows, tenant, actor), n - 1), n - 1);
    }
  }

  /** A listing is exactly the actor's active rows in the tenant, in the table's order. */
  lemma ListingIsExact(rows: seq<Row>, tenant: nat, actor: nat)
    ensures var shown, at := RolesForActor(rows, tenant, actor), Where(ShownIn(rows, tenant, actor), |rows|);
      && (forall i, j | 0 <= i < j < |at| :: at[i] < at[j])
      && (forall k: nat :: k in at <==> k < |rows| && Shown(rows[k], tenant, actor))
      && |shown| == |at| && forall i | 0 <= i < |at| :: at[i] < |rows| && shown[i] == rows[at[i]]
  {
    var at := Where(ShownIn(rows, tenant, actor), |rows|);
    WhereMeaning(ShownIn(rows, tenant, actor), |rows|);
    ListedByPosition(rows, tenant, actor, |rows|);
    PickMeaning(rows, at);
    assert rows[..|rows|] == rows;
  }
}
