/** What a command does to one dedicated source installation, its provider row, and the secret store outside the
    transaction. */
module Installations {
  import opened Options
  import opened ProviderKeys

  type Column = string

  type Ref = string

  const WEBHOOK: Column := "webhook_secret_ref"

  // The parts of a SourceSpec the lifecycle depends on.
  datatype Spec = Spec(refColumns: seq<Column>, hasInstallationId: bool, hostTransform: bool)

  // A ref column absent from `refs` is NULL.
  datatype Row = Row(scope: Option<string>, refs: map<Column, Ref>, disabledAt: Option<int>)

  datatype Provider = Provider(enabled: bool, secretRef: Option<Ref>)

  // The database (row, provider, log) and, outside its transactions, the secret store.
  datatype World = World(row: Row, provider: Option<Provider>, log: seq<string>, secrets: map<Ref, string>)

  /** The provider key of a scope value: the value itself, or the host of the URL it is. */
  function ProviderKey(spec: Spec, scope: Option<string>): Option<string> {
    if !spec.hasInstallationId || scope.None? then None
    else Some(if spec.hostTransform then HostFromUrl(scope.value) else scope.value)
  }

  function InstallationId(spec: Spec, row: Row): Option<string> { ProviderKey(spec, row.scope) }

  /** For a source filed under hosts the key is the host of the scope's URL; for any other the scope itself. */
  lemma KeyMeaning(spec: Spec, scheme: string, host: string, rest: string)
    requires spec.hasInstallationId && scheme in {"", "http://", "https://"} && Plain(host)
    requires rest == "" || rest[0] == '/'
    ensures ProviderKey(spec, Some(scheme + (host + rest))) ==
            Some(if spec.hostTransform then host else scheme + (host + rest))
  {
    HostOfUrl(scheme, host, rest);
  }

  // The provider row is touched only under this condition.
  predicate Linked(spec: Spec, row: Row) {
    WEBHOOK in spec.refColumns && InstallationId(spec, row).Some? && InstallationId(spec, row).value != ""
  }

  /** A row is linked to a provider row when the source has a webhook secret and files its installations under a
      column, and the key that column yields is there and not empty. */
  lemma LinkedMeaning(spec: Spec, row: Row)
    ensures Linked(spec, row) <==>
      && "webhook_secret_ref" in spec.refColumns && spec.hasInstallationId && row.scope != None
      && |if spec.hostTransform then HostFromUrl(row.scope.value) else row.scope.value| > 0
  {
  }

  // How one delete call ends: done (or nothing to delete), or an error that may have deleted anyway.
  datatype Delivery = Deleted | FailedKept | FailedGone

  type Deliveries = map<Column, Delivery>

  function DeliveryOf(d: Deliveries, c: Column): Delivery { if c in d then d[c] else Deleted }

  predicate HasRef(row: Row, c: Column) { c in row.refs && row.refs[c] != "" }

  /** The non-empty refs of a row, in column order. */
  function RefsOf(columns: seq<Column>, row: Row): (cs: seq<Column>)
    ensures forall c :: c in cs <==> c in columns && HasRef(row, c)
  {
    if columns == [] then []
    else
      assert columns == columns[..|columns| - 1] + [columns[|columns| - 1]];
      var before, c := RefsOf(columns[..|columns| - 1], row), columns[|columns| - 1];
      if HasRef(row, c) && c !in before then before + [c] else before
  }

  datatype Deletion = Deletion(secrets: map<Ref, string>, cleared: set<Column>)

  predicate AllHaveRefs(cs: seq<Column>, row: Row) { forall i | 0 <= i < |cs| :: HasRef(row, cs[i]) }

  function DeleteRefs(secrets: map<Ref, string>, row: Row, cs: seq<Column>, d: Deliveries): Deletion
    requires AllHaveRefs(cs, row)
  {
    if cs == [] then Deletion(secrets, {})
    else
      var before, c := DeleteRefs(secrets, row, cs[..|cs| - 1], d), cs[|cs| - 1];
      match DeliveryOf(d, c)
      case Deleted => Deletion(before.secrets - {row.refs[c]}, before.cleared + {c})
      case FailedKept => before
      case FailedGone => Deletion(before.secrets - {row.refs[c]}, before.cleared)
  }

  // `crash` (and `crashAfter` deletes) stops a command before its transaction commits.
  datatype Action =
    | Pause(now: int, crash: bool)
    | Resume(now: int, crash: bool)
    | Rotate(hasStore: bool, column: Column, value: string, crash: bool)
    | Uninstall(now: int, dryRun: bool, hasStore: bool, deliveries: Deliveries, crashAfter: Option<nat>)

  datatype Result = Ok | CliError | AssertionFailed | SecretNotFound | Crashed

  function SetState(spec: Spec, w: World, disabled: Option<int>, what: string): World {
    w.(row := w.row.(disabledAt := disabled),
       provider := if w.provider.Some? && Linked(spec, w.row)
                   then Some(w.provider.value.(enabled := disabled.None?)) else w.provider,
       log := w.log + [what])
  }

  function CommitUninstall(spec: Spec, w: World, now: int, done: Deletion): World {
    World(w.row.(disabledAt := Some(now), refs := w.row.refs - done.cleared),
          if w.provider.Some? && Linked(spec, w.row)
          then Some(Provider(false, if WEBHOOK in done.cleared then None else w.provider.value.secretRef))
          else w.provider,
          w.log + ["uninstall"],
          done.secrets)
  }

  function Prefix(cs: seq<Column>, n: nat): seq<Column> { if n >= |cs| then cs else cs[..n] }

  function Perform(spec: Spec, w: World, a: Action): (World, Result) {
    match a
    case Pause(now, crash) => if crash then (w, Crashed) else (SetState(spec, w, Some(now), "pause"), Ok)
    case Resume(now, crash) => if crash then (w, Crashed) else (SetState(spec, w, None, "resume"), Ok)
    case Rotate(hasStore, c, value, crash) =>
      if !hasStore || c !in spec.refColumns || !HasRef(w.row, c) || value == "" then (w, CliError)
      else if w.row.refs[c] !in w.secrets then (w, SecretNotFound)
      else
        var rotated := w.(secrets := w.secrets[w.row.refs[c] := value]);
        if crash then (rotated, Crashed) else (rotated.(log := w.log + ["rotate"]), Ok)
    case Uninstall(now, dryRun, hasStore, d, crashAfter) =>
      var cs := RefsOf(spec.refColumns, w.row);
      if cs != [] && !dryRun && !hasStore then (w, CliError)
      else if dryRun then (w, Ok)
      else if !hasStore then (w, AssertionFailed)
      else match crashAfter
        case Some(k) => (w.(secrets := DeleteRefs(w.secrets, w.row, Prefix(cs, k), d).secrets), Crashed)
        case None => (CommitUninstall(spec, w, now, DeleteRefs(w.secrets, w.row, cs, d)), Ok)
  }

  // -- What each command does ---------------------------------------------------------------------------

  /** Pause and resume set the row's state and, if it is linked, the provider row's flag, and write one entry. */
  lemma StateMeaning(spec: Spec, w: World, now: int, crash: bool, pause: bool)
    ensures var (after, result) := Perform(spec, w, if pause then Pause(now, crash) else Resume(now, crash));
      && (crash ==> result == Crashed && after == w)
      && (!crash ==>
            && result == Ok && after.secrets == w.secrets
            && after.row == Row(w.row.scope, w.row.refs, if pause then Some(now) else None)
            && after.log == w.log + [if pause then "pause" else "resume"]
            && (after.provider.Some? <==> w.provider.Some?)
            && (w.provider.Some? ==>
                  && after.provider.value.secretRef == w.provider.value.secretRef
                  && after.provider.value.enabled ==
                     if Linked(spec, w.row) then !pause else w.provider.value.enabled))
  {
  }

  /** What a rotation insists on: a store, a new value, and a ref in one of the source's columns. */
  predicate Rotatable(spec: Spec, row: Row, hasStore: bool, c: Column, value: string) {
    hasStore && value != "" && c in spec.refColumns && c in row.refs && row.refs[c] != ""
  }

  /** A rotation that succeeds stores the new value under the column's ref and changes nothing else but the log; one
      that crashes has stored it and logged nothing; one that fails has done nothing. */
  lemma RotateMeaning(spec: Spec, w: World, hasStore: bool, c: Column, value: string, crash: bool)
    ensures var (after, result) := Perform(spec, w, Rotate(hasStore, c, value, crash));
      && (!Rotatable(spec, w.row, hasStore, c, value) ==> result == CliError && after == w)
      && (Rotatable(spec, w.row, hasStore, c, value) && w.row.refs[c] !in w.secrets ==>
            result == SecretNotFound && after == w)
      && (Rotatable(spec, w.row, hasStore, c, value) && w.row.refs[c] in w.secrets ==>
            && result == (if crash then Crashed else Ok)
            && after.row == w.row && after.provider == w.provider
            && after.log == (if crash then w.log else w.log + ["rotate"])
            && after.secrets.Keys == w.secrets.Keys && after.secrets[w.row.refs[c]] == value
            && forall r | r in w.secrets && r != w.row.refs[c] :: after.secrets[r] == w.secrets[r])
  {
  }

  /** The refs are deleted in the order of the source's columns. */
  lemma {:induction false} RefsInColumnOrder(columns: seq<Column>, row: Row, i: nat, j: nat)
    requires i < j < |RefsOf(columns, row)|
    ensures var cs := RefsOf(columns, row);
      exists k | 0 <= k < |columns| :: columns[k] == cs[i] && forall l | 0 <= l <= k :: columns[l] != cs[j]
    decreases |columns|
  {
    var init, last := columns[..|columns| - 1], columns[|columns| - 1];
    assert columns == init + [last];
    if j < |RefsOf(init, row)| {
      RefsInColumnOrder(init, row, i, j);
      var c, d := RefsOf(columns, row)[i], RefsOf(columns, row)[j];
      var k :| 0 <= k < |init| && init[k] == c && forall l | 0 <= l <= k :: init[l] != d;
      assert columns[k] == c && forall l | 0 <= l <= k :: columns[l] != d;
    } else {
      var c := RefsOf(init, row)[i];
      assert c in RefsOf(init, row) && c in init;
      var k :| 0 <= k < |init| && init[k] == c;
      assert columns[k] == c && forall l | 0 <= l <= k :: columns[l] in init;
    }
  }

  // -- Both rows agree --------------------------------------------------------------------------------

  predicate Agree(w: World) {
    w.provider.Some? ==>
      && w.provider.value.enabled == w.row.disabledAt.None?
      && w.provider.value.secretRef == if WEBHOOK in w.row.refs then Some(w.row.refs[WEBHOOK]) else None
  }

  function PerformAll(spec: Spec, w: World, actions: seq<Action>): World {
    if actions == [] then w
    else Perform(spec, PerformAll(spec, w, actions[..|actions| - 1]), actions[|actions| - 1]).0
  }

  lemma PerformKeepsAgreement(spec: Spec, w: World, a: Action)
    requires Linked(spec, w.row) && Agree(w)
    ensures Agree(Perform(spec, w, a).0) && Linked(spec, Perform(spec, w, a).0.row)
  {
    assert Perform(spec, w, a).0.row.scope == w.row.scope;
  }

  // -- Uninstall can be retried -----------------------------------------------------------------------

  lemma {:induction false} DeletionMeaning(secrets: map<Ref, string>, row: Row, cs: seq<Column>, d: Deliveries)
    requires AllHaveRefs(cs, row)
    ensures var done := DeleteRefs(secrets, row, cs, d);
      && (forall c | c in done.cleared :: c in cs && DeliveryOf(d, c) == Deleted && row.refs[c] !in done.secrets)
      && (forall c | c in cs && DeliveryOf(d, c) == Deleted :: c in done.cleared)
      && (forall r :: r in done.secrets ==> r in secrets && done.secrets[r] == secrets[r])
      && (forall r | r in secrets && r !in done.secrets :: exists c | c in cs :: row.refs[c] == r)
  {
    if cs != [] {
      assert cs == cs[..|cs| - 1] + [cs[|cs| - 1]];
      DeletionMeaning(secrets, row, cs[..|cs| - 1], d);
    }
  }

  predicate OwnRef(spec: Spec, row: Row, r: Ref) {
    exists c | c in spec.refColumns :: HasRef(row, c) && row.refs[c] == r
  }

  // What any number of commands may have changed since w0, part by part.

  ghost predicate RefsOnlyCleared(spec: Spec, w0: World, w: World) {
    && (forall c | c in w.row.refs :: c in w0.row.refs && w.row.refs[c] == w0.row.refs[c])
    && (forall c | c in w0.row.refs && c !in w.row.refs ::
          c in spec.refColumns && HasRef(w0.row, c) && w0.row.refs[c] !in w.secrets)
  }

  ghost predicate OnlyOwnSecretsGone(spec: Spec, w0: World, w: World) {
    && (forall r | r in w.secrets :: r in w0.secrets)
    && (forall r | r in w0.secrets && !OwnRef(spec, w0.row, r) :: r in w.secrets && w.secrets[r] == w0.secrets[r])
  }

  ghost predicate ProviderFollows(spec: Spec, w0: World, w: World) {
    && (w.provider.Some? <==> w0.provider.Some?)
    && (!Linked(spec, w0.row) ==> w.provider == w0.provider)
    && (w.provider.Some? && Linked(spec, w0.row) ==>
          w.provider.value.secretRef == if WEBHOOK in w0.row.refs && WEBHOOK !in w.row.refs then None
                                        else w0.provider.value.secretRef)
  }

  ghost predicate Progress(spec: Spec, w0: World, w: World) {
    w.row.scope == w0.row.scope && RefsOnlyCleared(spec, w0, w) && OnlyOwnSecretsGone(spec, w0, w)
    && ProviderFollows(spec, w0, w)
  }

  /** Deleting some of the row's secrets. */
  lemma DeletingKeepsProgress(spec: Spec, w0: World, w: World, cs: seq<Column>, d: Deliveries)
    requires Progress(spec, w0, w) && AllHaveRefs(cs, w.row) && forall c | c in cs :: c in spec.refColumns
    ensures var after := w.(secrets := DeleteRefs(w.secrets, w.row, cs, d).secrets);
      RefsOnlyCleared(spec, w0, after) && OnlyOwnSecretsGone(spec, w0, after)
  {
    var done := DeleteRefs(w.secrets, w.row, cs, d);
    DeletionMeaning(w.secrets, w.row, cs, d);
    forall r | r in w.secrets && r !in done.secrets
      ensures OwnRef(spec, w0.row, r)
    {
      var c :| c in cs && w.row.refs[c] == r;
      var i :| 0 <= i < |cs| && cs[i] == c;
      assert HasRef(w.row, cs[i]) && HasRef(w0.row, c);
    }
  }

  /** Committing what was deleted. */
  lemma CommitKeepsProgress(spec: Spec, w0: World, w: World, now: int, cs: seq<Column>, d: Deliveries)
    requires Progress(spec, w0, w) && AllHaveRefs(cs, w.row) && forall c | c in cs :: c in spec.refColumns
    ensures Progress(spec, w0, CommitUninstall(spec, w, now, DeleteRefs(w.secrets, w.row, cs, d)))
  {
    var done := DeleteRefs(w.secrets, w.row, cs, d);
    var after := CommitUninstall(spec, w, now, done);
    DeletingKeepsProgress(spec, w0, w, cs, d);
    DeletionMeaning(w.secrets, w.row, cs, d);
    assert forall c | c in done.cleared :: c in w.row.refs && w.row.refs[c] !in after.secrets && HasRef(w0.row, c) by {
      forall c | c in done.cleared
        ensures c in w.row.refs && w.row.refs[c] !in after.secrets && HasRef(w0.row, c)
      {
        var i :| 0 <= i < |cs| && cs[i] == c;
        assert HasRef(w.row, cs[i]);
      }
    }
    assert RefsOnlyCleared(spec, w0, after);
    assert ProviderFollows(spec, w0, after);
  }

  lemma RotateKeepsProgress(spec: Spec, w0: World, w: World, c: Column, value: string)
    requires Progress(spec, w0, w) && c in spec.refColumns && HasRef(w.row, c) && w.row.refs[c] in w.secrets
    ensures Progress(spec, w0, w.(secrets := w.secrets[w.row.refs[c] := value]))
  {
    assert HasRef(w0.row, c) && OwnRef(spec, w0.row, w.row.refs[c]);
  }

  lemma StateKeepsProgress(spec: Spec, w0: World, w: World, disabled: Option<int>, what: string)
    requires Progress(spec, w0, w)
    ensures Progress(spec, w0, SetState(spec, w, disabled, what))
  {
  }

  /** The columns whose secrets an uninstall deletes before it commits or crashes. */
  function Tried(spec: Spec, row: Row, crashAfter: Option<nat>): (cs: seq<Column>)
    ensures AllHaveRefs(cs, row) && forall c | c in cs :: c in spec.refColumns && HasRef(row, c)
  {
    var all := RefsOf(spec.refColumns, row);
    if crashAfter.Some? then Prefix(all, crashAfter.value) else all
  }

  lemma PerformKeepsProgress(spec: Spec, w0: World, w: World, a: Action)
    requires Progress(spec, w0, w)
    ensures Progress(spec, w0, Perform(spec, w, a).0)
  {
    match a
    case Pause(now, _) => StateKeepsProgress(spec, w0, w, Some(now), "pause");
    case Resume(_, _) => StateKeepsProgress(spec, w0, w, None, "resume");
    case Rotate(_, c, value, _) =>
      if c in spec.refColumns && HasRef(w.row, c) && w.row.refs[c] in w.secrets {
        RotateKeepsProgress(spec, w0, w, c, value);
      }
    case Uninstall(now, _, _, d, crashAfter) =>
      DeletingKeepsProgress(spec, w0, w, Tried(spec, w.row, crashAfter), d);
      CommitKeepsProgress(spec, w0, w, now, Tried(spec, w.row, None), d);
  }

  lemma {:induction false} RunsKeepProgress(spec: Spec, w: World, actions: seq<Action>)
    ensures Progress(spec, w, PerformAll(spec, w, actions))
  {
    if actions != [] {
      RunsKeepProgress(spec, w, actions[..|actions| - 1]);
      PerformKeepsProgress(spec, w, PerformAll(spec, w, actions[..|actions| - 1]), actions[|actions| - 1]);
    }
  }

  /** In every run a ref column is cleared only when its secret no longer exists, and the run touches no
      secret the installation does not refer to. */
  lemma ClearedMeansGone(spec: Spec, w: World, actions: seq<Action>)
    ensures var after := PerformAll(spec, w, actions);
      && (forall c | c in w.row.refs && c !in after.row.refs :: w.row.refs[c] !in after.secrets)
      && (forall r | r in w.secrets && !OwnRef(spec, w.row, r) ::
           r in after.secrets && after.secrets[r] == w.secrets[r])
  {
    RunsKeepProgress(spec, w, actions);
  }

  function CleanUninstall(spec: Spec, w: World, now: int): World {
    Perform(spec, w, Uninstall(now, false, true, map[], None)).0
  }

  // Equal up to timestamps and log entries.
  predicate SameState(a: World, b: World) {
    && a.row.scope == b.row.scope && a.row.refs == b.row.refs && a.row.disabledAt.Some? == b.row.disabledAt.Some?
    && a.provider == b.provider && a.secrets == b.secrets
  }

  /** What one error-free uninstall leaves: no ref, no secret of its own, everything else untouched. */
  lemma CleanMeaning(spec: Spec, w: World, now: int)
    ensures var after := CleanUninstall(spec, w, now);
      && after.row.scope == w.row.scope && after.row.disabledAt == Some(now)
      && (forall c :: c in after.row.refs <==> c in w.row.refs && !(c in spec.refColumns && HasRef(w.row, c)))
      && (forall c | c in after.row.refs :: after.row.refs[c] == w.row.refs[c])
      && (forall r :: r in after.secrets <==> r in w.secrets && !OwnRef(spec, w.row, r))
      && (forall r | r in after.secrets :: after.secrets[r] == w.secrets[r])
      && after.provider == (if w.provider.Some? && Linked(spec, w.row)
                            then Some(Provider(false, if HasRef(w.row, WEBHOOK) then None
                                                      else w.provider.value.secretRef))
                            else w.provider)
  {
    var cs := RefsOf(spec.refColumns, w.row);
    DeletionMeaning(w.secrets, w.row, cs, map[]);
  }

  lemma OwnRefShrinks(spec: Spec, w: World, mid: World, r: Ref)
    requires Progress(spec, w, mid)
    ensures OwnRef(spec, mid.row, r) ==> OwnRef(spec, w.row, r)
    ensures r in mid.secrets && OwnRef(spec, w.row, r) ==> OwnRef(spec, mid.row, r)
  {
    if OwnRef(spec, mid.row, r) {
      var c :| c in spec.refColumns && HasRef(mid.row, c) && mid.row.refs[c] == r;
      assert HasRef(w.row, c);
    }
    if r in mid.secrets && OwnRef(spec, w.row, r) {
      var c :| c in spec.refColumns && HasRef(w.row, c) && w.row.refs[c] == r;
      assert HasRef(mid.row, c);
    }
  }

  lemma SameSecrets(spec: Spec, w: World, mid: World, now: int, then_: int)
    requires Progress(spec, w, mid)
    ensures CleanUninstall(spec, mid, then_).secrets == CleanUninstall(spec, w, now).secrets
  {
    var a, b := CleanUninstall(spec, mid, then_).secrets, CleanUninstall(spec, w, now).secrets;
    CleanMeaning(spec, w, now);
    CleanMeaning(spec, mid, then_);
    forall r
      ensures r in a <==> r in b
      ensures r in a ==> a[r] == b[r]
    {
      OwnRefShrinks(spec, w, mid, r);
    }
  }

  lemma SameRefs(spec: Spec, w: World, mid: World, now: int, then_: int)
    requires Progress(spec, w, mid)
    ensures CleanUninstall(spec, mid, then_).row.refs == CleanUninstall(spec, w, now).row.refs
  {
    var a, b := CleanUninstall(spec, mid, then_).row.refs, CleanUninstall(spec, w, now).row.refs;
    CleanMeaning(spec, w, now);
    CleanMeaning(spec, mid, then_);
    forall c
      ensures c in a <==> c in b
      ensures c in a ==> a[c] == b[c]
    {
    }
  }

  /** After any commands whatever (crashed or half-failed uninstalls among them), one uninstall without
      errors ends where an uninterrupted uninstall would have. */
  lemma UninstallRetrySafe(spec: Spec, w: World, actions: seq<Action>, now: int, then_: int)
    ensures SameState(CleanUninstall(spec, PerformAll(spec, w, actions), then_), CleanUninstall(spec, w, now))
  {
    var mid := PerformAll(spec, w, actions);
    RunsKeepProgress(spec, w, actions);
    SameSecrets(spec, w, mid, now, then_);
    SameRefs(spec, w, mid, now, then_);
    CleanMeaning(spec, w, now);
    CleanMeaning(spec, mid, then_);
    assert CleanUninstall(spec, mid, then_).provider == CleanUninstall(spec, w, now).provider;
  }

  // -- Refs that point at nothing -----------------------------------------------------------------------

  predicate Dangling(w: World, c: Column) { HasRef(w.row, c) && w.row.refs[c] !in w.secrets }

  predicate Deletes(a: Action) { a.Uninstall? && !a.dryRun && a.hasStore }

  /** The secrets a command deletes, from the row and the command alone. */
  function Lost(spec: Spec, row: Row, a: Action): set<Ref> {
    if !Deletes(a) then {}
    else set c | c in Tried(spec, row, a.crashAfter) && DeliveryOf(a.deliveries, c) != FailedKept :: row.refs[c]
  }

  /** The columns a command clears: those whose delete was reported, if it comes to commit. */
  function Cleared(spec: Spec, row: Row, a: Action): set<Column> {
    if !Deletes(a) || a.crashAfter.Some? then {}
    else set c | c in Tried(spec, row, None) && DeliveryOf(a.deliveries, c) == Deleted
  }

  /** Deleting these columns' secrets removes r. */
  predicate Removes(row: Row, cs: seq<Column>, d: Deliveries, r: Ref)
    requires AllHaveRefs(cs, row)
  {
    exists i | 0 <= i < |cs| :: DeliveryOf(d, cs[i]) != FailedKept && row.refs[cs[i]] == r
  }

  lemma RemovesNext(row: Row, cs: seq<Column>, c: Column, d: Deliveries, r: Ref)
    requires AllHaveRefs(cs, row) && HasRef(row, c)
    ensures AllHaveRefs(cs + [c], row)
    ensures Removes(row, cs + [c], d, r) <==>
            Removes(row, cs, d, r) || (DeliveryOf(d, c) != FailedKept && row.refs[c] == r)
  {
    var all := cs + [c];
    if Removes(row, cs, d, r) {
      var i :| 0 <= i < |cs| && DeliveryOf(d, cs[i]) != FailedKept && row.refs[cs[i]] == r;
      assert all[i] == cs[i];
    }
    assert all[|cs|] == c;
  }

  lemma {:induction false} DeletionExact(secrets: map<Ref, string>, row: Row, cs: seq<Column>, d: Deliveries)
    requires AllHaveRefs(cs, row)
    ensures var done := DeleteRefs(secrets, row, cs, d);
      && (forall c :: c in done.cleared <==> c in cs && DeliveryOf(d, c) == Deleted)
      && forall r :: r in done.secrets <==> r in secrets && !Removes(row, cs, d, r)
  {
    if cs != [] {
      var init, last := cs[..|cs| - 1], cs[|cs| - 1];
      assert cs == init + [last] && AllHaveRefs(init, row);
      DeletionExact(secrets, row, init, d);
      forall r ensures r in DeleteRefs(secrets, row, cs, d).secrets <==> r in secrets && !Removes(row, cs, d, r) {
        RemovesNext(row, init, last, d, r);
      }
    }
  }

  /** A command in terms of what it deletes and clears. */
  lemma PerformByLoss(spec: Spec, w: World, a: Action)
    ensures var after := Perform(spec, w, a).0;
      && after.row.refs == w.row.refs - Cleared(spec, w.row, a)
      && forall r :: r in after.secrets <==> r in w.secrets && r !in Lost(spec, w.row, a)
  {
    if Deletes(a) {
      var cs := Tried(spec, w.row, a.crashAfter);
      DeletionExact(w.secrets, w.row, cs, a.deliveries);
      forall r ensures r in Lost(spec, w.row, a) <==> Removes(w.row, cs, a.deliveries, r) {
        if r in Lost(spec, w.row, a) {
          var c :| c in cs && DeliveryOf(a.deliveries, c) != FailedKept && w.row.refs[c] == r;
          var i :| 0 <= i < |cs| && cs[i] == c;
        }
      }
    }
  }

  /** After a command a column dangles exactly when it is not cleared and its secret was missing or is deleted. */
  lemma DanglingAfter(spec: Spec, w: World, a: Action, c: Column)
    ensures Dangling(Perform(spec, w, a).0, c) <==>
            c !in Cleared(spec, w.row, a) && HasRef(w.row, c)
            && (w.row.refs[c] !in w.secrets || w.row.refs[c] in Lost(spec, w.row, a))
  {
    PerformByLoss(spec, w, a);
  }

  predicate SomeRef(spec: Spec, row: Row) { exists c | c in spec.refColumns :: HasRef(row, c) }

  /** How an uninstall ends, and what it leaves when it does not come to commit. */
  lemma UninstallResults(spec: Spec, w: World, now: int, dryRun: bool, hasStore: bool, d: Deliveries,
                         crashAfter: Option<nat>)
    ensures var (after, result) := Perform(spec, w, Uninstall(now, dryRun, hasStore, d, crashAfter));
      && (dryRun ==> result == Ok && after == w)
      && (!dryRun && !hasStore ==> after == w && result == if SomeRef(spec, w.row) then CliError else AssertionFailed)
      && (!dryRun && hasStore && crashAfter.Some? ==>
            result == Crashed && after.row == w.row && after.provider == w.provider && after.log == w.log)
      && (!dryRun && hasStore && crashAfter.None? ==> result == Ok)
  {
    var cs := RefsOf(spec.refColumns, w.row);
    if cs != [] { assert cs[0] in cs; }
  }

  /** What a committed uninstall leaves, whatever the deletes reported: the row disabled, the columns cleared whose
      delete was reported done, the secrets gone whose delete took effect, and the provider row off, if it is linked,
      without its secret if the webhook column was cleared. */
  lemma UninstallMeaning(spec: Spec, w: World, now: int, d: Deliveries)
    ensures var after := Perform(spec, w, Uninstall(now, false, true, d, None)).0;
      && after.row.scope == w.row.scope && after.row.disabledAt == Some(now) && after.log == w.log + ["uninstall"]
      && (forall c :: c in after.row.refs <==>
            c in w.row.refs && !(c in spec.refColumns && HasRef(w.row, c) && DeliveryOf(d, c) == Deleted))
      && (forall c | c in after.row.refs :: after.row.refs[c] == w.row.refs[c])
      && (forall r :: r in after.secrets <==> r in w.secrets && !Wiped(spec, w.row, d, r))
      && (forall r | r in after.secrets :: after.secrets[r] == w.secrets[r])
  {
    var a := Uninstall(now, false, true, d, None);
    PerformByLoss(spec, w, a);
    DeletionMeaning(w.secrets, w.row, RefsOf(spec.refColumns, w.row), d);
    forall r ensures r in Lost(spec, w.row, a) <==> Wiped(spec, w.row, d, r) { LostMeaning(spec, w.row, a, r); }
  }

  /** The delete of some column's secret r took effect. */
  predicate Wiped(spec: Spec, row: Row, d: Deliveries, r: Ref) {
    exists c | c in spec.refColumns :: HasRef(row, c) && row.refs[c] == r && DeliveryOf(d, c) != FailedKept
  }

  lemma LostMeaning(spec: Spec, row: Row, a: Action, r: Ref)
    requires Deletes(a) && a.crashAfter.None?
    ensures r in Lost(spec, row, a) <==> Wiped(spec, row, a.deliveries, r)
  {
  }

  /** The provider row after a committed uninstall. */
  lemma UninstalledProvider(spec: Spec, w: World, now: int, d: Deliveries)
    ensures var after := Perform(spec, w, Uninstall(now, false, true, d, None)).0;
      && (after.provider.Some? <==> w.provider.Some?)
      && (w.provider.Some? ==>
            && after.provider.value.enabled == (w.provider.value.enabled && !Linked(spec, w.row))
            && after.provider.value.secretRef ==
               if Linked(spec, w.row) && HasRef(w.row, WEBHOOK) && DeliveryOf(d, WEBHOOK) == Deleted then None
               else w.provider.value.secretRef)
  {
    DeletionMeaning(w.secrets, w.row, RefsOf(spec.refColumns, w.row), d);
  }

  function RowOf(spec: Spec, row: Row, actions: seq<Action>): Row {
    if actions == [] then row
    else
      var before := RowOf(spec, row, actions[..|actions| - 1]);
      before.(refs := before.refs - Cleared(spec, before, actions[|actions| - 1]))
  }

  /** The columns a run leaves pointing at nothing, from the first row and the commands alone: a command that
      deletes a column's secret without clearing the column leaves it so until a later one clears it. */
  function LeftDangling(spec: Spec, row: Row, actions: seq<Action>): set<Column> {
    if actions == [] then {}
    else
      var init, a := actions[..|actions| - 1], actions[|actions| - 1];
      var now := RowOf(spec, row, init);
      LeftDangling(spec, row, init) + (set c | c in now.refs && HasRef(now, c) && now.refs[c] in Lost(spec, now, a))
      - Cleared(spec, now, a)
  }

  /** When every ref is resolvable at the start, the columns that dangle at the end are those the run left so. */
  lemma {:induction false} DanglingIff(spec: Spec, w: World, actions: seq<Action>)
    requires forall c :: !Dangling(w, c)
    ensures var after := PerformAll(spec, w, actions);
      && after.row.refs == RowOf(spec, w.row, actions).refs
      && forall c :: Dangling(after, c) <==> c in LeftDangling(spec, w.row, actions)
  {
    if actions != [] {
      var init, a := actions[..|actions| - 1], actions[|actions| - 1];
      var mid, now := PerformAll(spec, w, init), RowOf(spec, w.row, init);
      DanglingIff(spec, w, init);
      SameLoss(spec, mid.row, now, a);
      PerformByLoss(spec, mid, a);
      forall c
        ensures Dangling(PerformAll(spec, w, actions), c) <==> c in LeftDangling(spec, w.row, actions)
      {
        DanglingAfter(spec, mid, a, c);
      }
    }
  }

  lemma {:induction false} SameRefsOf(columns: seq<Column>, a: Row, b: Row)
    requires a.refs == b.refs
    ensures RefsOf(columns, a) == RefsOf(columns, b)
  {
    if columns != [] { SameRefsOf(columns[..|columns| - 1], a, b); }
  }

  lemma SameLoss(spec: Spec, a: Row, b: Row, action: Action)
    requires a.refs == b.refs
    ensures Lost(spec, a, action) == Lost(spec, b, action) && Cleared(spec, a, action) == Cleared(spec, b, action)
  {
    SameRefsOf(spec.refColumns, a, b);
  }

  /** Command k deletes the secret of column c. */
  predicate LosesAt(spec: Spec, row: Row, actions: seq<Action>, k: nat, c: Column)
    requires k < |actions|
  {
    var now := RowOf(spec, row, actions[..k]);
    HasRef(now, c) && now.refs[c] in Lost(spec, now, actions[k])
  }

  predicate ClearsAt(spec: Spec, row: Row, actions: seq<Action>, m: nat, c: Column)
    requires m < |actions|
  {
    c in Cleared(spec, RowOf(spec, row, actions[..m]), actions[m])
  }

  function Losses(spec: Spec, row: Row, actions: seq<Action>, c: Column): seq<bool> {
    seq(|actions|, k requires 0 <= k < |actions| => LosesAt(spec, row, actions, k, c))
  }

  function Clearings(spec: Spec, row: Row, actions: seq<Action>, c: Column): seq<bool> {
    seq(|actions|, k requires 0 <= k < |actions| => ClearsAt(spec, row, actions, k, c))
  }

  /** Something lost and not cleared since, step by step. */
  predicate Open(losses: seq<bool>, clearings: seq<bool>)
    requires |losses| == |clearings|
  {
    losses != [] &&
    (Open(losses[..|losses| - 1], clearings[..|losses| - 1]) || losses[|losses| - 1]) && !clearings[|losses| - 1]
  }

  ghost predicate NoneFrom(clearings: seq<bool>, k: nat) { forall m | k <= m < |clearings| :: !clearings[m] }

  lemma {:induction false} OpenIff(losses: seq<bool>, clearings: seq<bool>)
    requires |losses| == |clearings|
    ensures Open(losses, clearings) <==> exists k | 0 <= k < |losses| :: losses[k] && NoneFrom(clearings, k)
  {
    if losses != [] {
      var n := |losses| - 1;
      var before, cleared := losses[..n], clearings[..n];
      OpenIff(before, cleared);
      if Open(before, cleared) && !clearings[n] {
        var k :| 0 <= k < n && before[k] && NoneFrom(cleared, k);
        assert forall m | k <= m < n :: !cleared[m] && clearings[m] == cleared[m];
        assert losses[k] && NoneFrom(clearings, k);
      } else if losses[n] && !clearings[n] {
        assert NoneFrom(clearings, n);
      }
      if k :| 0 <= k < |losses| && losses[k] && NoneFrom(clearings, k) {
        assert !clearings[n];
        if k < n { assert before[k] && NoneFrom(cleared, k); }
      }
    }
  }

  lemma StepsOfPrefix(spec: Spec, row: Row, actions: seq<Action>, c: Column)
    requires actions != []
    ensures var n := |actions| - 1;
      && Losses(spec, row, actions, c)[..n] == Losses(spec, row, actions[..n], c)
      && Clearings(spec, row, actions, c)[..n] == Clearings(spec, row, actions[..n], c)
  {
    var n := |actions| - 1;
    forall k | 0 <= k < n
      ensures Losses(spec, row, actions, c)[..n][k] == Losses(spec, row, actions[..n], c)[k]
      ensures Clearings(spec, row, actions, c)[..n][k] == Clearings(spec, row, actions[..n], c)[k]
    {
      assert actions[..n][..k] == actions[..k];
    }
  }

  lemma {:induction false} LeftDanglingIsOpen(spec: Spec, row: Row, actions: seq<Action>, c: Column)
    ensures c in LeftDangling(spec, row, actions) <==>
            Open(Losses(spec, row, actions, c), Clearings(spec, row, actions, c))
  {
    if actions != [] {
      LeftDanglingIsOpen(spec, row, actions[..|actions| - 1], c);
      StepsOfPrefix(spec, row, actions, c);
    }
  }

  /** A run that starts with every ref resolvable ends so if and only if every column whose secret one of its
      uninstalls deletes is cleared by that one or a later one. */
  lemma RefsResolvableIff(spec: Spec, w: World, actions: seq<Action>)
    requires forall c :: !Dangling(w, c)
    ensures (forall c :: !Dangling(PerformAll(spec, w, actions), c)) <==>
            forall k, c | 0 <= k < |actions| && LosesAt(spec, w.row, actions, k, c) ::
              ClearedFrom(spec, w.row, actions, k, c)
  {
    DanglingIff(spec, w, actions);
    forall c
      ensures Dangling(PerformAll(spec, w, actions), c) <==>
              exists k | 0 <= k < |actions| ::
                LosesAt(spec, w.row, actions, k, c) && !ClearedFrom(spec, w.row, actions, k, c)
    {
      LeftDanglingIsOpen(spec, w.row, actions, c);
      OpenIffNotCleared(spec, w.row, actions, c);
    }
    var after := PerformAll(spec, w, actions);
    forall k, c | 0 <= k < |actions| && LosesAt(spec, w.row, actions, k, c) && !ClearedFrom(spec, w.row, actions, k, c)
      ensures Dangling(after, c)
    {
    }
    forall c | Dangling(after, c)
      ensures exists k | 0 <= k < |actions| ::
              LosesAt(spec, w.row, actions, k, c) && !ClearedFrom(spec, w.row, actions, k, c)
    {
    }
  }

  /** Command k or a later one clears column c. */
  ghost predicate ClearedFrom(spec: Spec, row: Row, actions: seq<Action>, k: nat, c: Column) {
    exists m | k <= m < |actions| :: ClearsAt(spec, row, actions, m, c)
  }

  lemma OpenIffNotCleared(spec: Spec, row: Row, actions: seq<Action>, c: Column)
    ensures Open(Losses(spec, row, actions, c), Clearings(spec, row, actions, c)) <==>
            exists k | 0 <= k < |actions| :: LosesAt(spec, row, actions, k, c) && !ClearedFrom(spec, row, actions, k, c)
  {
    var losses, clearings := Losses(spec, row, actions, c), Clearings(spec, row, actions, c);
    OpenIff(losses, clearings);
    forall k | 0 <= k < |actions|
      ensures losses[k] == LosesAt(spec, row, actions, k, c)
      ensures NoneFrom(clearings, k) <==> !ClearedFrom(spec, row, actions, k, c)
    {
      assert forall m | k <= m < |actions| :: clearings[m] == ClearsAt(spec, row, actions, m, c);
    }
  }

  /** A crash after any number of deletes leaves the last of those columns dangling, and rotating it then fails. */
  lemma CrashLeavesDanglingRefs(spec: Spec, w: World, now: int, k: nat, value: string)
    requires k < |RefsOf(spec.refColumns, w.row)| && value != ""
    ensures var c := RefsOf(spec.refColumns, w.row)[k];
      var after := Perform(spec, w, Uninstall(now, false, true, map[], Some(k + 1))).0;
      && after.row == w.row && after.provider == w.provider && Dangling(after, c)
      && Perform(spec, after, Rotate(true, c, value, false)).1 == SecretNotFound
  {
    var cs := RefsOf(spec.refColumns, w.row);
    var a := Uninstall(now, false, true, map[], Some(k + 1));
    assert cs[k] in cs && Prefix(cs, k + 1)[k] == cs[k];
    assert cs[k] in Tried(spec, w.row, Some(k + 1));
    DanglingAfter(spec, w, a, cs[k]);
  }

  /** The error text allows an uninstall without a secret store when there are no refs; the assertion after
      it does not. Without a store only a dry run succeeds. */
  lemma NoStoreNoUninstall(spec: Spec, w: World, now: int, dryRun: bool, d: Deliveries, crashAfter: Option<nat>)
    ensures var (after, result) := Perform(spec, w, Uninstall(now, dryRun, false, d, crashAfter));
      && after == w && (result == Ok <==> dryRun)
      && (!dryRun && RefsOf(spec.refColumns, w.row) == [] ==> result == AssertionFailed)
  {
  }
}
