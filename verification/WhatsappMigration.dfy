/** Moving plaintext WhatsApp credentials into the secret store, row by row, with an undo on failure. */
module WhatsappMigration {
  import opened Graph
  import opened Keyset
  import opened Options
  import opened Sorting

  type Ref = nat

  // app_secret, verify_token, access_token and their ref columns, in the order of _SECRET_FIELDS.
  const FIELDS := 3

  datatype Account = Account(updated: int, plain: seq<Option<string>>, refs: seq<Option<Ref>>)

  type Table = map<Id, Account>

  // `next` is the next ref the store hands out.
  datatype World = World(table: Table, secrets: map<Ref, string>, next: Ref)

  predicate Shaped(a: Account) { |a.plain| == FIELDS && |a.refs| == FIELDS }

  predicate IsLegacy(a: Account) { exists i | 0 <= i < |a.plain| :: a.plain[i].Some? }

  // Rows are well shaped and every ref in use was handed out before.
  ghost predicate Sound(w: World) {
    && (forall id | id in w.table :: Shaped(w.table[id]))
    && (forall r | r in w.secrets :: r < w.next)
    && (forall id, i | id in w.table && 0 <= i < |w.table[id].refs| && w.table[id].refs[i].Some? ::
         w.table[id].refs[i].value < w.next)
  }

  predicate NeedsPut(a: Account, i: nat)
    requires Shaped(a) && i < FIELDS
  {
    a.plain[i].Some? && a.refs[i].None?
  }

  // The field loop after its first n fields.
  datatype Puts = Puts(secrets: map<Ref, string>, next: Ref, newRefs: seq<Option<Ref>>, created: seq<Ref>)

  function PutFields(a: Account, secrets: map<Ref, string>, next: Ref, n: nat): (p: Puts)
    requires Shaped(a) && n <= FIELDS
    ensures |p.newRefs| == n && p.next == next + |p.created|
  {
    if n == 0 then Puts(secrets, next, [], [])
    else
      var p := PutFields(a, secrets, next, n - 1);
      if NeedsPut(a, n - 1)
      then Puts(p.secrets[p.next := a.plain[n - 1].value], p.next + 1, p.newRefs + [Some(p.next)], p.created + [p.next])
      else p.(newRefs := p.newRefs + [None])
  }

  function Coalesce(a: Option<Ref>, b: Option<Ref>): Option<Ref> { if a.Some? then a else b }

  function Updated(a: Account, newRefs: seq<Option<Ref>>, now: int): Account
    requires Shaped(a) && |newRefs| == FIELDS
  {
    Account(now, [None, None, None],
            [Coalesce(a.refs[0], newRefs[0]), Coalesce(a.refs[1], newRefs[1]), Coalesce(a.refs[2], newRefs[2])])
  }

  function MigrateOne(w: World, id: Id, now: int): World {
    if id in w.table && Shaped(w.table[id]) then
      var p := PutFields(w.table[id], w.secrets, w.next, FIELDS);
      World(w.table[id := Updated(w.table[id], p.newRefs, now)], p.secrets, p.next)
    else w
  }

  function MigrateAll(w: World, ids: seq<Id>, now: int): World {
    if ids == [] then w else MigrateOne(MigrateAll(w, ids[..|ids| - 1], now), ids[|ids| - 1], now)
  }

  // -- Selection --------------------------------------------------------------------------------------

  function LegacyKeys(ids: seq<Id>, table: Table): seq<Key> {
    if ids == [] then []
    else
      var before, id := LegacyKeys(ids[..|ids| - 1], table), ids[|ids| - 1];
      if id in table && IsLegacy(table[id]) then before + [Key(table[id].updated, id)] else before
  }

  /** Legacy rows by (updated_at, id), cut at the limit. `ids` is the table's primary-key index. */
  function Selected(ids: seq<Id>, table: Table, limit: Option<nat>): seq<Id> {
    var keys := Sort(LegacyKeys(ids, table), KeyLe);
    var kept := if limit.Some? && limit.value < |keys| then keys[..limit.value] else keys;
    seq(|kept|, i requires 0 <= i < |kept| => kept[i].id)
  }

  ghost predicate Index(ids: seq<Id>, table: Table) {
    (forall i, j | 0 <= i < j < |ids| :: ids[i] != ids[j]) && (forall id :: id in ids <==> id in table)
  }

  ghost function LegacySet(table: Table): set<Id> { set id | id in table && IsLegacy(table[id]) }

  lemma {:induction false} LegacyKeysMeaning(ids: seq<Id>, table: Table)
    requires forall i, j | 0 <= i < j < |ids| :: ids[i] != ids[j]
    ensures forall i | 0 <= i < |LegacyKeys(ids, table)| ::
      var k := LegacyKeys(ids, table)[i];
      k.id in ids && k.id in table && IsLegacy(table[k.id]) && k.created == table[k.id].updated
    ensures forall i, j | 0 <= i < j < |LegacyKeys(ids, table)| ::
            LegacyKeys(ids, table)[i].id != LegacyKeys(ids, table)[j].id
    ensures forall id | id in ids && id in table && IsLegacy(table[id]) ::
            Key(table[id].updated, id) in LegacyKeys(ids, table)
  {
    if ids != [] {
      var init, last := ids[..|ids| - 1], ids[|ids| - 1];
      LegacyKeysMeaning(init, table);
      assert ids == init + [last] && last !in init;
    }
  }

  lemma {:induction false} KeyCounts(keys: seq<Key>, k: Key)
    requires forall i, j | 0 <= i < j < |keys| :: keys[i].id != keys[j].id
    ensures multiset(keys)[k] <= 1
  {
    if keys != [] {
      assert keys == [keys[0]] + keys[1..];
      KeyCounts(keys[1..], k);
      if k == keys[0] { assert k !in keys[1..]; }
    }
  }

  lemma {:induction false} DistinctIds(keys: seq<Key>)
    requires forall i, j | 0 <= i < j < |keys| :: keys[i].id != keys[j].id
    ensures |set k | k in keys :: k.id| == |keys|
  {
    if keys != [] {
      var init, last := keys[..|keys| - 1], keys[|keys| - 1];
      DistinctIds(init);
      var before := set k | k in init :: k.id;
      assert last.id !in before;
      assert (set k | k in keys :: k.id) == before + {last.id} by { assert keys == init + [last]; }
    }
  }

  ghost predicate UniqueIds(keys: seq<Key>) {
    forall i, j | 0 <= i < j < |keys| :: keys[i].id != keys[j].id
  }

  lemma SortKeepsUniqueIds(keys: seq<Key>)
    requires UniqueIds(keys)
    ensures UniqueIds(Sort(keys, KeyLe))
  {
    var sorted := Sort(keys, KeyLe);
    SortMeaning(keys, KeyLe);
    forall i, j | 0 <= i < j < |sorted|
      ensures sorted[i].id != sorted[j].id
    {
      assert sorted[i] in keys && sorted[j] in keys;
      if sorted[i] == sorted[j] {
        RepeatedKey(sorted, i, j);
        KeyCounts(keys, sorted[i]);
        assert false;
      }
    }
  }

  lemma KeysCoverLegacy(ids: seq<Id>, table: Table)
    requires Index(ids, table)
    ensures var sorted := Sort(LegacyKeys(ids, table), KeyLe);
      && UniqueIds(sorted) && |sorted| == |LegacySet(table)|
      && forall k | k in sorted :: k.id in LegacySet(table)
  {
    var keys := LegacyKeys(ids, table);
    var sorted := Sort(keys, KeyLe);
    LegacyKeysMeaning(ids, table);
    SortKeepsUniqueIds(keys);
    SortMeaning(keys, KeyLe);
    var found := set k | k in sorted :: k.id;
    forall id | id in LegacySet(table)
      ensures id in found
    {
      assert Key(table[id].updated, id) in sorted;
    }
    assert found == LegacySet(table);
    DistinctIds(sorted);
  }

  /** The selection names distinct legacy rows: all of them, or as many as the limit lets through. */
  lemma SelectedMeaning(ids: seq<Id>, table: Table, limit: Option<nat>)
    requires Index(ids, table)
    ensures var chosen, n := Selected(ids, table, limit), |LegacySet(table)|;
      && |chosen| == (if limit.Some? && limit.value < n then limit.value else n)
      && (forall i, j | 0 <= i < j < |chosen| :: chosen[i] != chosen[j])
      && (forall i | 0 <= i < |chosen| :: chosen[i] in LegacySet(table))
  {
    KeysCoverLegacy(ids, table);
    var sorted := Sort(LegacyKeys(ids, table), KeyLe);
    assert forall i | 0 <= i < |sorted| :: sorted[i] in sorted;
  }

  /** Row a is migrated before row b: updated earlier, or at the same time with the smaller id. */
  predicate Sooner(table: Table, a: Id, b: Id) {
    && a in table && b in table
    && (table[a].updated < table[b].updated || (table[a].updated == table[b].updated && a < b))
  }

  /** The selection is in that order, and every legacy row it leaves out comes after every row it names. */
  lemma SelectedOldestFirst(ids: seq<Id>, table: Table, limit: Option<nat>)
    requires Index(ids, table)
    ensures var chosen := Selected(ids, table, limit);
      && (forall i, j | 0 <= i < j < |chosen| :: Sooner(table, chosen[i], chosen[j]))
      && forall i, id | 0 <= i < |chosen| && id in LegacySet(table) && id !in chosen :: Sooner(table, chosen[i], id)
  {
    var sorted, chosen := Sort(LegacyKeys(ids, table), KeyLe), Selected(ids, table, limit);
    KeysCoverLegacy(ids, table);
    SortedLegacy(ids, table);
    forall i, id | 0 <= i < |chosen| && id in LegacySet(table) && id !in chosen
      ensures Sooner(table, chosen[i], id)
    {
      assert forall q | 0 <= q < |chosen| :: chosen[q] == sorted[q].id && chosen[q] in chosen;
      var p :| 0 <= p < |sorted| && sorted[p] == Key(table[id].updated, id);
    }
  }

  lemma SortedLegacy(ids: seq<Id>, table: Table)
    requires Index(ids, table)
    ensures var sorted := Sort(LegacyKeys(ids, table), KeyLe);
      && (forall k | k in sorted :: k.id in table && k.created == table[k.id].updated)
      && (forall p, q | 0 <= p < q < |sorted| :: Sooner(table, sorted[p].id, sorted[q].id))
      && (forall id | id in LegacySet(table) :: Key(table[id].updated, id) in sorted)
  {
    var keys := LegacyKeys(ids, table);
    var sorted := Sort(keys, KeyLe);
    LegacyKeysMeaning(ids, table);
    SortMeaning(keys, KeyLe);
    KeysCoverLegacy(ids, table);
    forall p, q | 0 <= p < q < |sorted| ensures Sooner(table, sorted[p].id, sorted[q].id) {
      assert KeyLe(sorted[p], sorted[q]) && sorted[p] in keys && sorted[q] in keys;
    }
  }

  // -- The run ----------------------------------------------------------------------------------------

  // `put` fails at a field, or the row update fails.
  datatype Fault = NoFault | PutFails(field: nat) | UpdateFails

  datatype Summary = Summary(seen: nat, updated: nat, created: nat, dryRun: bool)

  predicate Hits(a: Account, fault: Fault)
    requires Shaped(a)
  {
    fault.UpdateFails? || (fault.PutFails? && fault.field < FIELDS && NeedsPut(a, fault.field))
  }

  function FaultOf(faults: map<Id, Fault>, id: Id): Fault { if id in faults then faults[id] else NoFault }

  predicate FaultHits(table: Table, id: Id, faults: map<Id, Fault>) {
    id in table && Shaped(table[id]) && Hits(table[id], FaultOf(faults, id))
  }

  predicate NoFaultHits(table: Table, chosen: seq<Id>, faults: map<Id, Fault>) {
    forall i | 0 <= i < |chosen| :: !FaultHits(table, chosen[i], faults)
  }

  class Migration {
    var table: Table
    var secrets: map<Ref, string>
    var next: Ref

    function Now(): World
      reads this
    {
      World(table, secrets, next)
    }

    constructor (w: World)
      ensures Now() == w
    {
      table, secrets, next := w.table, w.secrets, w.next;
    }

    /** `_delete_created_refs`; `stopsAt` is the delete that itself fails. */
    method DeleteCreatedRefs(refs: seq<Ref>, stopsAt: Option<nat>) returns (done: bool)
      modifies this`secrets
      ensures done == !(stopsAt.Some? && stopsAt.value < |refs|)
      ensures done ==> secrets == old(secrets) - (set r | r in refs)
      ensures secrets.Keys <= old(secrets).Keys
      ensures forall r | r in old(secrets) && r !in refs :: r in secrets
      ensures forall r | r in secrets :: secrets[r] == old(secrets)[r]
    {
      for i := 0 to |refs|
        invariant secrets == old(secrets) - (set r | r in refs[..i])
        invariant stopsAt.Some? ==> stopsAt.value >= i
      {
        if stopsAt == Some(i) { return false; }
        assert refs[..i + 1] == refs[..i] + [refs[i]];
        secrets := secrets - {refs[i]};
      }
      assert refs[..|refs|] == refs;
      done := true;
    }

    /** The loop over a row's fields, until a put fails. */
    method PutSecrets(row: Account, fault: Fault)
      returns (newRefs: seq<Option<Ref>>, createdRefs: seq<Ref>, failed: bool)
      requires Shaped(row)
      modifies this`secrets, this`next
      ensures failed == (fault.PutFails? && fault.field < FIELDS && NeedsPut(row, fault.field))
      ensures Puts(secrets, next, newRefs, createdRefs) ==
              PutFields(row, old(secrets), old(next), if failed then fault.field else FIELDS)
    {
      newRefs, createdRefs := [], [];
      for i := 0 to FIELDS
        invariant Puts(secrets, next, newRefs, createdRefs) == PutFields(row, old(secrets), old(next), i)
        invariant fault.PutFails? && fault.field < i ==> !NeedsPut(row, fault.field)
      {
        if !NeedsPut(row, i) {
          newRefs := newRefs + [None];
        } else if fault == PutFails(i) {
          return newRefs, createdRefs, true;
        } else {
          secrets := secrets[next := row.plain[i].value];
          newRefs := newRefs + [Some(next)];
          createdRefs := createdRefs + [next];
          next := next + 1;
        }
      }
      failed := false;
    }

    /** One row. On failure the row is untouched and the created secrets are deleted again. */
    method MigrateRow(id: Id, now: int, fault: Fault, undoStopsAt: Option<nat>) returns (ok: bool, created: nat)
      requires Sound(Now()) && id in table
      modifies this
      ensures Sound(Now())
      ensures ok == !Hits(old(table[id]), fault)
      ensures ok ==> Now() == MigrateOne(old(Now()), id, now)
      ensures next >= old(next) && (ok ==> created == next - old(next))
      ensures !ok ==> table == old(table) && (undoStopsAt.None? ==> secrets == old(secrets))
      ensures !ok ==> forall r | r in old(secrets) :: r in secrets && secrets[r] == old(secrets)[r]
    {
      var row := table[id];
      var newRefs, createdRefs, failed := PutSecrets(row, fault);
      PutsMeaning(row, old(secrets), old(next), if failed then fault.field else FIELDS);
      if failed || fault.UpdateFails? {
        var undone := DeleteCreatedRefs(createdRefs, undoStopsAt);
        return false, 0;
      }
      table := table[id := Updated(row, newRefs, now)];
      MigrateOneSound(old(Now()), id, now);
      return true, |createdRefs|;
    }

    /** The loop over the chosen rows. */
    method MigrateRows(chosen: seq<Id>, now: int, faults: map<Id, Fault>, undoStopsAt: Option<nat>)
      returns (summary: Option<Summary>, ghost done: nat)
      requires Sound(Now()) && (forall i, j | 0 <= i < j < |chosen| :: chosen[i] != chosen[j])
      requires forall i | 0 <= i < |chosen| :: chosen[i] in LegacySet(table)
      modifies this
      ensures Sound(Now()) && table.Keys == old(table).Keys && next >= old(next) && done <= |chosen|
      ensures summary.Some? ==>
        && done == |chosen| && Now() == MigrateAll(old(Now()), chosen, now)
        && summary.value == Summary(|chosen|, |chosen|, next - old(next), false)
      ensures summary.None? ==>
        && done < |chosen|
        && table == MigrateAll(old(Now()), chosen[..done], now).table
        && (undoStopsAt.None? ==> secrets == MigrateAll(old(Now()), chosen[..done], now).secrets)
      ensures summary.Some? <==> NoFaultHits(old(table), chosen, faults)
    {
      done := 0;
      ghost var w := Now();
      var updated, created := 0, 0;
      for i := 0 to |chosen|
        invariant Sound(Now()) && table.Keys == w.table.Keys
        invariant done == i && updated == i && w.next <= next && created == next - w.next
        invariant Now() == MigrateAll(w, chosen[..i], now)
        invariant forall j | 0 <= j < i :: !FaultHits(w.table, chosen[j], faults)
      {
        assert chosen[..i + 1][..i] == chosen[..i];
        assert chosen[i] in LegacySet(w.table) && chosen[i] !in chosen[..i];
        UntouchedRow(w, chosen[..i], now, chosen[i]);
        var ok, n := MigrateRow(chosen[i], now, FaultOf(faults, chosen[i]), undoStopsAt);
        if !ok { return None, i; }
        updated, created := updated + 1, created + n;
        done := i + 1;
      }
      assert chosen[..|chosen|] == chosen;
      summary := Some(Summary(|chosen|, updated, created, false));
    }

    /** The whole command. The first failing row stops the run; rows before it stay migrated. */
    method Migrate(ids: seq<Id>, limit: Option<nat>, dryRun: bool, now: int,
                   faults: map<Id, Fault>, undoStopsAt: Option<nat>)
      returns (summary: Option<Summary>, ghost done: nat)
      requires Sound(Now()) && Index(ids, table)
      modifies this
      ensures Sound(Now()) && table.Keys == old(table).Keys && next >= old(next)
      ensures var chosen := old(Selected(ids, table, limit));
        && done <= |chosen|
        && (dryRun ==> done == 0 && summary == Some(Summary(|chosen|, 0, 0, true)) && Now() == old(Now()))
        && (!dryRun && summary.Some? ==> (
              && done == |chosen| && Now() == MigrateAll(old(Now()), chosen, now)
              && summary.value == Summary(|chosen|, |chosen|, next - old(next), false)))
        && (!dryRun && summary.None? ==> (
              && done < |chosen|
              && table == MigrateAll(old(Now()), chosen[..done], now).table
              && (undoStopsAt.None? ==> secrets == MigrateAll(old(Now()), chosen[..done], now).secrets)))
      ensures dryRun || (summary.Some? <==> NoFaultHits(old(table), old(Selected(ids, table, limit)), faults))
    {
      var chosen := Selected(ids, table, limit);
      SelectedMeaning(ids, table, limit);
      if dryRun { return Some(Summary(|chosen|, 0, 0, true)), 0; }
      summary, done := MigrateRows(chosen, now, faults, undoStopsAt);
    }
  }

  /** One more field. */
  lemma PutFieldsNext(a: Account, secrets: map<Ref, string>, next: Ref, n: nat)
    requires Shaped(a) && 0 < n <= FIELDS
    ensures var p, q := PutFields(a, secrets, next, n), PutFields(a, secrets, next, n - 1);
      && |q.newRefs| == n - 1 && p.newRefs[..n - 1] == q.newRefs
      && p.newRefs[n - 1] == (if NeedsPut(a, n - 1) then Some(q.next) else None)
      && p.secrets == (if NeedsPut(a, n - 1) then q.secrets[q.next := a.plain[n - 1].value] else q.secrets)
  {
  }

  lemma {:induction false} PutsOnlyAdd(a: Account, secrets: map<Ref, string>, next: Ref, n: nat)
    requires Shaped(a) && n <= FIELDS && forall r | r in secrets :: r < next
    ensures var p := PutFields(a, secrets, next, n);
      && (forall r | r in p.secrets :: r < p.next)
      && (forall r | r in secrets :: r in p.secrets && p.secrets[r] == secrets[r])
      && (forall r :: r in p.created <==> r in p.secrets && r !in secrets)
  {
    if n > 0 { PutsOnlyAdd(a, secrets, next, n - 1); }
  }

  /** Field i got a new ref exactly if it needed one, and that ref holds its plaintext. */
  ghost predicate PutFor(a: Account, secrets: map<Ref, string>, p: Puts, i: nat)
    requires Shaped(a) && i < FIELDS && i < |p.newRefs|
  {
    && (p.newRefs[i].Some? <==> NeedsPut(a, i))
    && (p.newRefs[i].Some? ==>
          p.newRefs[i].value in p.secrets && p.newRefs[i].value !in secrets
          && p.secrets[p.newRefs[i].value] == a.plain[i].value)
  }

  lemma PutStays(a: Account, secrets: map<Ref, string>, p: Puts, q: Puts, i: nat, value: string)
    requires Shaped(a) && i < FIELDS && i < |q.newRefs| < |p.newRefs| && p.newRefs[..|q.newRefs|] == q.newRefs
    requires p.secrets == q.secrets || p.secrets == q.secrets[q.next := value]
    requires q.next !in q.secrets && PutFor(a, secrets, q, i)
    ensures PutFor(a, secrets, p, i)
  {
    assert p.newRefs[i] == p.newRefs[..|q.newRefs|][i];
  }

  lemma {:induction false} PutHoldsPlaintext(a: Account, secrets: map<Ref, string>, next: Ref, n: nat, i: nat)
    requires Shaped(a) && i < n <= FIELDS && forall r | r in secrets :: r < next
    ensures PutFor(a, secrets, PutFields(a, secrets, next, n), i)
  {
    var p, q := PutFields(a, secrets, next, n), PutFields(a, secrets, next, n - 1);
    PutsOnlyAdd(a, secrets, next, n - 1);
    PutFieldsNext(a, secrets, next, n);
    if i < n - 1 {
      PutHoldsPlaintext(a, secrets, next, n - 1, i);
      PutStays(a, secrets, p, q, i, if NeedsPut(a, n - 1) then a.plain[n - 1].value else "");
    }
  }

  /** The puts so far only add fresh refs, each holding its field's plaintext. */
  lemma PutsMeaning(a: Account, secrets: map<Ref, string>, next: Ref, n: nat)
    requires Shaped(a) && n <= FIELDS && forall r | r in secrets :: r < next
    ensures var p := PutFields(a, secrets, next, n);
      && (forall r | r in p.secrets :: r < p.next)
      && (forall r | r in secrets :: r in p.secrets && p.secrets[r] == secrets[r])
      && (forall r :: r in p.created <==> r in p.secrets && r !in secrets)
    ensures var p := PutFields(a, secrets, next, n);
      forall i | 0 <= i < n ::
        && (p.newRefs[i].Some? <==> NeedsPut(a, i))
        && (p.newRefs[i].Some? ==>
              p.newRefs[i].value in p.secrets && p.newRefs[i].value !in secrets
              && p.secrets[p.newRefs[i].value] == a.plain[i].value)
  {
    PutsOnlyAdd(a, secrets, next, n);
    forall i | 0 <= i < n { PutHoldsPlaintext(a, secrets, next, n, i); }
  }

  lemma MigrateOneSound(w: World, id: Id, now: int)
    requires Sound(w)
    ensures Sound(MigrateOne(w, id, now))
    ensures MigrateOne(w, id, now).table.Keys == w.table.Keys
  {
    if id in w.table { PutsMeaning(w.table[id], w.secrets, w.next, FIELDS); }
  }

  lemma {:induction false} UntouchedRow(w: World, ids: seq<Id>, now: int, e: Id)
    requires e in w.table && e !in ids
    ensures var after := MigrateAll(w, ids, now).table; e in after && after[e] == w.table[e]
  {
    if ids != [] {
      assert ids == ids[..|ids| - 1] + [ids[|ids| - 1]];
      UntouchedRow(w, ids[..|ids| - 1], now, e);
    }
  }

  // -- What a run keeps -------------------------------------------------------------------------------

  /** The usable credential of a field: behind its ref if it has one, else the plaintext. */
  function Credential(w: World, id: Id, i: nat): Option<string>
    requires id in w.table && Shaped(w.table[id]) && i < FIELDS
  {
    var a := w.table[id];
    if a.refs[i].None? then a.plain[i]
    else if a.refs[i].value in w.secrets then Some(w.secrets[a.refs[i].value]) else None
  }

  // Nothing usable is lost, existing refs and secrets stay.
  ghost predicate Keeps(w: World, t: World) {
    && t.table.Keys == w.table.Keys
    && (forall id | id in t.table :: Shaped(t.table[id]))
    && (forall id, i: nat | id in w.table && Shaped(w.table[id]) && i < FIELDS ::
          && Credential(t, id, i) == Credential(w, id, i)
          && (w.table[id].refs[i].Some? ==> t.table[id].refs[i] == w.table[id].refs[i]))
    && (forall r | r in w.secrets :: r in t.secrets && t.secrets[r] == w.secrets[r])
  }

  lemma MigrateOneKeeps(w: World, id: Id, now: int)
    requires Sound(w)
    ensures Keeps(w, MigrateOne(w, id, now))
  {
    if id in w.table {
      PutsMeaning(w.table[id], w.secrets, w.next, FIELDS);
      forall e, i: nat | e in w.table && i < FIELDS
        ensures Credential(MigrateOne(w, id, now), e, i) == Credential(w, e, i)
      {
        CredentialStays(w, id, now, e, i);
      }
    }
  }

  lemma CredentialStays(w: World, id: Id, now: int, e: Id, i: nat)
    requires Sound(w) && id in w.table && e in w.table && i < FIELDS
    ensures Shaped(MigrateOne(w, id, now).table[e])
    ensures Credential(MigrateOne(w, id, now), e, i) == Credential(w, e, i)
  {
    PutsMeaning(w.table[id], w.secrets, w.next, FIELDS);
    if w.table[e].refs[i].Some? {
      assert w.table[e].refs[i].value < w.next;
      PutsSpareOldRefs(w.table[id], w.secrets, w.next, FIELDS, w.table[e].refs[i].value);
    }
  }

  lemma {:induction false} PutsSpareOldRefs(a: Account, secrets: map<Ref, string>, next: Ref, n: nat, r: Ref)
    requires Shaped(a) && n <= FIELDS && r < next
    ensures var p := PutFields(a, secrets, next, n);
      r in p.secrets <==> r in secrets
  {
    if n > 0 { PutsSpareOldRefs(a, secrets, next, n - 1, r); }
  }

  /** Any sequence of row migrations keeps every credential usable with its old value, leaves existing refs
      alone and never touches a secret already in the store. */
  lemma {:induction false} NoCredentialLost(w: World, ids: seq<Id>, now: int)
    requires Sound(w)
    ensures Keeps(w, MigrateAll(w, ids, now)) && Sound(MigrateAll(w, ids, now))
  {
    if ids != [] {
      NoCredentialLost(w, ids[..|ids| - 1], now);
      var mid := MigrateAll(w, ids[..|ids| - 1], now);
      MigrateOneKeeps(mid, ids[|ids| - 1], now);
      MigrateOneSound(mid, ids[|ids| - 1], now);
    }
  }

  lemma {:induction false} StillLegacy(w: World, ids: seq<Id>, now: int, e: Id)
    requires Sound(w)
    ensures e in LegacySet(MigrateAll(w, ids, now).table) <==> e in LegacySet(w.table) && e !in ids
  {
    if ids != [] {
      var init, last := ids[..|ids| - 1], ids[|ids| - 1];
      StillLegacy(w, init, now, e);
      NoCredentialLost(w, init, now);
      assert ids == init + [last];
      var mid := MigrateAll(w, init, now);
      if last in mid.table {
        assert !IsLegacy(MigrateOne(mid, last, now).table[last]);
      }
    }
  }

  /** What can still be read of a field: the secret its ref names, or the plaintext beside a ref to a missing one. */
  function Readable(w: World, id: Id, i: nat): Option<string>
    requires id in w.table && Shaped(w.table[id]) && i < FIELDS
  {
    if Credential(w, id, i).Some? then Credential(w, id, i) else w.table[id].plain[i]
  }

  /** Plaintext beside a ref whose secret is missing. */
  predicate OnlyPlaintext(w: World, id: Id, i: nat)
    requires id in w.table && Shaped(w.table[id]) && i < FIELDS
  {
    var a := w.table[id];
    a.plain[i].Some? && a.refs[i].Some? && a.refs[i].value !in w.secrets
  }

  lemma ReadableAfter(w: World, ids: seq<Id>, now: int, id: Id, i: nat)
    requires Sound(w) && id in w.table && i < FIELDS
    ensures var t := MigrateAll(w, ids, now);
      && id in t.table && Shaped(t.table[id])
      && (Readable(t, id, i) == Readable(w, id, i) <==> !(id in ids && OnlyPlaintext(w, id, i)))
  {
    NoCredentialLost(w, ids, now);
    if id in ids { StillLegacy(w, ids, now, id); } else { UntouchedRow(w, ids, now, id); }
  }

  /** Everything stays readable if and only if no migrated row has plaintext beside a ref to a missing secret: that
      plaintext is cleared and the ref kept. */
  lemma AllReadableIff(w: World, ids: seq<Id>, now: int)
    requires Sound(w)
    ensures var t := MigrateAll(w, ids, now);
      && (forall id | id in w.table :: id in t.table && Shaped(t.table[id]))
      && ((forall id, i: nat | id in w.table && i < FIELDS :: Readable(t, id, i) == Readable(w, id, i)) <==>
          forall id, i: nat | id in w.table && i < FIELDS :: !(id in ids && OnlyPlaintext(w, id, i)))
  {
    forall id, i: nat | id in w.table && i < FIELDS
      ensures var t := MigrateAll(w, ids, now);
        && id in t.table && Shaped(t.table[id])
        && (Readable(t, id, i) == Readable(w, id, i) <==> !(id in ids && OnlyPlaintext(w, id, i)))
    {
      ReadableAfter(w, ids, now, id, i);
    }
    forall id | id in w.table ensures id in MigrateAll(w, ids, now).table && Shaped(MigrateAll(w, ids, now).table[id]) {
      ReadableAfter(w, ids, now, id, 0);
    }
  }

  function Elements(ids: seq<Id>): set<Id> { set id | id in ids }

  lemma {:induction false} CountDistinct(ids: seq<Id>)
    requires forall i, j | 0 <= i < j < |ids| :: ids[i] != ids[j]
    ensures |Elements(ids)| == |ids|
  {
    if ids != [] {
      var init, last := ids[..|ids| - 1], ids[|ids| - 1];
      CountDistinct(init);
      assert ids == init + [last] && last !in Elements(init);
      assert Elements(ids) == Elements(init) + {last};
    }
  }

  lemma BacklogAfter(w: World, chosen: seq<Id>, now: int)
    requires Sound(w) && (forall i, j | 0 <= i < j < |chosen| :: chosen[i] != chosen[j])
    requires forall i | 0 <= i < |chosen| :: chosen[i] in LegacySet(w.table)
    ensures |LegacySet(MigrateAll(w, chosen, now).table)| == |LegacySet(w.table)| - |chosen|
  {
    var before, after := LegacySet(w.table), LegacySet(MigrateAll(w, chosen, now).table);
    forall e
      ensures e in after <==> e in before - Elements(chosen)
    {
      StillLegacy(w, chosen, now, e);
    }
    CountDistinct(chosen);
    assert Elements(chosen) <= before;
    assert after == before - Elements(chosen);
  }

  /** A run with limit L leaves exactly min(L, remaining) fewer legacy rows; without a limit it leaves none,
      so a rerun selects nothing. */
  lemma RunShrinksBacklog(w: World, ids: seq<Id>, limit: Option<nat>, now: int)
    requires Sound(w) && Index(ids, w.table)
    ensures var n := |LegacySet(w.table)|;
      var after := MigrateAll(w, Selected(ids, w.table, limit), now);
      && |LegacySet(after.table)| == n - (if limit.Some? && limit.value < n then limit.value else n)
      && (limit.None? ==> Selected(ids, after.table, None) == [])
  {
    var chosen := Selected(ids, w.table, limit);
    SelectedMeaning(ids, w.table, limit);
    BacklogAfter(w, chosen, now);
    NoCredentialLost(w, chosen, now);
    SelectedMeaning(ids, MigrateAll(w, chosen, now).table, None);
  }
}
