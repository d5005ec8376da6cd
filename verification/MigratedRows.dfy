/** What the credential migration leaves in each row, how many refs it creates, and when it stops. */
module MigratedRows {
  import opened Graph
  import opened Options
  import opened WhatsappMigration

  // -- One row -------------------------------------------------------------------------------------------------

  /** A field after its row was migrated: without plaintext, and with the ref it had, or else, if it had plaintext, a
      new one that holds it. */
  ghost predicate FieldMoved(before: Account, after: Account, stored: map<Ref, string>, known: map<Ref, string>, i: nat)
    requires Shaped(before) && Shaped(after) && i < FIELDS
  {
    && after.plain[i] == None
    && (before.refs[i].Some? ==> after.refs[i] == before.refs[i])
    && (before.refs[i].None? && before.plain[i].None? ==> after.refs[i] == None)
    && (before.refs[i].None? && before.plain[i].Some? ==>
          && after.refs[i].Some? && after.refs[i].value !in known
          && after.refs[i].value in stored && stored[after.refs[i].value] == before.plain[i].value)
  }

  ghost predicate RowMoved(before: Account, after: Account, stored: map<Ref, string>, known: map<Ref, string>,
                           now: int)
  {
    && Shaped(before) && Shaped(after) && after.updated == now
    && forall i: nat | i < FIELDS :: FieldMoved(before, after, stored, known, i)
  }

  lemma OneField(a: Account, secrets: map<Ref, string>, next: Ref, now: int, i: nat)
    requires Shaped(a) && i < FIELDS && forall r | r in secrets :: r < next
    ensures var p := PutFields(a, secrets, next, FIELDS);
      Shaped(Updated(a, p.newRefs, now)) && FieldMoved(a, Updated(a, p.newRefs, now), p.secrets, secrets, i)
  {
    PutHoldsPlaintext(a, secrets, next, FIELDS, i);
  }

  lemma OneRow(w: World, id: Id, now: int)
    requires Sound(w) && id in w.table
    ensures var t := MigrateOne(w, id, now);
      && id in t.table && RowMoved(w.table[id], t.table[id], t.secrets, w.secrets, now)
      && forall e | e in w.table && e != id :: e in t.table && t.table[e] == w.table[e]
  {
    forall i: nat | i < FIELDS
      ensures var p := PutFields(w.table[id], w.secrets, w.next, FIELDS);
        FieldMoved(w.table[id], Updated(w.table[id], p.newRefs, now), p.secrets, w.secrets, i)
    {
      OneField(w.table[id], w.secrets, w.next, now, i);
    }
  }

  /** A row migrated before stays as it was moved: a second migration finds no plaintext. */
  lemma MovedTwice(before: Account, mid: Account, after: Account, known: map<Ref, string>, m: World, t: World, now: int)
    requires RowMoved(before, mid, m.secrets, known, now) && RowMoved(mid, after, t.secrets, m.secrets, now)
    requires forall r | r in m.secrets :: r in t.secrets && t.secrets[r] == m.secrets[r]
    ensures RowMoved(before, after, t.secrets, known, now)
  {
    forall i: nat | i < FIELDS ensures FieldMoved(before, after, t.secrets, known, i) {
      assert FieldMoved(before, mid, m.secrets, known, i) && FieldMoved(mid, after, t.secrets, m.secrets, i);
    }
  }

  lemma MovedStays(before: Account, after: Account, m: World, t: World, known: map<Ref, string>, now: int)
    requires RowMoved(before, after, m.secrets, known, now)
    requires forall r | r in m.secrets :: r in t.secrets && t.secrets[r] == m.secrets[r]
    ensures RowMoved(before, after, t.secrets, known, now)
  {
    forall i: nat | i < FIELDS ensures FieldMoved(before, after, t.secrets, known, i) {
      assert FieldMoved(before, after, m.secrets, known, i);
    }
  }

  lemma FreshStays(before: Account, after: Account, stored: map<Ref, string>, m: World, w: World, now: int)
    requires RowMoved(before, after, stored, m.secrets, now) && w.secrets.Keys <= m.secrets.Keys
    ensures RowMoved(before, after, stored, w.secrets, now)
  {
    forall i: nat | i < FIELDS ensures FieldMoved(before, after, stored, w.secrets, i) {
      assert FieldMoved(before, after, stored, m.secrets, i);
    }
  }

  /** After any run of row migrations every migrated row is moved, field by field, and every other row is as before. */
  lemma {:induction false} RowsMeaning(w: World, ids: seq<Id>, now: int, id: Id)
    requires Sound(w) && id in w.table
    ensures var t := MigrateAll(w, ids, now);
      && id in t.table
      && if id in ids then RowMoved(w.table[id], t.table[id], t.secrets, w.secrets, now) else t.table[id] == w.table[id]
  {
    if ids != [] {
      var init, last := ids[..|ids| - 1], ids[|ids| - 1];
      var m, t := MigrateAll(w, init, now), MigrateAll(w, ids, now);
      assert ids == init + [last];
      RowsMeaning(w, init, now, id);
      NoCredentialLost(w, init, now);
      MigrateOneKeeps(m, last, now);
      if last in m.table { OneRow(m, last, now); }
      RowAfterLast(w, m, t, init, last, now, id);
    }
  }

  lemma RowAfterLast(w: World, m: World, t: World, init: seq<Id>, last: Id, now: int, id: Id)
    requires id in w.table && id in m.table && w.secrets.Keys <= m.secrets.Keys
    requires if id in init then RowMoved(w.table[id], m.table[id], m.secrets, w.secrets, now)
             else m.table[id] == w.table[id]
    requires id in t.table && forall r | r in m.secrets :: r in t.secrets && t.secrets[r] == m.secrets[r]
    requires if id == last then RowMoved(m.table[id], t.table[id], t.secrets, m.secrets, now)
             else t.table[id] == m.table[id]
    ensures if id in init + [last] then RowMoved(w.table[id], t.table[id], t.secrets, w.secrets, now)
            else t.table[id] == w.table[id]
  {
    if id in init && id == last {
      MovedTwice(w.table[id], m.table[id], t.table[id], w.secrets, m, t, now);
    } else if id in init {
      MovedStays(w.table[id], m.table[id], m, t, w.secrets, now);
    } else if id == last {
      FreshStays(m.table[id], t.table[id], t.secrets, m, w, now);
    }
  }

  // -- How many refs are created -------------------------------------------------------------------------------

  /** The fields with plaintext and no ref, below n. */
  function Missing(a: Account, n: nat): nat
    requires |a.plain| >= n && |a.refs| >= n
  {
    if n == 0 then 0
    else Missing(a, n - 1) + if a.plain[n - 1].Some? && a.refs[n - 1].None? then 1 else 0
  }

  lemma {:induction false} PutsCount(a: Account, secrets: map<Ref, string>, next: Ref, n: nat)
    requires Shaped(a) && n <= FIELDS
    ensures PutFields(a, secrets, next, n).next == next + Missing(a, n)
  {
    if n > 0 { PutsCount(a, secrets, next, n - 1); }
  }

  ghost function MissingIn(table: Table, ids: seq<Id>): nat
    requires forall id | id in ids :: id in table && Shaped(table[id])
  {
    if ids == [] then 0
    else
      var init, last := ids[..|ids| - 1], ids[|ids| - 1];
      assert ids == init + [last] && last in ids && Shaped(table[last]);
      MissingIn(table, init) + Missing(table[last], FIELDS)
  }

  /** The run creates one ref for each field of the chosen rows that has plaintext and no ref. */
  lemma {:induction false} RefsCreated(w: World, ids: seq<Id>, now: int)
    requires Sound(w) && (forall i, j | 0 <= i < j < |ids| :: ids[i] != ids[j])
    requires forall id | id in ids :: id in w.table && Shaped(w.table[id])
    ensures MigrateAll(w, ids, now).next == w.next + MissingIn(w.table, ids)
  {
    if ids != [] {
      var init, last := ids[..|ids| - 1], ids[|ids| - 1];
      assert ids == init + [last] && last !in init;
      RefsCreated(w, init, now);
      UntouchedRow(w, init, now, last);
      var m := MigrateAll(w, init, now);
      PutsCount(m.table[last], m.secrets, m.next, FIELDS);
    }
  }

  // -- When it stops -------------------------------------------------------------------------------------------

  /** A fault is met at a row when its update fails, or when the put fails for a field that has plaintext and no ref. */
  predicate Meets(a: Account, fault: Fault)
    requires Shaped(a)
  {
    match fault
    case NoFault => false
    case UpdateFails => true
    case PutFails(0) => a.plain[0].Some? && a.refs[0].None?
    case PutFails(1) => a.plain[1].Some? && a.refs[1].None?
    case PutFails(2) => a.plain[2].Some? && a.refs[2].None?
    case PutFails(_) => false
  }

  /** The run gets through exactly when none of the chosen rows meets its fault. */
  lemma CompletesIff(table: Table, chosen: seq<Id>, faults: map<Id, Fault>)
    requires forall id | id in chosen :: id in table && Shaped(table[id])
    ensures NoFaultHits(table, chosen, faults) <==>
            forall id | id in chosen && id in faults :: !Meets(table[id], faults[id])
  {
    forall i | 0 <= i < |chosen|
      ensures FaultHits(table, chosen[i], faults) <==> chosen[i] in faults && Meets(table[chosen[i]], faults[chosen[i]])
    {
      assert chosen[i] in chosen;
    }
    if NoFaultHits(table, chosen, faults) {
      forall id | id in chosen && id in faults ensures !Meets(table[id], faults[id]) {
        var i :| 0 <= i < |chosen| && chosen[i] == id;
      }
    }
  }
}
