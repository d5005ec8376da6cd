/** The keyset paginator over active models, and the single query it replaces. */
module Keyset {
  import opened Graph
  import opened Options
  import opened Sorting

  // The pagination key; the id is the primary key, so no two rows share one.
  datatype Key = Key(created: int, id: Id)

  // `terms` holds the four kind columns the filter looks at.
  datatype Stored = Stored(key: Key, active: bool, terms: set<string>)

  predicate KeyLe(a: Key, b: Key) {
    a.created < b.created || (a.created == b.created && a.id <= b.id)
  }

  predicate After(cursor: Option<Key>, k: Key) {
    cursor.None? || (KeyLe(cursor.value, k) && k != cursor.value)
  }

  predicate Wanted(row: Stored, kinds: set<string>) {
    row.active && row.terms * kinds != {}
  }

  function Matching(table: seq<Stored>, kinds: set<string>): seq<Key> {
    if table == [] then []
    else (if Wanted(table[0], kinds) then [table[0].key] else []) + Matching(table[1..], kinds)
  }

  function Beyond(keys: seq<Key>, cursor: Option<Key>): seq<Key> {
    if keys == [] then []
    else (if After(cursor, keys[0]) then [keys[0]] else []) + Beyond(keys[1..], cursor)
  }

  /** One query, no paging. */
  function SingleQuery(table: seq<Stored>, kinds: set<string>): seq<Key> {
    Sort(Matching(table, kinds), KeyLe)
  }

  /** One page: filter past the cursor, order, limit. */
  function Page(table: seq<Stored>, kinds: set<string>, cursor: Option<Key>, limit: nat): seq<Key> {
    var all := Sort(Beyond(Matching(table, kinds), cursor), KeyLe);
    if |all| <= limit then all else all[..limit]
  }

  ghost predicate UniqueKeys(table: seq<Stored>) {
    forall i, j | 0 <= i < j < |table| :: table[i].key != table[j].key
  }

  ghost predicate Ascending(keys: seq<Key>) {
    forall i, j | 0 <= i < j < |keys| :: KeyLe(keys[i], keys[j]) && keys[i] != keys[j]
  }

  lemma {:induction false} MatchingMeaning(table: seq<Stored>, kinds: set<string>, k: Key)
    requires UniqueKeys(table)
    ensures k in Matching(table, kinds) <==> exists row | row in table :: Wanted(row, kinds) && row.key == k
    ensures multiset(Matching(table, kinds))[k] <= 1
  {
    if table != [] {
      assert table == [table[0]] + table[1..];
      MatchingMeaning(table[1..], kinds, k);
      if k == table[0].key {
        assert k !in Matching(table[1..], kinds);
      }
    }
  }

  /** The single query lists each wanted row once, in key order. */
  lemma SingleQueryMeaning(table: seq<Stored>, kinds: set<string>)
    requires UniqueKeys(table)
    ensures Ascending(SingleQuery(table, kinds))
    ensures forall k :: k in SingleQuery(table, kinds) <==>
            exists row | row in table :: Wanted(row, kinds) && row.key == k
  {
    var m, q := Matching(table, kinds), SingleQuery(table, kinds);
    SortMeaning(m, KeyLe);
    forall k
      ensures k in q <==> exists row | row in table :: Wanted(row, kinds) && row.key == k
    {
      MatchingMeaning(table, kinds, k);
    }
    forall i, j | 0 <= i < j < |q|
      ensures KeyLe(q[i], q[j]) && q[i] != q[j]
    {
      if q[i] == q[j] {
        RepeatedKey(q, i, j);
        MatchingMeaning(table, kinds, q[i]);
        assert false;
      }
    }
  }

  ghost predicate OfKind(row: Stored, kinds: set<string>) { exists kind | kind in row.terms :: kind in kinds }

  /** In the columns' own terms: the active rows with a column among the kinds, oldest first, by id on equal times. */
  lemma SingleQueryRows(table: seq<Stored>, kinds: set<string>)
    requires UniqueKeys(table)
    ensures var q := SingleQuery(table, kinds);
      && (forall k :: k in q <==> exists row | row in table :: row.key == k && row.active && OfKind(row, kinds))
      && forall i, j | 0 <= i < j < |q| ::
           q[i].created < q[j].created || (q[i].created == q[j].created && q[i].id < q[j].id)
  {
    SingleQueryMeaning(table, kinds);
    forall row ensures Wanted(row, kinds) <==> row.active && OfKind(row, kinds) {
      if OfKind(row, kinds) {
        var kind :| kind in row.terms && kind in kinds;
        assert kind in row.terms * kinds;
      }
    }
  }

  lemma RepeatedKey(keys: seq<Key>, i: nat, j: nat)
    requires i < j < |keys| && keys[i] == keys[j]
    ensures multiset(keys)[keys[i]] >= 2
  {
    assert keys == keys[..j] + [keys[j]] + keys[j + 1..];
    assert keys[..j][i] == keys[j] && keys[j] in multiset(keys[..j]);
  }

  lemma {:induction false} BeyondCounts(keys: seq<Key>, cursor: Option<Key>, k: Key)
    ensures multiset(Beyond(keys, cursor))[k] == if After(cursor, k) then multiset(keys)[k] else 0
  {
    if keys != [] {
      assert keys == [keys[0]] + keys[1..];
      BeyondCounts(keys[1..], cursor, k);
    }
  }

  lemma BeforeAll(k: Key, rest: seq<Key>)
    requires Sorted(rest, KeyLe) && forall j | j in rest :: KeyLe(k, j)
    ensures Sorted([k] + rest, KeyLe)
  {
  }

  lemma FirstIsLeast(keys: seq<Key>, k: Key)
    requires keys != [] && Sorted(keys, KeyLe) && k in keys[1..]
    ensures KeyLe(keys[0], k)
  {
    var i :| 0 <= i < |keys[1..]| && keys[1..][i] == k;
    assert keys[i + 1] == k;
  }

  lemma {:induction false} BeyondSorted(keys: seq<Key>, cursor: Option<Key>)
    requires Sorted(keys, KeyLe)
    ensures Sorted(Beyond(keys, cursor), KeyLe)
    ensures forall k | k in Beyond(keys, cursor) :: k in keys
  {
    if keys != [] {
      var rest := Beyond(keys[1..], cursor);
      BeyondSorted(keys[1..], cursor);
      forall k | k in rest ensures KeyLe(keys[0], k) { FirstIsLeast(keys, k); }
      BeforeAll(keys[0], rest);
      assert forall k | k in keys[1..] :: k in keys;
      assert [] + rest == rest;
    }
  }

  /** Filtering past the cursor and sorting commute. */
  lemma SortThenFilter(keys: seq<Key>, cursor: Option<Key>)
    ensures Sort(Beyond(keys, cursor), KeyLe) == Beyond(Sort(keys, KeyLe), cursor)
  {
    var a, b := Sort(Beyond(keys, cursor), KeyLe), Beyond(Sort(keys, KeyLe), cursor);
    SortMeaning(keys, KeyLe);
    SortMeaning(Beyond(keys, cursor), KeyLe);
    BeyondSorted(Sort(keys, KeyLe), cursor);
    forall k
      ensures multiset(a)[k] == multiset(b)[k]
    {
      BeyondCounts(keys, cursor, k);
      BeyondCounts(Sort(keys, KeyLe), cursor, k);
    }
    assert multiset(a) == multiset(b);
    SortedUnique(a, b, KeyLe);
  }

  lemma {:induction false} BeyondAll(keys: seq<Key>, cursor: Option<Key>)
    requires forall i | 0 <= i < |keys| :: After(cursor, keys[i])
    ensures Beyond(keys, cursor) == keys
  {
    if keys != [] { BeyondAll(keys[1..], cursor); }
  }

  lemma FirstNotAfter(keys: seq<Key>, n: nat)
    requires Ascending(keys) && 0 < n <= |keys|
    ensures !After(Some(keys[n - 1]), keys[0])
  {
  }

  lemma RestIsAfter(keys: seq<Key>)
    requires Ascending(keys) && keys != []
    ensures Ascending(keys[1..]) && forall i | 0 <= i < |keys[1..]| :: After(Some(keys[0]), keys[1..][i])
  {
  }

  /** In an ascending list, what lies beyond the n-th key is the rest of the list. */
  lemma {:induction false} BeyondIsRest(keys: seq<Key>, n: nat)
    requires Ascending(keys) && 0 < n <= |keys|
    ensures Beyond(keys, Some(keys[n - 1])) == keys[n..]
    decreases n
  {
    FirstNotAfter(keys, n);
    RestIsAfter(keys);
    assert [] + Beyond(keys[1..], Some(keys[n - 1])) == Beyond(keys[1..], Some(keys[n - 1]));
    if n == 1 {
      BeyondAll(keys[1..], Some(keys[0]));
    } else {
      BeyondIsRest(keys[1..], n - 1);
      assert keys[1..][n - 1..] == keys[n..];
    }
  }

  function CursorAt(keys: seq<Key>, n: nat): Option<Key>
    requires n <= |keys|
  {
    if n == 0 then None else Some(keys[n - 1])
  }

  /** A page fetched after the first n rows is the next slice of the single query. */
  lemma PageIsSlice(table: seq<Stored>, kinds: set<string>, n: nat, limit: nat)
    requires UniqueKeys(table) && n <= |SingleQuery(table, kinds)|
    ensures var all := SingleQuery(table, kinds);
      Page(table, kinds, CursorAt(all, n), limit) == all[n..if n + limit <= |all| then n + limit else |all|]
  {
    var all := SingleQuery(table, kinds);
    SingleQueryMeaning(table, kinds);
    SortThenFilter(Matching(table, kinds), CursorAt(all, n));
    if n == 0 { BeyondAll(all, None); } else { BeyondIsRest(all, n); }
  }

  /** `_iter_active_models`: for every chunk size of at least one, exactly the single query; with a chunk
      size of zero the first page is empty and the loop ends at once. */
  method IterActiveModels(table: seq<Stored>, kinds: set<string>, chunk: nat) returns (yielded: seq<Key>)
    requires UniqueKeys(table)
    ensures yielded == if chunk == 0 then [] else SingleQuery(table, kinds)
  {
    yielded := [];
    var cursor: Option<Key> := None;
    ghost var all := SingleQuery(table, kinds);
    while true
      invariant |yielded| <= |all| && yielded == all[..|yielded|]
      invariant cursor == CursorAt(all, |yielded|)
      invariant chunk == 0 ==> yielded == []
      decreases |all| - |yielded|
    {
      PageIsSlice(table, kinds, |yielded|, chunk);
      var rows := Page(table, kinds, cursor, chunk);
      if rows == [] { break; }
      yielded := yielded + rows;
      cursor := Some(rows[|rows| - 1]);
      if |rows| < chunk { break; }
    }
  }
}
