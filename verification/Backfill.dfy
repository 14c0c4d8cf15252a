/** Rebuilding the identity index from the users table, page by page. */
module Backfill {
  import opened Users
  import opened IdentityIndex
  import opened Sql
  import opened FilterSyntax
  import opened Cursor

  /** Each key leads to the last user, in the given order, who expected it when its turn came; `times[i]` is the
      reading of the clock at the turn of `users[i]`. */
  ghost function LastWins(users: seq<User>, times: seq<nat>): Rows
    requires |users| == |times|
  {
    if users == [] then map[]
    else
      var last := |users| - 1;
      LastWins(users[..last], times[..last]) + OwnRows(users[last], times[last])
  }

  /** `users[i]` is the last to expect `k`. */
  ghost predicate LastExpects(users: seq<User>, times: seq<nat>, i: nat, k: Key)
    requires |users| == |times|
  {
    && i < |users| && k in Expected(users[i], times[i])
    && forall j :: i < j < |users| ==> k !in Expected(users[j], times[j])
  }

  ghost predicate SomeoneExpects(users: seq<User>, times: seq<nat>, k: Key)
    requires |users| == |times|
  {
    exists j :: 0 <= j < |users| && k in Expected(users[j], times[j])
  }

  lemma LastOrEarlierExpects(users: seq<User>, times: seq<nat>, k: Key)
    requires |users| == |times| && users != []
    ensures var last := |users| - 1;
            SomeoneExpects(users, times, k)
            <==> k in Expected(users[last], times[last]) || SomeoneExpects(users[..last], times[..last], k)
  {
    var last := |users| - 1;
    forall j | 0 <= j < last
      ensures k in Expected(users[..last][j], times[..last][j]) <==> k in Expected(users[j], times[j])
    {
    }
  }

  lemma {:induction false} KeysAreExpected(users: seq<User>, times: seq<nat>, k: Key)
    requires |users| == |times|
    ensures k in LastWins(users, times) <==> SomeoneExpects(users, times, k)
  {
    if users != [] {
      var last := |users| - 1;
      LastOrEarlierExpects(users, times, k);
      KeysAreExpected(users[..last], times[..last], k);
    }
  }

  lemma {:induction false} LastExpectingWins(users: seq<User>, times: seq<nat>, k: Key, i: nat)
    requires |users| == |times| && LastExpects(users, times, i, k)
    ensures k in LastWins(users, times) && LastWins(users, times)[k] == EntryOf(users[i], k)
  {
    var last := |users| - 1;
    if i < last {
      assert k !in Expected(users[last], times[last]);
      assert forall j :: 0 <= j < last ==> users[..last][j] == users[j] && times[..last][j] == times[j];
      LastExpectingWins(users[..last], times[..last], k, i);
    }
  }

  lemma LastWinsIsLast(users: seq<User>, times: seq<nat>, k: Key, i: nat)
    requires |users| == |times|
    ensures LastExpects(users, times, i, k)
            ==> k in LastWins(users, times) && LastWins(users, times)[k] == EntryOf(users[i], k)
    ensures k in LastWins(users, times) <==> SomeoneExpects(users, times, k)
  {
    KeysAreExpected(users, times, k);
    if LastExpects(users, times, i, k) {
      LastExpectingWins(users, times, k, i);
    }
  }

  ghost function SyncAll(rows: Rows, users: seq<User>, times: seq<nat>): Rows
    requires |users| == |times|
  {
    if users == [] then rows
    else
      var last := |users| - 1;
      Synced(SyncAll(rows, users[..last], times[..last]), users[last], times[last])
  }

  ghost function Ids(users: seq<User>): set<nat> {
    set u <- users :: u.id
  }

  ghost predicate DistinctIds(users: seq<User>) {
    forall i, j :: 0 <= i < j < |users| ==> users[i].id != users[j].id
  }

  /** What the index held before and no user seen so far has touched. */
  ghost function Untouched(rows: Rows, seen: set<nat>, won: Rows): Rows {
    map k | k in rows && rows[k].userId !in seen && k !in won :: rows[k]
  }

  ghost predicate OwnedBy(rows: Rows, ids: set<nat>) {
    forall k :: k in rows ==> rows[k].userId in ids
  }

  /** One more user: its own rows win over all, and what it held otherwise goes. */
  lemma OneMoreSync(rows: Rows, seen: set<nat>, won: Rows, id: nat, own: Rows)
    requires id !in seen && OwnedBy(won, seen) && OwnedBy(own, {id})
    ensures Cascaded(Untouched(rows, seen, won) + won, id) + own
            == Untouched(rows, seen + {id}, won + own) + (won + own)
  {
  }

  lemma OwnRowsAreOwned(u: User, now: nat)
    ensures OwnedBy(OwnRows(u, now), {u.id})
  {
  }

  lemma {:induction false} LastWinsOwners(users: seq<User>, times: seq<nat>)
    requires |users| == |times|
    ensures OwnedBy(LastWins(users, times), Ids(users))
  {
    if users != [] {
      var last := |users| - 1;
      LastWinsOwners(users[..last], times[..last]);
      OwnRowsAreOwned(users[last], times[last]);
      IdsOfAppend(users);
    }
  }

  lemma IdsOfAppend(users: seq<User>)
    requires users != []
    ensures Ids(users) == Ids(users[..|users| - 1]) + {users[|users| - 1].id}
  {
    assert users == users[..|users| - 1] + [users[|users| - 1]];
  }

  lemma {:induction false} SyncAllSettles(rows: Rows, users: seq<User>, times: seq<nat>)
    requires |users| == |times| && DistinctIds(users)
    ensures SyncAll(rows, users, times) == Untouched(rows, Ids(users), LastWins(users, times)) + LastWins(users, times)
  {
    if users == [] {
      assert Untouched(rows, {}, map[]) == rows;
    } else {
      var last := |users| - 1;
      var u, before, earlier := users[last], users[..last], times[..last];
      SyncAllSettles(rows, before, earlier);
      LastWinsOwners(before, earlier);
      OwnRowsAreOwned(u, times[last]);
      IdsOfAppend(users);
      assert u.id !in Ids(before);
      OneMoreSync(rows, Ids(before), LastWins(before, earlier), u.id, OwnRows(u, times[last]));
    }
  }

  /** The documents of stored rows, in table order. */
  function Docs(table: seq<Stored<User>>): (r: seq<User>)
    ensures |r| == |table|
  {
    if table == [] then [] else [table[0].doc] + Docs(table[1..])
  }

  lemma {:induction false} DocsAreRows(table: seq<Stored<User>>)
    ensures |Docs(table)| == |table| && forall i :: 0 <= i < |table| ==> Docs(table)[i] == table[i].doc
  {
    if table != [] {
      DocsAreRows(table[1..]);
    }
  }

  const EVERYONE: Filter := Filter([])

  lemma {:induction false} EveryoneIsWanted(g: Engine, sc: Schema, table: seq<Stored<User>>)
    ensures Wanted(g, sc, EVERYONE, table, -1) == table
  {
    if table != [] {
      EveryoneIsWanted(g, sc, table[1..]);
    }
  }

  /** Over a users table that does not change meanwhile, and whatever the index held before as long as the
      owner of each row exists, the backfill visits every user once in ascending id order and leaves exactly
      the keys some user expects at its turn, each leading to the last user in that order who does. */
  method BackfillIdentityIndexes(index: Index, sc: Schema, g: Engine, table: seq<Stored<User>>, times: seq<nat>)
      returns (scanned: nat, synced: nat)
    requires Keyed(table) && KeysInColumn(g, table) && |times| == |table|
    requires forall x <- table :: x.doc.id == x.id
    requires OwnedBy(index.rows, Ids(Docs(table)))
    modifies index
    ensures index.rows == LastWins(Docs(table), times)
    ensures scanned == synced == |table|
  {
    var users := Everyone(sc, g, table);
    var ids := set x <- users :: x.id;
    DocsAreKnown(table);
    EverythingSettles(index.rows, table, times);
    scanned, synced := SyncEach(index, Docs(users), ids, times);
  }

  lemma DocsAreKnown(table: seq<Stored<User>>)
    requires forall x <- table :: x.doc.id == x.id
    ensures var ids := set x <- table :: x.id;
            |Docs(table)| == |table| && forall i :: 0 <= i < |table| ==> Docs(table)[i].id in ids
  {
    DocsAreRows(table);
    assert forall i :: 0 <= i < |table| ==> table[i] in table;
  }

  /** The backfill's loop over the users the cursor yields. */
  method SyncEach(index: Index, users: seq<User>, ids: set<nat>, times: seq<nat>) returns (scanned: nat, synced: nat)
    requires |users| == |times| && forall i :: 0 <= i < |users| ==> users[i].id in ids
    modifies index
    ensures index.rows == SyncAll(old(index.rows), users, times)
    ensures scanned == synced == |users|
  {
    ghost var before := index.rows;
    scanned, synced := 0, 0;
    for i := 0 to |users|
      invariant scanned == synced == i
      invariant index.rows == SyncAll(before, users[..i], times[..i])
    {
      scanned := scanned + 1;
      index.Sync(users[i], times[i], ids);
      SyncAllOneMore(before, users, i, times);
      synced := synced + 1;
    }
    assert users[..|users|] == users && times[..|users|] == times;
  }

  method Everyone(sc: Schema, g: Engine, table: seq<Stored<User>>) returns (users: seq<Stored<User>>)
    requires Keyed(table) && KeysInColumn(g, table)
    ensures users == table
  {
    ghost var bound := if table == [] then 0 else table[|table| - 1].id + 1;
    var pages, _ := Scan(sc, g, EVERYONE, (_: nat) => table, bound);
    StaticYieldsWanted(g, sc, EVERYONE, (_: nat) => table, 0, -1, bound);
    EveryoneIsWanted(g, sc, table);
    users := pages.value;
  }

  lemma SyncAllOneMore(rows: Rows, users: seq<User>, i: nat, times: seq<nat>)
    requires i < |users| == |times|
    ensures SyncAll(rows, users[..i + 1], times[..i + 1])
            == Synced(SyncAll(rows, users[..i], times[..i]), users[i], times[i])
  {
    assert users[..i + 1][..i] == users[..i] && times[..i + 1][..i] == times[..i];
  }

  lemma EverythingSettles(rows: Rows, table: seq<Stored<User>>, times: seq<nat>)
    requires Keyed(table) && |times| == |table| && forall x <- table :: x.doc.id == x.id
    requires OwnedBy(rows, Ids(Docs(table)))
    ensures SyncAll(rows, Docs(table), times) == LastWins(Docs(table), times)
  {
    var docs := Docs(table);
    DocsAreRows(table);
    forall i, j | 0 <= i < j < |docs| ensures docs[i].id != docs[j].id {
      assert table[i] in table && table[j] in table;
    }
    SyncAllSettles(rows, docs, times);
    NothingUntouched(rows, Ids(docs), LastWins(docs, times));
  }

  lemma NothingUntouched(rows: Rows, ids: set<nat>, won: Rows)
    requires OwnedBy(rows, ids)
    ensures Untouched(rows, ids, won) + won == won
  {
  }
}
