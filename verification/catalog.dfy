/**
 * The movie table and the duplicate rules of the movie catalogue API.
 *
 * A `Table` maps each id to the four business fields of a record. Each
 * endpoint that writes decides "is this a duplicate?" by comparing a
 * different set of fields (its key); the four keys are defined here once
 * and selected by `Key`, so every call site keeps exactly its own key.
 */
module Catalog {
  import opened Wrappers

  /** A rating score. The endpoints only ever compare ratings with `==`. */
  type Rate = int

  /** The business fields of a record; its id is its key in the `Table`. */
  datatype Movie = Movie(title: string, director: Option<string>, year: int, rate: Rate)

  /** A record as the remote catalogue sends it, with the remote side's id. */
  datatype RemoteMovie = RemoteMovie(id: int, title: string, director: Option<string>, year: int, rate: Rate)

  /** The movie table: id to record. */
  type Table = map<int, Movie>

  /** What an endpoint answers. `Ok` carries the response body. */
  datatype Response<T> = Ok(value: T) | Created(id: int) | NoContent | BadRequest | Conflict | NotFound

  /** The duplicate key of single create: title and director (no director matches no director). */
  predicate SameCreateKey(a: Movie, b: Movie) {
    a.title == b.title && a.director == b.director
  }

  /** The duplicate key of bulk add: title and year. */
  predicate SameBulkKey(a: Movie, b: Movie) {
    a.title == b.title && a.year == b.year
  }

  /** The duplicate key of update: all four business fields. */
  predicate SameUpdateKey(a: Movie, b: Movie) {
    a.title == b.title && a.director == b.director && a.year == b.year && a.rate == b.rate
  }

  /** The duplicate key of external ingestion: title, director and year. */
  predicate SameExternalKey(a: Movie, b: Movie) {
    a.title == b.title && a.director == b.director && a.year == b.year
  }

  /** Which call site's key a duplicate check uses. */
  datatype Key = CreateKey | BulkKey | UpdateKey | ExternalKey

  predicate Same(k: Key, a: Movie, b: Movie) {
    match k
    case CreateKey => SameCreateKey(a, b)
    case BulkKey => SameBulkKey(a, b)
    case UpdateKey => SameUpdateKey(a, b)
    case ExternalKey => SameExternalKey(a, b)
  }

  /** Some record of `table` agrees with `m` on key `k`. */
  predicate IsDuplicate(k: Key, table: Table, m: Movie) {
    exists id :: id in table && Same(k, table[id], m)
  }

  /** The update check: a record with a DIFFERENT id agrees with `m` on all four fields. */
  predicate ConflictsOnUpdate(table: Table, id: int, m: Movie) {
    IsDuplicate(UpdateKey, table - {id}, m)
  }

  /** No two distinct records of `table` agree on key `k`. */
  predicate Unique(k: Key, table: Table) {
    forall i, j :: i in table && j in table && i != j ==> !Same(k, table[i], table[j])
  }

  /**
   * How the keys nest: the update key is plain equality of the business
   * fields, it is finer than the external key, and the external key is
   * finer than both the create key and the bulk key.
   */
  lemma KeysNest(a: Movie, b: Movie)
    ensures SameUpdateKey(a, b) <==> a == b
    ensures SameUpdateKey(a, b) ==> SameExternalKey(a, b)
    ensures SameExternalKey(a, b) ==> SameCreateKey(a, b) && SameBulkKey(a, b)
  {
  }

  /**
   * Each check reads only its own key: the create check ignores year and rate,
   * the bulk check ignores director and rate, the external check ignores rate.
   */
  lemma ChecksReadOnlyTheirKey(table: Table, m: Movie, director: Option<string>, year: int, rate: Rate)
    ensures IsDuplicate(CreateKey, table, m) == IsDuplicate(CreateKey, table, m.(year := year, rate := rate))
    ensures IsDuplicate(BulkKey, table, m) == IsDuplicate(BulkKey, table, m.(director := director, rate := rate))
    ensures IsDuplicate(ExternalKey, table, m) == IsDuplicate(ExternalKey, table, m.(rate := rate))
  {
  }

  /** The rows a batch receives when it is committed with consecutive ids from `start` on, in batch order. */
  function Placed(start: int, batch: seq<Movie>): (rows: Table)
    ensures forall id :: id in rows <==> start <= id < start + |batch|
    ensures forall j :: 0 <= j < |batch| ==> rows[start + j] == batch[j]
  {
    if batch == [] then map[]
    else
      var init := batch[..|batch| - 1];
      Placed(start, init)[start + |init| := batch[|batch| - 1]]
  }

  /** Committing a batch from a counter above every saved id keeps every id below the advanced counter. */
  lemma CommitKeepsIdsBelowCounter(saved: Table, start: int, batch: seq<Movie>)
    requires 0 < start && forall id :: id in saved ==> 0 < id < start
    ensures forall id :: id in saved + Placed(start, batch) ==> 0 < id < start + |batch|
    ensures forall id :: id in saved ==> (saved + Placed(start, batch))[id] == saved[id]
  {
  }

  /**
   * The items of `batch` that have no match on key `k` in `saved`, in batch
   * order. Only `saved` is consulted, never earlier items of the batch, so
   * repeated items are all kept.
   */
  function Unmatched(k: Key, saved: Table, batch: seq<Movie>): (kept: seq<Movie>)
    ensures |kept| <= |batch|
    ensures forall m :: multiset(kept)[m] == if IsDuplicate(k, saved, m) then 0 else multiset(batch)[m]
  {
    if batch == [] then []
    else
      var init, last := batch[..|batch| - 1], batch[|batch| - 1];
      assert batch == init + [last];
      var kept := Unmatched(k, saved, init);
      if IsDuplicate(k, saved, last) then kept else kept + [last]
  }

  /** The local records made from a remote payload: the four fields kept, the remote id dropped. */
  function ToLocal(remote: seq<RemoteMovie>): seq<Movie>
  {
    seq(|remote|, i requires 0 <= i < |remote| => Movie(remote[i].title, remote[i].director, remote[i].year, remote[i].rate))
  }

  /** Two payloads that differ only in their remote ids give the same local records. */
  lemma ToLocalIgnoresRemoteIds(p: seq<RemoteMovie>, q: seq<RemoteMovie>)
    requires |p| == |q| && forall i :: 0 <= i < |p| ==> p[i].(id := q[i].id) == q[i]
    ensures ToLocal(p) == ToLocal(q)
  {
  }

  /** An item of the batch is kept exactly when `saved` holds no record with its key. */
  lemma KeptIffUnmatched(k: Key, saved: Table, batch: seq<Movie>, m: Movie)
    requires m in batch
    ensures m in Unmatched(k, saved, batch) <==> !IsDuplicate(k, saved, m)
  {
    assert multiset(batch)[m] > 0;
    assert m in Unmatched(k, saved, batch) <==> multiset(Unmatched(k, saved, batch))[m] > 0;
  }

  /** When every item of `batch` has a match in `table`, nothing is kept. */
  lemma AllMatchedKeepsNothing(k: Key, table: Table, batch: seq<Movie>)
    requires forall i :: 0 <= i < |batch| ==> IsDuplicate(k, table, batch[i])
    ensures Unmatched(k, table, batch) == []
  {
  }

  /**
   * Committing what a batch keeps makes the batch a duplicate of the new
   * table item by item: running the same batch again keeps nothing. This holds
   * for every key, since each key matches a record with itself.
   */
  lemma {:induction false} CommitThenRepeatKeepsNothing(k: Key, saved: Table, batch: seq<Movie>, start: int)
    requires forall id :: id in saved ==> id < start
    ensures Unmatched(k, saved + Placed(start, Unmatched(k, saved, batch)), batch) == []
  {
    var kept := Unmatched(k, saved, batch);
    var after := saved + Placed(start, kept);
    forall i | 0 <= i < |batch|
      ensures IsDuplicate(k, after, batch[i])
    {
      var m := batch[i];
      if IsDuplicate(k, saved, m) {
        var id :| id in saved && Same(k, saved[id], m);
        assert after[id] == saved[id];
      } else {
        KeptIffUnmatched(k, saved, batch, m);
        var j :| 0 <= j < |kept| && kept[j] == m;
        assert after[start + j] == m;
      }
    }
    AllMatchedKeepsNothing(k, after, batch);
  }

  /** Inserting a record without a match under a fresh id keeps key `k` unique, when it was unique before. */
  lemma InsertKeepsUnique(k: Key, table: Table, id: int, m: Movie)
    requires id !in table && !IsDuplicate(k, table, m)
    ensures Unique(k, table) ==> Unique(k, table[id := m])
  {
    if !Unique(k, table) {
      return;
    }
    var after := table[id := m];
    forall i, j | i in after && j in after && i != j
      ensures !Same(k, after[i], after[j])
    {
      if i == id {
        assert !Same(k, table[j], m);
      } else if j == id {
        assert !Same(k, table[i], m);
      }
    }
  }

  /** Overwriting a record with one that conflicts with no other record keeps the update key unique, when it was unique before. */
  lemma ReplaceKeepsUpdateKeyUnique(table: Table, id: int, m: Movie)
    requires id in table && !ConflictsOnUpdate(table, id, m)
    ensures Unique(UpdateKey, table) ==> Unique(UpdateKey, table[id := m])
  {
    if !Unique(UpdateKey, table) {
      return;
    }
    var rest := table - {id};
    assert Unique(UpdateKey, rest);
    InsertKeepsUnique(UpdateKey, rest, id, m);
    assert rest[id := m] == table[id := m];
  }

  /** A record that would be refused by create can still be added by bulk add: their keys differ. */
  lemma BulkAddMayRepeatCreateKey()
    ensures var saved := map[1 := Movie("Dune", Some("Villeneuve"), 2021, 8)];
            var batch := [Movie("Dune", Some("Villeneuve"), 2024, 9)];
            var after := saved + Placed(2, Unmatched(BulkKey, saved, batch));
            IsDuplicate(CreateKey, saved, batch[0]) && !Unique(CreateKey, after)
  {
    var saved := map[1 := Movie("Dune", Some("Villeneuve"), 2021, 8)];
    var batch := [Movie("Dune", Some("Villeneuve"), 2024, 9)];
    assert Same(CreateKey, saved[1], batch[0]);
    assert !IsDuplicate(BulkKey, saved, batch[0]) by {
      forall id | id in saved
        ensures !Same(BulkKey, saved[id], batch[0])
      {
        assert id == 1;
      }
    }
    assert !SameBulkKey(saved[1], batch[0]);
    assert Unmatched(BulkKey, saved, batch) == batch by {
      assert batch[..0] == [];
    }
    var after := saved + Placed(2, batch);
    assert after[2] == batch[0];
    assert Same(CreateKey, after[1], after[2]);
  }

  /** Two equal new items in one bulk batch are both kept, so even the update key can repeat. */
  lemma BatchRepeatsAreAllKept(k: Key, m: Movie)
    ensures Unmatched(k, map[], [m, m]) == [m, m]
    ensures !Unique(UpdateKey, Placed(1, [m, m]))
  {
    assert [m, m][..1] == [m];
    assert [m][..0] == [];
    var rows := Placed(1, [m, m]);
    assert rows[1 + 0] == [m, m][0] && rows[1 + 1] == [m, m][1];
    assert Same(UpdateKey, rows[1], rows[2]);
  }
}
