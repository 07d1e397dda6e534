/**
 * The movie endpoints, each an operation on the saved movie table.
 *
 * The table is the controller's state: `movies` holds the saved rows and
 * `nextId` is the table's id counter, the only source of ids. Every write
 * endpoint stages its rows and commits them at once, as one save.
 */
module Controller {
  import opened Wrappers
  import opened Catalog

  /**
   * The add-movies loop: walks the list in order and stages each item that
   * has no title-and-year match in `saved`. Staged items are not saved yet,
   * so they are never consulted by later items.
   */
  method StageBatch(saved: Table, items: seq<Movie>) returns (staged: seq<Movie>)
    ensures staged == Unmatched(BulkKey, saved, items)
  {
    staged := [];
    for i := 0 to |items|
      invariant staged == Unmatched(BulkKey, saved, items[..i])
    {
      assert items[..i + 1][..i] == items[..i];
      if !IsDuplicate(BulkKey, saved, items[i]) {
        staged := staged + [items[i]];
      }
    }
    assert items[..|items|] == items;
  }

  class MovieController {
    /** The saved rows of the movie table. */
    var movies: Table
    /** The id the table hands out next; ids are never reused. */
    var nextId: int

    /** Every saved id is positive and below the counter, so the counter is always fresh. */
    ghost predicate Valid()
      reads this
    {
      0 < nextId && forall id :: id in movies ==> 0 < id < nextId
    }

    /** An empty table whose ids start at 1. */
    constructor ()
      ensures Valid() && movies == map[] && nextId == 1
    {
      movies := map[];
      nextId := 1;
    }

    /** GET by id: the stored record, or NotFound. */
    method GetMovie(id: int) returns (r: Response<Movie>)
      ensures r.NotFound? <==> id !in movies
      ensures r.Ok? ==> id in movies && r.value == movies[id]
      ensures r.Ok? || r.NotFound?
    {
      if id !in movies {
        return NotFound;
      }
      r := Ok(movies[id]);
    }

    /**
     * POST: refused when a saved record has the same title and director,
     * whatever its year and rate; otherwise saved under a fresh id.
     */
    method AddMovie(movie: Movie) returns (r: Response<Movie>)
      requires Valid()
      modifies this
      ensures Valid()
      ensures IsDuplicate(CreateKey, old(movies), movie) ==>
        r == BadRequest && movies == old(movies) && nextId == old(nextId)
      ensures !IsDuplicate(CreateKey, old(movies), movie) ==>
        && r == Created(old(nextId))
        && r.id !in old(movies)
        && movies == old(movies)[r.id := movie]
        && nextId == r.id + 1
      ensures Unique(CreateKey, old(movies)) ==> Unique(CreateKey, movies)
    {
      if IsDuplicate(CreateKey, movies, movie) {
        return BadRequest;
      }
      var id := nextId;
      InsertKeepsUnique(CreateKey, movies, id, movie);
      movies := movies[id := movie];
      nextId := nextId + 1;
      r := Created(id);
    }

    /**
     * POST add-movies: a missing or empty list is refused. Otherwise each item
     * is staged when no SAVED record has its title and year (items staged
     * earlier in the same call are not consulted), all staged items are saved
     * together, and the whole input list is answered.
     */
    method AddMovies(batch: Option<seq<Movie>>) returns (r: Response<seq<Movie>>)
      requires Valid()
      modifies this
      ensures Valid()
      ensures batch.None? || batch.value == [] ==>
        r == BadRequest && movies == old(movies) && nextId == old(nextId)
      ensures batch.Some? && batch.value != [] ==>
        var added := Unmatched(BulkKey, old(movies), batch.value);
        && r == Ok(batch.value)
        && movies == old(movies) + Placed(old(nextId), added)
        && nextId == old(nextId) + |added|
    {
      if batch.None? || |batch.value| == 0 {
        return BadRequest;
      }
      var items := batch.value;
      var staged := StageBatch(movies, items);
      CommitKeepsIdsBelowCounter(movies, nextId, staged);
      movies := movies + Placed(nextId, staged);
      nextId := nextId + |staged|;
      r := Ok(items);
    }

    /**
     * PUT: the checks run in this order, each answering before any later one
     * and before the table is touched: path id against body id, year zero,
     * a record with another id equal on all four fields, an absent id.
     * Otherwise the record's four fields are overwritten and its id kept.
     */
    method UpdateMovie(id: int, bodyId: int, body: Movie) returns (r: Response<Movie>)
      requires Valid()
      modifies this
      ensures Valid() && nextId == old(nextId)
      ensures id != bodyId ==> r == BadRequest && movies == old(movies)
      ensures id == bodyId && body.year == 0 ==> r == BadRequest && movies == old(movies)
      ensures id == bodyId && body.year != 0 && ConflictsOnUpdate(old(movies), id, body) ==>
        r == Conflict && movies == old(movies)
      ensures id == bodyId && body.year != 0 && !ConflictsOnUpdate(old(movies), id, body) && id !in old(movies) ==>
        r == NotFound && movies == old(movies)
      ensures id == bodyId && body.year != 0 && !ConflictsOnUpdate(old(movies), id, body) && id in old(movies) ==>
        r == Ok(body) && movies == old(movies)[id := body]
      ensures Unique(UpdateKey, old(movies)) ==> Unique(UpdateKey, movies)
    {
      if id != bodyId {
        return BadRequest;
      }
      if body.year == 0 {
        return BadRequest;
      }
      if ConflictsOnUpdate(movies, id, body) {
        return Conflict;
      }
      if id !in movies {
        return NotFound;
      }
      var target := movies[id];
      target := target.(title := body.title);
      target := target.(director := body.director);
      target := target.(year := body.year);
      target := target.(rate := body.rate);
      ReplaceKeepsUpdateKeyUnique(movies, id, target);
      movies := movies[id := target];
      r := Ok(target);
    }

    /** DELETE: an absent id is NotFound; a present one is removed, and nothing else. */
    method DeleteMovie(id: int) returns (r: Response<()>)
      requires Valid()
      modifies this
      ensures Valid() && nextId == old(nextId)
      ensures id !in old(movies) ==> r == NotFound && movies == old(movies)
      ensures id in old(movies) ==> r == NoContent && movies == old(movies) - {id}
    {
      if id !in movies {
        return NotFound;
      }
      movies := movies - {id};
      r := NoContent;
    }

    /**
     * GET fetch-external-movies, from the parsed payload on (`None` when the
     * fetch failed or the payload was null): remote ids are dropped, an item
     * is kept when no record of the table as it was before the call has its
     * title, director and year, and the kept items are saved with fresh ids
     * and answered. Items repeated within the payload are all kept.
     */
    method FetchExternalMovies(payload: Option<seq<RemoteMovie>>) returns (r: Response<seq<Movie>>)
      requires Valid()
      modifies this
      ensures Valid()
      ensures payload.None? ==> r == BadRequest && movies == old(movies) && nextId == old(nextId)
      ensures payload.Some? ==>
        && r == Ok(Unmatched(ExternalKey, old(movies), ToLocal(payload.value)))
        && movies == old(movies) + Placed(old(nextId), r.value)
        && nextId == old(nextId) + |r.value|
      ensures r == Ok([]) ==> movies == old(movies) && nextId == old(nextId)
    {
      if payload.None? {
        return BadRequest;
      }
      var moviesToAdd := ToLocal(payload.value);
      var existing := movies;
      var newMovies := Unmatched(ExternalKey, existing, moviesToAdd);
      if |newMovies| > 0 {
        CommitKeepsIdsBelowCounter(movies, nextId, newMovies);
        movies := movies + Placed(nextId, newMovies);
        nextId := nextId + |newMovies|;
      }
      r := Ok(newMovies);
    }
  }
}
