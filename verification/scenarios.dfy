/**
 * Request sequences against one controller, proved from the endpoints'
 * contracts alone.
 */
module Scenarios {
  import opened Wrappers
  import opened Catalog
  import opened Controller

  /**
   * A record that create accepts is then found by its new id, with the fields
   * it was created with. A refused create is not followed by a get (`None`).
   */
  method CreateThenGet(c: MovieController, m: Movie) returns (created: Response<Movie>, got: Option<Response<Movie>>)
    requires c.Valid()
    modifies c
    ensures c.Valid()
    ensures !IsDuplicate(CreateKey, old(c.movies), m) ==> created.Created? && got == Some(Ok(m))
    ensures IsDuplicate(CreateKey, old(c.movies), m) ==> created == BadRequest && got == None && c.movies == old(c.movies)
  {
    created := c.AddMovie(m);
    got := None;
    if created.Created? {
      var answer := c.GetMovie(created.id);
      got := Some(answer);
    }
  }

  /**
   * On an empty table: "Dune" is created with id 1, the same record again is
   * refused, "Dune 2" by the same director is created with id 2, and both
   * records are then stored.
   */
  method DuneScenario() returns (first: Response<Movie>, again: Response<Movie>, sequel: Response<Movie>, rows: Table)
    ensures first == Created(1) && again == BadRequest && sequel == Created(2)
    ensures rows == map[1 := Movie("Dune", Some("Villeneuve"), 2021, 85), 2 := Movie("Dune 2", Some("Villeneuve"), 2024, 88)]
  {
    var c := new MovieController();
    var dune := Movie("Dune", Some("Villeneuve"), 2021, 85);
    var dune2 := Movie("Dune 2", Some("Villeneuve"), 2024, 88);
    first := c.AddMovie(dune);
    assert !IsDuplicate(CreateKey, map[1 := dune], dune2) by {
      assert !SameCreateKey(dune, dune2);
    }
    again := c.AddMovie(dune);
    assert Same(CreateKey, c.movies[1], dune);
    sequel := c.AddMovie(dune2);
    rows := c.movies;
  }

  /** Posting the same list twice: the second call answers the list again and saves nothing. */
  method AddMoviesTwice(c: MovieController, batch: seq<Movie>) returns (first: Response<seq<Movie>>, second: Response<seq<Movie>>)
    requires c.Valid() && batch != []
    modifies c
    ensures c.Valid()
    ensures first == Ok(batch) && second == Ok(batch)
    ensures c.movies == old(c.movies) + Placed(old(c.nextId), Unmatched(BulkKey, old(c.movies), batch))
  {
    first := c.AddMovies(Some(batch));
    CommitThenRepeatKeepsNothing(BulkKey, old(c.movies), batch, old(c.nextId));
    second := c.AddMovies(Some(batch));
  }

  /** Ingesting the same payload twice: the second run finds every item and saves nothing. */
  method IngestTwice(c: MovieController, payload: seq<RemoteMovie>) returns (first: Response<seq<Movie>>, second: Response<seq<Movie>>)
    requires c.Valid()
    modifies c
    ensures c.Valid()
    ensures first == Ok(Unmatched(ExternalKey, old(c.movies), ToLocal(payload)))
    ensures second == Ok([])
    ensures c.movies == old(c.movies) + Placed(old(c.nextId), first.value)
  {
    first := c.FetchExternalMovies(Some(payload));
    CommitThenRepeatKeepsNothing(ExternalKey, old(c.movies), ToLocal(payload), old(c.nextId));
    second := c.FetchExternalMovies(Some(payload));
  }
}
