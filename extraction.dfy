/** The outer loop of `format_cineman_content`: every movie block on the page adds its
    title, genre, cinema names, cinema places and age limit to five per-movie columns, and
    its showtime and language lists to two more columns that skip movies without any.

    A movie block is given as the strings the HTML traversal would extract: the title, the
    genre, one (name, place) pair per cinema heading, the texts of the `link` anchors and
    the whitespace-separated tokens of each showtimes segment. */
module Extraction {
  import opened Wrappers
  import opened Text
  import opened Seqs
  import opened Tokens

  datatype CinemaHeading = CinemaHeading(name: string, place: string)

  datatype MovieBlock = MovieBlock(
    title: string,
    genre: string,
    cinemas: seq<CinemaHeading>,
    links: seq<string>,
    segments: seq<seq<string>>)

  /** The seven accumulator lists once every movie has been read. */
  datatype Columns = Columns(
    movies: seq<string>,
    genres: seq<string>,
    cinemas: seq<seq<string>>,
    places: seq<seq<string>>,
    ageLimits: seq<string>,
    showtimes: seq<seq<seq<string>>>,
    languages: seq<seq<seq<string>>>)

  // ---------------------------------------------------------------------------------------
  // The age limit

  /** The anchor text the age rule reads: the last link, or the one before it when the last
      is the "Reservation" link; `None` where the Python indexing raises. */
  function AgeLinkText(links: seq<string>): (r: Option<string>)
    ensures r.Some? <==> links != [] && (links[|links| - 1] != "Reservation" || |links| >= 2)
    ensures r.Some? && links[|links| - 1] != "Reservation" ==> r.value == links[|links| - 1]
    ensures r.Some? && links[|links| - 1] == "Reservation" ==> r.value == links[|links| - 2]
  {
    if links == [] then None
    else if links[|links| - 1] != "Reservation" then Some(links[|links| - 1])
    else if |links| < 2 then None
    else Some(links[|links| - 2])
  }

  /** The age-limit entry of one movie: the anchor text if it carries the `Y.` age marker,
      "unknown" otherwise; a movie without the links the rule indexes aborts the run. */
  function AgeLimit(links: seq<string>): (r: Result<string, ScrapeError>)
    ensures r.Err? <==> AgeLinkText(links).None?
    ensures r.Err? ==> r.error == MissingAgeLink
    ensures r.Ok? ==> r.value == (if Contains(AgeLinkText(links).value, "Y.") then AgeLinkText(links).value else "unknown")
  {
    match AgeLinkText(links)
    case None => Err(MissingAgeLink)
    case Some(text) => if Find(text, "Y.") == -1 then Ok("unknown") else Ok(text)
  }

  /** Every age limit is "unknown" or a text carrying the age marker, so the "Reservation"
      link itself never becomes an age limit. */
  lemma AgeLimitValues(links: seq<string>)
    requires AgeLimit(links).Ok?
    ensures AgeLimit(links).value == "unknown" || Contains(AgeLimit(links).value, "Y.")
    ensures AgeLimit(links).value != "Reservation"
    ensures var v := AgeLimit(links).value;
      v == "unknown" || v == links[|links| - 1] || (|links| >= 2 && v == links[|links| - 2])
  {
    ContainsFirstChar("Reservation", "Y.");
  }

  lemma AgeLimitExamples()
    ensures AgeLimit(["Trailer", "Y.12"]) == Ok("Y.12")
    ensures AgeLimit(["Y.16", "Reservation"]) == Ok("Y.16")
    ensures AgeLimit(["Trailer"]) == Ok("unknown")
    ensures AgeLimit(["Reservation"]) == Err(MissingAgeLink)
    ensures AgeLimit([]) == Err(MissingAgeLink)
  {
    assert OccursAt("Y.12", "Y.", 0);
    assert OccursAt("Y.16", "Y.", 0);
    ContainsFirstChar("Trailer", "Y.");
  }

  // ---------------------------------------------------------------------------------------
  // The cinema headings of one movie

  /** The loop over a movie's cinema headings, filling `cinema_names` and `places`. */
  method CinemaColumns(cinemas: seq<CinemaHeading>) returns (names: seq<string>, places: seq<string>)
    ensures |names| == |cinemas| && |places| == |cinemas|
    ensures forall k :: 0 <= k < |cinemas| ==> names[k] == cinemas[k].name && places[k] == cinemas[k].place
  {
    names, places := [], [];
    var i := 0;
    while i < |cinemas|
      invariant 0 <= i <= |cinemas|
      invariant |names| == i && |places| == i
      invariant forall k :: 0 <= k < i ==> names[k] == cinemas[k].name && places[k] == cinemas[k].place
    {
      names := names + [cinemas[i].name];
      places := places + [cinemas[i].place];
      i := i + 1;
    }
  }

  // ---------------------------------------------------------------------------------------
  // All movies

  /** What one movie adds to `all_showtimes_lists`: its showtime lists, if it has any. */
  function MovieShowtimeEntry(m: MovieBlock): seq<seq<seq<string>>>
  {
    var s := MovieShowtimes(m.segments);
    if s == [] then [] else [s]
  }

  /** What one movie adds to `all_languages_lists`: its language lists, if it has any. */
  function MovieLanguageEntry(m: MovieBlock): seq<seq<seq<string>>>
  {
    var s := MovieLanguages(m.segments);
    if s == [] then [] else [s]
  }

  function Title(m: MovieBlock): string { m.title }

  function Genre(m: MovieBlock): string { m.genre }

  /** The `cinema_names` list of one movie. */
  function CinemaNames(m: MovieBlock): seq<string>
  {
    Map(m.cinemas, (h: CinemaHeading) => h.name)
  }

  /** The `places` list of one movie. */
  function CinemaPlaces(m: MovieBlock): seq<string>
  {
    Map(m.cinemas, (h: CinemaHeading) => h.place)
  }

  function MovieAgeLimit(m: MovieBlock): Result<string, ScrapeError>
  {
    AgeLimit(m.links)
  }

  /** The columns the loop builds, or the failure of the first movie whose age links are
      missing: column by column, one entry per movie in the first five, one entry per movie
      with showtimes (languages) in the last two. */
  function ExtractedColumns(movies: seq<MovieBlock>): (r: Result<Columns, ScrapeError>)
    ensures r.Ok? <==> forall i :: 0 <= i < |movies| ==> AgeLimit(movies[i].links).Ok?
    ensures r.Err? ==> r.error == MissingAgeLink
  {
    match MapResult(movies, MovieAgeLimit)
    case Err(e) => Err(e)
    case Ok(ageLimits) =>
      Ok(Columns(
        Map(movies, Title), Map(movies, Genre), Map(movies, CinemaNames), Map(movies, CinemaPlaces),
        ageLimits,
        ConcatMap(movies, MovieShowtimeEntry), ConcatMap(movies, MovieLanguageEntry)))
  }

  /** The loop over the movie blocks (the outer loop of `format_cineman_content`). */
  method AccumulateColumns(movies: seq<MovieBlock>) returns (r: Result<Columns, ScrapeError>)
    ensures r == ExtractedColumns(movies)
  {
    var moviesList, genresList, cinemasList, placesList, ageLimits := [], [], [], [], [];
    var allShowtimesLists, allLanguagesLists := [], [];
    var i := 0;
    while i < |movies|
      invariant 0 <= i <= |movies|
      invariant MapResult(movies[..i], MovieAgeLimit) == Ok(ageLimits)
      invariant moviesList == Map(movies[..i], Title) && genresList == Map(movies[..i], Genre)
      invariant cinemasList == Map(movies[..i], CinemaNames) && placesList == Map(movies[..i], CinemaPlaces)
      invariant allShowtimesLists == ConcatMap(movies[..i], MovieShowtimeEntry)
      invariant allLanguagesLists == ConcatMap(movies[..i], MovieLanguageEntry)
    {
      var movie := movies[i];
      assert DropLast(movies[..i + 1]) == movies[..i];
      assert Last(movies[..i + 1]) == movie;
      moviesList := moviesList + [movie.title];
      genresList := genresList + [movie.genre];
      var cinemaNames, places := CinemaColumns(movie.cinemas);
      assert cinemaNames == CinemaNames(movie) && places == CinemaPlaces(movie);
      cinemasList := cinemasList + [cinemaNames];
      placesList := placesList + [places];
      var ageLimit := AgeLimit(movie.links);
      if ageLimit.Err? {
        assert MapResult(movies[..i + 1], MovieAgeLimit).Err?;
        MapResultPrefixErr(movies, i + 1, MovieAgeLimit);
        return Err(ageLimit.error);
      }
      ageLimits := ageLimits + [ageLimit.value];
      var showtimesList, languagesList := ClassifySegments(movie.segments);
      if showtimesList != [] {
        allShowtimesLists := allShowtimesLists + [showtimesList];
      }
      if languagesList != [] {
        allLanguagesLists := allLanguagesLists + [languagesList];
      }
      i := i + 1;
    }
    assert movies[..i] == movies;
    r := Ok(Columns(moviesList, genresList, cinemasList, placesList, ageLimits, allShowtimesLists, allLanguagesLists));
  }

  // ---------------------------------------------------------------------------------------
  // Properties of the columns

  /** The whole run fails exactly when some movie lacks the links the age rule indexes. */
  lemma ExtractionFailsIffAgeLinkMissing(movies: seq<MovieBlock>)
    ensures ExtractedColumns(movies).Err? <==> exists i :: 0 <= i < |movies| && AgeLinkText(movies[i].links).None?
    ensures ExtractedColumns(movies).Err? ==> ExtractedColumns(movies).error == MissingAgeLink
  {
    if ExtractedColumns(movies).Err? {
      var i :| 0 <= i < |movies| && MovieAgeLimit(movies[i]).Err?;
    }
  }

  /** The five per-movie columns have one entry per movie; the showtime and language
      columns have at most one. */
  lemma ColumnCounts(movies: seq<MovieBlock>)
    requires ExtractedColumns(movies).Ok?
    ensures var c := ExtractedColumns(movies).value;
      && |c.movies| == |movies| && |c.genres| == |movies| && |c.cinemas| == |movies|
      && |c.places| == |movies| && |c.ageLimits| == |movies|
      && |c.showtimes| <= |movies| && |c.languages| <= |movies|
    ensures var c := ExtractedColumns(movies).value;
      forall i :: 0 <= i < |movies| ==>
        && c.movies[i] == movies[i].title && c.genres[i] == movies[i].genre
        && AgeLimit(movies[i].links).Ok? && c.ageLimits[i] == AgeLimit(movies[i].links).value
        && |c.cinemas[i]| == |movies[i].cinemas| == |c.places[i]|
        && forall j :: 0 <= j < |movies[i].cinemas| ==>
             c.cinemas[i][j] == movies[i].cinemas[j].name && c.places[i][j] == movies[i].cinemas[j].place
  {
    ConcatMapFilterLength(movies, MovieShowtimeEntry);
    ConcatMapFilterLength(movies, MovieLanguageEntry);
  }

  /** Every entry of the showtime column is a non-empty list of non-empty lists of times. */
  lemma ShowtimeColumnContents(movies: seq<MovieBlock>)
    requires ExtractedColumns(movies).Ok?
    ensures var s := ExtractedColumns(movies).value.showtimes;
      forall i :: 0 <= i < |s| ==> s[i] != [] && TimeLists(s[i])
  {
    forall i, k | 0 <= i < |movies| && 0 <= k < |MovieShowtimeEntry(movies[i])|
      ensures MovieShowtimeEntry(movies[i])[k] != [] && TimeLists(MovieShowtimeEntry(movies[i])[k])
    {
      MovieListContents(movies[i].segments);
    }
    ConcatMapAll(movies, MovieShowtimeEntry, (s: seq<seq<string>>) => s != [] && TimeLists(s));
  }

  /** Every entry of the language column is a non-empty list of non-empty lists. */
  lemma LanguageColumnContents(movies: seq<MovieBlock>)
    requires ExtractedColumns(movies).Ok?
    ensures var s := ExtractedColumns(movies).value.languages;
      forall i :: 0 <= i < |s| ==> s[i] != [] && NonEmptyLists(s[i])
  {
    forall i, k | 0 <= i < |movies| && 0 <= k < |MovieLanguageEntry(movies[i])|
      ensures MovieLanguageEntry(movies[i])[k] != [] && NonEmptyLists(MovieLanguageEntry(movies[i])[k])
    {
      MovieListContents(movies[i].segments);
    }
    ConcatMapAll(movies, MovieLanguageEntry, (s: seq<seq<string>>) => s != [] && NonEmptyLists(s));
  }

  /** The showtime column keeps one entry per movie, the movie's own showtime lists,
      exactly when every movie has a showtime; a single movie without one shortens the
      column and shifts every later movie's showtimes to an earlier row. */
  lemma ShowtimeColumnAligned(movies: seq<MovieBlock>)
    requires ExtractedColumns(movies).Ok?
    ensures |ExtractedColumns(movies).value.showtimes| == |movies|
        <==> forall i :: 0 <= i < |movies| ==> MovieShowtimes(movies[i].segments) != []
    ensures (forall i :: 0 <= i < |movies| ==> MovieShowtimes(movies[i].segments) != [])
        ==> forall i :: 0 <= i < |movies| ==> ExtractedColumns(movies).value.showtimes[i] == MovieShowtimes(movies[i].segments)
  {
    ConcatMapFilterLength(movies, MovieShowtimeEntry);
    if forall i :: 0 <= i < |movies| ==> MovieShowtimes(movies[i].segments) != [] {
      forall i | 0 <= i < |movies|
        ensures ExtractedColumns(movies).value.showtimes[i] == MovieShowtimes(movies[i].segments)
      {
        ConcatMapFullFilter(movies, MovieShowtimeEntry, i);
      }
    }
  }

  /** The same for the language column. */
  lemma LanguageColumnAligned(movies: seq<MovieBlock>)
    requires ExtractedColumns(movies).Ok?
    ensures |ExtractedColumns(movies).value.languages| == |movies|
        <==> forall i :: 0 <= i < |movies| ==> MovieLanguages(movies[i].segments) != []
    ensures (forall i :: 0 <= i < |movies| ==> MovieLanguages(movies[i].segments) != [])
        ==> forall i :: 0 <= i < |movies| ==> ExtractedColumns(movies).value.languages[i] == MovieLanguages(movies[i].segments)
  {
    ConcatMapFilterLength(movies, MovieLanguageEntry);
    if forall i :: 0 <= i < |movies| ==> MovieLanguages(movies[i].segments) != [] {
      forall i | 0 <= i < |movies|
        ensures ExtractedColumns(movies).value.languages[i] == MovieLanguages(movies[i].segments)
      {
        ConcatMapFullFilter(movies, MovieLanguageEntry, i);
      }
    }
  }
}
