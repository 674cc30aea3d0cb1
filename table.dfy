/** The end of `format_cineman_content`: the seven columns and the scrape date become a
    DataFrame with one row per movie; the row is exploded across its cinemas and then
    across each cinema's showtime/language pairs; each resulting row gets its timestamp
    (`dt_showtime`) and its `cinema_place` key.

    pandas semantics the model follows:
    - `pd.DataFrame(dict)` fails unless every list column has the same length; the date,
      a scalar, is repeated on every row.
    - `explode(columns)` counts a non-empty list by its length and anything else (an empty
      list, a missing value) as one; it fails unless the listed cells of a row have the
      same count, and puts a missing value (`NaN`, here `None`) where a list is empty.
    - A missing showtime gives a missing timestamp; a present one that does not fit
      `%Y-%m-%d %H:%M` makes `pd.to_datetime` fail.
    - A missing cinema or place is written "nan" by the f-string. */
module Table {
  import opened Wrappers
  import opened Text
  import opened Seqs
  import opened TimeFormat
  import opened Timestamps
  import opened Tokens
  import opened Extraction

  /** A row of `pd.DataFrame(all_info_dict)`: one movie. */
  datatype FrameRow = FrameRow(
    movie: string, genre: string, ageLimit: string,
    language: seq<seq<string>>, showtime: seq<seq<string>>,
    date: string, cinema: seq<string>, place: seq<string>)

  /** A row after the first explode: one cinema of one movie. */
  datatype CinemaRow = CinemaRow(
    movie: string, genre: string, ageLimit: string,
    language: Option<seq<string>>, showtime: Option<seq<string>>,
    date: string, cinema: Option<string>, place: Option<string>)

  /** A row after the second explode: one showing. */
  datatype ShowingRow = ShowingRow(
    movie: string, genre: string, ageLimit: string,
    language: Option<string>, showtime: Option<string>,
    date: string, cinema: Option<string>, place: Option<string>)

  /** A row of the returned table. */
  datatype ProgramRow = ProgramRow(
    movie: string, genre: string, ageLimit: string,
    language: Option<string>, showtime: Option<string>,
    date: string, cinema: Option<string>, place: Option<string>,
    dtShowtime: Option<Timestamp>, cinemaPlace: string)

  // ---------------------------------------------------------------------------------------
  // Building the frame

  predicate SameLengths(c: Columns)
  {
    var n := |c.movies|;
    |c.genres| == n && |c.ageLimits| == n && |c.languages| == n && |c.showtimes| == n
    && |c.cinemas| == n && |c.places| == n
  }

  /** `pd.DataFrame(all_info_dict)`. */
  function BuildFrame(c: Columns, date: string): (r: Result<seq<FrameRow>, ScrapeError>)
    ensures r.Ok? <==> SameLengths(c)
    ensures r.Err? ==> r.error == ColumnLengthMismatch
    ensures r.Ok? ==> |r.value| == |c.movies| && forall i :: 0 <= i < |c.movies| ==>
      r.value[i] == FrameRow(c.movies[i], c.genres[i], c.ageLimits[i], c.languages[i], c.showtimes[i],
                             date, c.cinemas[i], c.places[i])
  {
    if SameLengths(c) then
      Ok(seq(|c.movies|, i requires 0 <= i < |c.movies| =>
        FrameRow(c.movies[i], c.genres[i], c.ageLimits[i], c.languages[i], c.showtimes[i],
                 date, c.cinemas[i], c.places[i])))
    else Err(ColumnLengthMismatch)
  }

  // ---------------------------------------------------------------------------------------
  // The two explodes

  /** How many rows `explode` makes of a list cell. */
  function ExplodeCount<T>(xs: seq<T>): (n: nat)
    ensures n >= 1 && (xs != [] ==> n == |xs|)
    ensures xs == [] ==> n == 1
  {
    if xs == [] then 1 else |xs|
  }

  /** Element `j` of a list cell, missing past its end. */
  function ElementAt<T>(xs: seq<T>, j: nat): (x: Option<T>)
    ensures j < |xs| ==> x == Some(xs[j])
    ensures j >= |xs| ==> x == None
  {
    if j < |xs| then Some(xs[j]) else None
  }

  /** How many rows `explode` makes of a cell that may be missing. */
  function CellCount<T>(cell: Option<seq<T>>): (n: nat)
    ensures n >= 1
  {
    match cell
    case None => 1
    case Some(xs) => ExplodeCount(xs)
  }

  /** Element `j` of a cell that may be missing. */
  function CellAt<T>(cell: Option<seq<T>>, j: nat): (x: Option<T>)
    ensures cell.Some? && j < |cell.value| ==> x == Some(cell.value[j])
    ensures cell.None? || j >= |cell.value| ==> x == None
  {
    match cell
    case None => None
    case Some(xs) => ElementAt(xs, j)
  }

  /** `explode(["cinema", "showtime", "place", "language"])` on one movie row. */
  function ExplodeCinemas(r: FrameRow): (e: Result<seq<CinemaRow>, ScrapeError>)
    ensures e.Ok? <==> (ExplodeCount(r.showtime) == ExplodeCount(r.cinema)
      && ExplodeCount(r.place) == ExplodeCount(r.cinema) && ExplodeCount(r.language) == ExplodeCount(r.cinema))
    ensures e.Err? ==> e.error == ElementCountMismatch
    ensures e.Ok? ==> |e.value| == ExplodeCount(r.cinema) && forall j :: 0 <= j < |e.value| ==>
      && e.value[j].movie == r.movie && e.value[j].genre == r.genre && e.value[j].ageLimit == r.ageLimit
      && e.value[j].date == r.date
      && e.value[j].cinema == ElementAt(r.cinema, j) && e.value[j].place == ElementAt(r.place, j)
      && e.value[j].showtime == ElementAt(r.showtime, j) && e.value[j].language == ElementAt(r.language, j)
  {
    var n := ExplodeCount(r.cinema);
    if ExplodeCount(r.showtime) != n || ExplodeCount(r.place) != n || ExplodeCount(r.language) != n then
      Err(ElementCountMismatch)
    else
      Ok(seq(n, j requires 0 <= j < n =>
        CinemaRow(r.movie, r.genre, r.ageLimit, ElementAt(r.language, j), ElementAt(r.showtime, j),
                  r.date, ElementAt(r.cinema, j), ElementAt(r.place, j))))
  }

  /** `explode(["showtime", "language"])` on one cinema row. */
  function ExplodeShowings(r: CinemaRow): (e: Result<seq<ShowingRow>, ScrapeError>)
    ensures e.Ok? <==> CellCount(r.language) == CellCount(r.showtime)
    ensures e.Err? ==> e.error == ElementCountMismatch
    ensures e.Ok? ==> |e.value| == CellCount(r.showtime) && forall j :: 0 <= j < |e.value| ==>
      && e.value[j].movie == r.movie && e.value[j].genre == r.genre && e.value[j].ageLimit == r.ageLimit
      && e.value[j].date == r.date && e.value[j].cinema == r.cinema && e.value[j].place == r.place
      && e.value[j].showtime == CellAt(r.showtime, j) && e.value[j].language == CellAt(r.language, j)
  {
    var n := CellCount(r.showtime);
    if CellCount(r.language) != n then Err(ElementCountMismatch)
    else
      Ok(seq(n, j requires 0 <= j < n =>
        ShowingRow(r.movie, r.genre, r.ageLimit, CellAt(r.language, j), CellAt(r.showtime, j),
                   r.date, r.cinema, r.place)))
  }

  /** Both explodes, row order kept (`reset_index` only renumbers the rows). */
  function ExpandFrame(rows: seq<FrameRow>): (e: Result<seq<ShowingRow>, ScrapeError>)
    ensures e.Ok? ==> forall i :: 0 <= i < |rows| ==> ExplodeCinemas(rows[i]).Ok?
    ensures e.Err? ==> e.error == ElementCountMismatch
  {
    match FlatMapResult(rows, ExplodeCinemas)
    case Err(e) => Err(e)
    case Ok(cinemaRows) => FlatMapResult(cinemaRows, ExplodeShowings)
  }

  // ---------------------------------------------------------------------------------------
  // The derived columns

  /** How the f-string writes a cell: a missing value prints as "nan". */
  function CellText(cell: Option<string>): (t: string)
    ensures cell.None? ==> t == "nan"
    ensures cell.Some? ==> t == cell.value
  {
    match cell
    case None => "nan"
    case Some(s) => s
  }

  /** `pd.to_datetime(date + " " + showtime, format='%Y-%m-%d %H:%M')` for one row. */
  function ShowtimeStamp(date: string, showtime: Option<string>): (r: Result<Option<Timestamp>, ScrapeError>)
    ensures r.Err? ==> r.error == UnparsableTimestamp
    ensures r.Ok? && r.value.Some? ==> showtime.Some? && ParseDtShowtime(DtShowtimeText(date, showtime.value)) == r.value
    ensures showtime.None? ==> r == Ok(None)
    ensures showtime.Some? ==> (r.Ok? <==> ParseDtShowtime(DtShowtimeText(date, showtime.value)).Some?)
    ensures showtime.Some? && r.Ok? ==> r.value.Some?
  {
    match showtime
    case None => Ok(None)
    case Some(s) =>
      match ParseDtShowtime(DtShowtimeText(date, s))
      case None => Err(UnparsableTimestamp)
      case Some(t) => Ok(Some(t))
  }

  /** The derived columns of one row: the parsed `dt_showtime` and the `cinema_place` key. */
  function DeriveColumns(r: ShowingRow): (p: Result<ProgramRow, ScrapeError>)
    ensures p.Ok? <==> ShowtimeStamp(r.date, r.showtime).Ok?
    ensures p.Ok? ==> p.value.cinemaPlace == CellText(r.cinema) + " " + CellText(r.place)
    ensures p.Ok? ==> p.value == ProgramRow(r.movie, r.genre, r.ageLimit, r.language, r.showtime, r.date,
                                            r.cinema, r.place, p.value.dtShowtime, p.value.cinemaPlace)
    ensures p.Ok? ==> p.value.dtShowtime == ShowtimeStamp(r.date, r.showtime).value
  {
    match ShowtimeStamp(r.date, r.showtime)
    case Err(e) => Err(e)
    case Ok(dt) =>
      Ok(ProgramRow(r.movie, r.genre, r.ageLimit, r.language, r.showtime, r.date, r.cinema, r.place,
                    dt, CellText(r.cinema) + " " + CellText(r.place)))
  }

  /** The frame, both explodes and the derived columns. */
  function ProgramTable(c: Columns, date: string): (r: Result<seq<ProgramRow>, ScrapeError>)
    ensures r.Ok? ==> SameLengths(c)
    ensures r.Err? ==> r.error == ColumnLengthMismatch || r.error == ElementCountMismatch || r.error == UnparsableTimestamp
    ensures !SameLengths(c) ==> r == Err(ColumnLengthMismatch)
  {
    match BuildFrame(c, date)
    case Err(e) => Err(e)
    case Ok(frame) =>
      match ExpandFrame(frame)
      case Err(e) => Err(e)
      case Ok(rows) => MapResult(rows, DeriveColumns)
  }

  /** `format_cineman_content` on the page's movie blocks, scraped on `today`. */
  function CinemanProgram(movies: seq<MovieBlock>, today: Date): (r: Result<seq<ProgramRow>, ScrapeError>)
    requires ValidDate(today)
    ensures ExtractedColumns(movies).Err? ==> r == Err(MissingAgeLink)
    ensures r == Err(MissingAgeLink) <==> ExtractedColumns(movies).Err?
    ensures r.Err? ==> (r.error == MissingAgeLink || r.error == ColumnLengthMismatch
      || r.error == ElementCountMismatch || r.error == UnparsableTimestamp)
  {
    match ExtractedColumns(movies)
    case Err(e) => Err(e)
    case Ok(c) => ProgramTable(c, IsoDate(today))
  }

  // ---------------------------------------------------------------------------------------
  // Aligned columns: one row per showing

  /** The shape under which both explodes succeed: the columns have one entry per movie,
      each movie has as many places, showtime lists and language lists as cinemas, and each
      cinema as many languages as showtimes. The extracted lists are never empty. */
  predicate Aligned(c: Columns)
  {
    SameLengths(c)
    && forall i :: 0 <= i < |c.movies| ==>
      && c.showtimes[i] != []
      && |c.cinemas[i]| == |c.showtimes[i]| && |c.places[i]| == |c.showtimes[i]| && |c.languages[i]| == |c.showtimes[i]|
      && forall j :: 0 <= j < |c.showtimes[i]| ==> c.showtimes[i][j] != [] && |c.languages[i][j]| == |c.showtimes[i][j]|
  }

  /** The row of showing `l` of cinema `j` of movie `i`: that movie's title, genre and age
      limit, that cinema's name and place, and its `l`-th showtime and language. */
  function Showing(c: Columns, date: string, i: nat, j: nat, l: nat): ShowingRow
    requires Aligned(c) && i < |c.movies| && j < |c.showtimes[i]| && l < |c.showtimes[i][j]|
  {
    ShowingRow(c.movies[i], c.genres[i], c.ageLimits[i], Some(c.languages[i][j][l]), Some(c.showtimes[i][j][l]),
               date, Some(c.cinemas[i][j]), Some(c.places[i][j]))
  }

  function CinemaShowings(c: Columns, date: string, i: nat, j: nat): seq<ShowingRow>
    requires Aligned(c) && i < |c.movies| && j < |c.showtimes[i]|
  {
    seq(|c.showtimes[i][j]|, l requires 0 <= l < |c.showtimes[i][j]| => Showing(c, date, i, j, l))
  }

  function MovieShowingBlocks(c: Columns, date: string, i: nat): seq<seq<ShowingRow>>
    requires Aligned(c) && i < |c.movies|
  {
    seq(|c.showtimes[i]|, j requires 0 <= j < |c.showtimes[i]| => CinemaShowings(c, date, i, j))
  }

  function ShowingBlocks(c: Columns, date: string): seq<seq<ShowingRow>>
    requires Aligned(c)
  {
    seq(|c.movies|, i requires 0 <= i < |c.movies| => Flatten(MovieShowingBlocks(c, date, i)))
  }

  /** The showings of aligned columns, movie by movie, cinema by cinema, showtime by
      showtime. */
  function AlignedShowings(c: Columns, date: string): seq<ShowingRow>
    requires Aligned(c)
  {
    Flatten(ShowingBlocks(c, date))
  }

  /** The rows the first explode makes of movie `i` of aligned columns. */
  function CinemaRowsOf(c: Columns, date: string, i: nat): seq<CinemaRow>
    requires Aligned(c) && i < |c.movies|
  {
    seq(|c.showtimes[i]|, j requires 0 <= j < |c.showtimes[i]| =>
      CinemaRow(c.movies[i], c.genres[i], c.ageLimits[i], Some(c.languages[i][j]), Some(c.showtimes[i][j]),
                date, Some(c.cinemas[i][j]), Some(c.places[i][j])))
  }

  lemma ExplodeCinemasAligned(c: Columns, date: string, i: nat)
    requires Aligned(c) && i < |c.movies|
    ensures BuildFrame(c, date).Ok?
    ensures ExplodeCinemas(BuildFrame(c, date).value[i]) == Ok(CinemaRowsOf(c, date, i))
  {
    var r := BuildFrame(c, date).value[i];
    var n := |c.showtimes[i]|;
    assert ExplodeCount(r.cinema) == n && ExplodeCount(r.showtime) == n;
    assert ExplodeCount(r.place) == n && ExplodeCount(r.language) == n;
    var got := ExplodeCinemas(r).value;
    var want := CinemaRowsOf(c, date, i);
    forall j | 0 <= j < n ensures got[j] == want[j] {
      assert ElementAt(r.language, j) == Some(c.languages[i][j]);
      assert ElementAt(r.showtime, j) == Some(c.showtimes[i][j]);
      assert ElementAt(r.cinema, j) == Some(c.cinemas[i][j]);
      assert ElementAt(r.place, j) == Some(c.places[i][j]);
    }
    assert got == want;
  }

  lemma ExplodeShowingsAligned(c: Columns, date: string, i: nat, j: nat)
    requires Aligned(c) && i < |c.movies| && j < |c.showtimes[i]|
    ensures ExplodeShowings(CinemaRowsOf(c, date, i)[j]) == Ok(CinemaShowings(c, date, i, j))
  {
    var r := CinemaRowsOf(c, date, i)[j];
    var n := |c.showtimes[i][j]|;
    assert CellCount(r.showtime) == n && CellCount(r.language) == n;
    var got := ExplodeShowings(r).value;
    var want := CinemaShowings(c, date, i, j);
    forall l | 0 <= l < n ensures got[l] == want[l] {
      assert CellAt(r.language, l) == Some(c.languages[i][j][l]);
      assert CellAt(r.showtime, l) == Some(c.showtimes[i][j][l]);
    }
    assert got == want;
  }

  lemma ExplodeMovieAligned(c: Columns, date: string, i: nat)
    requires Aligned(c) && i < |c.movies|
    ensures FlatMapResult(CinemaRowsOf(c, date, i), ExplodeShowings) == Ok(Flatten(MovieShowingBlocks(c, date, i)))
  {
    var rows := CinemaRowsOf(c, date, i);
    forall j | 0 <= j < |rows| ensures ExplodeShowings(rows[j]) == Ok(CinemaShowings(c, date, i, j)) {
      ExplodeShowingsAligned(c, date, i, j);
    }
    FlatMapResultOk(rows, ExplodeShowings, MovieShowingBlocks(c, date, i));
  }

  /** On aligned columns both explodes succeed and give exactly the showings, in order. */
  lemma ExpandAligned(c: Columns, date: string)
    requires Aligned(c)
    ensures BuildFrame(c, date).Ok?
    ensures ExpandFrame(BuildFrame(c, date).value) == Ok(AlignedShowings(c, date))
  {
    var frame := BuildFrame(c, date).value;
    forall i | 0 <= i < |frame|
      ensures ExplodeCinemas(frame[i]) == Ok(CinemaRowsOf(c, date, i))
      ensures FlatMapResult(CinemaRowsOf(c, date, i), ExplodeShowings) == Ok(Flatten(MovieShowingBlocks(c, date, i)))
    {
      ExplodeCinemasAligned(c, date, i);
      ExplodeMovieAligned(c, date, i);
    }
    FlatMapResultCompose(frame, ExplodeCinemas, ExplodeShowings, ShowingBlocks(c, date));
  }

  /** Every showtime of every cinema of every movie, in order. */
  function AllShowtimes(c: Columns): seq<string>
  {
    Flatten(Map(c.showtimes, (ls: seq<seq<string>>) => Flatten(ls)))
  }

  /** Aligned columns give one showing per showtime. */
  lemma AlignedShowingsCount(c: Columns, date: string)
    requires Aligned(c)
    ensures |AlignedShowings(c, date)| == |AllShowtimes(c)|
  {
    var blocks := ShowingBlocks(c, date);
    var lists := Map(c.showtimes, (ls: seq<seq<string>>) => Flatten(ls));
    forall i | 0 <= i < |c.movies| ensures |blocks[i]| == |lists[i]| {
      SumLengthsEqual(MovieShowingBlocks(c, date, i), c.showtimes[i]);
    }
    SumLengthsEqual(blocks, lists);
  }

  /** Showing `l` of cinema `j` of movie `i` is the row that follows all showings of the
      earlier movies and of the movie's earlier cinemas. */
  lemma AlignedShowingAt(c: Columns, date: string, i: nat, j: nat, l: nat)
    requires Aligned(c) && i < |c.movies| && j < |c.showtimes[i]| && l < |c.showtimes[i][j]|
    ensures var k := SumLengths(ShowingBlocks(c, date)[..i]) + SumLengths(MovieShowingBlocks(c, date, i)[..j]) + l;
      k < |AlignedShowings(c, date)| && AlignedShowings(c, date)[k] == Showing(c, date, i, j, l)
  {
    FlattenIndex(MovieShowingBlocks(c, date, i), j, l);
    FlattenIndex(ShowingBlocks(c, date), i, SumLengths(MovieShowingBlocks(c, date, i)[..j]) + l);
  }

  // ---------------------------------------------------------------------------------------
  // The derived columns of one row

  /** For the scrape date and a showtime that does not begin with whitespace, the row's
      timestamp parses exactly when the showtime is a time, and is that time on that day;
      a missing showtime gives a missing timestamp. */
  lemma DeriveShowtime(r: ShowingRow, d: Date)
    requires ValidDate(d) && r.date == IsoDate(d)
    requires r.showtime.Some? ==> r.showtime.value == [] || !IsPythonSpace(r.showtime.value[0])
    ensures DeriveColumns(r).Ok? <==> r.showtime.None? || IsTimeFormat(r.showtime.value)
    ensures r.showtime.None? ==> DeriveColumns(r).value.dtShowtime == None
    ensures r.showtime.Some? && IsTimeFormat(r.showtime.value) ==>
      DeriveColumns(r).value.dtShowtime == Some(Timestamp(d, ClockHour(r.showtime.value), ClockMinute(r.showtime.value)))
  {
    if r.showtime.Some? {
      DtShowtimeRoundTrip(d, r.showtime.value);
    }
  }

  lemma CinemaPlaceExample()
    ensures DeriveColumns(ShowingRow("Dune", "Sci-Fi", "Y.12", Some("E/d/f"), None, "2024-03-01",
                                     Some("Arena"), Some("Z\U{FC}rich"))).value.cinemaPlace == "Arena Z\U{FC}rich"
    ensures DeriveColumns(ShowingRow("Dune", "Sci-Fi", "Y.12", None, None, "2024-03-01",
                                     None, None)).value.cinemaPlace == "nan nan"
  {
  }

  // ---------------------------------------------------------------------------------------
  // The whole table

  /** What every showing of aligned columns of times carries: the scrape date, a time,
      a cinema and a place. */
  predicate CompleteShowing(date: string, r: ShowingRow)
  {
    r.date == date && r.showtime.Some? && IsTimeFormat(r.showtime.value) && r.cinema.Some? && r.place.Some?
  }

  lemma MovieShowingsComplete(c: Columns, date: string, i: nat)
    requires Aligned(c) && i < |c.movies| && TimeLists(c.showtimes[i])
    ensures forall k :: 0 <= k < |Flatten(MovieShowingBlocks(c, date, i))| ==>
      CompleteShowing(date, Flatten(MovieShowingBlocks(c, date, i))[k])
  {
    var blocks := MovieShowingBlocks(c, date, i);
    forall j, l | 0 <= j < |blocks| && 0 <= l < |blocks[j]| ensures CompleteShowing(date, blocks[j][l]) {
      assert AllTimes(c.showtimes[i][j]);
      assert blocks[j][l] == Showing(c, date, i, j, l);
    }
    FlattenAll(blocks, r => CompleteShowing(date, r));
  }

  lemma AlignedShowingsComplete(c: Columns, date: string)
    requires Aligned(c) && forall i :: 0 <= i < |c.showtimes| ==> TimeLists(c.showtimes[i])
    ensures forall k :: 0 <= k < |AlignedShowings(c, date)| ==> CompleteShowing(date, AlignedShowings(c, date)[k])
  {
    var blocks := ShowingBlocks(c, date);
    forall i, k | 0 <= i < |blocks| && 0 <= k < |blocks[i]| ensures CompleteShowing(date, blocks[i][k]) {
      MovieShowingsComplete(c, date, i);
    }
    FlattenAll(blocks, r => CompleteShowing(date, r));
  }

  /** On aligned columns of times the table has one row per showtime, in order: row `k` is
      the `k`-th showing with its time of day on the scrape date and its cinema and place
      joined by a space. */
  lemma AlignedProgram(c: Columns, d: Date)
    requires ValidDate(d) && Aligned(c)
    requires forall i :: 0 <= i < |c.showtimes| ==> TimeLists(c.showtimes[i])
    ensures ProgramTable(c, IsoDate(d)).Ok?
    ensures |ProgramTable(c, IsoDate(d)).value| == |AllShowtimes(c)|
    ensures var rows, showings := ProgramTable(c, IsoDate(d)).value, AlignedShowings(c, IsoDate(d));
      |rows| == |showings| && forall k :: 0 <= k < |rows| ==>
        && CompleteShowing(IsoDate(d), showings[k]) && DeriveComplete(d, showings[k])
        && rows[k] == DeriveColumns(showings[k]).value
  {
    var date := IsoDate(d);
    ExpandAligned(c, date);
    AlignedShowingsCount(c, date);
    AlignedShowingsComplete(c, date);
    var showings := AlignedShowings(c, date);
    forall k | 0 <= k < |showings| ensures DeriveComplete(d, showings[k]) {
      DeriveCompleteShowing(d, showings[k]);
    }
    ProgramOfShowings(c, date, showings);
  }

  predicate DeriveComplete(d: Date, r: ShowingRow)
    requires ValidDate(d) && CompleteShowing(IsoDate(d), r)
  {
    var p := DeriveColumns(r);
    && p.Ok?
    && p.value.dtShowtime == Some(Timestamp(d, ClockHour(r.showtime.value), ClockMinute(r.showtime.value)))
    && p.value.cinemaPlace == r.cinema.value + " " + r.place.value
    && p.value.showtime == r.showtime && p.value.language == r.language && p.value.movie == r.movie
  }

  lemma DeriveCompleteShowing(d: Date, r: ShowingRow)
    requires ValidDate(d) && CompleteShowing(IsoDate(d), r)
    ensures DeriveComplete(d, r)
  {
    TimeFormatCharacters(r.showtime.value);
    DeriveShowtime(r, d);
  }

  lemma ProgramOfShowings(c: Columns, date: string, showings: seq<ShowingRow>)
    requires BuildFrame(c, date).Ok? && ExpandFrame(BuildFrame(c, date).value) == Ok(showings)
    ensures ProgramTable(c, date) == MapResult(showings, DeriveColumns)
  {
  }

  /** A movie without any showtime makes the showtime column shorter than the title
      column, and the frame cannot be built. */
  lemma MovieWithoutShowtimesAborts(movies: seq<MovieBlock>, today: Date, i: nat)
    requires ValidDate(today) && ExtractedColumns(movies).Ok?
    requires i < |movies| && MovieShowtimes(movies[i].segments) == []
    ensures CinemanProgram(movies, today) == Err(ColumnLengthMismatch)
  {
    ColumnCounts(movies);
    ShowtimeColumnAligned(movies);
  }

  /** A movie whose cinemas and showtime lists differ in number stops the first explode. */
  lemma CinemaCountMismatchAborts(c: Columns, date: string, i: nat)
    requires SameLengths(c) && i < |c.movies|
    requires ExplodeCount(c.cinemas[i]) != ExplodeCount(c.showtimes[i])
    ensures ProgramTable(c, date) == Err(ElementCountMismatch)
  {
    var frame := BuildFrame(c, date).value;
    FirstExplodeFails(frame, i);
  }

  /** One frame row whose lists differ in length stops the first explode. */
  lemma FirstExplodeFails(frame: seq<FrameRow>, k: nat)
    requires k < |frame| && ExplodeCinemas(frame[k]).Err?
    ensures FlatMapResult(frame, ExplodeCinemas) == Err(ElementCountMismatch)
  {
    var e := FlatMapResult(frame, ExplodeCinemas);
    var m :| 0 <= m < |frame| && ExplodeCinemas(frame[m]) == Err(e.error);
  }

  /** One cinema row whose showtimes and languages differ in number stops the second
      explode. */
  lemma SecondExplodeFails(rows: seq<CinemaRow>, k: nat)
    requires k < |rows| && ExplodeShowings(rows[k]).Err?
    ensures FlatMapResult(rows, ExplodeShowings) == Err(ElementCountMismatch)
  {
    var e := FlatMapResult(rows, ExplodeShowings);
    var m :| 0 <= m < |rows| && ExplodeShowings(rows[m]) == Err(e.error);
  }

  /** When every movie's four lists have one count the first explode succeeds. */
  lemma FirstExplodeSucceeds(c: Columns, date: string)
    requires SameLengths(c)
    requires forall m :: 0 <= m < |c.movies| ==>
      var n := ExplodeCount(c.cinemas[m]);
      ExplodeCount(c.showtimes[m]) == n && ExplodeCount(c.places[m]) == n && ExplodeCount(c.languages[m]) == n
    ensures forall m :: 0 <= m < |BuildFrame(c, date).value| ==> ExplodeCinemas(BuildFrame(c, date).value[m]).Ok?
  {
  }

  /** The first explode pairs the `j`-th showtime list with the `j`-th language list. */
  lemma ExplodedPair(r: FrameRow, j: nat)
    requires ExplodeCinemas(r).Ok? && j < |r.showtime| && j < |r.language|
    ensures j < |ExplodeCinemas(r).value|
    ensures ExplodeCinemas(r).value[j].showtime == Some(r.showtime[j])
    ensures ExplodeCinemas(r).value[j].language == Some(r.language[j])
  {
  }

  /** A cinema whose showtimes and languages differ in number stops the second explode. */
  lemma PairCountMismatchAborts(c: Columns, date: string, i: nat, j: nat)
    requires SameLengths(c)
    requires forall m :: 0 <= m < |c.movies| ==>
      var n := ExplodeCount(c.cinemas[m]);
      ExplodeCount(c.showtimes[m]) == n && ExplodeCount(c.places[m]) == n && ExplodeCount(c.languages[m]) == n
    requires i < |c.movies| && j < |c.showtimes[i]| && j < |c.languages[i]|
    requires ExplodeCount(c.showtimes[i][j]) != ExplodeCount(c.languages[i][j])
    ensures ProgramTable(c, date) == Err(ElementCountMismatch)
  {
    var frame := BuildFrame(c, date).value;
    FirstExplodeSucceeds(c, date);
    var blocks: seq<seq<CinemaRow>> := seq(|frame|, m requires 0 <= m < |frame| => ExplodeCinemas(frame[m]).value);
    FlatMapResultOk(frame, ExplodeCinemas, blocks);
    var cinemaRows := Flatten(blocks);
    ExplodedPair(frame[i], j);
    FlattenIndex(blocks, i, j);
    SecondExplodeFails(cinemaRows, SumLengths(blocks[..i]) + j);
  }

  // ---------------------------------------------------------------------------------------
  // No run fails on a timestamp

  predicate FrameRowOfTimes(date: string, r: FrameRow)
  {
    r.date == date && forall j :: 0 <= j < |r.showtime| ==> AllTimes(r.showtime[j])
  }

  predicate CinemaRowOfTimes(date: string, r: CinemaRow)
  {
    r.date == date && (r.showtime.Some? ==> AllTimes(r.showtime.value))
  }

  predicate ShowingOfTime(date: string, r: ShowingRow)
  {
    r.date == date && (r.showtime.Some? ==> IsTimeFormat(r.showtime.value))
  }

  /** The explodes only move showtimes around: if every showtime of the frame is a time,
      every showtime cell of the exploded rows is a time or missing. */
  lemma ExpandKeepsTimes(rows: seq<FrameRow>, date: string)
    requires forall i :: 0 <= i < |rows| ==> FrameRowOfTimes(date, rows[i])
    ensures ExpandFrame(rows).Ok? ==>
      forall k :: 0 <= k < |ExpandFrame(rows).value| ==> ShowingOfTime(date, ExpandFrame(rows).value[k])
  {
    forall x: FrameRow, k | FrameRowOfTimes(date, x) && ExplodeCinemas(x).Ok? && 0 <= k < |ExplodeCinemas(x).value|
      ensures CinemaRowOfTimes(date, ExplodeCinemas(x).value[k])
    {
    }
    FlatMapResultAll(rows, ExplodeCinemas, r => FrameRowOfTimes(date, r), r => CinemaRowOfTimes(date, r));
    if FlatMapResult(rows, ExplodeCinemas).Ok? {
      var cinemaRows := FlatMapResult(rows, ExplodeCinemas).value;
      forall x: CinemaRow, k | CinemaRowOfTimes(date, x) && ExplodeShowings(x).Ok? && 0 <= k < |ExplodeShowings(x).value|
        ensures ShowingOfTime(date, ExplodeShowings(x).value[k])
      {
      }
      FlatMapResultAll(cinemaRows, ExplodeShowings, r => CinemaRowOfTimes(date, r), r => ShowingOfTime(date, r));
    }
  }

  lemma DeriveOfTime(r: ShowingRow, d: Date)
    requires ValidDate(d) && ShowingOfTime(IsoDate(d), r)
    ensures DeriveColumns(r).Ok?
  {
    if r.showtime.Some? {
      TimeFormatCharacters(r.showtime.value);
    }
    DeriveShowtime(r, d);
  }

  /** Rows whose showtimes are times or missing all get their timestamps. */
  lemma DeriveOfTimes(rows: seq<ShowingRow>, d: Date)
    requires ValidDate(d) && forall k :: 0 <= k < |rows| ==> ShowingOfTime(IsoDate(d), rows[k])
    ensures MapResult(rows, DeriveColumns).Ok?
  {
    forall k | 0 <= k < |rows| ensures DeriveColumns(rows[k]).Ok? {
      DeriveOfTime(rows[k], d);
    }
  }

  /** Columns whose showtimes are all times never fail on a timestamp. */
  lemma TableOfTimes(c: Columns, d: Date)
    requires ValidDate(d) && forall i :: 0 <= i < |c.showtimes| ==> TimeLists(c.showtimes[i])
    ensures ProgramTable(c, IsoDate(d)) != Err(UnparsableTimestamp)
  {
    var date := IsoDate(d);
    if SameLengths(c) {
      var frame := BuildFrame(c, date).value;
      assert forall i :: 0 <= i < |frame| ==> FrameRowOfTimes(date, frame[i]);
      ExpandKeepsTimes(frame, date);
      if ExpandFrame(frame).Ok? {
        DeriveOfTimes(ExpandFrame(frame).value, d);
      }
    }
  }

  /** Every showtime the extraction keeps is a time, so the timestamp conversion never
      aborts a run: a run fails only on missing age links, column lengths or element
      counts. */
  lemma NoUnparsableTimestamp(movies: seq<MovieBlock>, today: Date)
    requires ValidDate(today)
    ensures CinemanProgram(movies, today) != Err(UnparsableTimestamp)
  {
    ExtractionFailsIffAgeLinkMissing(movies);
    if ExtractedColumns(movies).Ok? {
      ShowtimeColumnContents(movies);
      TableOfTimes(ExtractedColumns(movies).value, today);
    }
  }

  /** A movie block whose pieces line up: a usable age anchor, at least one showtime,
      one showtime list and one language list per cinema heading, and as many languages
      as showtimes in each pair of lists. */
  predicate AlignedBlock(m: MovieBlock)
  {
    var showtimes, languages := MovieShowtimes(m.segments), MovieLanguages(m.segments);
    && AgeLimit(m.links).Ok?
    && showtimes != [] && |m.cinemas| == |showtimes| && |languages| == |showtimes|
    && forall j :: 0 <= j < |showtimes| ==> |languages[j]| == |showtimes[j]|
  }

  /** Every showtime of a movie block, over its cinemas in order. */
  function BlockShowtimes(m: MovieBlock): seq<string>
  {
    Flatten(MovieShowtimes(m.segments))
  }

  /** The end-to-end case: a page of movie blocks that line up gives the whole table, one
      row per showtime of every cinema of every movie. */
  lemma AlignedBlocksProgram(movies: seq<MovieBlock>, today: Date)
    requires ValidDate(today) && forall i :: 0 <= i < |movies| ==> AlignedBlock(movies[i])
    ensures CinemanProgram(movies, today).Ok?
    ensures |CinemanProgram(movies, today).value| == |Flatten(Map(movies, BlockShowtimes))|
  {
    var c := ExtractedColumns(movies).value;
    ColumnCounts(movies);
    ShowtimeColumnAligned(movies);
    LanguageColumnAligned(movies);
    ShowtimeColumnContents(movies);
    forall i | 0 <= i < |movies|
      ensures forall j :: 0 <= j < |c.showtimes[i]| ==> c.showtimes[i][j] != []
    {
      assert TimeLists(c.showtimes[i]);
    }
    assert Aligned(c);
    AlignedProgram(c, today);
    var perMovie := Map(c.showtimes, (ls: seq<seq<string>>) => Flatten(ls));
    assert perMovie == Map(movies, BlockShowtimes);
  }

  /** `format_cineman_content`: the loop over the movie blocks, then the table. */
  method FormatCinemanContent(movies: seq<MovieBlock>, today: Date) returns (r: Result<seq<ProgramRow>, ScrapeError>)
    requires ValidDate(today)
    ensures r == CinemanProgram(movies, today)
    ensures r != Err(UnparsableTimestamp)
  {
    NoUnparsableTimestamp(movies, today);
    var columns := AccumulateColumns(movies);
    if columns.Err? {
      return Err(columns.error);
    }
    r := ProgramTable(columns.value, IsoDate(today));
  }
}
