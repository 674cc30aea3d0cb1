/** Failure-carrying values shared by every stage of the scraper model. */
module Wrappers {

  datatype Option<T> = None | Some(value: T)

  datatype Result<T, E> = Ok(value: T) | Err(error: E)

  /** The ways one run of the scraper aborts. The Python code raises an exception in
      each case and the run ends; the model returns the failure instead. */
  datatype ScrapeError =
    | MissingAgeLink            // IndexError on age_links[-1] or age_links[-2]
    | ColumnLengthMismatch      // pd.DataFrame: the column lists differ in length
    | ElementCountMismatch      // DataFrame.explode: the exploded cells differ in element count
    | UnparsableTimestamp       // pd.to_datetime: a dt_showtime text does not fit '%Y-%m-%d %H:%M'
    | NoGeocodingResult(query: string)  // my_result[0] on an empty result list
}
