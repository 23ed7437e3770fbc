/**
 * The ways one run of the collector can stop early. Every one of them ends the
 * whole run; they differ only in how the process exits (see Query.ExitCode).
 */
module Errors {

  /** What can go wrong while one page is retrieved and decoded. */
  datatype FetchError =
    | Transport      // the HTTP request or the reading of its body failed (`?` in src/main.rs:183)
    | MalformedBody  // the body is not JSON (`unwrap` in src/main.rs:184)
    | ShapeMismatch  // `data` is not a list of pull-request objects (`unwrap` in src/main.rs:187)

  datatype Failure =
    | AuthorInventoryConflict  // both or neither of --author and --inventory (src/main.rs:145-146)
    | InventoryUnreadable      // the inventory file cannot be opened (src/main.rs:122)
    | AuthorMissing            // neither source of authors exists (src/main.rs:160)
    | DurationOverflow         // `checked_sub_days` yields none: overflow or no such local time (src/main.rs:172)
    | NoAuthor                 // url_splice finds no author (src/main.rs:59)
    | NoState                  // url_splice finds no state (src/main.rs:68)
    | Fetch(error: FetchError)
}
