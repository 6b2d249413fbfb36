/** Option and Result types shared by the luck engine, and the ways a computation can fail. */
module Outcomes {

  datatype Option<+T> = None | Some(value: T)

  /** The failures the engine can run into on well-typed input. */
  datatype Error =
    | NoOpponent(rosterId: int)  // no other entry of the week shares this performance's matchup
    | EmptyWeek                  // a week with no performances at all
    | NoWeeks                    // the season window holds no week to stack
    | RaggedWeeks                // two weeks of the window have different numbers of rows
    | NoRosterMeta               // no member owns any roster: the roster map has no roster_id column

  datatype Result<+T> = Ok(value: T) | Err(error: Error)
}
