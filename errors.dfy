/** An optional value. */
module Options {

  datatype Option<+T> = None | Some(value: T)
}

/** Failure values of the export script.  Every failure of the script is an
    uncaught Python exception that ends the run; the model returns it instead. */
module Errors {

  datatype Error =
    | DownloadFailed(url: string)      // sprite fetch answered with a status other than 200
    | SheetMissing(path: string)       // Image.open on a sprite file that is not in the cache
    | SheetUndecodable(path: string)   // Image.open on a file that is not a readable image
    | ZeroGrid                         // NumWidth or NumHeight is 0: division by zero
    | EmptyCell                        // the cell is 0 pixels wide or high: saving an empty image raises
    | EmptyIndexLiteral                // int('') after the deck id consumed all of CardID
    | EmptyCustomDeck                  // list(CustomDeck.items())[0] on an empty mapping
    | NoPlayerCardRoot                 // next(...) found no object named "All Player Cards"

  datatype Result<+T> = Ok(value: T) | Err(error: Error)
}
