/** The scraper's one exception type, `RedditScraperError`, with one
    constructor per message it is raised with. */
module Errors {

  datatype ScraperError =
    | EmptyUrl          // "A non-empty Reddit URL is required"
    | NotReddit         // "URL does not belong to reddit"
    | InvalidShortlink  // "Shortlink missing a valid post ID"
    | InvalidPostId     // "URL contains an invalid post ID"
    | UnsupportedUrl    // "URL does not match a supported Reddit pattern"
    | NotAPost          // "Provided URL does not point to a Reddit post"
    | PostNotFound      // "Could not find post element in HTML"
}
