/** The post record that the search produces and the tick consumes. */
module Posts {

  /** One candidate post: the object built by the page extractor
      (services/redditMonitor.js:388-397) or by the JSON mapping (:176-185).
      `created` is in Unix seconds. */
  datatype Post = Post(
    id: string,
    title: string,
    url: string,
    subreddit: string,
    author: string,
    score: string,
    numComments: string,
    created: int)
}
