/** The data the monitor reads from the release feed. */
module Release {

  datatype Option<+T> = None | Some(value: T)

  /** The fields of one entry of the feed that the monitor uses: `tag_name`,
      `name`, `html_url`, `body` and the `name` of each entry of `assets`, in
      feed order (a missing or empty `assets` list is the empty sequence). */
  datatype ReleaseRecord = ReleaseRecord(
    tagName: string,
    name: string,
    htmlUrl: string,
    body: string,
    assets: seq<string>)

  /** Outcome of the GET request on the feed: the decoded release, or the text
      of the `RequestException` (connection error, HTTP error status raised by
      `raise_for_status`, and undecodable JSON from requests 2.27 on, where its
      decode error is a `RequestException`). */
  datatype FetchResult = Fetched(release: ReleaseRecord) | FetchFailed(error: string)
}
