/** The boundary with the network: what one request came back with, and a
    record of the requests sent. */
module Net {

  /** The outcome of one `requests.get(...)` together with the parsing of its
      body: an exception (connection error, timeout, parser failure), or a
      response with its status code and what the page parser found in it.
      The body is looked at only when the status is `OK`. */
  datatype Fetch<+B> = Raised | Response(status: int, body: B)

  /** The HTTP status the scraper treats as success. */
  const OK := 200

  /** One request the scraper sends: a team's roster page for a season, or a
      player's profile page. */
  datatype Request = RosterPage(team: string, year: int) | ProfilePage(playerUrl: string)
}
