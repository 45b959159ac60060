/**
 * `getHttpURLConnection`: open the connection, then keep it or drop it
 * (return null) according to the response code. The network itself is
 * abstract: `Remote` is what opening, connecting and reading the status
 * line produced.
 */
module HttpConnection {
  import opened Wrappers
  import opened StreamCopy

  /** What the caller can read from an open connection. */
  datatype Connection = Connection(responseCode: int, disposition: Option<string>, body: Transfer)

  /** `Unreachable`: `openConnection`, `connect` or `getResponseCode` threw an IOException. */
  datatype Remote = Unreachable | Reached(connection: Connection)

  /** Java's `/` on `int`, which truncates toward zero. */
  function JavaDiv(a: int, b: int): (q: int)
    requires b > 0
    ensures a >= 0 ==> q * b <= a < q * b + b
    ensures a < 0 ==> q * b - b < a <= q * b
  {
    if a >= 0 then a / b else -((-a) / b)
  }

  /** `getHttpURLConnection` as written: a 2xx response code nulls the connection. */
  function OpenConnection(remote: Remote): Option<Connection>
  {
    match remote
    case Unreachable => None
    case Reached(c) => if JavaDiv(c.responseCode, 100) == 2 then None else Some(c)
  }

  /** `getHttpURLConnection` as its comment intends: only a 2xx response keeps the connection. */
  function OpenConnectionIntended(remote: Remote): (r: Option<Connection>)
    ensures r.Some? <==> remote.Reached? && 200 <= remote.connection.responseCode < 300
    ensures r.Some? ==> r.value == remote.connection
  {
    match remote
    case Unreachable => None
    case Reached(c) => if JavaDiv(c.responseCode, 100) == 2 then Some(c) else None
  }

  /**
   * As written, a connection survives exactly when the server was reached
   * and answered with a code outside 200..299, and it is then the one opened.
   */
  lemma OpenConnectionKeepsNonSuccess(remote: Remote)
    ensures OpenConnection(remote).Some? <==>
      remote.Reached? && !(200 <= remote.connection.responseCode < 300)
    ensures OpenConnection(remote).Some? ==> OpenConnection(remote).value == remote.connection
  {
  }

  /** A 200 OK is turned into "no connection"; a 404 is kept as a readable connection. */
  lemma OpenConnectionInverted(ok: Connection, missing: Connection)
    requires ok.responseCode == 200 && missing.responseCode == 404
    ensures OpenConnection(Reached(ok)) == None && OpenConnectionIntended(Reached(ok)) == Some(ok)
    ensures OpenConnection(Reached(missing)) == Some(missing) && OpenConnectionIntended(Reached(missing)) == None
  {
  }
}
