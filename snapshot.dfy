/**
  What one poll of the uTorrent Web API hands to the exporter: the per-torrent
  records of `client.GetList()` and the ways that call can end.
 */
module Snapshot {
  import opened Wrappers

  /** C#'s `long`. */
  type Int64 = x: int | -0x8000_0000_0000_0000 <= x < 0x8000_0000_0000_0000

  /**
    `a - b` on C# `long` in the default unchecked context: the mathematical
    difference, brought back into range by wrapping modulo 2^64.
   */
  function Sub64(a: Int64, b: Int64): (r: Int64)
    ensures -0x8000_0000_0000_0000 <= a - b < 0x8000_0000_0000_0000 ==> r == a - b
    ensures r == a - b || r == a - b - 0x1_0000_0000_0000_0000 || r == a - b + 0x1_0000_0000_0000_0000
  {
    var d := a - b;
    if d >= 0x8000_0000_0000_0000 then d - 0x1_0000_0000_0000_0000
    else if d < -0x8000_0000_0000_0000 then d + 0x1_0000_0000_0000_0000
    else d
  }

  /** One element of `response.Result.Torrents`: the fields the exporter reads. */
  datatype Torrent = Torrent(
    hash: string,
    name: string,
    downloaded: Int64,
    uploaded: Int64,
    downloadSpeed: int,
    uploadSpeed: int,
    size: int,
    remaining: int,
    availability: int,
    peersConnected: int,
    peersInSwarm: int,
    seedsConnected: int,
    seedsInSwarm: int,
    ratio: real,
    progress: int)

  /** `response.Error`, of which only `Message` is read. */
  datatype ApiError = ApiError(message: string)

  /** `response.Result`; its `Torrents` list may be null. */
  datatype TorrentList = TorrentList(torrents: Option<seq<Torrent>>)

  /** A response of `GetList`; `Error` and `Result` may each be null. */
  datatype Response = Response(error: Option<ApiError>, result: Option<TorrentList>)

  /** What `GetList` throws instead of returning. */
  datatype Failure = InvalidCredentials | Unexpected(message: string)

  /** How the call `client.GetList()` ends: it returns a possibly null response, or throws. */
  datatype Fetch = Returned(response: Option<Response>) | Threw(failure: Failure)
}
