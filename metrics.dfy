/**
  The Prometheus side: the two counters and eleven gauges Program.cs registers,
  all labelled (torrent, hash), and the operations the exporter pushes to them.
  The metric library itself is outside the model; what reaches it is recorded
  as a sequence of `MetricOp`s.
 */
module Metrics {
  import opened Snapshot
  import opened Labels

  datatype Counter = BytesDownloaded | BytesUploaded

  datatype Gauge =
    | DownloadSpeed | UploadSpeed | TotalSize | RemainingSize | Available
    | PeersConnected | PeersInSwarm | SeedsConnected | SeedsInSwarm | Ratio | Progress

  /** `metric.WithLabels(torrent, hash).Inc(amount)` or `.Set(value)`. */
  datatype MetricOp =
    | Inc(counter: Counter, torrent: string, hash: string, amount: int)
    | Set(gauge: Gauge, torrent: string, hash: string, value: real)

  /** The cumulative byte total a counter is derived from. */
  function Reading(c: Counter, t: Torrent): Int64 {
    match c
    case BytesDownloaded => t.downloaded
    case BytesUploaded => t.uploaded
  }

  /** The value a gauge is set to: the raw field, except the two scaled ones. */
  function GaugeValue(g: Gauge, t: Torrent): real {
    match g
    case DownloadSpeed => t.downloadSpeed as real
    case UploadSpeed => t.uploadSpeed as real
    case TotalSize => t.size as real
    case RemainingSize => t.remaining as real
    case Available => t.availability as real / 65536.0
    case PeersConnected => t.peersConnected as real
    case PeersInSwarm => t.peersInSwarm as real
    case SeedsConnected => t.seedsConnected as real
    case SeedsInSwarm => t.seedsInSwarm as real
    case Ratio => t.ratio
    case Progress => t.progress as real / 10.0
  }

  /** The gauge set for one torrent, labelled with its sanitised name and its hash. */
  function GaugeOp(g: Gauge, t: Torrent): MetricOp {
    Set(g, Sanitize(t.name), t.hash, GaugeValue(g, t))
  }

  /**
    Availability is a 16.16 fixed-point fraction and progress is in tenths of a
    percent; every other gauge carries its field unchanged.
   */
  lemma GaugeScaling(t: Torrent)
    ensures GaugeValue(Available, t) * 65536.0 == t.availability as real
    ensures GaugeValue(Progress, t) * 10.0 == t.progress as real
    ensures GaugeValue(Ratio, t) == t.ratio
    ensures && GaugeValue(DownloadSpeed, t) == t.downloadSpeed as real
            && GaugeValue(UploadSpeed, t) == t.uploadSpeed as real
            && GaugeValue(TotalSize, t) == t.size as real
            && GaugeValue(RemainingSize, t) == t.remaining as real
            && GaugeValue(PeersConnected, t) == t.peersConnected as real
            && GaugeValue(PeersInSwarm, t) == t.peersInSwarm as real
            && GaugeValue(SeedsConnected, t) == t.seedsConnected as real
            && GaugeValue(SeedsInSwarm, t) == t.seedsInSwarm as real
    ensures t.availability == 32768 ==> GaugeValue(Available, t) == 0.5
    ensures t.progress == 500 ==> GaugeValue(Progress, t) == 50.0
  {
  }

  /** The amounts of the increments of counter `c` for torrent `h`, in order. */
  function Increments(ops: seq<MetricOp>, c: Counter, h: string): (r: seq<int>)
    ensures |r| <= |ops|
  {
    if ops == [] then []
    else
      var op := ops[|ops| - 1];
      Increments(ops[..|ops| - 1], c, h)
        + (if op.Inc? && op.counter == c && op.hash == h then [op.amount] else [])
  }

  lemma {:induction false} IncrementsAppend(a: seq<MetricOp>, b: seq<MetricOp>, c: Counter, h: string)
    ensures Increments(a + b, c, h) == Increments(a, c, h) + Increments(b, c, h)
  {
    if b == [] {
      assert a + b == a;
    } else {
      var b' := b[..|b| - 1];
      assert (a + b)[..|a + b| - 1] == a + b';
      IncrementsAppend(a, b', c, h);
    }
  }

  /** A log with no increment of `c` for `h` contributes nothing to that counter. */
  lemma {:induction false} IncrementsNone(ops: seq<MetricOp>, c: Counter, h: string)
    requires forall i :: 0 <= i < |ops| ==> !(ops[i].Inc? && ops[i].counter == c && ops[i].hash == h)
    ensures Increments(ops, c, h) == []
  {
    if ops != [] {
      IncrementsNone(ops[..|ops| - 1], c, h);
    }
  }

  function Total(xs: seq<int>): int {
    if xs == [] then 0 else Total(xs[..|xs| - 1]) + xs[|xs| - 1]
  }

  lemma {:induction false} TotalAppend(a: seq<int>, b: seq<int>)
    ensures Total(a + b) == Total(a) + Total(b)
  {
    if b == [] {
      assert a + b == a;
    } else {
      var b' := b[..|b| - 1];
      assert (a + b)[..|a + b| - 1] == a + b';
      TotalAppend(a, b');
    }
  }
}
