/**
  The exporter's state as `Main` keeps it: the two dictionaries it updates in
  place, and the metric library it pushes to (recorded as the sequence of
  operations pushed so far). Each method is proved against the pure functions
  of `Reconcile` and `Driver`.
 */
module Exporter {
  import opened Wrappers
  import opened Snapshot
  import opened Labels
  import opened Metrics
  import opened Folds
  import opened Reconcile
  import opened Driver

  class Reconciler {
    /** `LastBytesDownloadedState` */
    var lastBytesDownloaded: map<string, Int64>
    /** `LastBytesUploadedState` */
    var lastBytesUploaded: map<string, Int64>
    /** Every `Inc` and `Set` pushed to the metric library so far, in order. */
    var emitted: seq<MetricOp>

    function State(): CounterState
      reads this
    {
      CounterState(lastBytesDownloaded, lastBytesUploaded)
    }

    ghost predicate Valid()
      reads this
    {
      State().Valid()
    }

    /** Lines 171-172: both dictionaries start empty; nothing has been pushed. */
    constructor ()
      ensures Valid() && State() == Empty && emitted == []
    {
      lastBytesDownloaded := map[];
      lastBytesUploaded := map[];
      emitted := [];
    }

    /** One of lines 219-240: `metric.WithLabels(SanitizeString(Name), Hash).Set(value)`. */
    method SetGauge(g: Gauge, t: Torrent)
      modifies this
      ensures State() == old(State())
      ensures emitted == old(emitted) + [GaugeOp(g, t)]
    {
      emitted := emitted + [Set(g, Sanitize(t.name), t.hash, GaugeValue(g, t))];
    }

    /**
      Lines 200-207 (downloaded) or 210-217 (uploaded): increment the counter by
      the change since the stored total if there is one, then store the new total.
     */
    method CountTransfer(c: Counter, t: Torrent)
      modifies this
      ensures c == BytesDownloaded ==> State() == old(State()).(downloaded := Record(old(State()), t).downloaded)
      ensures c == BytesUploaded ==> State() == old(State()).(uploaded := Record(old(State()), t).uploaded)
      ensures emitted == old(emitted) + CounterOps(old(State()), c, t)
    {
      var last := if c == BytesDownloaded then lastBytesDownloaded else lastBytesUploaded;
      if t.hash in last {
        var increaseAmt := Sub64(Reading(c, t), last[t.hash]);
        emitted := emitted + [Inc(c, Sanitize(t.name), t.hash, increaseAmt)];
      }
      if c == BytesDownloaded {
        lastBytesDownloaded := lastBytesDownloaded[t.hash := t.downloaded];
      } else {
        lastBytesUploaded := lastBytesUploaded[t.hash := t.uploaded];
      }
    }

    /** Lines 219-228: the speed, size and availability gauges. */
    method SetTransferGauges(t: Torrent)
      modifies this
      ensures State() == old(State())
      ensures emitted == old(emitted) + GaugeOps(t)[0..5]
    {
      ghost var ops, e := GaugeOps(t), emitted;
      SetGauge(DownloadSpeed, t);
      assert emitted == e + ops[0..1];
      SetGauge(UploadSpeed, t);
      assert ops[0..2] == ops[0..1] + [ops[1]];
      AppendAssoc(e, ops[0..1], [ops[1]]);
      SetGauge(TotalSize, t);
      assert ops[0..3] == ops[0..2] + [ops[2]];
      AppendAssoc(e, ops[0..2], [ops[2]]);
      SetGauge(RemainingSize, t);
      assert ops[0..4] == ops[0..3] + [ops[3]];
      AppendAssoc(e, ops[0..3], [ops[3]]);
      SetGauge(Available, t);
      assert ops[0..5] == ops[0..4] + [ops[4]];
      AppendAssoc(e, ops[0..4], [ops[4]]);
    }

    /** Lines 230-240: the peer, seed, ratio and progress gauges. */
    method SetSwarmGauges(t: Torrent)
      modifies this
      ensures State() == old(State())
      ensures emitted == old(emitted) + GaugeOps(t)[5..11]
    {
      ghost var ops, e := GaugeOps(t), emitted;
      SetGauge(PeersConnected, t);
      assert emitted == e + ops[5..6];
      SetGauge(PeersInSwarm, t);
      assert ops[5..7] == ops[5..6] + [ops[6]];
      AppendAssoc(e, ops[5..6], [ops[6]]);
      SetGauge(SeedsConnected, t);
      assert ops[5..8] == ops[5..7] + [ops[7]];
      AppendAssoc(e, ops[5..7], [ops[7]]);
      SetGauge(SeedsInSwarm, t);
      assert ops[5..9] == ops[5..8] + [ops[8]];
      AppendAssoc(e, ops[5..8], [ops[8]]);
      SetGauge(Ratio, t);
      assert ops[5..10] == ops[5..9] + [ops[9]];
      AppendAssoc(e, ops[5..9], [ops[9]]);
      SetGauge(Progress, t);
      assert ops[5..11] == ops[5..10] + [ops[10]];
      AppendAssoc(e, ops[5..10], [ops[10]]);
    }

    /** Lines 219-240: the eleven gauges, in source order; the counters stay as they are. */
    method SetGauges(t: Torrent)
      modifies this
      ensures State() == old(State())
      ensures emitted == old(emitted) + GaugeOps(t)
    {
      ghost var ops, e := GaugeOps(t), emitted;
      SetTransferGauges(t);
      SetSwarmGauges(t);
      AppendAssoc(e, ops[..5], ops[5..]);
      assert ops[..5] + ops[5..] == ops;
    }

    /** Lines 199-241: the body of the `foreach` for one torrent. */
    method ProcessTorrent(t: Torrent)
      requires Valid()
      modifies this
      ensures Valid()
      ensures State() == Record(old(State()), t)
      ensures emitted == old(emitted) + TorrentOps(old(State()), t)
    {
      ghost var s, e := State(), emitted;
      ghost var d, u, g := CounterOps(s, BytesDownloaded, t), CounterOps(s, BytesUploaded, t), GaugeOps(t);
      CountTransfer(BytesDownloaded, t);
      assert CounterOps(State(), BytesUploaded, t) == u;
      CountTransfer(BytesUploaded, t);
      SetGauges(t);
      AppendAssoc(e, d, u);
      AppendAssoc(e, d + u, g);
    }

    /** Line 197: the `foreach` over the torrent list. */
    method ProcessTorrents(ts: seq<Torrent>)
      requires Valid()
      modifies this
      ensures Valid()
      ensures State() == RecordAll(old(State()), ts)
      ensures emitted == old(emitted) + ListOps(old(State()), ts)
    {
      ghost var s0, e0 := State(), emitted;
      for i := 0 to |ts|
        invariant Valid()
        invariant State() == RecordAll(s0, ts[..i])
        invariant emitted == e0 + ListOps(s0, ts[..i])
      {
        ListStep(s0, ts, i);
        AppendAssoc(e0, ListOps(s0, ts[..i]), TorrentOps(RecordAll(s0, ts[..i]), ts[i]));
        ProcessTorrent(ts[i]);
      }
      assert ts[..|ts|] == ts;
    }

    /** Lines 190-256: one iteration of the poll loop, from the result of `GetList` on. */
    method Poll(f: Fetch) returns (report: Report)
      requires Valid()
      modifies this
      ensures Valid()
      ensures State() == PollStep(old(State()), f).state
      ensures emitted == old(emitted) + PollStep(old(State()), f).ops
      ensures report == PollStep(old(State()), f).report
    {
      match f {
        case Threw(InvalidCredentials) =>
          report := LoginFailed;
        case Threw(Unexpected(message)) =>
          report := FatalError(message);
        case Returned(response) =>
          if response.Some? && response.value.error.None? {
            // line 194: the guard reads `response.Result.Torrents`
            match response.value.result {
              case None =>
                // ... and so dereferences a null `Result`
                report := FatalError(NullReferenceMessage);
              case Some(list) =>
                if list.torrents.Some? {
                  ProcessTorrents(list.torrents.value);
                }
                report := Quiet;
            }
          } else if response.None? {
            // line 244: `response.Error` dereferences a null `response`
            report := FatalError(NullReferenceMessage);
          } else {
            report := ErrorEncountered(response.value.error.value.message);
          }
      }
    }

    /** Lines 188-259: the first `|fs|` iterations of the endless poll loop. */
    method PollEach(fs: seq<Fetch>) returns (reports: seq<Report>)
      requires Valid()
      modifies this
      ensures Valid()
      ensures State() == Run(PollState, old(State()), fs)
      ensures emitted == old(emitted) + Trace(PollState, PollOps, old(State()), fs)
      ensures reports == Trace(PollState, PollReports, old(State()), fs)
    {
      reports := [];
      ghost var s0, e0 := State(), emitted;
      for i := 0 to |fs|
        invariant Valid()
        invariant State() == Run(PollState, s0, fs[..i])
        invariant emitted == e0 + Trace(PollState, PollOps, s0, fs[..i])
        invariant reports == Trace(PollState, PollReports, s0, fs[..i])
      {
        PollsStep(s0, fs, i);
        ghost var r := Run(PollState, s0, fs[..i]);
        AppendAssoc(e0, Trace(PollState, PollOps, s0, fs[..i]), PollOps(r, fs[i]));
        var report := Poll(fs[i]);
        reports := reports + [report];
      }
      assert fs[..|fs|] == fs;
    }
  }
}
