/**
  The reconciliation of one torrent list against the counter state, as pure
  functions: the `foreach` body of Program.cs and its fold over the list.
  The class `Exporter.Reconciler` runs the same steps in place and is proved
  against these functions.
 */
module Reconcile {
  import opened Wrappers
  import opened Snapshot
  import opened Labels
  import opened Metrics
  import opened Folds

  /**
    `LastBytesDownloadedState` and `LastBytesUploadedState`: torrent hash to the
    last cumulative total seen.
   */
  datatype CounterState = CounterState(downloaded: map<string, Int64>, uploaded: map<string, Int64>) {
    function Last(c: Counter): map<string, Int64> {
      match c
      case BytesDownloaded => downloaded
      case BytesUploaded => uploaded
    }

    /** Both dictionaries know the same torrents: every sighting writes both. */
    ghost predicate Valid() {
      downloaded.Keys == uploaded.Keys
    }
  }

  /** The dictionaries as `Main` creates them. */
  const Empty := CounterState(map[], map[])

  /** Lines 200-205 (or 210-215): an increment only for a torrent seen before. */
  function CounterOps(s: CounterState, c: Counter, t: Torrent): seq<MetricOp> {
    if t.hash in s.Last(c) then [Inc(c, Sanitize(t.name), t.hash, Sub64(Reading(c, t), s.Last(c)[t.hash]))]
    else []
  }

  /** Lines 219-240: the eleven gauges, in the order they are set. */
  function GaugeOps(t: Torrent): seq<MetricOp> {
    [ GaugeOp(DownloadSpeed, t), GaugeOp(UploadSpeed, t), GaugeOp(TotalSize, t),
      GaugeOp(RemainingSize, t), GaugeOp(Available, t), GaugeOp(PeersConnected, t),
      GaugeOp(PeersInSwarm, t), GaugeOp(SeedsConnected, t), GaugeOp(SeedsInSwarm, t),
      GaugeOp(Ratio, t), GaugeOp(Progress, t) ]
  }

  /** Everything one pass of the `foreach` body pushes to the metric library. */
  function TorrentOps(s: CounterState, t: Torrent): seq<MetricOp> {
    CounterOps(s, BytesDownloaded, t) + CounterOps(s, BytesUploaded, t) + GaugeOps(t)
  }

  /** Lines 207 and 217: both totals of the torrent overwrite the stored ones. */
  function Record(s: CounterState, t: Torrent): CounterState {
    CounterState(s.downloaded[t.hash := t.downloaded], s.uploaded[t.hash := t.uploaded])
  }

  /** The state after the `foreach` over `ts`. */
  function RecordAll(s: CounterState, ts: seq<Torrent>): CounterState {
    Run(Record, s, ts)
  }

  /** Everything the `foreach` over `ts` pushes, in order. */
  function ListOps(s: CounterState, ts: seq<Torrent>): seq<MetricOp> {
    Trace(Record, TorrentOps, s, ts)
  }

  /**
    With both dictionaries on the same hashes, a torrent is counted by both
    counters or by neither: they start counting a hash in the same poll.
   */
  lemma CountersStartTogether(s: CounterState, t: Torrent)
    requires s.Valid()
    ensures CounterOps(s, BytesDownloaded, t) == [] <==> CounterOps(s, BytesUploaded, t) == []
  {
  }

  /** The `foreach` one element further: one more pass of its body. */
  lemma ListStep(s: CounterState, ts: seq<Torrent>, i: nat)
    requires i < |ts|
    ensures RecordAll(s, ts[..i + 1]) == Record(RecordAll(s, ts[..i]), ts[i])
    ensures ListOps(s, ts[..i + 1]) == ListOps(s, ts[..i]) + TorrentOps(RecordAll(s, ts[..i]), ts[i])
  {
    assert ts[..i + 1] == ts[..i] + [ts[i]];
    Snoc(Record, TorrentOps, s, ts[..i], ts[i]);
  }

  /** The hashes of a torrent list. */
  function Hashes(ts: seq<Torrent>): set<string> {
    set i | 0 <= i < |ts| :: ts[i].hash
  }

  lemma GaugeOpsIncrementNothing(t: Torrent, c: Counter, h: string)
    ensures Increments(GaugeOps(t), c, h) == []
  {
    var g := GaugeOps(t);
    assert forall i :: 0 <= i < |g| ==> g[i].Set?;
    IncrementsNone(g, c, h);
  }

  lemma CounterOpsSeparate(s: CounterState, c: Counter, d: Counter, t: Torrent, h: string)
    requires c != d
    ensures Increments(CounterOps(s, d, t), c, h) == []
  {
    IncrementsNone(CounterOps(s, d, t), c, h);
  }

  /** Only the counter blocks of the loop body increment anything. */
  lemma TorrentIncrements(s: CounterState, c: Counter, t: Torrent, h: string)
    ensures Increments(TorrentOps(s, t), c, h) == Increments(CounterOps(s, c, t), c, h)
  {
    var d, u, g := CounterOps(s, BytesDownloaded, t), CounterOps(s, BytesUploaded, t), GaugeOps(t);
    assert TorrentOps(s, t) == d + u + g;
    GaugeOpsIncrementNothing(t, c, h);
    IncrementsAppend(d, u, c, h);
    IncrementsAppend(d + u, g, c, h);
    if c == BytesDownloaded {
      CounterOpsSeparate(s, c, BytesUploaded, t, h);
    } else {
      CounterOpsSeparate(s, c, BytesDownloaded, t, h);
    }
  }

  /**
    One torrent's counter: no increment on its first sighting, otherwise exactly one,
    of the new total minus the stored one, passed on even when negative. No other
    torrent's counter moves, and the stored total becomes the new one.
   */
  lemma CounterStep(s: CounterState, c: Counter, t: Torrent, h: string)
    ensures Increments(TorrentOps(s, t), c, h) ==
      if h == t.hash && h in s.Last(c) then [Sub64(Reading(c, t), s.Last(c)[h])] else []
    ensures h == t.hash && h in s.Last(c) && Reading(c, t) >= 0 && s.Last(c)[h] >= 0 ==>
      Increments(TorrentOps(s, t), c, h) == [Reading(c, t) - s.Last(c)[h]]
    ensures Record(s, t).Last(c) == s.Last(c)[t.hash := Reading(c, t)]
  {
    TorrentIncrements(s, c, t, h);
    var ops := CounterOps(s, c, t);
    if t.hash in s.Last(c) {
      assert ops[..0] == [];
    }
  }

  /** The dictionaries only grow: after a list they know exactly the old hashes and the listed ones. */
  lemma {:induction false} RecordAllKeys(s: CounterState, ts: seq<Torrent>, c: Counter)
    ensures RecordAll(s, ts).Last(c).Keys == s.Last(c).Keys + Hashes(ts)
  {
    if ts != [] {
      var prefix := ts[..|ts| - 1];
      RecordAllKeys(s, prefix, c);
      assert Hashes(ts) == Hashes(prefix) + {ts[|ts| - 1].hash} by {
        forall h | h in Hashes(ts) ensures h in Hashes(prefix) + {ts[|ts| - 1].hash} {
          var i :| 0 <= i < |ts| && ts[i].hash == h;
          if i < |ts| - 1 {
            assert prefix[i] == ts[i];
          }
        }
        forall h | h in Hashes(prefix) ensures h in Hashes(ts) {
          var i :| 0 <= i < |prefix| && prefix[i].hash == h;
          assert ts[i] == prefix[i];
        }
      }
    }
  }

  /** Every state the exporter can reach keeps the two dictionaries on the same hashes. */
  lemma RecordAllValid(s: CounterState, ts: seq<Torrent>)
    requires s.Valid()
    ensures RecordAll(s, ts).Valid()
  {
    RecordAllKeys(s, ts, BytesDownloaded);
    RecordAllKeys(s, ts, BytesUploaded);
  }

  /** After a list, a listed hash holds the totals of its last occurrence in the list. */
  lemma {:induction false} RecordAllLastOccurrence(s: CounterState, ts: seq<Torrent>, c: Counter, i: nat)
    requires i < |ts|
    requires forall j :: i < j < |ts| ==> ts[j].hash != ts[i].hash
    ensures ts[i].hash in RecordAll(s, ts).Last(c)
    ensures RecordAll(s, ts).Last(c)[ts[i].hash] == Reading(c, ts[i])
  {
    var prefix := ts[..|ts| - 1];
    if i < |ts| - 1 {
      assert prefix[i] == ts[i];
      RecordAllLastOccurrence(s, prefix, c, i);
    }
  }

  /** A hash absent from the list keeps its entry, or its absence, unchanged. */
  lemma {:induction false} RecordAllUntouched(s: CounterState, ts: seq<Torrent>, c: Counter, h: string)
    requires forall i :: 0 <= i < |ts| ==> ts[i].hash != h
    ensures h in RecordAll(s, ts).Last(c) <==> h in s.Last(c)
    ensures h in s.Last(c) ==> RecordAll(s, ts).Last(c)[h] == s.Last(c)[h]
  {
    if ts != [] {
      var prefix := ts[..|ts| - 1];
      forall j | 0 <= j < |prefix| ensures prefix[j].hash != h {
        assert prefix[j] == ts[j];
      }
      RecordAllUntouched(s, prefix, c, h);
    }
  }

  lemma RecordAllAppend(s: CounterState, a: seq<Torrent>, b: seq<Torrent>)
    ensures RecordAll(s, a + b) == RecordAll(RecordAll(s, a), b)
  {
    RunAppend(Record, s, a, b);
  }

  /** Processing two lists one after the other is processing their concatenation. */
  lemma ListOpsAppend(s: CounterState, a: seq<Torrent>, b: seq<Torrent>)
    ensures ListOps(s, a + b) == ListOps(s, a) + ListOps(RecordAll(s, a), b)
  {
    TraceAppend(Record, TorrentOps, s, a, b);
  }

  /**
    Every listed torrent gets each of the eleven gauges set, labelled with its
    sanitised name and its hash, whatever was stored before.
   */
  lemma {:induction false} ListOpsGauges(s: CounterState, ts: seq<Torrent>, i: nat, g: Gauge)
    requires i < |ts|
    ensures GaugeOp(g, ts[i]) in ListOps(s, ts)
  {
    var prefix := ts[..|ts| - 1];
    if i < |ts| - 1 {
      assert prefix[i] == ts[i];
      ListOpsGauges(s, prefix, i, g);
    } else {
      assert GaugeOp(g, ts[i]) in GaugeOps(ts[i]);
    }
  }

  /** Each torrent adds at least its eleven gauge sets; so only an empty list emits nothing. */
  lemma {:induction false} ListOpsLength(s: CounterState, ts: seq<Torrent>)
    ensures |ListOps(s, ts)| >= 11 * |ts|
    ensures ListOps(s, ts) == [] <==> ts == []
  {
    if ts != [] {
      ListOpsLength(s, ts[..|ts| - 1]);
    }
  }

  /**
    A torrent listed twice after never having been seen: one increment, the second
    total minus the first, and the dictionary ends at the second total.
   */
  lemma RepeatSighting(s: CounterState, c: Counter, first: Torrent, second: Torrent)
    requires first.hash == second.hash && first.hash !in s.Last(c)
    ensures Increments(ListOps(s, [first, second]), c, first.hash) == [Sub64(Reading(c, second), Reading(c, first))]
    ensures RecordAll(s, [first, second]).Last(c) == s.Last(c)[first.hash := Reading(c, second)]
  {
    var h, ts, s1 := first.hash, [first, second], Record(s, first);
    IncrementsAreDeltas(s, c, ts, h);
    assert ts[..1] == [first] && [first][..0] == [];
    assert RecordAll(s, [first]) == s1;
    assert Deltas(s, c, [first], h) == [];
    assert RecordAll(s, ts) == Record(s1, second);
  }

  /** All stored totals and all listed totals of counter `c` are non-negative. */
  ghost predicate NonNegative(s: CounterState, c: Counter, ts: seq<Torrent>) {
    && (forall h :: h in s.Last(c) ==> s.Last(c)[h] >= 0)
    && (forall i :: 0 <= i < |ts| ==> Reading(c, ts[i]) >= 0)
  }

  /** With non-negative totals in, only non-negative totals are ever stored. */
  lemma {:induction false} RecordAllNonNegative(s: CounterState, c: Counter, ts: seq<Torrent>)
    requires NonNegative(s, c, ts)
    ensures NonNegative(RecordAll(s, ts), c, [])
  {
    if ts != [] {
      var prefix := ts[..|ts| - 1];
      assert NonNegative(s, c, prefix) by {
        forall i | 0 <= i < |prefix| ensures Reading(c, prefix[i]) >= 0 {
          assert prefix[i] == ts[i];
        }
      }
      RecordAllNonNegative(s, c, prefix);
      var r, t := RecordAll(s, prefix), ts[|ts| - 1];
      CounterStep(r, c, t, t.hash);
      assert Reading(c, t) >= 0;
    }
  }

  /**
    The total a counter started from for hash `h`: the stored one if there was one,
    otherwise the one of the first occurrence of `h` in the list.
   */
  function FirstReading(s: CounterState, c: Counter, ts: seq<Torrent>, h: string): Option<Int64> {
    if ts == [] then
      (if h in s.Last(c) then Some(s.Last(c)[h]) else None)
    else
      var prior := FirstReading(s, c, ts[..|ts| - 1], h);
      if prior.Some? then prior
      else if ts[|ts| - 1].hash == h then Some(Reading(c, ts[|ts| - 1]))
      else None
  }

  /**
    The amounts the list increments counter `c` of hash `h` by, computed from the
    stored totals alone.
   */
  function Deltas(s: CounterState, c: Counter, ts: seq<Torrent>, h: string): seq<int> {
    if ts == [] then []
    else
      var prefix, t := ts[..|ts| - 1], ts[|ts| - 1];
      var last := RecordAll(s, prefix).Last(c);
      Deltas(s, c, prefix, h) + (if t.hash == h && h in last then [Sub64(Reading(c, t), last[h])] else [])
  }

  /** The increments pushed over a list are exactly those `Deltas` computes. */
  lemma {:induction false} IncrementsAreDeltas(s: CounterState, c: Counter, ts: seq<Torrent>, h: string)
    ensures Increments(ListOps(s, ts), c, h) == Deltas(s, c, ts, h)
  {
    if ts != [] {
      var prefix, t := ts[..|ts| - 1], ts[|ts| - 1];
      var r := RecordAll(s, prefix);
      IncrementsAreDeltas(s, c, prefix, h);
      assert ts == prefix + [t];
      Snoc(Record, TorrentOps, s, prefix, t);
      IncrementsAppend(ListOps(s, prefix), TorrentOps(r, t), c, h);
      CounterStep(r, c, t, h);
    }
  }

  lemma {:induction false} DeltasTelescope(s: CounterState, c: Counter, ts: seq<Torrent>, h: string)
    requires NonNegative(s, c, ts)
    ensures h in RecordAll(s, ts).Last(c) <==> FirstReading(s, c, ts, h).Some?
    ensures Total(Deltas(s, c, ts, h)) ==
      if h in RecordAll(s, ts).Last(c)
      then RecordAll(s, ts).Last(c)[h] - FirstReading(s, c, ts, h).value
      else 0
  {
    if ts != [] {
      var prefix, t := ts[..|ts| - 1], ts[|ts| - 1];
      var r := RecordAll(s, prefix);
      assert NonNegative(s, c, prefix) by {
        forall i | 0 <= i < |prefix| ensures Reading(c, prefix[i]) >= 0 {
          assert prefix[i] == ts[i];
        }
      }
      DeltasTelescope(s, c, prefix, h);
      RecordAllNonNegative(s, c, prefix);
      var last := r.Last(c);
      assert RecordAll(s, ts).Last(c) == last[t.hash := Reading(c, t)] by {
        assert RecordAll(s, ts) == Record(r, t);
      }
      var step := if t.hash == h && h in last then [Sub64(Reading(c, t), last[h])] else [];
      assert Deltas(s, c, ts, h) == Deltas(s, c, prefix, h) + step;
      TotalAppend(Deltas(s, c, prefix, h), step);
      if t.hash == h && h in last {
        assert Reading(c, t) >= 0 && last[h] >= 0;
        assert Total(step) == Reading(c, t) - last[h];
      } else if t.hash == h {
        assert FirstReading(s, c, ts, h) == Some(Reading(c, t));
      } else {
        assert FirstReading(s, c, ts, h) == FirstReading(s, c, prefix, h);
      }
    }
  }

  /**
    Telescoping: what the increments of counter `c` for hash `h` add up to over a
    list is its latest total minus the total it started from, and nothing for a hash
    never seen. Holds exactly when no 64-bit subtraction wraps, which non-negative
    totals guarantee.
   */
  lemma CounterTelescopes(s: CounterState, c: Counter, ts: seq<Torrent>, h: string)
    requires NonNegative(s, c, ts)
    ensures h in RecordAll(s, ts).Last(c) <==> FirstReading(s, c, ts, h).Some?
    ensures Total(Increments(ListOps(s, ts), c, h)) ==
      if h in RecordAll(s, ts).Last(c)
      then RecordAll(s, ts).Last(c)[h] - FirstReading(s, c, ts, h).value
      else 0
  {
    IncrementsAreDeltas(s, c, ts, h);
    DeltasTelescope(s, c, ts, h);
  }

  /** A hash the state does not know after a list had no starting total yet. */
  lemma {:induction false} FirstReadingUnseen(s: CounterState, c: Counter, ts: seq<Torrent>, h: string)
    requires h !in RecordAll(s, ts).Last(c)
    ensures FirstReading(s, c, ts, h) == None
  {
    if ts != [] {
      FirstReadingUnseen(s, c, ts[..|ts| - 1], h);
    }
  }

  /** First sighting over a list: a hash never seen gets no increment at all. */
  lemma {:induction false} IncrementsUnseen(s: CounterState, c: Counter, ts: seq<Torrent>, h: string)
    requires h !in RecordAll(s, ts).Last(c)
    ensures Increments(ListOps(s, ts), c, h) == []
  {
    if ts != [] {
      var prefix, t := ts[..|ts| - 1], ts[|ts| - 1];
      var r := RecordAll(s, prefix);
      IncrementsUnseen(s, c, prefix, h);
      CounterStep(r, c, t, h);
      IncrementsAppend(ListOps(s, prefix), TorrentOps(r, t), c, h);
    }
  }
}
