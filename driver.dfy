/**
  The poll loop of `Main` (Program.cs lines 188-259) as pure functions: one
  iteration as a step on the counter state, and a finite run of iterations as
  a fold of that step. Sleeping between iterations is not modelled.
 */
module Driver {
  import opened Wrappers
  import opened Snapshot
  import opened Metrics
  import opened Folds
  import opened Reconcile

  /** What an iteration writes to the console (verbose logging aside). */
  datatype Report =
    | Quiet
    | ErrorEncountered(message: string)
    | LoginFailed
    | FatalError(message: string)

  /** The message of the `NullReferenceException` .NET raises on a null dereference. */
  const NullReferenceMessage := "Object reference not set to an instance of an object."

  datatype PollOutcome = PollOutcome(state: CounterState, ops: seq<MetricOp>, report: Report)

  /** The torrent list the guard at line 194 lets through, if any. */
  function Admitted(f: Fetch): Option<seq<Torrent>> {
    if && f.Returned? && f.response.Some?
       && f.response.value.error.None?
       && f.response.value.result.Some?
       && f.response.value.result.value.torrents.Some?
    then Some(f.response.value.result.value.torrents.value)
    else None
  }

  /**
    One iteration of the `for (;;)` loop. A null response reaches the
    `response.Error` of line 244 and a null `Result` the `response.Result.Torrents`
    of line 194; both throw and end in the generic `catch` of line 253.
   */
  function PollStep(s: CounterState, f: Fetch): PollOutcome {
    match f
    case Threw(InvalidCredentials) => PollOutcome(s, [], LoginFailed)
    case Threw(Unexpected(m)) => PollOutcome(s, [], FatalError(m))
    case Returned(None) => PollOutcome(s, [], FatalError(NullReferenceMessage))
    case Returned(Some(response)) =>
      if response.error.Some? then PollOutcome(s, [], ErrorEncountered(response.error.value.message))
      else
        match response.result
        case None => PollOutcome(s, [], FatalError(NullReferenceMessage))
        case Some(list) =>
          match list.torrents
          case None => PollOutcome(s, [], Quiet)
          case Some(ts) => PollOutcome(RecordAll(s, ts), ListOps(s, ts), Quiet)
  }

  function PollState(s: CounterState, f: Fetch): CounterState {
    PollStep(s, f).state
  }

  function PollOps(s: CounterState, f: Fetch): seq<MetricOp> {
    PollStep(s, f).ops
  }

  function PollReports(s: CounterState, f: Fetch): seq<Report> {
    [PollStep(s, f).report]
  }

  /**
    Only an admitted list is reconciled. Anything else leaves both dictionaries
    as they were and pushes nothing; and something is pushed exactly when a
    non-empty list is admitted.
   */
  lemma PollGuard(s: CounterState, f: Fetch)
    ensures Admitted(f).None? ==> PollStep(s, f).state == s && PollStep(s, f).ops == []
    ensures Admitted(f).Some? ==>
      && PollStep(s, f).state == RecordAll(s, Admitted(f).value)
      && PollStep(s, f).ops == ListOps(s, Admitted(f).value)
      && PollStep(s, f).report == Quiet
    ensures PollStep(s, f).ops != [] <==> Admitted(f).Some? && Admitted(f).value != []
  {
    if Admitted(f).Some? {
      ListOpsLength(s, Admitted(f).value);
    }
  }

  /**
    How each failure is reported: bad credentials and an error payload get their
    own messages; any other exception is a fatal error with its message, and a
    null response or a null `Result` is a fatal (null reference) error.
   */
  lemma PollFailureReports(s: CounterState, f: Fetch)
    ensures PollStep(s, f).report == LoginFailed <==> f == Threw(InvalidCredentials)
    ensures f.Returned? && f.response.Some? && f.response.value.error.Some? ==>
      PollStep(s, f).report == ErrorEncountered(f.response.value.error.value.message)
    ensures f == Returned(None) ==> PollStep(s, f).report == FatalError(NullReferenceMessage)
    ensures f.Threw? && f.failure.Unexpected? ==> PollStep(s, f).report == FatalError(f.failure.message)
    ensures f.Returned? && f.response.Some? && f.response.value.error.None? && f.response.value.result.None? ==>
      PollStep(s, f).report == FatalError(NullReferenceMessage)
    ensures PollStep(s, f).report.ErrorEncountered? ==> Admitted(f).None?
  {
  }

  /** The poll loop one iteration further. */
  lemma PollsStep(s: CounterState, fs: seq<Fetch>, i: nat)
    requires i < |fs|
    ensures Run(PollState, s, fs[..i + 1]) == PollState(Run(PollState, s, fs[..i]), fs[i])
    ensures Trace(PollState, PollOps, s, fs[..i + 1])
         == Trace(PollState, PollOps, s, fs[..i]) + PollOps(Run(PollState, s, fs[..i]), fs[i])
    ensures Trace(PollState, PollReports, s, fs[..i + 1])
         == Trace(PollState, PollReports, s, fs[..i]) + PollReports(Run(PollState, s, fs[..i]), fs[i])
  {
    assert fs[..i + 1] == fs[..i] + [fs[i]];
    Snoc(PollState, PollOps, s, fs[..i], fs[i]);
    Snoc(PollState, PollReports, s, fs[..i], fs[i]);
  }

  /** The lists of a run of polls that the guard admitted, one after the other. */
  function Processed(fs: seq<Fetch>): seq<Torrent> {
    if fs == [] then []
    else
      var last := fs[|fs| - 1];
      Processed(fs[..|fs| - 1]) + (if Admitted(last).Some? then Admitted(last).value else [])
  }

  /**
    A run of polls is, for the counters and the pushed operations, the
    reconciliation of the admitted lists concatenated: failed polls leave no trace.
   */
  lemma {:induction false} PollsAreOneList(s: CounterState, fs: seq<Fetch>)
    ensures Run(PollState, s, fs) == RecordAll(s, Processed(fs))
    ensures Trace(PollState, PollOps, s, fs) == ListOps(s, Processed(fs))
  {
    if fs != [] {
      var prefix, f := fs[..|fs| - 1], fs[|fs| - 1];
      PollsAreOneList(s, prefix);
      var r := RecordAll(s, Processed(prefix));
      var ts := if Admitted(f).Some? then Admitted(f).value else [];
      PollGuard(r, f);
      assert Processed(fs) == Processed(prefix) + ts;
      RecordAllAppend(s, Processed(prefix), ts);
      ListOpsAppend(s, Processed(prefix), ts);
      assert Run(PollState, s, fs) == PollState(r, f);
      assert Trace(PollState, PollOps, s, fs) == ListOps(s, Processed(prefix)) + PollOps(r, f);
    }
  }

  /**
    Telescoping across polls: the increments of counter `c` for hash `h` pushed over
    any run of polls add up to its latest total minus the total it was first seen
    with (or stored with before the run), and to nothing for a hash never seen.
   */
  lemma PollsTelescope(s: CounterState, c: Counter, fs: seq<Fetch>, h: string)
    requires NonNegative(s, c, Processed(fs))
    ensures h in Run(PollState, s, fs).Last(c) <==> FirstReading(s, c, Processed(fs), h).Some?
    ensures Total(Increments(Trace(PollState, PollOps, s, fs), c, h)) ==
      if h in Run(PollState, s, fs).Last(c)
      then Run(PollState, s, fs).Last(c)[h] - FirstReading(s, c, Processed(fs), h).value
      else 0
  {
    PollsAreOneList(s, fs);
    CounterTelescopes(s, c, Processed(fs), h);
  }

  /**
    A torrent first seen at 1000 bytes down and 200 up, then at 1500 and 250,
    then a poll that throws: the counters move by 500 and 50 in all, the failed
    poll changes nothing and is reported, and the dictionaries end at 1500 and 250.
   */
  lemma ThreePollScenario(first: Torrent, second: Torrent, fs: seq<Fetch>)
    requires first.hash == second.hash == "A"
    requires first.downloaded == 1000 && first.uploaded == 200
    requires second.downloaded == 1500 && second.uploaded == 250
    requires fs == [ Returned(Some(Response(None, Some(TorrentList(Some([first])))))),
                     Returned(Some(Response(None, Some(TorrentList(Some([second])))))),
                     Threw(Unexpected("transport error")) ]
    ensures Increments(Trace(PollState, PollOps, Empty, fs), BytesDownloaded, "A") == [500]
    ensures Increments(Trace(PollState, PollOps, Empty, fs), BytesUploaded, "A") == [50]
    ensures Run(PollState, Empty, fs) == Run(PollState, Empty, fs[..2])
    ensures Run(PollState, Empty, fs) == CounterState(map["A" := 1500], map["A" := 250])
    ensures PollStep(Run(PollState, Empty, fs[..2]), fs[2]).report == FatalError("transport error")
  {
    assert fs[..1][..0] == [] && fs[..2][..1] == fs[..1] && fs[..3][..2] == fs[..2] && fs[..3] == fs;
    assert Processed(fs[..1]) == [first];
    assert Processed(fs[..2]) == [first, second];
    assert Processed(fs) == [first, second];
    PollsAreOneList(Empty, fs[..2]);
    PollsAreOneList(Empty, fs);
    RepeatSighting(Empty, BytesDownloaded, first, second);
    RepeatSighting(Empty, BytesUploaded, first, second);
  }
}
