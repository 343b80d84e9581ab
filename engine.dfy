/**
 * filter_fastqs: reads R1 and R2 in lockstep, four lines at a time,
 * evaluates every criterion on the pair and writes both records to the
 * kept outputs (r1o, r2o) or both to the removed outputs (r1f, r2f),
 * counting as it goes, until either header comes back empty.
 */
module Engine {
  import opened Wrappers
  import opened Fastq
  import opened Criteria
  import opened Trim

  /** The settings filter_fastqs reads: the criteria array and the trim length of each read, if any. */
  datatype Config = Config(chain: seq<Criterion>, trimR1: Option<nat>, trimR2: Option<nat>)

  /** One pair and where it went: kept or removed, with the text written for each read. */
  datatype Decision = Decision(pair: ReadPair, kept: bool, out1: string, out2: string)

  /** The routing of one pair; None when the C code has undefined behaviour on it. */
  function Decide(cfg: Config, pair: ReadPair): Option<Decision>
  {
    match ChainVerdict(cfg.chain, pair)
    case None => None
    case Some(included) =>
      if included then
        match (Include(cfg.trimR1, pair.r1), Include(cfg.trimR2, pair.r2))
        case (Some(o1), Some(o2)) => Some(Decision(pair, true, o1, o2))
        case _ => None
      else
        Some(Decision(pair, false, Record(pair.r1), Record(pair.r2)))
  }

  /** What a routed decision records about its pair. */
  lemma DecideSound(cfg: Config, pair: ReadPair)
    requires Decide(cfg, pair).Some?
    ensures var d := Decide(cfg, pair).value;
      && (d.kept ==> (ChainVerdict(cfg.chain, pair) == Some(true)
            && Include(cfg.trimR1, pair.r1) == Some(d.out1) && Include(cfg.trimR2, pair.r2) == Some(d.out2)))
      && (!d.kept ==> (ChainVerdict(cfg.chain, pair) == Some(false)
            && d.out1 == Record(pair.r1) && d.out2 == Record(pair.r2)))
  {
  }

  lemma DecideKept(cfg: Config, pair: ReadPair, o1: string, o2: string)
    requires ChainVerdict(cfg.chain, pair) == Some(true)
    requires Include(cfg.trimR1, pair.r1) == Some(o1) && Include(cfg.trimR2, pair.r2) == Some(o2)
    ensures Decide(cfg, pair) == Some(Decision(pair, true, o1, o2))
  {
  }

  lemma DecideRemoved(cfg: Config, pair: ReadPair)
    requires ChainVerdict(cfg.chain, pair) == Some(false)
    ensures Decide(cfg, pair) == Some(Decision(pair, false, Record(pair.r1), Record(pair.r2)))
  {
  }

  lemma DecideUndefined(cfg: Config, pair: ReadPair)
    requires ChainVerdict(cfg.chain, pair) == None
      || (ChainVerdict(cfg.chain, pair) == Some(true)
          && (Include(cfg.trimR1, pair.r1) == None || Include(cfg.trimR2, pair.r2) == None))
    ensures Decide(cfg, pair) == None
  {
  }

  /** Why the loop stopped: both headers empty, exactly one empty, or undefined behaviour on a pair. */
  datatype Stop = BothEnded | OneEnded | Fault

  datatype TraceResult = TraceResult(decisions: seq<Decision>, stop: Stop)

  /** The decisions of the loop from pair k on, and why it stops. */
  function Trace(cfg: Config, r1: seq<CString>, r2: seq<CString>, k: nat): TraceResult
    decreases |r1| - 4 * k
  {
    var pair := PairAt(r1, r2, k);
    if pair.r1.header == "" || pair.r2.header == "" then
      TraceResult([], if pair.r1.header == pair.r2.header then BothEnded else OneEnded)
    else
      match Decide(cfg, pair)
      case None => TraceResult([], Fault)
      case Some(d) =>
        var rest := Trace(cfg, r1, r2, k + 1);
        TraceResult([d] + rest.decisions, rest.stop)
  }

  /** What filter_fastqs reports: success, or the line count at which the inputs differ; or undefined behaviour at a record. */
  datatype Outcome = Finished | Desync(line: nat) | Undefined(line: nat)

  /** The exit status main returns for a defined run. */
  function ExitStatus(o: Outcome): int
    requires !o.Undefined?
  {
    if o.Finished? then 0 else 1
  }

  function Conclude(t: TraceResult, checked: nat): Outcome
  {
    match t.stop
    case BothEnded => Finished
    case OneEnded => Desync(4 * checked)
    case Fault => Undefined(4 * |t.decisions|)
  }

  /** The counters and the records written to r1o, r2o, r1f and r2f. */
  datatype Totals = Totals(
    checked: nat, removed: nat, remaining: nat,
    r1o: seq<string>, r2o: seq<string>, r1f: seq<string>, r2f: seq<string>)

  /** The decisions routed to one side (kept when side is true, removed otherwise), in order. */
  function Routed(h: seq<Decision>, side: bool): seq<Decision>
  {
    if h == [] then [] else Routed(h[..|h| - 1], side) + (if h[|h| - 1].kept == side then [h[|h| - 1]] else [])
  }

  /** One routed pair: checked goes up, and so does remaining or removed; both records go to the matching pair of sinks. */
  function Route(t: Totals, d: Decision): Totals
  {
    if d.kept then
      t.(checked := t.checked + 1, remaining := t.remaining + 1, r1o := t.r1o + [d.out1], r2o := t.r2o + [d.out2])
    else
      t.(checked := t.checked + 1, removed := t.removed + 1, r1f := t.r1f + [d.out1], r2f := t.r2f + [d.out2])
  }

  /** The counters and outputs after routing the decisions h from a fresh start. */
  function Summary(h: seq<Decision>): (t: Totals)
    ensures t.checked == |h|
  {
    if h == [] then Totals(0, 0, 0, [], [], [], [])
    else Route(Summary(h[..|h| - 1]), h[|h| - 1])
  }

  /**
   * Conservation and atomic routing: checked == removed + remaining, and
   * the i-th records of r1o and r2o (of r1f and r2f) are the two reads of
   * the i-th kept (removed) pair.
   */
  lemma {:induction false} SummaryFacts(h: seq<Decision>)
    ensures Summary(h).checked == Summary(h).removed + Summary(h).remaining
    ensures Summary(h).remaining == |Routed(h, true)| == |Summary(h).r1o| == |Summary(h).r2o|
    ensures Summary(h).removed == |Routed(h, false)| == |Summary(h).r1f| == |Summary(h).r2f|
    ensures forall i :: 0 <= i < |Summary(h).r1o| ==>
      Summary(h).r1o[i] == Routed(h, true)[i].out1 && Summary(h).r2o[i] == Routed(h, true)[i].out2
    ensures forall i :: 0 <= i < |Summary(h).r1f| ==>
      Summary(h).r1f[i] == Routed(h, false)[i].out1 && Summary(h).r2f[i] == Routed(h, false)[i].out2
  {
    if h != [] {
      SummaryFacts(h[..|h| - 1]);
    }
  }

  /** The whole of filter_fastqs on fresh counters and empty outputs. */
  function FilterFastqs(cfg: Config, r1: seq<CString>, r2: seq<CString>): (Outcome, Totals)
  {
    var t := Trace(cfg, r1, r2, 0);
    (Conclude(t, |t.decisions|), Summary(t.decisions))
  }

  /** A pair with both headers present that Decide routes to d extends the trace by d. */
  lemma TraceStep(cfg: Config, r1: seq<CString>, r2: seq<CString>, k: nat, d: Decision, before: seq<Decision>)
    requires Line(r1, 4 * k) != "" && Line(r2, 4 * k) != ""
    requires Decide(cfg, PairAt(r1, r2, k)) == Some(d)
    ensures Trace(cfg, r1, r2, k).decisions == [d] + Trace(cfg, r1, r2, k + 1).decisions
    ensures Trace(cfg, r1, r2, k).stop == Trace(cfg, r1, r2, k + 1).stop
    ensures (before + [d]) + Trace(cfg, r1, r2, k + 1).decisions == before + Trace(cfg, r1, r2, k).decisions
  {
  }

  /** An empty header ends the trace: BothEnded when both first characters agree, OneEnded when they differ. */
  lemma TraceEnd(cfg: Config, r1: seq<CString>, r2: seq<CString>, k: nat)
    requires Line(r1, 4 * k) == "" || Line(r2, 4 * k) == ""
    ensures Trace(cfg, r1, r2, k).decisions == []
    ensures Trace(cfg, r1, r2, k).stop ==
      if Line(r1, 4 * k) == "" && Line(r2, 4 * k) == "" then BothEnded else OneEnded
  {
  }

  /** A pair that Decide cannot route ends the trace with Fault. */
  lemma TraceFault(cfg: Config, r1: seq<CString>, r2: seq<CString>, k: nat)
    requires Line(r1, 4 * k) != "" && Line(r2, 4 * k) != ""
    requires Decide(cfg, PairAt(r1, r2, k)) == None
    ensures Trace(cfg, r1, r2, k) == TraceResult([], Fault)
  {
  }

  /** Routing one more decision is one more Route. */
  lemma SummaryStep(h: seq<Decision>, d: Decision)
    ensures Summary(h + [d]) == Route(Summary(h), d)
  {
    assert (h + [d])[..|h|] == h;
  }

  /** A run that starts on fresh counters ends as FilterFastqs says. */
  lemma FreshRun(cfg: Config, r1: seq<CString>, r2: seq<CString>, h: seq<Decision>, whole: TraceResult,
                 t: Totals, o: Outcome, start: seq<Decision>)
    requires whole == Trace(cfg, r1, r2, 0)
    requires h == start + whole.decisions && t == Summary(h) && o == Conclude(whole, t.checked)
    ensures start == [] ==> (o, t) == FilterFastqs(cfg, r1, r2)
  {
    if start == [] {
      assert h == whole.decisions;
    }
  }

  /** '\0' for the empty string, as *header reads it. */
  function FirstChar(s: CString): char
  {
    if s == "" then '\0' else s[0]
  }

  /** Every pair the trace ds from pair k routes had both headers and was routed by Decide. */
  lemma {:induction false} TraceDecisions(cfg: Config, r1: seq<CString>, r2: seq<CString>, k: nat, ds: seq<Decision>)
    requires ds == Trace(cfg, r1, r2, k).decisions
    ensures forall j :: k <= j < k + |ds| ==>
      Line(r1, 4 * j) != "" && Line(r2, 4 * j) != ""
      && Decide(cfg, PairAt(r1, r2, j)) == Some(ds[j - k])
    decreases |ds|
  {
    if ds != [] {
      TraceHead(cfg, r1, r2, k, ds);
      TraceDecisions(cfg, r1, r2, k + 1, ds[1..]);
    }
  }

  /** The first decision of a trace from pair k routes pair k; the rest is the trace from pair k + 1. */
  lemma TraceHead(cfg: Config, r1: seq<CString>, r2: seq<CString>, k: nat, ds: seq<Decision>)
    requires ds == Trace(cfg, r1, r2, k).decisions && ds != []
    ensures Line(r1, 4 * k) != "" && Line(r2, 4 * k) != ""
    ensures Decide(cfg, PairAt(r1, r2, k)) == Some(ds[0])
    ensures ds[1..] == Trace(cfg, r1, r2, k + 1).decisions
  {
    TraceUnfold(cfg, r1, r2, k);
  }

  /** Why a loop that reaches pair e stops there, if it does: None when the pair can be routed. */
  function StopAt(cfg: Config, r1: seq<CString>, r2: seq<CString>, e: nat): Option<Stop>
  {
    var h1, h2 := Line(r1, 4 * e), Line(r2, 4 * e);
    if h1 == "" && h2 == "" then Some(BothEnded)
    else if h1 == "" || h2 == "" then Some(OneEnded)
    else if Decide(cfg, PairAt(r1, r2, e)).None? then Some(Fault)
    else None
  }

  /** Why the trace from pair k stops, read off the pair after the last one it routes. */
  lemma TraceStop(cfg: Config, r1: seq<CString>, r2: seq<CString>, k: nat)
    ensures StopAt(cfg, r1, r2, k + |Trace(cfg, r1, r2, k).decisions|) == Some(Trace(cfg, r1, r2, k).stop)
  {
    var e := k + |Trace(cfg, r1, r2, k).decisions|;
    TraceTail(cfg, r1, r2, k, e);
    EmptyTraceStop(cfg, r1, r2, e);
  }

  /** The trace from e, the pair after the last one routed from pair k, is empty and stops for the same reason. */
  lemma {:induction false} TraceTail(cfg: Config, r1: seq<CString>, r2: seq<CString>, k: nat, e: nat)
    requires e == k + |Trace(cfg, r1, r2, k).decisions|
    ensures Trace(cfg, r1, r2, e).decisions == []
    ensures Trace(cfg, r1, r2, e).stop == Trace(cfg, r1, r2, k).stop
    decreases e - k
  {
    if e > k {
      TraceShorter(cfg, r1, r2, k, e);
      TraceTail(cfg, r1, r2, k + 1, e);
    }
  }

  /** A trace from pair k that routes a pair reaches e from pair k + 1 with the same stop. */
  lemma TraceShorter(cfg: Config, r1: seq<CString>, r2: seq<CString>, k: nat, e: nat)
    requires e == k + |Trace(cfg, r1, r2, k).decisions| && e > k
    ensures e == k + 1 + |Trace(cfg, r1, r2, k + 1).decisions|
    ensures Trace(cfg, r1, r2, k).stop == Trace(cfg, r1, r2, k + 1).stop
  {
    TraceUnfold(cfg, r1, r2, k);
  }

  /** A trace that routes pair k continues with the trace from pair k + 1. */
  lemma TraceUnfold(cfg: Config, r1: seq<CString>, r2: seq<CString>, k: nat)
    requires Trace(cfg, r1, r2, k).decisions != []
    ensures 4 * k < |r1|
    ensures Line(r1, 4 * k) != "" && Line(r2, 4 * k) != ""
    ensures Decide(cfg, PairAt(r1, r2, k)) == Some(Trace(cfg, r1, r2, k).decisions[0])
    ensures Trace(cfg, r1, r2, k).decisions == [Trace(cfg, r1, r2, k).decisions[0]] + Trace(cfg, r1, r2, k + 1).decisions
    ensures k + |Trace(cfg, r1, r2, k).decisions| == k + 1 + |Trace(cfg, r1, r2, k + 1).decisions|
    ensures Trace(cfg, r1, r2, k).stop == Trace(cfg, r1, r2, k + 1).stop
  {
  }

  /** A trace that routes nothing stops for the reason StopAt gives at its first pair. */
  lemma EmptyTraceStop(cfg: Config, r1: seq<CString>, r2: seq<CString>, e: nat)
    requires Trace(cfg, r1, r2, e).decisions == []
    ensures StopAt(cfg, r1, r2, e) == Some(Trace(cfg, r1, r2, e).stop)
  {
  }

  /**
   * How a run ends: the checked pairs all had both headers; the run
   * finishes (exit 0) when both headers after them are empty, reports a
   * desync at line 4 * checked (exit 1) when exactly one is, and is
   * undefined only on a pair with both headers that cannot be routed.
   */
  lemma RunEnds(cfg: Config, r1: seq<CString>, r2: seq<CString>)
    ensures var n := FilterFastqs(cfg, r1, r2).1.checked;
      forall j :: 0 <= j < n ==> Line(r1, 4 * j) != "" && Line(r2, 4 * j) != ""
    ensures var (o, t) := FilterFastqs(cfg, r1, r2); var n := t.checked;
      && (o == Finished <==> Line(r1, 4 * n) == "" && Line(r2, 4 * n) == "")
      && (o.Desync? <==> (Line(r1, 4 * n) == "") != (Line(r2, 4 * n) == ""))
      && (o.Desync? ==> o.line == 4 * n)
      && (o.Undefined? <==> Line(r1, 4 * n) != "" && Line(r2, 4 * n) != "" && Decide(cfg, PairAt(r1, r2, n)).None?)
      && (o.Undefined? ==> o.line == 4 * n)
      && (!o.Undefined? ==> (ExitStatus(o) == 0 <==> o == Finished))
  {
    TraceDecisions(cfg, r1, r2, 0, Trace(cfg, r1, r2, 0).decisions);
    TraceStop(cfg, r1, r2, 0);
  }

  /**
   * Two complete inputs of a and b records, no line empty, every pair
   * routable: the run checks min(a, b) pairs and reports a desync at line
   * 4 * min(a, b) exactly when a != b.
   */
  lemma DesyncAtShorter(cfg: Config, r1: seq<CString>, r2: seq<CString>)
    requires |r1| % 4 == 0 && |r2| % 4 == 0
    requires forall i :: 0 <= i < |r1| ==> r1[i] != ""
    requires forall i :: 0 <= i < |r2| ==> r2[i] != ""
    requires forall j :: 0 <= 4 * j < |r1| && 4 * j < |r2| ==> Decide(cfg, PairAt(r1, r2, j)).Some?
    ensures var m := if |r1| < |r2| then |r1| else |r2|;
      FilterFastqs(cfg, r1, r2).1.checked * 4 == m
      && FilterFastqs(cfg, r1, r2).0 == if |r1| == |r2| then Finished else Desync(m)
  {
    RunEnds(cfg, r1, r2);
    var n := FilterFastqs(cfg, r1, r2).1.checked;
    var m := if |r1| < |r2| then |r1| else |r2|;
    if n > 0 {
      assert Line(r1, 4 * (n - 1)) != "" && Line(r2, 4 * (n - 1)) != "";
    }
  }

  lemma RoutedSnoc(h: seq<Decision>, side: bool)
    requires h != []
    ensures var init := Routed(h[..|h| - 1], side);
      && Routed(h, side) == init + (if h[|h| - 1].kept == side then [h[|h| - 1]] else [])
      && (forall i :: 0 <= i < |init| ==> Routed(h, side)[i] == init[i])
      && (h[|h| - 1].kept == side ==> Routed(h, side)[|init|] == h[|h| - 1])
      && (forall j :: 0 <= j < |h| - 1 ==> h[..|h| - 1][j] == h[j])
  {
  }

  /** Each decision routed to a side is a decision of h on that side. */
  lemma {:induction false} RoutedFromHistory(h: seq<Decision>, side: bool)
    ensures forall i :: 0 <= i < |Routed(h, side)| ==>
      exists j :: 0 <= j < |h| && Routed(h, side)[i] == h[j] && h[j].kept == side
  {
    if h != [] {
      var init := h[..|h| - 1];
      RoutedFromHistory(init, side);
      RoutedSnoc(h, side);
      forall i | 0 <= i < |Routed(h, side)|
        ensures exists j :: 0 <= j < |h| && Routed(h, side)[i] == h[j] && h[j].kept == side
      {
        if i < |Routed(init, side)| {
          var j :| 0 <= j < |init| && Routed(init, side)[i] == init[j] && init[j].kept == side;
          assert h[j] == init[j];
        } else {
          assert Routed(h, side)[i] == h[|h| - 1];
        }
      }
    } else {
      assert Routed(h, side) == [];
    }
  }

  /** Each decision of h is routed to its side. */
  lemma {:induction false} HistoryIsRouted(h: seq<Decision>, side: bool)
    ensures forall j :: 0 <= j < |h| && h[j].kept == side ==>
      exists i :: 0 <= i < |Routed(h, side)| && Routed(h, side)[i] == h[j]
  {
    if h != [] {
      var init := h[..|h| - 1];
      HistoryIsRouted(init, side);
      RoutedSnoc(h, side);
      forall j | 0 <= j < |h| && h[j].kept == side
        ensures exists i :: 0 <= i < |Routed(h, side)| && Routed(h, side)[i] == h[j]
      {
        if j < |init| {
          assert init[j] == h[j];
          var i :| 0 <= i < |Routed(init, side)| && Routed(init, side)[i] == init[j];
          assert Routed(h, side)[i] == Routed(init, side)[i];
        } else {
          assert Routed(h, side)[|Routed(init, side)|] == h[j];
        }
      }
    }
  }

  /** The j-th checked pair of a run and what was written for it. */
  lemma RoutedAt(cfg: Config, r1: seq<CString>, r2: seq<CString>, j: nat)
    requires j < |Trace(cfg, r1, r2, 0).decisions|
    ensures var d := Trace(cfg, r1, r2, 0).decisions[j];
      && (d.kept ==> (ChainVerdict(cfg.chain, PairAt(r1, r2, j)) == Some(true)
            && Include(cfg.trimR1, ReadAt(r1, j)) == Some(d.out1) && Include(cfg.trimR2, ReadAt(r2, j)) == Some(d.out2)))
      && (!d.kept ==> (ChainVerdict(cfg.chain, PairAt(r1, r2, j)) == Some(false)
            && d.out1 == Record(ReadAt(r1, j)) && d.out2 == Record(ReadAt(r2, j))))
  {
    TraceDecisions(cfg, r1, r2, 0, Trace(cfg, r1, r2, 0).decisions);
    assert Decide(cfg, PairAt(r1, r2, j)) == Some(Trace(cfg, r1, r2, 0).decisions[j - 0]);
    DecideSound(cfg, PairAt(r1, r2, j));
  }

  /** o1 and o2 are what the include functions write for one of the first n pairs, a pair every criterion accepts. */
  ghost predicate WrittenFromAccepted(cfg: Config, r1: seq<CString>, r2: seq<CString>, n: nat, o1: string, o2: string)
  {
    exists j :: 0 <= j < n
      && ChainVerdict(cfg.chain, PairAt(r1, r2, j)) == Some(true)
      && Include(cfg.trimR1, ReadAt(r1, j)) == Some(o1)
      && Include(cfg.trimR2, ReadAt(r2, j)) == Some(o2)
  }

  /** o1 and o2 are the untouched records of one of the first n pairs, a pair some criterion rejects. */
  ghost predicate WrittenFromRejected(cfg: Config, r1: seq<CString>, r2: seq<CString>, n: nat, o1: string, o2: string)
  {
    exists j :: 0 <= j < n
      && ChainVerdict(cfg.chain, PairAt(r1, r2, j)) == Some(false)
      && o1 == Record(ReadAt(r1, j)) && o2 == Record(ReadAt(r2, j))
  }

  /** o1 and o2 sit at the same position of the two outputs s1 and s2. */
  ghost predicate SideBySide(s1: seq<string>, s2: seq<string>, o1: string, o2: string)
  {
    exists i :: 0 <= i < |s1| && i < |s2| && s1[i] == o1 && s2[i] == o2
  }

  /**
   * Each record in r1o sits beside its mate in r2o: both were written by
   * the include functions from one checked pair that every criterion
   * accepted.
   */
  lemma KeptRecordsArePairs(cfg: Config, r1: seq<CString>, r2: seq<CString>)
    ensures var t := FilterFastqs(cfg, r1, r2).1; |t.r1o| == |t.r2o|
    ensures var t := FilterFastqs(cfg, r1, r2).1;
      forall i :: 0 <= i < |t.r1o| ==> WrittenFromAccepted(cfg, r1, r2, t.checked, t.r1o[i], t.r2o[i])
  {
    var h := Trace(cfg, r1, r2, 0).decisions;
    var t := Summary(h);
    SummaryFacts(h);
    RoutedFromHistory(h, true);
    forall i | 0 <= i < |t.r1o|
      ensures WrittenFromAccepted(cfg, r1, r2, t.checked, t.r1o[i], t.r2o[i])
    {
      var j :| 0 <= j < |h| && Routed(h, true)[i] == h[j] && h[j].kept;
      RoutedAt(cfg, r1, r2, j);
    }
  }

  /**
   * Each record in r1f sits beside its mate in r2f: both were written
   * untouched from one checked pair that some criterion rejected.
   */
  lemma RemovedRecordsArePairs(cfg: Config, r1: seq<CString>, r2: seq<CString>)
    ensures var t := FilterFastqs(cfg, r1, r2).1; |t.r1f| == |t.r2f|
    ensures var t := FilterFastqs(cfg, r1, r2).1;
      forall i :: 0 <= i < |t.r1f| ==> WrittenFromRejected(cfg, r1, r2, t.checked, t.r1f[i], t.r2f[i])
  {
    var h := Trace(cfg, r1, r2, 0).decisions;
    var t := Summary(h);
    SummaryFacts(h);
    RoutedFromHistory(h, false);
    forall i | 0 <= i < |t.r1f|
      ensures WrittenFromRejected(cfg, r1, r2, t.checked, t.r1f[i], t.r2f[i])
    {
      var j :| 0 <= j < |h| && Routed(h, false)[i] == h[j] && !h[j].kept;
      RoutedAt(cfg, r1, r2, j);
    }
  }

  /**
   * Every checked pair is written whole to one side: to r1o and r2o
   * through the include functions when every criterion accepts it, else
   * untouched to r1f and r2f.
   */
  lemma CheckedPairsAreWritten(cfg: Config, r1: seq<CString>, r2: seq<CString>, j: nat)
    requires j < FilterFastqs(cfg, r1, r2).1.checked
    ensures var t := FilterFastqs(cfg, r1, r2).1;
      || (ChainVerdict(cfg.chain, PairAt(r1, r2, j)) == Some(true)
          && Include(cfg.trimR1, ReadAt(r1, j)).Some? && Include(cfg.trimR2, ReadAt(r2, j)).Some?
          && SideBySide(t.r1o, t.r2o, Include(cfg.trimR1, ReadAt(r1, j)).value, Include(cfg.trimR2, ReadAt(r2, j)).value))
      || (ChainVerdict(cfg.chain, PairAt(r1, r2, j)) == Some(false)
          && SideBySide(t.r1f, t.r2f, Record(ReadAt(r1, j)), Record(ReadAt(r2, j))))
  {
    var h := Trace(cfg, r1, r2, 0).decisions;
    var t := Summary(h);
    SummaryFacts(h);
    HistoryIsRouted(h, h[j].kept);
    RoutedAt(cfg, r1, r2, j);
    if h[j].kept {
      var i :| 0 <= i < |Routed(h, true)| && Routed(h, true)[i] == h[j];
      assert t.r1o[i] == h[j].out1;
    } else {
      var i :| 0 <= i < |Routed(h, false)| && Routed(h, false)[i] == h[j];
      assert t.r1f[i] == h[j].out1;
    }
  }

  /** Every pair kept by a chain holding Length(threshold) has both sequence lines longer than threshold. */
  lemma KeptPassLength(cfg: Config, r1: seq<CString>, r2: seq<CString>, threshold: nat, j: nat)
    requires Length(threshold) in cfg.chain
    requires j < FilterFastqs(cfg, r1, r2).1.checked
    requires ChainVerdict(cfg.chain, PairAt(r1, r2, j)) == Some(true)
    ensures |Line(r1, 4 * j + 1)| > threshold && |Line(r2, 4 * j + 1)| > threshold
  {
    var c :| 0 <= c < |cfg.chain| && cfg.chain[c] == Length(threshold);
    IncludedMeansEveryCriterion(cfg.chain, PairAt(r1, r2, j), c);
  }

  /**
   * The end-of-input test: with at least one header empty, the run
   * succeeds when both are empty and otherwise reports the line count
   * 4 * checked at which the inputs stop matching.
   */
  method EndStatus(h1: CString, h2: CString, checked: nat) returns (outcome: Outcome)
    requires h1 == "" || h2 == ""
    ensures outcome == if h1 == "" && h2 == "" then Finished else Desync(4 * checked)
  {
    var retVal := 0;
    if FirstChar(h1) != FirstChar(h2) {
      retVal := 1;  // one input ended before the other
    }
    outcome := if retVal == 1 then Desync(4 * checked) else Finished;
  }

  class FilterEngine {
    const cfg: Config
    var readPairsChecked: nat
    var readPairsRemoved: nat
    var readPairsRemaining: nat
    var r1o: seq<string>
    var r2o: seq<string>
    var r1f: seq<string>
    var r2f: seq<string>
    /** Every pair routed so far. */
    ghost var history: seq<Decision>

    function Current(): Totals
      reads this
    {
      Totals(readPairsChecked, readPairsRemoved, readPairsRemaining, r1o, r2o, r1f, r2f)
    }

    ghost predicate Valid()
      reads this
    {
      Current() == Summary(history)
    }

    /** The zeroed globals main starts with, and empty output files. */
    constructor (cfg: Config)
      ensures Valid() && history == [] && this.cfg == cfg
    {
      this.cfg := cfg;
      readPairsChecked, readPairsRemoved, readPairsRemaining := 0, 0, 0;
      r1o, r2o, r1f, r2f := [], [], [], [];
      history := [];
    }

    /**
     * One iteration's criteria loop and routing: both records go to the
     * kept outputs (trimmed as configured) or both, untouched, to the
     * removed outputs. Returns false, changing nothing, where the C code
     * has undefined behaviour.
     */
    method RoutePair(readPair: ReadPair) returns (defined: bool)
      requires Valid()
      modifies this
      ensures Valid()
      ensures defined == Decide(cfg, readPair).Some?
      ensures history == old(history) + (if defined then [Decide(cfg, readPair).value] else [])
    {
      var readIncluded := EvaluateChain(cfg.chain, readPair);
      if readIncluded.None? {
        DecideUndefined(cfg, readPair);
        return false;
      }
      if readIncluded.value {
        var out1 := IncludeRead(readPair.r1, cfg.trimR1);
        var out2 := IncludeRead(readPair.r2, cfg.trimR2);
        if out1.None? || out2.None? {
          DecideUndefined(cfg, readPair);
          return false;
        }
        DecideKept(cfg, readPair, out1.value, out2.value);
        Emit(true, out1.value, out2.value, readPair);
      } else {
        DecideRemoved(cfg, readPair);
        Emit(false, Record(readPair.r1), Record(readPair.r2), readPair);
      }
      return true;
    }

    /** The counter updates and the two writes for one pair, to the kept or to the removed outputs. */
    method Emit(kept: bool, out1: string, out2: string, ghost pair: ReadPair)
      requires Valid()
      modifies this
      ensures Valid()
      ensures history == old(history) + [Decision(pair, kept, out1, out2)]
    {
      ghost var d := Decision(pair, kept, out1, out2);
      ghost var t := Current();
      SummaryStep(history, d);
      readPairsChecked := readPairsChecked + 1;
      if kept {
        readPairsRemaining := readPairsRemaining + 1;
        r1o := r1o + [out1];
        r2o := r2o + [out2];
      } else {
        readPairsRemoved := readPairsRemoved + 1;
        r1f := r1f + [out1];
        r2f := r2f + [out2];
      }
      assert Current() == Route(t, d);
      history := history + [d];
    }

    /**
     * One pass of the loop at pair k: reads the two headers, stops on an
     * empty one (or an undefined pair), else routes the pair and lets the
     * trace move on to pair k + 1.
     */
    method Advance(r1: seq<CString>, r2: seq<CString>, k: nat) returns (done: Option<Outcome>)
      requires Valid()
      modifies this
      ensures Valid()
      ensures done.None? ==> 4 * k < |r1|
      ensures done.None? ==>
        && |history| == |old(history)| + 1
        && |Trace(cfg, r1, r2, k).decisions| == 1 + |Trace(cfg, r1, r2, k + 1).decisions|
        && Trace(cfg, r1, r2, k).stop == Trace(cfg, r1, r2, k + 1).stop
        && history + Trace(cfg, r1, r2, k + 1).decisions == old(history) + Trace(cfg, r1, r2, k).decisions
      ensures done.Some? ==>
        && history == old(history)
        && Trace(cfg, r1, r2, k).decisions == []
        && done.value == match Trace(cfg, r1, r2, k).stop
          case BothEnded => Finished
          case OneEnded => Desync(4 * readPairsChecked)
          case Fault => Undefined(4 * k)
    {
      var readPair := ReadPair(ReadAt(r1, k), ReadAt(r2, k));
      if readPair.r1.header == "" || readPair.r2.header == "" {
        var outcome := EndStatus(readPair.r1.header, readPair.r2.header, readPairsChecked);
        TraceEnd(cfg, r1, r2, k);
        return Some(outcome);
      }
      ghost var before := history;
      var defined := RoutePair(readPair);
      if !defined {
        TraceFault(cfg, r1, r2, k);
        return Some(Undefined(4 * k));
      }
      ghost var d := history[|before|];
      assert history == before + [d];
      TraceStep(cfg, r1, r2, k, d, before);
      return None;
    }

    /**
     * The loop of filter_fastqs over the two streams of lines: on return
     * every pair before the first empty header (or the first undefined
     * one) is routed, and the outcome says how the loop ended.
     */
    method Run(r1: seq<CString>, r2: seq<CString>) returns (outcome: Outcome)
      requires Valid()
      modifies this
      ensures Valid()
      ensures history == old(history) + Trace(cfg, r1, r2, 0).decisions
      ensures outcome == Conclude(Trace(cfg, r1, r2, 0), readPairsChecked)
      ensures old(history) == [] ==> (outcome, Current()) == FilterFastqs(cfg, r1, r2)
    {
      ghost var whole := Trace(cfg, r1, r2, 0);
      ghost var tail := whole;
      var k := 0;
      while true
        invariant Valid()
        invariant tail == Trace(cfg, r1, r2, k)
        invariant old(history) + whole.decisions == history + tail.decisions
        invariant whole.stop == tail.stop
        invariant |whole.decisions| == k + |tail.decisions|
        invariant readPairsChecked == |old(history)| + k
        decreases |r1| - 4 * k
      {
        var done := Advance(r1, r2, k);
        if done.Some? {
          outcome := done.value;
          break;
        }
        tail := Trace(cfg, r1, r2, k + 1);
        k := k + 1;
      }
      FreshRun(cfg, r1, r2, history, whole, Current(), outcome, old(history));
    }
  }
}
