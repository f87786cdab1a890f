/**
 Whole runs of Light Path diagnostics. The servicelog records and closes events on
 its own; lp_diag hears of each through a notification that may be delivered later, in any
 order, and more than once. A notification is late when it tells of an event after lp_diag
 has been told of the repair that closed it.
 */
module LightPathRuns {
  import opened LightPath
  import opened LocationCode
  import opened Wrappers

  datatype Status = Open | ClosedBy(repair: nat)

  /** An event of the log; told once lp_diag has been notified of it. */
  datatype Record = Record(event: Event, status: Status, told: bool)

  /** pending holds the repairs lp_diag has not been notified of yet. */
  datatype World = World(log: seq<Record>, pending: set<nat>, fault: seq<bool>)

  datatype Step =
    | Log(event: Event)
    | Close(repair: nat, which: set<nat>)
    | TellEvent(record: nat)
    | TellRepair(repair: nat)

  /** The events with a given status, in log order. */
  function EventsWith(log: seq<Record>, status: Status): (events: seq<Event>)
    ensures forall e :: e in events <==> exists k :: 0 <= k < |log| && log[k].status == status && log[k].event == e
  {
    if log == [] then []
    else
      var rest := EventsWith(log[..|log| - 1], status);
      if log[|log| - 1].status == status then rest + [log[|log| - 1].event] else rest
  }

  /** Open, or closed by a repair lp_diag has yet to hear of. */
  predicate Alive(w: World, k: nat) {
    k < |w.log| && (w.log[k].status.Open? || w.log[k].status.repair in w.pending)
  }

  predicate Enabled(w: World, s: Step) {
    match s
    case Log(_) => true
    case Close(r, _) => r !in w.pending && forall k :: 0 <= k < |w.log| ==> w.log[k].status != ClosedBy(r)
    case TellEvent(k) => k < |w.log|
    case TellRepair(_) => true
  }

  function Do(mode: Mode, codes: seq<string>, w: World, s: Step): World
    requires Enabled(w, s)
  {
    match s
    case Log(e) => w.(log := w.log + [Record(e, Open, false)])
    case Close(r, which) =>
      var closed := seq(|w.log|, k requires 0 <= k < |w.log| =>
        if k in which && w.log[k].status.Open? then w.log[k].(status := ClosedBy(r)) else w.log[k]);
      w.(log := closed, pending := w.pending + {r})
    case TellEvent(k) =>
      w.(log := w.log[k := w.log[k].(told := true)], fault := AfterService(mode, codes, w.fault, w.log[k].event))
    case TellRepair(r) =>
      w.(pending := w.pending - {r},
         fault := AfterRepair(mode, codes, w.fault, EventsWith(w.log, ClosedBy(r)), EventsWith(w.log, Open)))
  }

  /** The world after a run from an empty log with every indicator off; None when a step is out of order. */
  function Run(mode: Mode, codes: seq<string>, steps: seq<Step>): Option<World> {
    if steps == [] then Some(World([], {}, seq(|codes|, _ => false)))
    else
      match Run(mode, codes, steps[..|steps| - 1])
      case None => None
      case Some(w) => if Enabled(w, steps[|steps| - 1]) then Some(Do(mode, codes, w, steps[|steps| - 1])) else None
  }

  /** Every notification has been delivered. */
  predicate Settled(w: World) {
    w.pending == {} && forall k :: 0 <= k < |w.log| && w.log[k].status.Open? ==> w.log[k].told
  }

  // What the two notifications do to one indicator.

  /** A notification of this event turns the indicator on. */
  predicate Lights(mode: Mode, codes: seq<string>, e: Event, i: nat) {
    if mode == LightPath then Asks(LitBy(codes, e), i) else i == 0 && Supported(e)
  }

  /** A notification of this repair turns the indicator off. */
  predicate Darkens(mode: Mode, codes: seq<string>, w: World, r: nat, i: nat) {
    var repaired, open := EventsWith(w.log, ClosedBy(r)), EventsWith(w.log, Open);
    if mode == LightPath then PutsOut(Covered(codes, repaired), Covered(codes, open), i)
    else i == 0 && repaired != [] && open == []
  }

  /** A repair step keeps the indicator on for an open event like this. */
  predicate Needs(mode: Mode, codes: seq<string>, e: Event, i: nat) {
    if mode == LightPath then Asks(CoveredBy(codes, e), i) else i == 0
  }

  lemma TellsOneIndicator(mode: Mode, codes: seq<string>, w: World, s: Step, i: nat)
    requires i < |w.fault| && Enabled(w, s)
    ensures |Do(mode, codes, w, s).fault| == |w.fault|
    ensures Do(mode, codes, w, s).fault[i] <==>
            match s
            case TellEvent(k) => w.fault[i] || Lights(mode, codes, w.log[k].event, i)
            case TellRepair(r) => w.fault[i] && !Darkens(mode, codes, w, r, i)
            case _ => w.fault[i]
  {
  }

  // What an event must be like.

  /** The white space after a code, as far as it fits the buffer, does not decide whether the list has the code. */
  predicate HarmlessBlanks(codes: seq<string>, c: Callout) {
    c.location.Some? ==>
      var code := Cut(c.location.value);
      var trimmed := TrimTrailSpace(code);
      trimmed == code || (trimmed !in codes && code !in codes)
  }

  predicate BlanksAreHarmless(codes: seq<string>, e: Event) {
    Supported(e) ==> forall c :: c in e.callouts ==> HarmlessBlanks(codes, c)
  }

  /** Every callout has a priority the service step acts upon. */
  predicate AllPrioritiesHandled(e: Event) {
    Supported(e) ==> forall c :: c in e.callouts ==> c.priority in Priorities(e)
  }

  /** If a repair step counts the event for the indicator, a service step of it lights the indicator. */
  predicate LitWhenCovered(codes: seq<string>, e: Event, i: nat) {
    Asks(CoveredBy(codes, e), i) ==> Asks(LitBy(codes, e), i)
  }

  /** No callout resolves to the attention indicator itself. */
  predicate AttentionIsSeparate(codes: seq<string>, e: Event) {
    Lamp(0) !in CoveredBy(codes, e)
  }

  predicate Logged(w: World, p: Event -> bool) {
    forall k :: 0 <= k < |w.log| ==> p(w.log[k].event)
  }

  /** In Light Path mode: what the events must be like for the steps to agree about indicator i. */
  predicate Suitable(mode: Mode, codes: seq<string>, e: Event, i: nat) {
    mode == LightPath ==> BlanksAreHarmless(codes, e) && (i == 0 ==> AttentionIsSeparate(codes, e))
  }

  /** Both steps resolve a callout alike exactly when its trailing white space is harmless. */
  lemma CalloutTargetsAgree(codes: seq<string>, c: Callout)
    ensures ServiceTarget(codes, c) == RepairTarget(codes, c) <==> HarmlessBlanks(codes, c)
  {
    if c.location.Some? {
      BlanksMatter(codes, Cut(c.location.value));
    }
  }

  lemma LitIsCovered(codes: seq<string>, e: Event)
    requires BlanksAreHarmless(codes, e)
    ensures LitBy(codes, e) <= CoveredBy(codes, e)
    ensures AllPrioritiesHandled(e) ==>
              LitBy(codes, e) == CoveredBy(codes, e) && forall i: nat :: LitWhenCovered(codes, e, i)
  {
    forall c | Supported(e) && c in e.callouts
      ensures ServiceTarget(codes, c) == RepairTarget(codes, c)
    {
      CalloutTargetsAgree(codes, c);
    }
    if Supported(e) && AllPrioritiesHandled(e) && e.callouts != [] {
      forall t | t in CoveredBy(codes, e)
        ensures t in LitBy(codes, e)
      {
        var c :| c in e.callouts && RepairTarget(codes, c) == t;
        assert c.priority in Priorities(e);
      }
    }
  }

  lemma LightsWhatItNeeds(mode: Mode, codes: seq<string>, e: Event, i: nat)
    requires mode == LightPath ==> BlanksAreHarmless(codes, e)
    ensures Lights(mode, codes, e, i) ==> Needs(mode, codes, e, i)
  {
    if mode == LightPath {
      LitIsCovered(codes, e);
    }
  }

  // The two bounds on one indicator.

  /** Every open event lp_diag knows of keeps its indicators on. */
  ghost predicate Kept(mode: Mode, codes: seq<string>, w: World, i: nat)
    requires i < |w.fault|
  {
    forall k :: 0 <= k < |w.log| && w.log[k].status.Open? && w.log[k].told && Lights(mode, codes, w.log[k].event, i)
      ==> w.fault[i]
  }

  /** An event that is alive accounts for the indicator. */
  ghost predicate Needed(mode: Mode, codes: seq<string>, w: World, i: nat) {
    exists k: nat :: Alive(w, k) && Needs(mode, codes, w.log[k].event, i)
  }

  /** Step j of a run tells late of an event that lights the indicator. */
  predicate TellsLate(mode: Mode, codes: seq<string>, steps: seq<Step>, j: nat, i: nat) {
    j < |steps| && steps[j].TellEvent? && Run(mode, codes, steps[..j]).Some? &&
    var w, k := Run(mode, codes, steps[..j]).value, steps[j].record;
    k < |w.log| && !Alive(w, k) && Lights(mode, codes, w.log[k].event, i)
  }

  /** Step j of a run tells of a repair that turns the indicator off. */
  predicate TurnsOff(mode: Mode, codes: seq<string>, steps: seq<Step>, j: nat, i: nat) {
    j < |steps| && steps[j].TellRepair? && Run(mode, codes, steps[..j]).Some? &&
    Darkens(mode, codes, Run(mode, codes, steps[..j]).value, steps[j].repair, i)
  }

  /** An event was told late, and no repair told since turned its indicator off. */
  predicate LateSince(mode: Mode, codes: seq<string>, steps: seq<Step>, j: nat, i: nat) {
    TellsLate(mode, codes, steps, j, i) && forall m :: j < m < |steps| ==> !TurnsOff(mode, codes, steps, m, i)
  }

  ghost predicate LitLate(mode: Mode, codes: seq<string>, steps: seq<Step>, i: nat) {
    exists j: nat :: LateSince(mode, codes, steps, j, i)
  }

  lemma StepKeeps(mode: Mode, codes: seq<string>, w: World, s: Step, i: nat)
    requires |w.fault| == |codes| && i < |codes| && Enabled(w, s)
    requires Logged(w, e => Suitable(mode, codes, e, i))
    requires Kept(mode, codes, w, i)
    ensures |Do(mode, codes, w, s).fault| == |codes| && Kept(mode, codes, Do(mode, codes, w, s), i)
  {
    var w' := Do(mode, codes, w, s);
    TellsOneIndicator(mode, codes, w, s, i);
    forall k | 0 <= k < |w'.log| && w'.log[k].status.Open? && w'.log[k].told &&
               Lights(mode, codes, w'.log[k].event, i)
      ensures w'.fault[i]
    {
      assert w.log[k].event == w'.log[k].event && w.log[k].status.Open?;
      if s.TellRepair? {
        OpenEventIsKept(mode, codes, w, s.repair, i, k);
      }
    }
  }

  /** No repair turns an indicator off that an open event lights. */
  lemma OpenEventIsKept(mode: Mode, codes: seq<string>, w: World, r: nat, i: nat, k: nat)
    requires Logged(w, e => Suitable(mode, codes, e, i))
    requires k < |w.log| && w.log[k].status.Open? && Lights(mode, codes, w.log[k].event, i)
    ensures !Darkens(mode, codes, w, r, i)
  {
    var e, open := w.log[k].event, EventsWith(w.log, Open);
    assert e in open && Suitable(mode, codes, e, i);
    if mode == LightPath {
      LitIsCovered(codes, e);
      assert CoveredBy(codes, e) <= Covered(codes, open);
      if i == 0 {
        NoAttentionLamp(codes, w, ClosedBy(r));
      }
    }
  }

  lemma NoAttentionLamp(codes: seq<string>, w: World, status: Status)
    requires Logged(w, e => Suitable(LightPath, codes, e, 0))
    ensures Lamp(0) !in Covered(codes, EventsWith(w.log, status))
  {
    forall e | e in EventsWith(w.log, status)
      ensures Lamp(0) !in CoveredBy(codes, e)
    {
      var k :| 0 <= k < |w.log| && w.log[k].event == e;
      assert Suitable(LightPath, codes, w.log[k].event, 0);
    }
  }

  lemma EventStays(mode: Mode, codes: seq<string>, w: World, s: Step, k: nat)
    requires Enabled(w, s) && k < |w.log|
    ensures var w' := Do(mode, codes, w, s); k < |w'.log| && w'.log[k].event == w.log[k].event
    ensures Alive(w, k) && !(s.TellRepair? && w.log[k].status == ClosedBy(s.repair)) ==>
              Alive(Do(mode, codes, w, s), k)
    ensures w.log[k].status.Open? ==> Alive(Do(mode, codes, w, s), k)
  {
  }

  /** A step leaves an indicator needed that it leaves on, unless it is told late. */
  lemma StepLeavesNeeded(mode: Mode, codes: seq<string>, w: World, s: Step, i: nat)
    requires |w.fault| == |codes| && i < |codes| && Enabled(w, s)
    requires mode == LightPath ==> Logged(w, e => BlanksAreHarmless(codes, e))
    requires |Do(mode, codes, w, s).fault| == |codes| && Do(mode, codes, w, s).fault[i]
    requires Needed(mode, codes, w, i) || (!w.fault[i] && (s.TellEvent? ==> Alive(w, s.record)))
    ensures Needed(mode, codes, Do(mode, codes, w, s), i)
  {
    TellsOneIndicator(mode, codes, w, s, i);
    if !w.fault[i] {
      LightsWhatItNeeds(mode, codes, w.log[s.record].event, i);
    }
    NeedStays(mode, codes, w, s, i);
  }

  lemma NeedStays(mode: Mode, codes: seq<string>, w: World, s: Step, i: nat)
    requires Enabled(w, s) && Needed(mode, codes, w, i) && (s.TellRepair? ==> !Darkens(mode, codes, w, s.repair, i))
    ensures Needed(mode, codes, Do(mode, codes, w, s), i)
  {
    var k: nat :| Alive(w, k) && Needs(mode, codes, w.log[k].event, i);
    EventStays(mode, codes, w, s, k);
    if s.TellRepair? && w.log[k].status == ClosedBy(s.repair) {
      RepairLeavesNeeded(mode, codes, w, s.repair, i, k);
    } else {
      assert Alive(Do(mode, codes, w, s), k);
    }
  }

  /** A repair step leaves an indicator on only for an event that stays alive. */
  lemma RepairLeavesNeeded(mode: Mode, codes: seq<string>, w: World, r: nat, i: nat, k: nat)
    requires k < |w.log| && w.log[k].status == ClosedBy(r) && Needs(mode, codes, w.log[k].event, i)
    requires !Darkens(mode, codes, w, r, i)
    ensures Needed(mode, codes, Do(mode, codes, w, TellRepair(r)), i)
  {
    var w' := Do(mode, codes, w, TellRepair(r));
    var repaired, open := EventsWith(w.log, ClosedBy(r)), EventsWith(w.log, Open);
    assert w.log[k].event in repaired;
    if mode == LightPath {
      var t := if Lamp(i) in CoveredBy(codes, w.log[k].event) then Lamp(i) else CheckLog;
      assert t in Covered(codes, repaired) && t in Covered(codes, open);
      var e :| e in open && t in CoveredBy(codes, e);
      var j: nat :| j < |w.log| && w.log[j].status == Open && w.log[j].event == e;
      assert Alive(w', j) && Needs(mode, codes, w'.log[j].event, i);
    } else {
      assert open[0] in open;
      var j: nat :| j < |w.log| && w.log[j].status == Open && w.log[j].event == open[0];
      assert Alive(w', j) && Needs(mode, codes, w'.log[j].event, i);
    }
  }

  // Runs.

  lemma StepKeepsEvents(mode: Mode, codes: seq<string>, w: World, s: Step, p: Event -> bool)
    requires Enabled(w, s) && Logged(Do(mode, codes, w, s), p)
    ensures Logged(w, p)
  {
    var w' := Do(mode, codes, w, s);
    forall k | 0 <= k < |w.log|
      ensures p(w.log[k].event)
    {
      assert w'.log[k].event == w.log[k].event;
    }
  }

  lemma {:induction false} RunKeeps(mode: Mode, codes: seq<string>, steps: seq<Step>, w: World, i: nat)
    requires i < |codes| && Run(mode, codes, steps) == Some(w)
    requires Logged(w, e => Suitable(mode, codes, e, i))
    ensures |w.fault| == |codes| && Kept(mode, codes, w, i)
    decreases |steps|
  {
    if steps != [] {
      var before, s := steps[..|steps| - 1], steps[|steps| - 1];
      var w0 := Run(mode, codes, before).value;
      StepKeepsEvents(mode, codes, w0, s, e => Suitable(mode, codes, e, i));
      RunKeeps(mode, codes, before, w0, i);
      StepKeeps(mode, codes, w0, s, i);
    }
  }

  /** One more step: what was told late before it still is, unless the step turns the indicator off. */
  lemma LateOneMore(mode: Mode, codes: seq<string>, before: seq<Step>, s: Step, steps: seq<Step>, j: nat, i: nat)
    requires steps == before + [s] && j < |before|
    ensures LateSince(mode, codes, steps, j, i) <==>
            LateSince(mode, codes, before, j, i) && !TurnsOff(mode, codes, steps, |before|, i)
  {
    forall m | 0 <= m < |before|
      ensures TellsLate(mode, codes, steps, m, i) <==> TellsLate(mode, codes, before, m, i)
      ensures TurnsOff(mode, codes, steps, m, i) <==> TurnsOff(mode, codes, before, m, i)
    {
      assert steps[..m] == before[..m] && steps[m] == before[m];
    }
  }

  /** After every run, an indicator that is on is needed, or was lit late. */
  lemma {:induction false} RunExplains(mode: Mode, codes: seq<string>, steps: seq<Step>, w: World, i: nat)
    requires i < |codes| && Run(mode, codes, steps) == Some(w)
    requires mode == LightPath ==> Logged(w, e => BlanksAreHarmless(codes, e))
    ensures |w.fault| == |codes|
    ensures w.fault[i] ==> Needed(mode, codes, w, i) || LitLate(mode, codes, steps, i)
    decreases |steps|
  {
    if steps != [] {
      var n := |steps| - 1;
      var before, s := steps[..n], steps[n];
      var w0 := Run(mode, codes, before).value;
      if mode == LightPath {
        StepKeepsEvents(mode, codes, w0, s, e => BlanksAreHarmless(codes, e));
      }
      RunExplains(mode, codes, before, w0, i);
      TellsOneIndicator(mode, codes, w0, s, i);
      assert steps == before + [s];
      if w.fault[i] {
        if w0.fault[i] && !Needed(mode, codes, w0, i) {
          var j: nat :| LateSince(mode, codes, before, j, i);
          LateOneMore(mode, codes, before, s, steps, j, i);
        } else if !w0.fault[i] && !Alive(w0, s.record) {
          assert TellsLate(mode, codes, steps, n, i);
          assert LateSince(mode, codes, steps, n, i);
        } else {
          StepLeavesNeeded(mode, codes, w0, s, i);
        }
      }
    }
  }

  /** The last step of a run. */
  lemma LastStep(mode: Mode, codes: seq<string>, steps: seq<Step>, w: World)
    returns (before: seq<Step>, s: Step, w0: World)
    requires steps != [] && Run(mode, codes, steps) == Some(w)
    ensures steps == before + [s] && Run(mode, codes, before) == Some(w0) && Enabled(w0, s)
    ensures w == Do(mode, codes, w0, s)
    ensures forall i :: TurnsOff(mode, codes, steps, |before|, i) <==>
                          s.TellRepair? && Darkens(mode, codes, w0, s.repair, i)
    ensures forall i :: TellsLate(mode, codes, steps, |before|, i) ==>
                          s.TellEvent? && Lights(mode, codes, w0.log[s.record].event, i)
  {
    before, s := steps[..|steps| - 1], steps[|steps| - 1];
    w0 := Run(mode, codes, before).value;
  }

  /** What was lit late stays on until a repair turns it off. */
  lemma {:induction false} LateStaysOn(mode: Mode, codes: seq<string>, steps: seq<Step>, w: World, j: nat, i: nat)
    requires i < |codes| && Run(mode, codes, steps) == Some(w) && LateSince(mode, codes, steps, j, i)
    ensures |w.fault| == |codes| && w.fault[i]
    decreases |steps|
  {
    var before, s, w0 := LastStep(mode, codes, steps, w);
    RunKeepsSize(mode, codes, before, w0);
    TellsOneIndicator(mode, codes, w0, s, i);
    if j < |before| {
      LateOneMore(mode, codes, before, s, steps, j, i);
      LateStaysOn(mode, codes, before, w0, j, i);
    }
  }

  lemma {:induction false} RunKeepsSize(mode: Mode, codes: seq<string>, steps: seq<Step>, w: World)
    requires Run(mode, codes, steps) == Some(w)
    ensures |w.fault| == |codes|
    decreases |steps|
  {
    if steps != [] {
      RunKeepsSize(mode, codes, steps[..|steps| - 1], Run(mode, codes, steps[..|steps| - 1]).value);
    }
  }

  /** No notification of the run was late. */
  predicate InOrder(mode: Mode, codes: seq<string>, steps: seq<Step>) {
    forall j :: 0 <= j < |steps| && steps[j].TellEvent? && Run(mode, codes, steps[..j]).Some? ==>
      Alive(Run(mode, codes, steps[..j]).value, steps[j].record)
  }

  lemma InOrderIsNotLate(mode: Mode, codes: seq<string>, steps: seq<Step>, i: nat)
    requires InOrder(mode, codes, steps)
    ensures !LitLate(mode, codes, steps, i)
  {
  }

  lemma SettledNeedsAreOpen(mode: Mode, codes: seq<string>, w: World, i: nat)
    requires Settled(w) && Needed(mode, codes, w, i)
    ensures mode == LightPath ==> Asks(Covered(codes, EventsWith(w.log, Open)), i)
    ensures mode == GuidingLight ==> i == 0 && EventsWith(w.log, Open) != []
  {
    var k: nat :| Alive(w, k) && Needs(mode, codes, w.log[k].event, i);
    assert w.log[k].event in EventsWith(w.log, Open);
  }

  /** An event that is open and known in a settled world. */
  lemma OpenEventIsTold(w: World, e: Event) returns (k: nat)
    requires Settled(w) && e in EventsWith(w.log, Open)
    ensures k < |w.log| && w.log[k].status.Open? && w.log[k].told && w.log[k].event == e
  {
    k :| k < |w.log| && w.log[k].status == Open && w.log[k].event == e;
  }

  /**
   Once every notification is delivered, the indicators follow the open events: one an open
   event lights is on, and one that is on is covered by an open event or was lit late. When no open
   event is covered without lighting the indicator the two meet, and the indicator is on exactly
   when an open event asks for it or a late notification does.
   */
  lemma IndicatorsFollowOpenEvents(codes: seq<string>, steps: seq<Step>, w: World, i: nat)
    requires i < |codes| && Run(LightPath, codes, steps) == Some(w) && Settled(w)
    requires Logged(w, e => Suitable(LightPath, codes, e, i))
    ensures |w.fault| == |codes|
    ensures forall e :: e in EventsWith(w.log, Open) && Asks(LitBy(codes, e), i) ==> w.fault[i]
    ensures w.fault[i] ==>
              Asks(Covered(codes, EventsWith(w.log, Open)), i) || LitLate(LightPath, codes, steps, i)
    ensures (forall e :: e in EventsWith(w.log, Open) ==> LitWhenCovered(codes, e, i)) ==>
              (w.fault[i] <==>
               Asks(Covered(codes, EventsWith(w.log, Open)), i) || LitLate(LightPath, codes, steps, i))
  {
    var open := EventsWith(w.log, Open);
    RunKeeps(LightPath, codes, steps, w, i);
    forall e | e in open && Asks(LitBy(codes, e), i)
      ensures w.fault[i]
    {
      var k := OpenEventIsTold(w, e);
      assert Lights(LightPath, codes, w.log[k].event, i);
    }
    SuitableIsHarmless(codes, w, i);
    RunExplains(LightPath, codes, steps, w, i);
    if w.fault[i] && Needed(LightPath, codes, w, i) {
      SettledNeedsAreOpen(LightPath, codes, w, i);
    }
    if LitLate(LightPath, codes, steps, i) {
      var j: nat :| LateSince(LightPath, codes, steps, j, i);
      LateStaysOn(LightPath, codes, steps, w, j, i);
    }
    if Asks(Covered(codes, open), i) && forall e :: e in open ==> LitWhenCovered(codes, e, i) {
      AskedIsLit(codes, open, i);
    }
  }

  lemma SuitableIsHarmless(codes: seq<string>, w: World, i: nat)
    requires Logged(w, e => Suitable(LightPath, codes, e, i))
    ensures Logged(w, e => BlanksAreHarmless(codes, e))
  {
    forall k | 0 <= k < |w.log|
      ensures BlanksAreHarmless(codes, w.log[k].event)
    {
      assert Suitable(LightPath, codes, w.log[k].event, i);
    }
  }

  /** What a repair step counts for the open events, a service step has lit for one of them. */
  lemma AskedIsLit(codes: seq<string>, open: seq<Event>, i: nat)
    requires forall e :: e in open ==> LitWhenCovered(codes, e, i)
    requires Asks(Covered(codes, open), i)
    ensures exists e :: e in open && Asks(LitBy(codes, e), i)
  {
    var t := if Lamp(i) in Covered(codes, open) then Lamp(i) else CheckLog;
    var e :| e in open && t in CoveredBy(codes, e);
    assert LitWhenCovered(codes, e, i);
  }

  /** When no notification is late, an indicator is on exactly when an open event asks for it. */
  lemma InOrderRunsFollowOpenEvents(codes: seq<string>, steps: seq<Step>, w: World, i: nat)
    requires i < |codes| && Run(LightPath, codes, steps) == Some(w) && Settled(w)
    requires InOrder(LightPath, codes, steps)
    requires Logged(w, e => Suitable(LightPath, codes, e, i))
    requires forall e :: e in EventsWith(w.log, Open) ==> LitWhenCovered(codes, e, i)
    ensures |w.fault| == |codes| && (w.fault[i] <==> Asks(Covered(codes, EventsWith(w.log, Open)), i))
  {
    IndicatorsFollowOpenEvents(codes, steps, w, i);
    InOrderIsNotLate(LightPath, codes, steps, i);
  }

  /** The same, told from the callouts: what the open events lead to is on, and nothing else. */
  lemma InOrderRunsFollowCallouts(codes: seq<string>, steps: seq<Step>, w: World, i: nat)
    requires i < |codes| && Run(LightPath, codes, steps) == Some(w) && Settled(w)
    requires InOrder(LightPath, codes, steps)
    requires Logged(w, e => Suitable(LightPath, codes, e, i))
    requires forall e :: e in EventsWith(w.log, Open) ==> LitWhenCovered(codes, e, i)
    ensures var open := EventsWith(w.log, Open);
            |w.fault| == |codes| &&
            (w.fault[i] <==> SomePoints(codes, open, i) || (i == 0 && SomePointsNowhere(codes, open)))
  {
    InOrderRunsFollowOpenEvents(codes, steps, w, i);
    CoveredPoints(codes, EventsWith(w.log, Open), i);
  }

  /** At every moment of a run, even while notifications are outstanding, what is on is explained. */
  lemma {:induction false} IndicatorsAreExplainedThroughout(
      codes: seq<string>, steps: seq<Step>, n: nat, w: World, i: nat)
    requires i < |codes| && n <= |steps| && Run(LightPath, codes, steps).Some?
    requires Logged(Run(LightPath, codes, steps).value, e => BlanksAreHarmless(codes, e))
    requires Run(LightPath, codes, steps[..n]) == Some(w)
    ensures |w.fault| == |codes|
    ensures w.fault[i] ==> Needed(LightPath, codes, w, i) || LitLate(LightPath, codes, steps[..n], i)
    decreases |steps|
  {
    if n == |steps| {
      assert steps[..n] == steps;
      RunExplains(LightPath, codes, steps, w, i);
    } else {
      var before, s := steps[..|steps| - 1], steps[|steps| - 1];
      StepKeepsEvents(LightPath, codes, Run(LightPath, codes, before).value, s, e => BlanksAreHarmless(codes, e));
      assert before[..n] == steps[..n];
      IndicatorsAreExplainedThroughout(codes, before, n, w, i);
    }
  }

  /**
   In Guiding Light mode only the attention indicator is ever on. In a settled world it is on while a
   supported event is open, and when it is on some event, of any kind, is open or was told late.
   */
  lemma GuidingLightRun(codes: seq<string>, steps: seq<Step>, w: World, i: nat)
    requires i < |codes| && Run(GuidingLight, codes, steps) == Some(w)
    ensures |w.fault| == |codes| && (w.fault[i] ==> i == 0)
    ensures Settled(w) && i == 0 ==>
              (AnySupported(EventsWith(w.log, Open)) ==> w.fault[i]) &&
              (w.fault[i] ==> EventsWith(w.log, Open) != [] || LitLate(GuidingLight, codes, steps, i)) &&
              (LitLate(GuidingLight, codes, steps, i) ==> w.fault[i])
  {
    RunKeeps(GuidingLight, codes, steps, w, i);
    RunExplains(GuidingLight, codes, steps, w, i);
    if Settled(w) && i == 0 {
      if AnySupported(EventsWith(w.log, Open)) {
        var e :| e in EventsWith(w.log, Open) && Supported(e);
        var k := OpenEventIsTold(w, e);
        assert Lights(GuidingLight, codes, w.log[k].event, i);
      }
      if w.fault[i] && Needed(GuidingLight, codes, w, i) {
        SettledNeedsAreOpen(GuidingLight, codes, w, i);
      }
      if LitLate(GuidingLight, codes, steps, i) {
        var j: nat :| LateSince(GuidingLight, codes, steps, j, i);
        LateStaysOn(GuidingLight, codes, steps, w, j, i);
      }
    }
  }

  // Where the assumptions are needed.

  function Dark(codes: seq<string>): seq<bool> {
    seq(|codes|, _ => false)
  }

  /**
   A single event with harmless blanks, opened and repaired, leaves every indicator off. Of any event,
   an indicator stays on exactly when a callout lights it and no callout is found to need it.
   */
  lemma CycleReturnsToDark(codes: seq<string>, e: Event)
    ensures var after := AfterRepair(LightPath, codes, AfterService(LightPath, codes, Dark(codes), e), [e], []);
            (BlanksAreHarmless(codes, e) ==> after == Dark(codes)) &&
            forall i :: 0 <= i < |codes| ==> (after[i] <==> Asks(LitBy(codes, e), i) && !Asks(CoveredBy(codes, e), i))
  {
    var after := AfterRepair(LightPath, codes, AfterService(LightPath, codes, Dark(codes), e), [e], []);
    OneEvent(codes, e);
    assert Covered(codes, []) == {};
    if BlanksAreHarmless(codes, e) {
      LitIsCovered(codes, e);
      assert after == Dark(codes);
    }
  }

  const NETWORK: Source := Os(Some("net"), Some("e1000e"))

  lemma OneCallout(codes: seq<string>, source: Source, c: Callout)
    requires Supported(Event(source, [c])) && c.priority in Priorities(Event(source, [c]))
    ensures LitBy(codes, Event(source, [c])) == {ServiceTarget(codes, c)}
    ensures CoveredBy(codes, Event(source, [c])) == {RepairTarget(codes, c)}
  {
    assert c in [c];
  }

  lemma OneEvent(codes: seq<string>, e: Event)
    ensures Covered(codes, [e]) == CoveredBy(codes, e)
  {
    assert e in [e];
  }

  /**
   An event with one callout, opened and repaired, leaves an indicator on (other than the attention
   indicator) exactly when it is the one nearest to the code without the white space after it, and
   the list has the code with the white space or without it.
   */
  lemma RepairMissesIndicator(codes: seq<string>, source: Source, c: Callout, i: nat)
    requires Supported(Event(source, [c])) && c.priority in Priorities(Event(source, [c])) && 0 < i < |codes|
    ensures var e := Event(source, [c]);
            AfterRepair(LightPath, codes, AfterService(LightPath, codes, Dark(codes), e), [e], [])[i] <==>
            c.location.Some? && c.location.value != "" &&
            var code := Cut(c.location.value);
            var trimmed := TrimTrailSpace(code);
            trimmed != code && (trimmed in codes || code in codes) &&
            Nearest(codes, trimmed).Some? && Nearest(codes, trimmed).value.index == i
  {
    var e := Event(source, [c]);
    OneCallout(codes, source, c);
    OneEvent(codes, e);
    assert Covered(codes, []) == {};
    CalloutTargetsAgree(codes, c);
  }

  /** A trailing blank makes the repair step miss the part: its indicator stays on with nothing open. */
  lemma TrailingBlankLeavesIndicatorOn()
    ensures var codes, e := ["U1", "U1-P1"], Event(NETWORK, [Callout('H', Some("U1-P1 "))]);
            AfterRepair(LightPath, codes, AfterService(LightPath, codes, Dark(codes), e), [e], [])[1]
  {
  }

  /**
   When a repair is the only thing that changed, the attention indicator still follows the
   open events exactly when the repair does not separate the two ways of asking for it: one of
   check log and the attention entry repaired for good while the other is still open.
   */
  lemma AttentionAfterRepair(codes: seq<string>, fault: seq<bool>, repaired: seq<Event>, open: seq<Event>)
    requires |codes| > 0 && |fault| == |codes|
    requires fault[0] <==> Asks(Covered(codes, repaired + open), 0)
    ensures var r, o := Covered(codes, repaired), Covered(codes, open);
            (AfterRepair(LightPath, codes, fault, repaired, open)[0] <==> Asks(o, 0)) <==>
            !(Lamp(0) in r - o && CheckLog in o) && !(CheckLog in r - o && Lamp(0) in o)
  {
    assert Covered(codes, repaired + open) == Covered(codes, repaired) + Covered(codes, open);
  }

  /** A repaired event whose callout names the attention entry itself hides an open check log request. */
  lemma SharedAttentionGoesOff()
    ensures var codes := ["U1"];
            var logged, named := Event(NETWORK, []), Event(NETWORK, [Callout('H', Some("U1"))]);
            var lit := AfterService(LightPath, codes, AfterService(LightPath, codes, Dark(codes), logged), named);
            lit == [true] &&
            Asks(Covered(codes, [logged]), 0) &&
            AfterRepair(LightPath, codes, lit, [named], [logged]) == [false]
  {
    var codes, c := ["U1"], Callout('H', Some("U1"));
    assert RepairTarget(codes, c) == Lamp(0);
    OneCallout(codes, NETWORK, c);
    OneEvent(codes, Event(NETWORK, [c]));
    OneEvent(codes, Event(NETWORK, []));
  }

  /** The callouts of a platform event that the service step ignores ask for no more than the others. */
  predicate IgnoredAskNothing(codes: seq<string>, e: Event, i: nat) {
    forall c :: c in e.callouts && c.priority != 'H' && Asks({RepairTarget(codes, c)}, i) ==> Asks(LitBy(codes, e), i)
  }

  /**
   After the service step of a platform event, an indicator matches its callouts exactly when those the
   step ignores ask for nothing more: that is, when it is not covered without being lit.
   */
  lemma PlatformEventMatches(codes: seq<string>, e: Event, i: nat)
    requires e.source == Rtas && BlanksAreHarmless(codes, e) && i < |codes|
    ensures (AfterService(LightPath, codes, Dark(codes), e)[i] <==> Asks(CoveredBy(codes, e), i)) <==>
            IgnoredAskNothing(codes, e, i)
    ensures IgnoredAskNothing(codes, e, i) <==> LitWhenCovered(codes, e, i)
  {
    LitIsCovered(codes, e);
    assert AfterService(LightPath, codes, Dark(codes), e)[i] <==> Asks(LitBy(codes, e), i);
    IgnoredOrLit(codes, e, i);
  }

  lemma IgnoredOrLit(codes: seq<string>, e: Event, i: nat)
    requires e.source == Rtas && BlanksAreHarmless(codes, e)
    ensures IgnoredAskNothing(codes, e, i) <==> LitWhenCovered(codes, e, i)
  {
    if IgnoredAskNothing(codes, e, i) && Asks(CoveredBy(codes, e), i) && e.callouts != [] {
      var t := if Lamp(i) in CoveredBy(codes, e) then Lamp(i) else CheckLog;
      var c :| c in e.callouts && RepairTarget(codes, c) == t;
      if c.priority == 'H' {
        assert c.priority in Priorities(e);
        CalloutTargetsAgree(codes, c);
      }
    }
    forall c | LitWhenCovered(codes, e, i) && c in e.callouts && Asks({RepairTarget(codes, c)}, i)
      ensures Asks(LitBy(codes, e), i)
    {
      assert RepairTarget(codes, c) in CoveredBy(codes, e);
    }
  }

  lemma RunOneMore(mode: Mode, codes: seq<string>, steps: seq<Step>, s: Step, w: World)
    requires Run(mode, codes, steps) == Some(w) && Enabled(w, s)
    ensures Run(mode, codes, steps + [s]) == Some(Do(mode, codes, w, s))
  {
    assert (steps + [s])[..|steps|] == steps;
  }

  /** A run that logs one event, closes it and hears only of the repair. */
  lemma RepairHeardFirst(codes: seq<string>, e: Event)
    ensures Run(LightPath, codes, [Log(e), Close(1, {0}), TellRepair(1)]) ==
            Some(World([Record(e, ClosedBy(1), false)], {}, Dark(codes)))
  {
    var w0 := World([], {}, Dark(codes));
    var w1 := Do(LightPath, codes, w0, Log(e));
    assert w1.log == [Record(e, Open, false)];
    var w2 := Do(LightPath, codes, w1, Close(1, {0}));
    assert w2.log == [Record(e, ClosedBy(1), false)];
    OneRecord(Record(e, ClosedBy(1), false), Open);
    var w3 := Do(LightPath, codes, w2, TellRepair(1));
    assert w3.pending == {} && w3.fault == Dark(codes);
    RunOneMore(LightPath, codes, [], Log(e), w0);
    RunOneMore(LightPath, codes, [] + [Log(e)], Close(1, {0}), w1);
    RunOneMore(LightPath, codes, [] + [Log(e)] + [Close(1, {0})], TellRepair(1), w2);
    assert [] + [Log(e)] + [Close(1, {0})] + [TellRepair(1)] == [Log(e), Close(1, {0}), TellRepair(1)];
  }

  lemma OneRecord(r: Record, status: Status)
    ensures EventsWith([r], status) == if r.status == status then [r.event] else []
  {
    var log := [r];
    assert log[..|log| - 1] == [];
  }

  /** Telling a repair turns off what only the event it repaired asks for. */
  lemma RepairTurnsOff(codes: seq<string>, e: Event, fault: seq<bool>, i: nat)
    requires i < |codes| == |fault| && Asks(LitBy(codes, e), i) && BlanksAreHarmless(codes, e)
    ensures var w := World([Record(e, ClosedBy(1), true)], {}, fault);
            var w' := Do(LightPath, codes, w, TellRepair(1));
            |w'.fault| == |codes| && !w'.fault[i]
  {
    var w := World([Record(e, ClosedBy(1), true)], {}, fault);
    OneRecord(w.log[0], ClosedBy(1));
    OneRecord(w.log[0], Open);
    TellsOneIndicator(LightPath, codes, w, TellRepair(1), i);
    LitIsCovered(codes, e);
    OneEvent(codes, e);
    assert Covered(codes, []) == {};
  }

  /**
   An event told only after its repair leaves its indicator on with nothing open, until a repair
   that covers it is told after that: telling the same repair again is enough.
   */
  lemma LateNotificationLeavesIndicatorOn(codes: seq<string>, e: Event, i: nat)
    requires i < |codes| && Asks(LitBy(codes, e), i) && BlanksAreHarmless(codes, e)
    ensures var steps := [Log(e), Close(1, {0}), TellRepair(1)] + [TellEvent(0)];
            var late, again := Run(LightPath, codes, steps), Run(LightPath, codes, steps + [TellRepair(1)]);
            late.Some? && Settled(late.value) && EventsWith(late.value.log, Open) == [] &&
            |late.value.fault| == |codes| && late.value.fault[i] &&
            again.Some? && |again.value.fault| == |codes| && !again.value.fault[i]
  {
    var heard := [Log(e), Close(1, {0}), TellRepair(1)];
    var w := World([Record(e, ClosedBy(1), false)], {}, Dark(codes));
    var w' := Do(LightPath, codes, w, TellEvent(0));
    assert w' == World([Record(e, ClosedBy(1), true)], {}, w'.fault);
    OneRecord(w'.log[0], Open);
    RepairHeardFirst(codes, e);
    RunOneMore(LightPath, codes, heard, TellEvent(0), w);
    TellsOneIndicator(LightPath, codes, w, TellEvent(0), i);
    RunOneMore(LightPath, codes, heard + [TellEvent(0)], TellRepair(1), w');
    RepairTurnsOff(codes, e, w'.fault, i);
  }
}
