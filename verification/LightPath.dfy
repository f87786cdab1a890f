/**
 Light Path diagnostics: what one service event or one repair event does to the
 fault indicators. The indicator list is fixed; its first entry is the system
 attention (check log) indicator. An indicator is known by its position in the list.
 */
module LightPath {
  import opened CString
  import opened LocationCode
  import opened Wrappers

  type CStr = s: string | NUL !in s

  datatype Source =
    | Os(subsystem: Option<string>, driver: Option<string>)
    | Enclosure(model: Option<string>)
    | Rtas
    | Unhandled

  datatype Callout = Callout(priority: char, location: Option<CStr>)

  datatype Event = Event(source: Source, callouts: seq<Callout>)

  datatype Mode = GuidingLight | LightPath

  const FRU_CALLOUT_PRIORITY: string := "HMABCL"

  const SUPPORTED_DEVICES: set<(string, string)> := {("net", "cxgb3"), ("net", "e1000e")}

  const SUPPORTED_ENCLOSURES: set<string> := {"5888", "EDR1", "5887", "ESLL", "ESLS"}

  predicate Supported(e: Event) {
    match e.source
    case Os(Some(subsystem), Some(driver)) => (subsystem, driver) in SUPPORTED_DEVICES
    case Enclosure(Some(model)) => model in SUPPORTED_ENCLOSURES
    case Rtas => true
    case _ => false
  }

  function TrimTrailSpace(s: string): (t: string)
    ensures t <= s
    ensures t != "" ==> !IsSpace(t[|t| - 1])
    ensures forall k :: |t| <= k < |s| ==> IsSpace(s[k])
  {
    if s != "" && IsSpace(s[|s| - 1]) then TrimTrailSpace(s[..|s| - 1]) else s
  }

  /** What a callout asks for: the check log indicator, or the indicator at a position. */
  datatype Target = CheckLog | Lamp(index: nat)

  function TargetOf(codes: seq<string>, location: string): Target {
    match Nearest(codes, location)
    case None => CheckLog
    case Some(hit) => Lamp(hit.index)
  }

  /** The target the service step resolves a callout to. */
  function ServiceTarget(codes: seq<string>, c: Callout): Target {
    match c.location
    case None => CheckLog
    case Some(l) => if l == "" then CheckLog else TargetOf(codes, TrimTrailSpace(Cut(l)))
  }

  /** The target the repair step resolves a callout to: trailing blanks stay. */
  function RepairTarget(codes: seq<string>, c: Callout): Target {
    match c.location
    case None => CheckLog
    case Some(l) => if l == "" then CheckLog else TargetOf(codes, Cut(l))
  }

  /**
   Trailing white space changes where a code leads exactly when the indicator list has the code with
   it or without it.
   */
  lemma BlanksMatter(codes: seq<string>, location: string)
    ensures var t := TrimTrailSpace(location);
            TargetOf(codes, t) == TargetOf(codes, location) <==> t == location || (t !in codes && location !in codes)
  {
    var t, h := TrimTrailSpace(location), LastHyphen(location);
    SameHyphen(location, t);
    if h >= 0 {
      assert t[..h] == location[..h];
    }
  }

  lemma SameHyphen(location: string, t: string)
    requires t <= location && forall k :: |t| <= k < |location| ==> location[k] != '-'
    ensures LastHyphen(t) == LastHyphen(location)
  {
  }

  /** Only the first priority of a platform event is acted upon. */
  function Priorities(e: Event): string {
    if e.source.Rtas? then "H" else FRU_CALLOUT_PRIORITY
  }

  function ServiceTargets(codes: seq<string>, callouts: seq<Callout>, priorities: string): set<Target> {
    set c | c in callouts && c.priority in priorities :: ServiceTarget(codes, c)
  }

  function RepairTargets(codes: seq<string>, callouts: seq<Callout>): set<Target> {
    set c | c in callouts :: RepairTarget(codes, c)
  }

  /** The targets a service step turns on. */
  function LitBy(codes: seq<string>, e: Event): set<Target> {
    if !Supported(e) then {}
    else if e.callouts == [] then {CheckLog}
    else ServiceTargets(codes, e.callouts, Priorities(e))
  }

  /** The targets an event counts for in a repair step, whether repaired or still open. */
  function CoveredBy(codes: seq<string>, e: Event): set<Target> {
    if !Supported(e) then {}
    else if e.callouts == [] then {CheckLog}
    else RepairTargets(codes, e.callouts)
  }

  function Covered(codes: seq<string>, events: seq<Event>): (ts: set<Target>)
    ensures forall t :: t in ts <==> exists e :: e in events && t in CoveredBy(codes, e)
  {
    set e, t | e in events && t in CoveredBy(codes, e) :: t
  }

  /** Whether a target set asks for the indicator at position i. */
  predicate Asks(ts: set<Target>, i: nat) {
    Lamp(i) in ts || (i == 0 && CheckLog in ts)
  }

  predicate AnySupported(events: seq<Event>) {
    exists e :: e in events && Supported(e)
  }

  /** The indicators after some targets are lit. */
  predicate LitWith(fault: seq<bool>, after: seq<bool>, ts: set<Target>) {
    |after| == |fault| && forall i :: 0 <= i < |fault| ==> after[i] == (fault[i] || Lamp(i) in ts)
  }

  /** The indicators after a service step. */
  function AfterService(mode: Mode, codes: seq<string>, fault: seq<bool>, e: Event): (after: seq<bool>)
    ensures |after| == |fault|
  {
    if mode == LightPath then
      seq(|fault|, i requires 0 <= i < |fault| => fault[i] || Asks(LitBy(codes, e), i))
    else
      seq(|fault|, i requires 0 <= i < |fault| => fault[i] || (i == 0 && Supported(e)))
  }

  /** Whether a repair step of these events turns position i off. */
  predicate PutsOut(repaired: set<Target>, open: set<Target>, i: nat) {
    (Lamp(i) in repaired && Lamp(i) !in open) ||
    (i == 0 && CheckLog in repaired && CheckLog !in open)
  }

  /** The indicators after a repair step. */
  function AfterRepair(mode: Mode, codes: seq<string>, fault: seq<bool>, repaired: seq<Event>, open: seq<Event>)
    : (after: seq<bool>)
    ensures |after| == |fault|
  {
    if mode == LightPath then
      var r, o := Covered(codes, repaired), Covered(codes, open);
      seq(|fault|, i requires 0 <= i < |fault| => fault[i] && !PutsOut(r, o, i))
    else
      seq(|fault|, i requires 0 <= i < |fault| => fault[i] && !(i == 0 && repaired != [] && open == []))
  }

  /** The indicators named by a list of location codes. */
  function LampsOf(codes: seq<string>, frus: seq<string>): set<Target> {
    set s | s in frus && s in codes :: Lamp(FirstMatch(codes, s).value)
  }

  /** Removes trailing white space from the string in the buffer. */
  method TrimInPlace(s: array<char>)
    requires Terminated(s[..])
    modifies s
    ensures Terminated(s[..])
    ensures Str(s[..]) == TrimTrailSpace(old(Str(s[..])))
  {
    ghost var t := Str(s[..]);
    var n: int := Strlen(s);
    if n == 0 {
      return;
    }
    var end := n - 1;
    while end >= 0 && IsSpace(s[end])
      invariant -1 <= end < n
      invariant TrimTrailSpace(t) == TrimTrailSpace(t[..end + 1])
    {
      assert t[..end + 1][..end] == t[..end];
      end := end - 1;
    }
    s[end + 1] := NUL;
    assert s[..][..end + 1] == t[..end + 1];
    StrIs(s[..], end + 1);
  }

  /** Whether a list of location codes holds this one. */
  method HasCode(frus: seq<string>, code: string) returns (found: bool)
    ensures found <==> code in frus
  {
    found := false;
    var f := 0;
    while f < |frus| && !found
      invariant 0 <= f <= |frus|
      invariant found <==> code in frus[..f]
    {
      found := frus[f] == code;
      f := f + 1;
    }
  }

  class Panel {
    const codes: seq<string>
    const mode: Mode
    var fault: seq<bool>

    predicate Valid()
      reads this
    {
      |fault| == |codes| && |codes| > 0
    }

    constructor (codes: seq<string>, mode: Mode)
      requires |codes| > 0
      ensures Valid() && this.codes == codes && this.mode == mode
      ensures fault == seq(|codes|, _ => false)
    {
      this.codes := codes;
      this.mode := mode;
      fault := seq(|codes|, _ => false);
    }

    /** Reads the indicator first and writes it only when it differs. */
    method SetFaultIndicator(i: nat, on: bool)
      requires Valid() && i < |codes|
      modifies this`fault
      ensures fault == old(fault)[i := on]
    {
      if fault[i] != on {
        fault := fault[i := on];
      }
    }

    /** The indicator nearest to a callout, as the service step finds it. */
    method ServiceLocation(callout: Callout) returns (led: Option<nat>)
      ensures match ServiceTarget(codes, callout)
              case CheckLog => led == None
              case Lamp(i) => led == Some(i)
    {
      if callout.location.None? || callout.location.value == "" {
        return None;
      }
      var location := new char[LOCATION_LENGTH];
      CopyTerminated(location, callout.location.value);
      TrimInPlace(location);
      var found, truncated := GetFruIndicator(codes, location);
      return found;
    }

    /** Turns on the indicators of the callouts of one priority. */
    method EventFruCallout(callouts: seq<Callout>, priority: char, attn: bool) returns (attnOn: bool)
      requires Valid()
      modifies this`fault
      ensures Valid()
      ensures var ts := ServiceTargets(codes, callouts, [priority]);
              attnOn == (attn || CheckLog in ts) &&
              LitWith(old(fault), fault, ts)
    {
      attnOn := attn;
      var k := 0;
      while k < |callouts|
        invariant 0 <= k <= |callouts| && Valid()
        invariant var ts := ServiceTargets(codes, callouts[..k], [priority]);
                  attnOn == (attn || CheckLog in ts) &&
                  LitWith(old(fault), fault, ts)
      {
        var callout := callouts[k];
        ServiceTargetsStep(codes, callouts, k, priority);
        k := k + 1;
        if callout.priority != priority {
          continue;
        }
        var led := ServiceLocation(callout);
        if led.None? {
          attnOn := true;
          continue;
        }
        SetFaultIndicator(led.value, true);
      }
      assert callouts[..k] == callouts;
    }

    /** Analyses a service event: lp_diag -e. */
    method ParseServiceEvent(event: Event)
      requires Valid()
      modifies this`fault
      ensures Valid()
      ensures fault == AfterService(mode, codes, old(fault), event)
    {
      if !Supported(event) {
        return;
      }
      var attnOn := false;
      if mode == LightPath {
        if event.callouts != [] {
          if !event.source.Rtas? {
            var i := 0;
            while i < |FRU_CALLOUT_PRIORITY|
              invariant 0 <= i <= |FRU_CALLOUT_PRIORITY| && Valid()
              invariant var ts := ServiceTargets(codes, event.callouts, FRU_CALLOUT_PRIORITY[..i]);
                        attnOn == (CheckLog in ts) &&
                        LitWith(old(fault), fault, ts)
            {
              ServiceTargetsSplit(codes, event.callouts, i);
              attnOn := EventFruCallout(event.callouts, FRU_CALLOUT_PRIORITY[i], attnOn);
              i := i + 1;
            }
            assert FRU_CALLOUT_PRIORITY[..i] == FRU_CALLOUT_PRIORITY;
          } else {
            attnOn := EventFruCallout(event.callouts, 'H', attnOn);
          }
        } else {
          attnOn := true;
        }
        if attnOn {
          SetFaultIndicator(0, true);
        }
      } else {
        SetFaultIndicator(0, true);
      }
    }

    /** The code of the indicator nearest to a callout, as the repair step finds it. */
    method RepairLocation(callout: Callout) returns (code: Option<string>)
      ensures match RepairTarget(codes, callout)
              case CheckLog => code == None
              case Lamp(i) => code.Some? && FirstMatch(codes, code.value) == Some(i)
    {
      if callout.location.None? || callout.location.value == "" {
        return None;
      }
      var location := new char[LOCATION_LENGTH];
      CopyTerminated(location, callout.location.value);
      var led, truncated := GetFruIndicator(codes, location);
      if led.None? {
        return None;
      }
      var n := Strlen(location);
      assert location[..n] == Str(location[..]);
      return Some(location[..n]);
    }

    /** Collects the nearest indicator codes of an event's callouts. */
    method BuildCalloutLocCode(event: Event, frus0: seq<string>, attn0: bool)
      returns (frus: seq<string>, attn: bool)
      requires Distinct(frus0) && forall s :: s in frus0 ==> s in codes
      ensures Distinct(frus) && frus0 <= frus && forall s :: s in frus ==> s in codes
      ensures var ts := if event.callouts == [] then {CheckLog} else RepairTargets(codes, event.callouts);
              attn == (attn0 || CheckLog in ts) &&
              LampsOf(codes, frus) == LampsOf(codes, frus0) + (ts - {CheckLog})
    {
      frus, attn := frus0, attn0;
      ghost var lamps := LampsOf(codes, frus0);
      if event.callouts == [] {
        attn := true;
        return;
      }
      var callouts := event.callouts;
      var k := 0;
      ghost var ts: set<Target> := {};
      while k < |callouts|
        invariant 0 <= k <= |callouts| && ts == RepairTargets(codes, callouts[..k])
        invariant Distinct(frus) && frus0 <= frus && forall s :: s in frus ==> s in codes
        invariant attn == (attn0 || CheckLog in ts) && LampsOf(codes, frus) == lamps + (ts - {CheckLog})
      {
        RepairTargetsStep(codes, callouts, k);
        OneMoreTarget(lamps, ts, RepairTarget(codes, callouts[k]));
        ts := ts + {RepairTarget(codes, callouts[k])};
        frus, attn := AddCallout(callouts[k], frus, attn);
        k := k + 1;
      }
      assert callouts[..k] == callouts;
    }

    /** Adds the nearest indicator of one callout, or asks for the check log indicator. */
    method AddCallout(callout: Callout, frus0: seq<string>, attn0: bool) returns (frus: seq<string>, attn: bool)
      requires Distinct(frus0) && forall s :: s in frus0 ==> s in codes
      ensures Distinct(frus) && frus0 <= frus && forall s :: s in frus ==> s in codes
      ensures var t := RepairTarget(codes, callout);
              attn == (attn0 || t == CheckLog) && LampsOf(codes, frus) == LampsOf(codes, frus0) + ({t} - {CheckLog})
    {
      var code := RepairLocation(callout);
      if code.None? {
        return frus0, true;
      }
      attn := attn0;
      frus := AddFru(frus0, code.value);
    }

    /** Adds a code at the end of the list unless the list has it. */
    method AddFru(frus0: seq<string>, code: string) returns (frus: seq<string>)
      requires code in codes && Distinct(frus0) && forall s :: s in frus0 ==> s in codes
      ensures Distinct(frus) && frus0 <= frus && forall s :: s in frus ==> s in codes
      ensures LampsOf(codes, frus) == LampsOf(codes, frus0) + {Lamp(FirstMatch(codes, code).value)}
    {
      LampsStep(codes, frus0, code);
      var found := HasCode(frus0, code);
      frus := if found then frus0 else frus0 + [code];
    }

    /** Turns off the indicator of a repaired part. */
    method RepairFruCallout(fru: string, attnDisable: bool) returns (attn: bool)
      requires Valid()
      modifies this`fault
      ensures Valid()
      ensures match FirstMatch(codes, fru)
              case Some(i) => fault == old(fault)[i := false] && attn == attnDisable
              case None => fault == old(fault) && attn
    {
      attn := attnDisable;
      var led := GetIndicatorForLocCode(codes, fru);
      if led.Some? {
        SetFaultIndicator(led.value, false);
      } else {
        attn := true;
      }
    }

    /** Collects the indicator codes of the supported events of a list. */
    method CollectFrus(events: seq<Event>) returns (frus: seq<string>, attn: bool)
      ensures Distinct(frus) && forall s :: s in frus ==> s in codes
      ensures attn <==> CheckLog in Covered(codes, events)
      ensures LampsOf(codes, frus) == Covered(codes, events) - {CheckLog}
    {
      frus, attn := [], false;
      var k := 0;
      while k < |events|
        invariant 0 <= k <= |events|
        invariant Distinct(frus) && forall s :: s in frus ==> s in codes
        invariant attn <==> CheckLog in Covered(codes, events[..k])
        invariant LampsOf(codes, frus) == Covered(codes, events[..k]) - {CheckLog}
      {
        CoveredStep(codes, events, k);
        if Supported(events[k]) {
          frus, attn := BuildCalloutLocCode(events[k], frus, attn);
        }
        k := k + 1;
      }
      assert events[..k] == events;
    }

    /** Analyses a repair event: lp_diag -r, given the events it closed and those still open. */
    method ParseRepairEvent(repaired: seq<Event>, open: seq<Event>)
      requires Valid()
      modifies this`fault
      ensures Valid()
      ensures fault == AfterRepair(mode, codes, old(fault), repaired, open)
    {
      if repaired == [] {
        return;
      }
      if mode == LightPath {
        var rFrus, attnDisable := CollectFrus(repaired);
        var oFrus, attnKeep := CollectFrus(open);
        var k := 0;
        while k < |rFrus|
          invariant 0 <= k <= |rFrus| && Valid()
          invariant attnDisable <==> CheckLog in Covered(codes, repaired)
          invariant forall i :: 0 <= i < |fault| ==>
                      fault[i] == (old(fault)[i] &&
                                   !(Lamp(i) in LampsOf(codes, rFrus[..k]) && Lamp(i) !in LampsOf(codes, oFrus)))
        {
          var fru := rFrus[k];
          LampsStep(codes, rFrus[..k], fru);
          assert rFrus[..k + 1] == rFrus[..k] + [fru];
          var locMatch := HasCode(oFrus, fru);
          LampNamed(codes, oFrus, fru);
          k := k + 1;
          if locMatch {
            continue;
          }
          attnDisable := RepairFruCallout(fru, attnDisable);
        }
        assert rFrus[..k] == rFrus;
        if !attnKeep && attnDisable {
          SetFaultIndicator(0, false);
        }
      } else if open == [] {
        SetFaultIndicator(0, false);
      }
    }
  }

  // The sets the loops above build, one element at a time.

  lemma ServiceTargetsStep(codes: seq<string>, callouts: seq<Callout>, k: nat, priority: char)
    requires k < |callouts|
    ensures ServiceTargets(codes, callouts[..k + 1], [priority]) ==
            ServiceTargets(codes, callouts[..k], [priority]) +
            if callouts[k].priority == priority then {ServiceTarget(codes, callouts[k])} else {}
  {
    assert callouts[..k + 1] == callouts[..k] + [callouts[k]];
  }

  lemma ServiceTargetsSplit(codes: seq<string>, callouts: seq<Callout>, k: nat)
    requires k < |FRU_CALLOUT_PRIORITY|
    ensures ServiceTargets(codes, callouts, FRU_CALLOUT_PRIORITY[..k + 1]) ==
            ServiceTargets(codes, callouts, FRU_CALLOUT_PRIORITY[..k]) +
            ServiceTargets(codes, callouts, [FRU_CALLOUT_PRIORITY[k]])
  {
    assert FRU_CALLOUT_PRIORITY[..k + 1] == FRU_CALLOUT_PRIORITY[..k] + [FRU_CALLOUT_PRIORITY[k]];
  }

  lemma RepairTargetsStep(codes: seq<string>, callouts: seq<Callout>, k: nat)
    requires k < |callouts|
    ensures RepairTargets(codes, callouts[..k + 1]) ==
            RepairTargets(codes, callouts[..k]) + {RepairTarget(codes, callouts[k])}
  {
    assert callouts[..k + 1] == callouts[..k] + [callouts[k]];
  }

  lemma OneMoreTarget(lamps: set<Target>, ts: set<Target>, t: Target)
    ensures lamps + (ts - {CheckLog}) + ({t} - {CheckLog}) == lamps + (ts + {t} - {CheckLog})
  {
  }

  lemma CoveredStep(codes: seq<string>, events: seq<Event>, k: nat)
    requires k < |events|
    ensures Covered(codes, events[..k + 1]) == Covered(codes, events[..k]) + CoveredBy(codes, events[k])
  {
    assert events[..k + 1] == events[..k] + [events[k]];
  }

  lemma LampsStep(codes: seq<string>, frus: seq<string>, code: string)
    requires code in codes
    ensures LampsOf(codes, frus + [code]) == LampsOf(codes, frus) + {Lamp(FirstMatch(codes, code).value)}
    ensures code in frus ==> Lamp(FirstMatch(codes, code).value) in LampsOf(codes, frus)
  {
  }

  lemma LampNamed(codes: seq<string>, frus: seq<string>, code: string)
    requires code in codes
    ensures code in frus <==> Lamp(FirstMatch(codes, code).value) in LampsOf(codes, frus)
  {
    forall s | s in frus && s in codes && FirstMatch(codes, s) == FirstMatch(codes, code)
      ensures s == code
    {
      assert codes[FirstMatch(codes, s).value] == s && codes[FirstMatch(codes, code).value] == code;
    }
  }

  // What the steps do, told from the callouts.

  /** The part of a code up to place n is entry i of the list, the first that has it, and no longer part is listed. */
  ghost predicate LongestListed(codes: seq<string>, code: string, n: nat, i: nat) {
    Boundary(code, n) && i < |codes| && code[..n] == codes[i] && codes[i] !in codes[..i] &&
    forall m: nat :: n < m && Boundary(code, m) ==> code[..m] !in codes
  }

  ghost predicate LeadsTo(codes: seq<string>, code: string, i: nat) {
    exists n: nat :: LongestListed(codes, code, n, i)
  }

  ghost predicate LeadsNowhere(codes: seq<string>, code: string) {
    forall n: nat :: Boundary(code, n) ==> code[..n] !in codes
  }

  /** The code a step takes from a callout: up to 79 characters, without the white space after them if it trims. */
  predicate TakesCode(c: Callout, trims: bool, code: string) {
    c.location.Some? && c.location.value != "" &&
    var l := c.location.value;
    code <= l && |code| < 80 &&
    if trims then
      (code != "" ==> code[|code| - 1] !in WHITE_SPACE) &&
      forall k :: |code| <= k < |l| && k < 79 ==> l[k] in WHITE_SPACE
    else |code| == |l| || |code| == 79
  }

  /** A callout leads to entry i. */
  ghost predicate Points(codes: seq<string>, c: Callout, trims: bool, i: nat) {
    exists code: string :: TakesCode(c, trims, code) && LeadsTo(codes, code, i)
  }

  /** A callout without a location, or whose location leads to no entry. */
  ghost predicate PointsNowhere(codes: seq<string>, c: Callout, trims: bool) {
    forall code: string :: TakesCode(c, trims, code) ==> LeadsNowhere(codes, code)
  }

  lemma NearestLeads(codes: seq<string>, code: string, i: nat)
    ensures LeadsTo(codes, code, i) <==> TargetOf(codes, code) == Lamp(i)
    ensures LeadsNowhere(codes, code) <==> TargetOf(codes, code) == CheckLog
  {
    NearestIsLongestPrefix(codes, code);
    if Nearest(codes, code).Some? {
      var hit := Nearest(codes, code).value;
      assert LongestListed(codes, code, |hit.prefix|, hit.index);
    }
  }

  lemma OneCodeIsTaken(c: Callout, trims: bool, code: string)
    ensures TakesCode(c, trims, code) <==>
            c.location.Some? && c.location.value != "" &&
            code == if trims then TrimTrailSpace(Cut(c.location.value)) else Cut(c.location.value)
  {
    forall x: char
      ensures IsSpace(x) <==> x in WHITE_SPACE
    {
      SpaceIs(x);
    }
    if TakesCode(c, trims, code) {
      var cut := Cut(c.location.value);
      assert code == cut[..|code|];
      if trims {
        var t := TrimTrailSpace(cut);
        assert t == cut[..|t|] && |t| == |code|;
      }
    }
  }

  lemma TargetPoints(codes: seq<string>, c: Callout, trims: bool, i: nat)
    ensures var t := if trims then ServiceTarget(codes, c) else RepairTarget(codes, c);
            (Points(codes, c, trims, i) <==> t == Lamp(i)) && (PointsNowhere(codes, c, trims) <==> t == CheckLog)
  {
    forall code: string
      ensures TakesCode(c, trims, code) <==>
              c.location.Some? && c.location.value != "" &&
              code == if trims then TrimTrailSpace(Cut(c.location.value)) else Cut(c.location.value)
    {
      OneCodeIsTaken(c, trims, code);
    }
    if c.location.Some? && c.location.value != "" {
      var code := if trims then TrimTrailSpace(Cut(c.location.value)) else Cut(c.location.value);
      NearestLeads(codes, code, i);
      assert TakesCode(c, trims, code);
    }
  }

  /** The sources whose events are acted upon. */
  predicate FromHandledSource(e: Event) {
    e.source in [
      Enclosure(Some("5888")), Enclosure(Some("EDR1")), Enclosure(Some("5887")), Enclosure(Some("ESLL")),
      Enclosure(Some("ESLS")), Os(Some("net"), Some("cxgb3")), Os(Some("net"), Some("e1000e")), Rtas]
  }

  lemma HandledSources(e: Event)
    ensures Supported(e) <==> FromHandledSource(e)
  {
  }

  /**
   A service step leaves on what was on. It lights what a callout of a handled priority leads to, and the
   check log indicator, which is the first, when such a callout leads nowhere or there are no callouts.
   */
  lemma ServiceStepLights(codes: seq<string>, fault: seq<bool>, e: Event, i: nat)
    requires |fault| == |codes| && i < |codes|
    ensures AfterService(LightPath, codes, fault, e)[i] <==>
            fault[i] ||
            (FromHandledSource(e) &&
             ((i == 0 && e.callouts == []) ||
              exists c :: c in e.callouts && c.priority in (if e.source == Rtas then "H" else "HMABCL") &&
                (Points(codes, c, true, i) || (i == 0 && PointsNowhere(codes, c, true)))))
    ensures AfterService(GuidingLight, codes, fault, e)[i] <==> fault[i] || (FromHandledSource(e) && i == 0)
  {
    HandledSources(e);
    forall c | c in e.callouts
      ensures Points(codes, c, true, i) <==> ServiceTarget(codes, c) == Lamp(i)
      ensures PointsNowhere(codes, c, true) <==> ServiceTarget(codes, c) == CheckLog
    {
      TargetPoints(codes, c, true, i);
    }
  }

  /** A callout of the event leads to entry i. */
  ghost predicate EventPoints(codes: seq<string>, e: Event, i: nat) {
    FromHandledSource(e) && exists c :: c in e.callouts && Points(codes, c, false, i)
  }

  /** The event has no callouts, or one that leads nowhere. */
  ghost predicate EventPointsNowhere(codes: seq<string>, e: Event) {
    FromHandledSource(e) && (e.callouts == [] || exists c :: c in e.callouts && PointsNowhere(codes, c, false))
  }

  ghost predicate SomePoints(codes: seq<string>, events: seq<Event>, i: nat) {
    exists e :: e in events && EventPoints(codes, e, i)
  }

  ghost predicate SomePointsNowhere(codes: seq<string>, events: seq<Event>) {
    exists e :: e in events && EventPointsNowhere(codes, e)
  }

  /**
   A repair step turns off exactly what a repaired event leads to and no open one does; and the first
   indicator also when a repaired event asks for the check log and no open one does.
   */
  lemma RepairStepDarkens(codes: seq<string>, fault: seq<bool>, repaired: seq<Event>, open: seq<Event>, i: nat)
    requires |fault| == |codes| && i < |codes|
    ensures AfterRepair(LightPath, codes, fault, repaired, open)[i] <==>
            fault[i] &&
            !(SomePoints(codes, repaired, i) && !SomePoints(codes, open, i)) &&
            !(i == 0 && SomePointsNowhere(codes, repaired) && !SomePointsNowhere(codes, open))
    ensures AfterRepair(GuidingLight, codes, fault, repaired, open)[i] <==>
            fault[i] && (i == 0 && repaired != [] ==> open != [])
  {
    CoveredPoints(codes, repaired, i);
    CoveredPoints(codes, open, i);
  }

  lemma CoveredPoints(codes: seq<string>, events: seq<Event>, i: nat)
    ensures Lamp(i) in Covered(codes, events) <==> SomePoints(codes, events, i)
    ensures CheckLog in Covered(codes, events) <==> SomePointsNowhere(codes, events)
  {
    forall e | e in events
      ensures Lamp(i) in CoveredBy(codes, e) <==> EventPoints(codes, e, i)
      ensures CheckLog in CoveredBy(codes, e) <==> EventPointsNowhere(codes, e)
    {
      CoveredByPoints(codes, e, i);
    }
  }

  lemma CoveredByPoints(codes: seq<string>, e: Event, i: nat)
    ensures Lamp(i) in CoveredBy(codes, e) <==> EventPoints(codes, e, i)
    ensures CheckLog in CoveredBy(codes, e) <==> EventPointsNowhere(codes, e)
  {
    HandledSources(e);
    if e.callouts != [] && Supported(e) {
      forall c | c in e.callouts
        ensures Points(codes, c, false, i) <==> RepairTarget(codes, c) == Lamp(i)
        ensures PointsNowhere(codes, c, false) <==> RepairTarget(codes, c) == CheckLog
      {
        TargetPoints(codes, c, false, i);
      }
      assert CoveredBy(codes, e) == RepairTargets(codes, e.callouts);
    }
  }
}
