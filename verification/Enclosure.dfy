/** Reporting enclosure faults: element statuses, and the differences from one run to the next. */
module Enclosure {
  import opened Wrappers

  /** The status of an element: four bits. */
  type Status = c: nat | c < 16 witness 0

  const OK: Status := 1
  const CRITICAL: Status := 2
  const NONCRITICAL: Status := 3
  const NOT_INSTALLED: Status := 5

  const WARNING: nat := 4
  const ERROR: nat := 6

  /** A diagnostic page: the statuses of all elements. */
  type Page = seq<Status>

  // One page.

  function Worse(cur: Status, new': Status): Status {
    if new' == OK || new' == NOT_INSTALLED then cur
    else if (cur == OK || cur == NONCRITICAL) && new' > OK then new'
    else cur
  }

  function CompositeFrom(cur: Status, els: Page): Status
    decreases |els|
  {
    if els == [] then cur else CompositeFrom(Worse(cur, els[0]), els[1..])
  }

  /** Statuses that settle the composite: the first of them is kept. */
  predicate Settles(c: Status) {
    c == CRITICAL || c == 4 || c > NOT_INSTALLED
  }

  method CompositeStatus(els: Page) returns (s: Status)
    ensures s == CompositeFrom(OK, els)
  {
    s := OK;
    for i := 0 to |els|
      invariant CompositeFrom(s, els[i..]) == CompositeFrom(OK, els)
    {
      s := Worse(s, els[i]);
      assert els[i..][1..] == els[i + 1..];
    }
  }

  /** When no status settles the composite, it is non-critical if any element is, and otherwise fine. */
  lemma {:induction false} CompositeUnsettled(cur: Status, els: Page)
    requires cur == OK || cur == NONCRITICAL
    requires forall k :: 0 <= k < |els| ==> !Settles(els[k])
    ensures CompositeFrom(cur, els) == if NONCRITICAL in els then NONCRITICAL else cur
    decreases |els|
  {
    if els != [] {
      var cur' := Worse(cur, els[0]);
      assert !Settles(els[0]);
      assert els == [els[0]] + els[1..];
      CompositeUnsettled(cur', els[1..]);
    }
  }

  /** Otherwise it is the first status that settles it. */
  lemma {:induction false} CompositeSettled(cur: Status, els: Page, i: nat)
    requires cur == OK || cur == NONCRITICAL
    requires i < |els| && Settles(els[i]) && forall k :: 0 <= k < i ==> !Settles(els[k])
    ensures CompositeFrom(cur, els) == els[i]
    decreases |els|
  {
    if i == 0 {
      Settled(els[0], els[1..]);
    } else {
      assert !Settles(els[0]);
      CompositeSettled(Worse(cur, els[0]), els[1..], i - 1);
    }
  }

  lemma {:induction false} Settled(cur: Status, els: Page)
    requires Settles(cur)
    ensures CompositeFrom(cur, els) == cur
    decreases |els|
  {
    if els != [] {
      Settled(cur, els[1..]);
    }
  }

  predicate Graded(c: Status) {
    c == OK || c == NONCRITICAL || c == CRITICAL || c == NOT_INSTALLED
  }

  /** How bad a status is; a missing element is not at fault. */
  function Grade(c: Status): nat {
    if c == CRITICAL then 2 else if c == NONCRITICAL then 1 else 0
  }

  /** Over the graded statuses the composite is their maximum, in whatever order they come. */
  lemma CompositeIsTheWorst(els: Page)
    requires forall k :: 0 <= k < |els| ==> Graded(els[k])
    ensures var s := CompositeFrom(OK, els);
            (s == OK || s in els) && Graded(s) && s != NOT_INSTALLED &&
            forall k :: 0 <= k < |els| ==> Grade(els[k]) <= Grade(s)
  {
    if CRITICAL in els {
      var i := FirstSettled(els);
      CompositeSettled(OK, els, i);
    } else {
      assert forall k :: 0 <= k < |els| ==> els[k] != CRITICAL && !Settles(els[k]);
      CompositeUnsettled(OK, els);
    }
  }

  lemma FirstSettled(els: Page) returns (i: nat)
    requires exists k :: 0 <= k < |els| && Settles(els[k])
    ensures i < |els| && Settles(els[i]) && forall k :: 0 <= k < i ==> !Settles(els[k])
  {
    i := 0;
    while !Settles(els[i])
      invariant i < |els| && (forall k :: 0 <= k < i ==> !Settles(els[k]))
      invariant exists k :: i <= k < |els| && Settles(els[k])
      decreases |els| - i
    {
      i := i + 1;
    }
  }

  lemma CompositeIgnoresOrder(a: Page, b: Page)
    requires multiset(a) == multiset(b) && forall k :: 0 <= k < |a| ==> Graded(a[k])
    ensures CompositeFrom(OK, a) == CompositeFrom(OK, b)
  {
    forall k | 0 <= k < |b|
      ensures Graded(b[k])
    {
      assert b[k] in multiset(b) && b[k] in a;
    }
    CompositeIsTheWorst(a);
    CompositeIsTheWorst(b);
    var s, t := CompositeFrom(OK, a), CompositeFrom(OK, b);
    assert s == OK || s in multiset(a);
    assert t == OK || t in multiset(b);
  }

  /** The elements, with the one at position i first. */
  function Front(a: Page, i: nat): Page
    requires i < |a|
  {
    [a[i]] + a[..i] + a[i + 1..]
  }

  lemma FrontIsSame(a: Page, i: nat)
    requires i < |a|
    ensures multiset(Front(a, i)) == multiset(a)
  {
    assert a == a[..i] + [a[i]] + a[i + 1..];
  }

  /** With at most one status that settles the composite, its order does not matter. */
  lemma OneSettlerDecides(a: Page, b: Page)
    requires multiset(a) == multiset(b)
    requires forall x, y :: x in a && y in a && Settles(x) && Settles(y) ==> x == y
    ensures CompositeFrom(OK, a) == CompositeFrom(OK, b)
  {
    assert forall x :: x in a <==> x in multiset(a);
    assert forall x :: x in b <==> x in multiset(b);
    if k: nat :| k < |a| && Settles(a[k]) {
      var i := FirstSettled(a);
      CompositeSettled(OK, a, i);
      assert a[i] in b;
      var m: nat :| m < |b| && b[m] == a[i];
      var j := FirstSettled(b);
      CompositeSettled(OK, b, j);
      assert b[j] in a;
    } else {
      assert forall k :: 0 <= k < |b| ==> b[k] in a;
      CompositeUnsettled(OK, a);
      CompositeUnsettled(OK, b);
    }
  }

  /**
   For all statuses: the composite is the same for every order of the elements exactly when all the
   statuses beyond non-critical among them are equal.
   */
  lemma OrderMattersExactly(a: Page)
    ensures (forall b: Page :: multiset(b) == multiset(a) ==> CompositeFrom(OK, b) == CompositeFrom(OK, a)) <==>
            (forall x, y :: x in a && y in a && Settles(x) && Settles(y) ==> x == y)
  {
    if forall x, y :: x in a && y in a && Settles(x) && Settles(y) ==> x == y {
      forall b: Page | multiset(b) == multiset(a)
        ensures CompositeFrom(OK, b) == CompositeFrom(OK, a)
      {
        OneSettlerDecides(a, b);
      }
    } else {
      var x, y :| x in a && y in a && Settles(x) && Settles(y) && x != y;
      var i: nat :| i < |a| && a[i] == x;
      var j: nat :| j < |a| && a[j] == y;
      FrontIsSame(a, i);
      FrontIsSame(a, j);
      CompositeSettled(OK, Front(a, i), 0);
      CompositeSettled(OK, Front(a, j), 0);
    }
  }

  // Two pages.

  /** A part of the enclosure that is reported as one: an element, or a group of neighbouring elements. */
  datatype Part = Element(at: nat) | Group(at: nat, count: nat)

  predicate Fits(part: Part, size: nat) {
    match part
    case Element(at) => at < size
    case Group(at, count) => at + count <= size
  }

  function First(part: Part): nat {
    part.at
  }

  function After(part: Part): nat {
    if part.Element? then part.at + 1 else part.at + part.count
  }

  /** An element is worth a report when its status got worse, or no earlier page is known. */
  predicate ElementReportable(page: Page, prev: Option<Page>, at: nat)
    requires at < |page| && (prev.Some? ==> |prev.value| == |page|)
  {
    prev.Some? ==> Worse(prev.value[at], page[at]) != prev.value[at]
  }

  /** The stored status leaves room for a fault to be reported: it was fine, or less severe. */
  predicate Announces(old': Status, new': Status) {
    old' == OK || (old' == NONCRITICAL && new' == CRITICAL)
  }

  /** The severity of the event to report, or 0. */
  function Severity(s: Status): nat {
    if s == CRITICAL then ERROR else if s == NONCRITICAL then WARNING else 0
  }

  function Reported(part: Part, page: Page, prev: Option<Page>): nat
    requires Fits(part, |page|) && (prev.Some? ==> |prev.value| == |page|)
  {
    match part
    case Element(at) => if ElementReportable(page, prev, at) then Severity(page[at]) else 0
    case Group(at, count) =>
      if prev.Some? && forall k :: at <= k < at + count ==> !ElementReportable(page, prev, k) then 0
      else Severity(CompositeFrom(OK, page[at..at + count]))
  }

  method SvclogElementStatus(page: Page, prev: Option<Page>, at: nat) returns (sev: nat)
    requires at < |page| && (prev.Some? ==> |prev.value| == |page|)
    ensures sev == Reported(Element(at), page, prev)
    ensures sev != 0 <==> Grade(page[at]) > 0 && (prev.Some? ==> Announces(prev.value[at], page[at]))
    ensures sev != 0 ==> sev == if page[at] == CRITICAL then ERROR else WARNING
  {
    if !ElementReportable(page, prev, at) {
      return 0;
    }
    return Severity(page[at]);
  }

  method CompositeStatusReportable(page: Page, prev: Option<Page>, at: nat, count: nat) returns (r: bool)
    requires at + count <= |page| && (prev.Some? ==> |prev.value| == |page|)
    ensures r <==> prev.None? || exists k :: at <= k < at + count && ElementReportable(page, prev, k)
  {
    if prev.None? {
      return true;
    }
    for i := 0 to count
      invariant forall k :: at <= k < at + i ==> !ElementReportable(page, prev, k)
    {
      if ElementReportable(page, prev, at + i) {
        return true;
      }
    }
    return false;
  }

  method SvclogCompositeStatus(page: Page, prev: Option<Page>, at: nat, count: nat) returns (sev: nat)
    requires at + count <= |page| && (prev.Some? ==> |prev.value| == |page|)
    ensures sev == Reported(Group(at, count), page, prev)
  {
    var reportable := CompositeStatusReportable(page, prev, at, count);
    if !reportable {
      return 0;
    }
    var s := CompositeStatus(page[at..at + count]);
    return Severity(s);
  }

  // Runs.

  /** An event about a part. */
  datatype Event = Event(part: Part, severity: nat)

  /** The events of one run, part by part. */
  function Events(parts: seq<Part>, page: Page, prev: Option<Page>): seq<Event>
    requires forall i :: 0 <= i < |parts| ==> Fits(parts[i], |page|)
    requires prev.Some? ==> |prev.value| == |page|
  {
    if parts == [] then []
    else
      var before := Events(parts[..|parts| - 1], page, prev);
      var last := parts[|parts| - 1];
      var sev := Reported(last, page, prev);
      if sev == 0 then before else before + [Event(last, sev)]
  }

  /** The program's view of an enclosure: its parts, and the page the previous run stored. */
  class Monitor {
    const parts: seq<Part>
    const size: nat
    var stored: Option<Page>

    ghost predicate Valid()
      reads this
    {
      (forall i :: 0 <= i < |parts| ==> Fits(parts[i], size)) && (stored.Some? ==> |stored.value| == size)
    }

    constructor (parts: seq<Part>, size: nat)
      requires forall i :: 0 <= i < |parts| ==> Fits(parts[i], size)
      ensures Valid() && this.parts == parts && this.size == size && stored == None
    {
      this.parts, this.size, stored := parts, size, None;
    }

    /** Reports what got worse since the stored page, and stores the current one. */
    method ReportFaults(page: Page) returns (events: seq<Event>)
      requires Valid() && |page| == size
      modifies this
      ensures Valid() && stored == Some(page)
      ensures events == Events(parts, page, old(stored))
    {
      events := [];
      var prev := stored;
      for i := 0 to |parts|
        invariant events == Events(parts[..i], page, prev)
      {
        var sev;
        match parts[i] {
          case Element(at) => sev := SvclogElementStatus(page, prev, at);
          case Group(at, count) => sev := SvclogCompositeStatus(page, prev, at, count);
        }
        assert parts[..i + 1][..i] == parts[..i];
        if sev != 0 {
          events := events + [Event(parts[i], sev)];
        }
      }
      assert parts[..|parts|] == parts;
      stored := Some(page);
    }
  }

  predicate GoodRun(parts: seq<Part>, size: nat, pages: seq<Page>) {
    (forall i :: 0 <= i < |parts| ==> Fits(parts[i], size)) && forall k :: 0 <= k < |pages| ==> |pages[k]| == size
  }

  function Stored(pages: seq<Page>, k: nat): Option<Page>
    requires k <= |pages|
  {
    if k == 0 then None else Some(pages[k - 1])
  }

  /** The events of run k, which follows the runs of the earlier pages. */
  function EventsOfRun(parts: seq<Part>, size: nat, pages: seq<Page>, k: nat): seq<Event>
    requires GoodRun(parts, size, pages) && k < |pages|
  {
    Events(parts, pages[k], Stored(pages, k))
  }

  lemma {:induction false} EventsAreReports(parts: seq<Part>, page: Page, prev: Option<Page>, e: Event)
    requires forall i :: 0 <= i < |parts| ==> Fits(parts[i], |page|)
    requires prev.Some? ==> |prev.value| == |page|
    ensures e in Events(parts, page, prev) <==>
              e.part in parts && e.severity != 0 && Fits(e.part, |page|) && e.severity == Reported(e.part, page, prev)
    decreases |parts|
  {
    if parts != [] {
      EventsAreReports(parts[..|parts| - 1], page, prev, e);
      assert parts == parts[..|parts| - 1] + [parts[|parts| - 1]];
    }
  }

  /** How bad an element was when the run before run k stored its page; fine before the first. */
  function GradeBefore(pages: seq<Page>, k: nat, at: nat): nat
    requires k <= |pages| && forall j :: 0 <= j < |pages| ==> at < |pages[j]|
  {
    if k == 0 then 0 else Grade(pages[k - 1][at])
  }

  /** No missing or unknown statuses among the elements of a part, in any run. */
  predicate Present(pages: seq<Page>, part: Part, size: nat) {
    Fits(part, size) &&
    forall k, i :: 0 <= k < |pages| && First(part) <= i < After(part) && |pages[k]| == size ==>
      Graded(pages[k][i]) && pages[k][i] != NOT_INSTALLED
  }

  lemma WorseIsHigher(old': Status, new': Status)
    requires Graded(old') && Graded(new') && old' != NOT_INSTALLED
    ensures Worse(old', new') != old' <==> Grade(new') > Grade(old')
  {
  }

  /**
   Over any runs, a part causes an event in run k exactly when one of its elements got worse since
   run k - 1, and the event has the severity of its worst element. So a fault that stays is
   reported once, and again only after it went away or when it got worse.
   */
  lemma OneEventPerRise(parts: seq<Part>, size: nat, pages: seq<Page>, k: nat, part: Part, severity: nat)
    requires GoodRun(parts, size, pages) && k < |pages| && part in parts && Present(pages, part, size)
    ensures Event(part, severity) in EventsOfRun(parts, size, pages, k) <==>
              (exists i :: First(part) <= i < After(part) && Grade(pages[k][i]) > GradeBefore(pages, k, i)) &&
              severity == Severity(CompositeFrom(OK, pages[k][First(part)..After(part)]))
  {
    var page, prev := pages[k], Stored(pages, k);
    EventsAreReports(parts, page, prev, Event(part, severity));
    var els := page[First(part)..After(part)];
    assert forall i :: 0 <= i < |els| ==> els[i] == page[First(part) + i] && Graded(els[i]);
    CompositeIsTheWorst(els);
    forall i | First(part) <= i < After(part)
      ensures Grade(page[i]) > GradeBefore(pages, k, i) <==> ElementReportable(page, prev, i) && Grade(page[i]) > 0
      ensures Grade(page[i]) <= Grade(CompositeFrom(OK, els))
    {
      assert els[i - First(part)] == page[i];
      assert Graded(page[i]);
      if k > 0 {
        WorseIsHigher(pages[k - 1][i], page[i]);
      }
    }
    if part.Element? {
      assert els == [page[part.at]];
    }
  }

  // How often, and in what order.

  /** An element of the part got worse since the run before. */
  ghost predicate Rises(pages: seq<Page>, k: nat, part: Part, size: nat)
    requires k < |pages| && Fits(part, size) && forall j :: 0 <= j < |pages| ==> |pages[j]| == size
  {
    exists i :: First(part) <= i < After(part) && Grade(pages[k][i]) > GradeBefore(pages, k, i)
  }

  /** The severity of a part that rises: 6 when one of its elements is critical (2), and 4 otherwise. */
  ghost predicate RisesWith(pages: seq<Page>, k: nat, part: Part, size: nat, severity: nat)
    requires k < |pages| && Fits(part, size) && forall j :: 0 <= j < |pages| ==> |pages[j]| == size
  {
    Rises(pages, k, part, size) && severity == if 2 in pages[k][First(part)..After(part)] then 6 else 4
  }

  /** The events are about parts at increasing places of the list. */
  predicate Places(parts: seq<Part>, events: seq<Event>, at: seq<nat>) {
    |at| == |events| && (forall i :: 0 <= i < |at| ==> at[i] < |parts| && parts[at[i]] == events[i].part) &&
    forall i, j :: 0 <= i < j < |at| ==> at[i] < at[j]
  }

  /**
   A part without missing or unknown elements has one event when it rises, and no other; the events come
   in the order of the parts.
   */
  ghost predicate OncePerRise(parts: seq<Part>, size: nat, pages: seq<Page>, k: nat, events: seq<Event>)
    requires GoodRun(parts, size, pages) && k < |pages|
  {
    (exists at :: Places(parts, events, at)) &&
    forall part, severity :: part in parts && Present(pages, part, size) ==>
      multiset(events)[Event(part, severity)] == if RisesWith(pages, k, part, size, severity) then 1 else 0
  }

  lemma {:induction false} EventPlaces(parts: seq<Part>, page: Page, prev: Option<Page>) returns (at: seq<nat>)
    requires forall i :: 0 <= i < |parts| ==> Fits(parts[i], |page|)
    requires prev.Some? ==> |prev.value| == |page|
    ensures Places(parts, Events(parts, page, prev), at)
    decreases |parts|
  {
    at := [];
    if parts != [] {
      var n := |parts| - 1;
      var init := parts[..n];
      at := EventPlaces(init, page, prev);
      assert Places(parts, Events(init, page, prev), at);
      if Reported(parts[n], page, prev) != 0 {
        at := at + [n];
      }
    }
  }

  lemma PlacesAreDistinct(parts: seq<Part>, events: seq<Event>, at: seq<nat>)
    requires Distinct(parts) && Places(parts, events, at)
    ensures Distinct(events)
  {
    forall i, j | 0 <= i < j < |events|
      ensures events[i] != events[j]
    {
      assert at[i] < at[j] && parts[at[i]] != parts[at[j]];
    }
  }

  lemma {:induction false} CountOfDistinct(events: seq<Event>, e: Event)
    requires Distinct(events)
    ensures multiset(events)[e] == if e in events then 1 else 0
    decreases |events|
  {
    if events != [] {
      var n := |events| - 1;
      var init := events[..n];
      assert events == init + [events[n]];
      CountOfDistinct(init, e);
    }
  }

  lemma RiseHasSeverity(parts: seq<Part>, size: nat, pages: seq<Page>, k: nat, part: Part, severity: nat)
    requires GoodRun(parts, size, pages) && k < |pages| && part in parts && Present(pages, part, size)
    ensures Event(part, severity) in EventsOfRun(parts, size, pages, k) <==>
            RisesWith(pages, k, part, size, severity)
  {
    OneEventPerRise(parts, size, pages, k, part, severity);
    var els := pages[k][First(part)..After(part)];
    assert forall i :: 0 <= i < |els| ==> els[i] == pages[k][First(part) + i] && Graded(els[i]);
    CompositeIsTheWorst(els);
    if Rises(pages, k, part, size) {
      var i :| First(part) <= i < After(part) && Grade(pages[k][i]) > GradeBefore(pages, k, i);
      assert els[i - First(part)] == pages[k][i];
    }
  }

  lemma RunReportsRises(parts: seq<Part>, size: nat, pages: seq<Page>, k: nat)
    requires GoodRun(parts, size, pages) && k < |pages| && Distinct(parts)
    ensures OncePerRise(parts, size, pages, k, EventsOfRun(parts, size, pages, k))
  {
    var events := EventsOfRun(parts, size, pages, k);
    var at := EventPlaces(parts, pages[k], Stored(pages, k));
    PlacesAreDistinct(parts, events, at);
    forall part, severity | part in parts && Present(pages, part, size)
      ensures multiset(events)[Event(part, severity)] == if RisesWith(pages, k, part, size, severity) then 1 else 0
    {
      CountOfDistinct(events, Event(part, severity));
      RiseHasSeverity(parts, size, pages, k, part, severity);
    }
  }

  /** Runs the monitor on one page after the other, starting with nothing stored. */
  method Watch(parts: seq<Part>, size: nat, pages: seq<Page>) returns (history: seq<seq<Event>>)
    requires GoodRun(parts, size, pages)
    ensures |history| == |pages|
    ensures forall k :: 0 <= k < |pages| ==> history[k] == EventsOfRun(parts, size, pages, k)
    ensures Distinct(parts) ==> forall k :: 0 <= k < |pages| ==> OncePerRise(parts, size, pages, k, history[k])
  {
    var monitor := new Monitor(parts, size);
    history := [];
    for k := 0 to |pages|
      invariant fresh(monitor) && monitor.Valid() && monitor.parts == parts && monitor.size == size
      invariant monitor.stored == Stored(pages, k) && |history| == k
      invariant forall j :: 0 <= j < k ==> history[j] == EventsOfRun(parts, size, pages, j)
    {
      var events := monitor.ReportFaults(pages[k]);
      assert events == EventsOfRun(parts, size, pages, k);
      history := history + [events];
    }
    if Distinct(parts) {
      forall k | 0 <= k < |pages|
        ensures OncePerRise(parts, size, pages, k, history[k])
      {
        RunReportsRises(parts, size, pages, k);
      }
    }
  }

  /** For all statuses: which faults go unreported. A fault after a missing element is one. */
  lemma SilentFaults(page: Page, prev: Page, at: nat)
    requires |prev| == |page| && at < |page| && Grade(page[at]) > 0
    ensures Reported(Element(at), page, Some(prev)) == 0 <==>
              !Announces(prev[at], page[at])
  {
  }
}
