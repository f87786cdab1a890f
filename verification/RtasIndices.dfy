/**
 Retrieving the indicator list from firmware: section 7.3.17 of PAPR+, ibm,get-indices. A call
 returns a batch of indices in a work area; the status says whether more follow, or whether the
 list changed and the retrieval must start over.
 */
module RtasIndices {
  import opened Bytes
  import opened LocationCode
  import opened Wrappers

  const MORE_DATA: int := 1
  const SUCCESS: int := 0
  const LIST_CHANGED: int := -4
  const NOT_LISTED: int := -99

  /** An index and its location code. */
  datatype LocCode = LocCode(index: nat, code: seq<byte>)

  /** Undefined stands for a work area that is read past its end, or a code that fills its field. */
  datatype WorkArea = Listed(entries: seq<LocCode>) | Corrupt | Undefined

  function Prepend(e: LocCode, w: WorkArea): WorkArea {
    if w.Listed? then Listed([e] + w.entries) else w
  }

  /** The length of the first location code, with its terminator. */
  function CodeLength(b: seq<byte>): nat
    requires |b| >= 8
  {
    BigEndian(b[4..])
  }

  /** Whether the bytes start with an index, a length, and a code of that length that fits its field. */
  predicate FitsEntry(b: seq<byte>) {
    |b| >= 8 && CodeLength(b) < LOCATION_LENGTH && |b| >= 8 + CodeLength(b)
  }

  function EntryAt(b: seq<byte>): (e: LocCode)
    requires FitsEntry(b)
  {
    LocCode(BigEndian(b), CutAtNul(b[8..8 + CodeLength(b)]))
  }

  function AfterEntry(b: seq<byte>): seq<byte>
    requires FitsEntry(b)
  {
    b[8 + CodeLength(b)..]
  }

  /** Why no entry can be taken from the bytes. */
  function NoEntry(b: seq<byte>): (w: WorkArea)
    requires !FitsEntry(b)
    ensures !w.Listed?
  {
    if |b| >= 8 && CodeLength(b) > LOCATION_LENGTH then Corrupt else Undefined
  }

  function DecodeEntries(b: seq<byte>, num: nat): WorkArea
    decreases num
  {
    if num == 0 then Listed([])
    else if !FitsEntry(b) then NoEntry(b)
    else Prepend(EntryAt(b), DecodeEntries(AfterEntry(b), num - 1))
  }

  function Decode(b: seq<byte>): WorkArea {
    if |b| < 4 then Undefined else DecodeEntries(b[4..], BigEndian(b))
  }

  /** The list after a work area that can be read: null, here empty, when the area is corrupt. */
  function Extended(list: seq<LocCode>, w: WorkArea): seq<LocCode> {
    if w.Listed? then list + w.entries else []
  }

  /** Parsing w with this list comes to the same as parsing w' with that one. */
  predicate SameEnd(list: seq<LocCode>, w: WorkArea, list': seq<LocCode>, w': WorkArea) {
    w.Undefined? == w'.Undefined? && w.Corrupt? == w'.Corrupt? && Extended(list, w) == Extended(list', w')
  }

  lemma ExtendTwice(list: seq<LocCode>, e: LocCode, w: WorkArea)
    ensures SameEnd(list, Prepend(e, w), list + [e], w)
  {
    if w.Listed? {
      assert list + ([e] + w.entries) == list + [e] + w.entries;
    }
  }

  /** With an entry read, the rest is read after it. */
  lemma EntryDecodes(list: seq<LocCode>, b: seq<byte>, left: nat, next: nat)
    requires FitsEntry(b) && left == next + 1
    ensures SameEnd(list, DecodeEntries(b, left), list + [EntryAt(b)], DecodeEntries(AfterEntry(b), next))
  {
    var e, w := EntryAt(b), DecodeEntries(AfterEntry(b), next);
    assert DecodeEntries(b, left) == Prepend(e, w);
    ExtendTwice(list, e, w);
  }

  /** Reads one entry; otherwise says why it cannot. */
  method ReadEntry(buf: seq<byte>) returns (w: WorkArea, rest: seq<byte>)
    ensures FitsEntry(buf) ==> w == Listed([EntryAt(buf)]) && rest == AfterEntry(buf)
    ensures !FitsEntry(buf) ==> w == NoEntry(buf)
  {
    rest := [];
    if |buf| < 8 {
      return Undefined, rest;
    }
    var index := BigEndian(buf);
    var length := BigEndian(buf[4..]);
    if length > LOCATION_LENGTH {
      return Corrupt, rest;
    } else if length == LOCATION_LENGTH || |buf| < 8 + length {
      return Undefined, rest;
    }
    w, rest := Listed([LocCode(index, CutAtNul(buf[8..8 + length]))]), buf[8 + length..];
  }

  /** Appends the entries of a work area to the list; None where the area cannot be read. */
  method ParseRtasWorkarea(loc: seq<LocCode>, area: seq<byte>) returns (list: Option<seq<LocCode>>)
    ensures match Decode(area)
            case Listed(entries) => list == Some(loc + entries)
            case Corrupt => list == Some([])
            case Undefined => list == None
  {
    if |area| < 4 {
      return None;
    }
    var parsed := loc;
    var num := BigEndian(area);
    var buf := area[4..];
    var i := 0;
    ghost var left := num;
    while i < num
      invariant 0 <= i <= num && left == num - i
      invariant SameEnd(parsed, DecodeEntries(buf, left), loc, Decode(area))
    {
      if FitsEntry(buf) {
        EntryDecodes(parsed, buf, left, left - 1);
      }
      var w, rest := ReadEntry(buf);
      match w {
        case Undefined => return None;
        case Corrupt => return Some([]);
        case Listed(entry) =>
          parsed := parsed + entry;
          buf := rest;
      }
      left := left - 1;
      i := i + 1;
    }
    assert parsed + [] == parsed;
    return Some(parsed);
  }

  // The protocol.

  /** What firmware answers to one call. */
  datatype Response = Response(rc: int, next: int, area: seq<byte>)

  /**
   A list, or the code of a failure, which leaves no list worth having; Waiting while firmware has not
   answered, and Overread where a work area cannot be read.
   */
  datatype Result = Success(list: seq<LocCode>) | Failure(rc: int) | Waiting | Overread

  /** The index given to each call that was answered, and the result. */
  datatype Retrieval = Retrieval(calls: seq<int>, result: Result)

  function Calling(index: int, r: Retrieval): Retrieval {
    Retrieval([index] + r.calls, r.result)
  }

  predicate HasBatch(r: Response) {
    r.rc == MORE_DATA || r.rc == SUCCESS
  }

  /** Retrieving from a script of answers, given the next index and the list so far. */
  function Retrieve(script: seq<Response>, index: int, list: seq<LocCode>): Retrieval
    decreases |script|
  {
    if script == [] then Retrieval([], Waiting)
    else
      var r := script[0];
      Calling(index,
              if HasBatch(r) then
                var extended := Extended(list, Decode(r.area));
                if Decode(r.area).Undefined? then Retrieval([], Overread)
                else if extended == [] then Retrieval([], Failure(NOT_LISTED))
                else if r.rc == SUCCESS then Retrieval([], Success(extended))
                else Retrieve(script[1..], r.next, extended)
              else if r.rc == LIST_CHANGED then Retrieve(script[1..], 1, [])
              else Retrieval([], Failure(r.rc)))
  }

  lemma CallingTwice(calls: seq<int>, index: int, r: Retrieval)
    ensures calls + Calling(index, r).calls == calls + [index] + r.calls
  {
  }

  /** Firmware that answers from a script, and remembers the index of each call. */
  class Firmware {
    var script: seq<Response>
    var calls: seq<int>

    constructor (script: seq<Response>)
      ensures this.script == script && calls == []
    {
      this.script := script;
      calls := [];
    }

    method Call(index: int) returns (r: Response)
      requires script != []
      modifies this
      ensures r == old(script)[0] && script == old(script)[1..] && calls == old(calls) + [index]
    {
      r := script[0];
      script := script[1..];
      calls := calls + [index];
    }

    /** Retrieves the list, asking firmware again until it is complete. */
    method GetRtasIndices() returns (result: Result)
      modifies this
      ensures result == Retrieve(old(script), 1, []).result
      ensures calls == old(calls) + Retrieve(old(script), 1, []).calls
    {
      var index := 1;
      var list: seq<LocCode> := [];
      ghost var all := Retrieve(script, 1, []);
      while script != []
        invariant calls + Retrieve(script, index, list).calls == old(calls) + all.calls
        invariant Retrieve(script, index, list).result == all.result
        decreases |script|
      {
        var i := index;
        ghost var before, rest := calls, script[1..];
        assert before + ([i] + []) == before + [i];
        var r := Call(index);
        if r.rc == MORE_DATA || r.rc == SUCCESS {
          if r.rc == MORE_DATA {
            index := r.next;
          }
          var parsed := ParseRtasWorkarea(list, r.area);
          if parsed.None? {
            return Overread;
          } else if parsed.value == [] {
            return Failure(NOT_LISTED);
          }
          list := parsed.value;
          if r.rc == SUCCESS {
            return Success(list);
          }
        } else if r.rc == LIST_CHANGED {
          list := [];
          index := 1;
        } else {
          return Failure(r.rc);
        }
        CallingTwice(before, i, Retrieve(rest, index, list));
      }
      assert old(calls) + all.calls == calls + [] == calls;
      return Waiting;
    }
  }

  // What a retrieval means.

  /** The entries of a batch. */
  function Batch(r: Response): seq<LocCode> {
    if (r.rc == 0 || r.rc == 1) && Decode(r.area).Listed? then Decode(r.area).entries else []
  }

  /** The batches since the last change of the list, one after the other. */
  function SinceChange(script: seq<Response>): seq<LocCode> {
    if script == [] || script[|script| - 1].rc == -4 then []
    else SinceChange(script[..|script| - 1]) + Batch(script[|script| - 1])
  }

  /** The index a call must use: the first, or where the previous answer said to go on. */
  function IndexAfter(script: seq<Response>): int {
    if script == [] || script[|script| - 1].rc == -4 then 1 else script[|script| - 1].next
  }

  /** The answers go on (-4 for a change, 1 for more data), and after each batch there is something in the list. */
  predicate GoesOn(script: seq<Response>) {
    forall i :: 0 <= i < |script| ==> script[i].rc == -4 || (script[i].rc == 1 && BatchAccepted(script, i))
  }

  predicate BatchAccepted(script: seq<Response>, i: nat)
    requires i < |script|
  {
    Decode(script[i].area).Listed? && SinceChange(script[..i + 1]) != []
  }

  /** One more answer that lets the retrieval go on. */
  lemma OneMoreAnswer(past: seq<Response>, future: seq<Response>)
    requires past != [] && GoesOn(past)
    ensures var init, last := past[..|past| - 1], past[|past| - 1];
            Retrieve([last] + future, IndexAfter(init), SinceChange(init)) ==
            Calling(IndexAfter(init), Retrieve(future, IndexAfter(past), SinceChange(past)))
  {
    var last := past[|past| - 1];
    assert past[..|past| - 1 + 1] == past;
    assert ([last] + future)[0] == last && ([last] + future)[1..] == future;
    assert last.rc == LIST_CHANGED || (last.rc == MORE_DATA && BatchAccepted(past, |past| - 1));
  }

  /** The retrieval has seen the answers past, and goes on from there. */
  lemma {:induction false} RetrieveFrom(past: seq<Response>, future: seq<Response>)
    requires GoesOn(past)
    ensures var all, r := Retrieve(past + future, 1, []), Retrieve(future, IndexAfter(past), SinceChange(past));
            all.result == r.result && all.calls == Indices(past) + r.calls
    decreases |past|
  {
    if past == [] {
      assert past + future == future;
      assert Indices(past) + Retrieve(future, 1, []).calls == Retrieve(future, 1, []).calls;
    } else {
      var init, last := past[..|past| - 1], past[|past| - 1];
      assert past + future == init + ([last] + future);
      GoesOnBefore(past, |past| - 1);
      RetrieveFrom(init, [last] + future);
      OneMoreAnswer(past, future);
      IndicesSnoc(past);
      CallingTwice(Indices(init), IndexAfter(init), Retrieve(future, IndexAfter(past), SinceChange(past)));
    }
  }

  /** The index of each call answered by a script that goes on. */
  function Indices(script: seq<Response>): (calls: seq<int>)
    ensures |calls| == |script|
    ensures forall i :: 0 <= i < |script| ==> calls[i] == IndexAfter(script[..i])
  {
    seq(|script|, i requires 0 <= i < |script| => IndexAfter(script[..i]))
  }

  lemma IndicesSnoc(script: seq<Response>)
    requires script != []
    ensures Indices(script) == Indices(script[..|script| - 1]) + [IndexAfter(script[..|script| - 1])]
  {
    var init := script[..|script| - 1];
    forall i | 0 <= i < |init|
      ensures script[..i] == init[..i]
    {
    }
  }

  lemma GoesOnBefore(script: seq<Response>, n: nat)
    requires n <= |script| && GoesOn(script)
    ensures GoesOn(script[..n])
  {
    forall i | 0 <= i < n
      ensures script[i].rc == MORE_DATA ==> BatchAccepted(script[..n], i)
    {
      assert script[..n][..i + 1] == script[..i + 1];
    }
  }

  /** The retrieval succeeds with the nth answer. */
  predicate SucceedsAt(script: seq<Response>, n: nat) {
    0 < n <= |script| && GoesOn(script[..n - 1]) && script[n - 1].rc == 0 && BatchAccepted(script, n - 1)
  }

  lemma LastAnswer(script: seq<Response>, k: nat, past: seq<Response>, future: seq<Response>)
    requires k < |script| && past == script[..k] && future == script[k..] && script[..k + 1][..k] == past
    requires script[k].rc == SUCCESS && BatchAccepted(script, k)
    ensures Retrieve(future, IndexAfter(past), SinceChange(past)) ==
            Retrieval([IndexAfter(past)], Success(SinceChange(script[..k + 1])))
  {
    assert future[0] == script[k];
  }

  /** A successful retrieval returns the batches since the last change, and asks for them in order. */
  lemma SuccessReturnsBatches(script: seq<Response>, n: nat)
    requires SucceedsAt(script, n)
    ensures var r := Retrieve(script, 1, []);
            r.result == Success(SinceChange(script[..n])) && |r.calls| == n &&
            forall i :: 0 <= i < n ==> r.calls[i] == IndexAfter(script[..i])
  {
    var k := n - 1;
    var past, future := script[..k], script[k..];
    assert script == past + future;
    RetrieveFrom(past, future);
    assert script[..n][..k] == past;
    LastAnswer(script, k, past, future);
    forall i | 0 <= i < k
      ensures past[..i] == script[..i]
    {
    }
  }

  /** The first answer that does not let the retrieval go on, or the length of the script. */
  function Stop(script: seq<Response>, n: nat): (k: nat)
    requires n <= |script| && GoesOn(script[..n])
    ensures n <= k <= |script| && GoesOn(script[..k])
    ensures k < |script| ==> !GoesOn(script[..k + 1])
    decreases |script| - n
  {
    if n < |script| && GoesOn(script[..n + 1]) then Stop(script, n + 1) else n
  }

  /** The nth answer ends the retrieval: no change of the list, and no batch after which it goes on. */
  predicate EndsWith(script: seq<Response>, k: nat) {
    k < |script| && GoesOn(script[..k]) && script[k].rc != -4 && !(script[k].rc == 1 && BatchAccepted(script, k))
  }

  /** What such an answer makes of the retrieval. */
  function ResultAt(script: seq<Response>, k: nat): Result
    requires k < |script|
  {
    var last := script[k];
    if last.rc != 0 && last.rc != 1 then Failure(last.rc)
    else if Decode(last.area).Undefined? then Overread
    else if BatchAccepted(script, k) then Success(SinceChange(script[..k + 1]))
    else Failure(-99)
  }

  lemma EndingAnswer(script: seq<Response>, k: nat)
    requires EndsWith(script, k)
    ensures Retrieve(script[k..], IndexAfter(script[..k]), SinceChange(script[..k])).result == ResultAt(script, k)
  {
    assert script[..k + 1][..k] == script[..k] && script[k..][0] == script[k];
  }

  lemma EndsThere(script: seq<Response>, k: nat)
    requires EndsWith(script, k)
    ensures Retrieve(script, 1, []).result == ResultAt(script, k)
  {
    var past, future := script[..k], script[k..];
    assert script == past + future;
    RetrieveFrom(past, future);
    EndingAnswer(script, k);
  }

  /** Some answer ends the retrieval, or it is still waiting. */
  lemma SomeEnd(script: seq<Response>) returns (k: nat)
    ensures EndsWith(script, k) || Retrieve(script, 1, []).result == Waiting
  {
    assert script[..0] == [];
    k := Stop(script, 0);
    if k < |script| {
      if script[k].rc == -4 || (script[k].rc == 1 && BatchAccepted(script, k)) {
        GoesOnOneMore(script, k);
      }
    } else {
      assert script[..k] == script && script + [] == script;
      RetrieveFrom(script, []);
    }
  }

  /**
   Whatever firmware answers, the retrieval returns 0 exactly when some answer ends it well: every
   earlier answer was a change or a batch accepted, and the last is a batch accepted with success. A
   batch that leaves the list empty is not accepted: it ends the retrieval with -99.
   */
  lemma RetrievalSucceedsExactly(script: seq<Response>)
    ensures Retrieve(script, 1, []).result.Success? <==> exists n :: SucceedsAt(script, n)
  {
    if n :| SucceedsAt(script, n) {
      SuccessReturnsBatches(script, n);
    } else {
      var k := SomeEnd(script);
      if EndsWith(script, k) {
        EndsThere(script, k);
        assert !SucceedsAt(script, k + 1);
      }
    }
  }

  /** The retrieval fails with the nth answer: a batch that leaves the list empty, or a code of its own. */
  predicate FailsAt(script: seq<Response>, n: nat, rc: int) {
    0 < n <= |script| && GoesOn(script[..n - 1]) &&
    var last := script[n - 1];
    if last.rc == 0 || last.rc == 1 then
      rc == -99 && (Decode(last.area).Corrupt? || (Decode(last.area).Listed? && SinceChange(script[..n]) == []))
    else last.rc != -4 && rc == last.rc
  }

  /** The code of a failure is that of the answer that ends the retrieval, or -99 for an empty list. */
  lemma RetrievalFailsExactly(script: seq<Response>, rc: int)
    ensures Retrieve(script, 1, []).result == Failure(rc) <==> exists n :: FailsAt(script, n, rc)
  {
    if n: nat :| FailsAt(script, n, rc) {
      EndsThere(script, n - 1);
    } else {
      var k := SomeEnd(script);
      if EndsWith(script, k) {
        EndsThere(script, k);
        assert !FailsAt(script, k + 1, rc);
      }
    }
  }

  lemma GoesOnOneMore(script: seq<Response>, k: nat)
    requires k < |script| && GoesOn(script[..k])
    requires script[k].rc == LIST_CHANGED || (script[k].rc == MORE_DATA && BatchAccepted(script, k))
    ensures GoesOn(script[..k + 1])
  {
    var s := script[..k + 1];
    forall i | 0 <= i < |s|
      ensures s[i].rc == LIST_CHANGED || (s[i].rc == MORE_DATA && BatchAccepted(s, i))
    {
      assert s[..i + 1] == script[..i + 1];
      if i < k {
        assert script[..k][i] == s[i] && script[..k][..i + 1] == s[..i + 1];
      }
    }
  }

  // Work areas as firmware builds them.

  function Number(n: nat): (b: seq<byte>)
    requires n < 0x1_0000_0000
    ensures |b| == 4 && BigEndian(b) == n
  {
    var high, low := n / 0x1_0000, n % 0x1_0000;
    [high / 256, high % 256, low / 256, low % 256]
  }

  predicate GoodEntry(e: LocCode) {
    e.index < 0x1_0000_0000 && |e.code| + 1 < LOCATION_LENGTH && 0 !in e.code
  }

  function EntryBytes(e: LocCode): seq<byte>
    requires GoodEntry(e)
  {
    Number(e.index) + Number(|e.code| + 1) + (e.code + [0])
  }

  function EntriesBytes(es: seq<LocCode>): seq<byte>
    requires forall i :: 0 <= i < |es| ==> GoodEntry(es[i])
  {
    if es == [] then [] else EntryBytes(es[0]) + EntriesBytes(es[1..])
  }

  lemma FirstEntry(b: seq<byte>, e: LocCode, more: seq<byte>)
    requires GoodEntry(e) && b == EntryBytes(e) + more
    ensures FitsEntry(b) && EntryAt(b) == e && AfterEntry(b) == more
  {
    var n, l, s := Number(e.index), Number(|e.code| + 1), e.code + [0];
    assert b[0] == n[0] && b[1] == n[1] && b[2] == n[2] && b[3] == n[3];
    assert b[4] == l[0] && b[5] == l[1] && b[6] == l[2] && b[7] == l[3];
    assert b[8..8 + |s|] == s;
    CutBeforeNul(e.code);
  }

  lemma {:induction false} CutBeforeNul(s: seq<byte>)
    requires 0 !in s
    ensures CutAtNul(s + [0]) == s
  {
    if s != [] {
      CutBeforeNul(s[1..]);
      assert (s + [0])[1..] == s[1..] + [0];
    }
  }

  /** Parsing appends exactly the entries firmware put in the area, whatever follows them. */
  lemma {:induction false} WorkAreaDecodes(es: seq<LocCode>, b: seq<byte>, padding: seq<byte>)
    requires forall i :: 0 <= i < |es| ==> GoodEntry(es[i])
    requires b == EntriesBytes(es) + padding
    ensures DecodeEntries(b, |es|) == Listed(es)
    decreases |es|
  {
    if es != [] {
      var e, more := es[0], EntriesBytes(es[1..]) + padding;
      assert b == EntryBytes(e) + more;
      FirstEntry(b, e, more);
      WorkAreaDecodes(es[1..], more, padding);
      assert [e] + es[1..] == es;
    }
  }

  lemma AreaDecodes(es: seq<LocCode>, area: seq<byte>, padding: seq<byte>)
    requires |es| < 0x1_0000_0000 && forall i :: 0 <= i < |es| ==> GoodEntry(es[i])
    requires area == Number(|es|) + (EntriesBytes(es) + padding)
    ensures Decode(area) == Listed(es)
  {
    var n := Number(|es|);
    assert area[0] == n[0] && area[1] == n[1] && area[2] == n[2] && area[3] == n[3];
    assert area[4..] == EntriesBytes(es) + padding;
    WorkAreaDecodes(es, area[4..], padding);
  }

  /**
   A code longer than 80 bytes with its terminator makes the whole area corrupt, wherever it stands; one of
   exactly 80 fills its field.
   */
  lemma {:induction false} LongCodeIsCorrupt(es: seq<LocCode>, b: seq<byte>, bad: seq<byte>, num: nat)
    requires (forall i :: 0 <= i < |es| ==> GoodEntry(es[i])) && b == EntriesBytes(es) + bad && num > |es|
    requires |bad| >= 8 && BigEndian(bad[4..]) >= 80
    ensures DecodeEntries(b, num) == if BigEndian(bad[4..]) > 80 then Corrupt else Undefined
    decreases |es|
  {
    if es == [] {
      assert b == bad && !FitsEntry(b);
    } else {
      var e, rest, more, left := es[0], es[1..], EntriesBytes(es[1..]) + bad, num - 1;
      assert b == EntryBytes(e) + more;
      FirstEntry(b, e, more);
      LongCodeIsCorrupt(rest, more, bad, left);
      OneMoreDecoded(b, num, left);
    }
  }

  lemma OneMoreDecoded(b: seq<byte>, num: nat, left: nat)
    requires FitsEntry(b) && num == left + 1
    ensures DecodeEntries(b, num) == Prepend(EntryAt(b), DecodeEntries(AfterEntry(b), left))
  {
  }
}
