/** The daemon that saves platform error logs and keeps the last ones of each kind. */
module LogRotation {
  import opened Wrappers

  datatype Kind = Serviceable | Informational

  /** The suffixes, all of one length. */
  function Suffix(kind: Kind): (s: string)
    ensures |s| == 4
  {
    match kind
    case Serviceable => "srvc"
    case Informational => "info"
  }

  /** The kind of a log file, told by the end of its name. */
  function KindOf(file: string): Option<Kind> {
    if |file| < 4 then None
    else if file[|file| - 4..] == Suffix(Serviceable) then Some(Serviceable)
    else if file[|file| - 4..] == Suffix(Informational) then Some(Informational)
    else None
  }

  /** A file is of a kind exactly when its name ends in the four letters. */
  lemma KindsAre(file: string)
    ensures KindOf(file) == Some(Serviceable) <==> |file| >= 4 && file[|file| - 4..] == "srvc"
    ensures KindOf(file) == Some(Informational) <==> |file| >= 4 && file[|file| - 4..] == "info"
  {
    assert "srvc"[0] != "info"[0];
  }

  function OfKind(files: set<string>, kind: Kind): set<string> {
    set f | f in files && KindOf(f) == Some(kind)
  }

  /** Alphabetical order, by character codes. */
  predicate AtMost(a: string, b: string) {
    if a == "" then true
    else if b == "" then false
    else if a[0] == b[0] then AtMost(a[1..], b[1..])
    else a[0] < b[0]
  }

  /** One name comes before another, or is the same: it is the start of it, or has the smaller character first. */
  lemma {:induction false} OrderIsAlphabetical(a: string, b: string)
    ensures AtMost(a, b) <==>
            a <= b || exists k :: 0 <= k < |a| && k < |b| && a[..k] == b[..k] && a[k] < b[k]
    decreases |a|
  {
    if a != "" && b != "" && a[0] == b[0] {
      var c, d := a[1..], b[1..];
      OrderIsAlphabetical(c, d);
      assert a == [a[0]] + c && b == [b[0]] + d;
      if k :| 0 <= k < |c| && k < |d| && c[..k] == d[..k] && c[k] < d[k] {
        assert a[..k + 1] == [a[0]] + c[..k] && b[..k + 1] == [b[0]] + d[..k];
        assert a[k + 1] < b[k + 1];
      }
      if k :| 0 <= k < |a| && k < |b| && a[..k] == b[..k] && a[k] < b[k] {
        assert c[..k - 1] == a[..k][1..] && d[..k - 1] == b[..k][1..];
        assert c[k - 1] < d[k - 1];
      }
    } else if a != "" && b != "" && a[0] < b[0] {
      assert a[..0] == b[..0];
    }
  }

  /** A listing of a set of files, in alphabetical order. */
  ghost predicate Alphabetical(files: set<string>, list: seq<string>) {
    (forall f :: f in list <==> f in files) &&
    (forall i, j :: 0 <= i < j < |list| ==> list[i] != list[j] && AtMost(list[i], list[j]))
  }

  /**
   Files rotated: as many as possible are left, but no more than max, and the ones that are gone
   come before those in the alphabet.
   */
  ghost predicate Rotated(files: set<string>, files': set<string>, max: nat) {
    files' <= files && |files'| == Min(|files|, max) &&
    forall f, g :: f in files' && g in files - files' ==> AtMost(g, f)
  }

  /** An error log as the daemon finds it: what it could be parsed as, and whether it could be saved. */
  datatype Elog = Elog(base: string, parsed: Option<Kind>, saved: bool)

  function FileName(base: string, kind: Kind): string {
    base + "-" + Suffix(kind)
  }

  /** The files after some logs are saved. */
  function Saved(files: set<string>, logs: seq<Elog>): set<string> {
    if logs == [] then files
    else
      var last := logs[|logs| - 1];
      var before := Saved(files, logs[..|logs| - 1]);
      if last.parsed.Some? && last.saved then before + {FileName(last.base, last.parsed.value)} else before
  }

  /** Some log was parsed as one of a kind. */
  predicate Parsed(logs: seq<Elog>, kind: Kind) {
    exists i :: 0 <= i < |logs| && logs[i].parsed == Some(kind)
  }

  /** The files of neither kind are the same. */
  ghost predicate OthersKept(files: set<string>, files': set<string>) {
    forall f :: KindOf(f) == None ==> (f in files' <==> f in files)
  }

  /** What one round does to the files of a kind. */
  ghost predicate Round(files: set<string>, files': set<string>, logs: seq<Elog>, kind: Kind, max: nat) {
    if Parsed(logs, kind) then Rotated(OfKind(Saved(files, logs), kind), OfKind(files', kind), max)
    else OfKind(files', kind) == OfKind(files, kind)
  }

  class Daemon {
    const maxServiceable: nat
    const maxInformational: nat
    var files: set<string>
    var rotateServiceable: bool
    var rotateInformational: bool

    constructor (maxServiceable: nat, maxInformational: nat, files: set<string>)
      ensures this.maxServiceable == maxServiceable && this.maxInformational == maxInformational
      ensures this.files == files
    {
      this.maxServiceable, this.maxInformational, this.files := maxServiceable, maxInformational, files;
      rotateServiceable, rotateInformational := false, false;
    }

    /** Parsing marks the kind for rotation, even when the log cannot be saved. */
    method ProcessElog(log: Elog)
      modifies this
      ensures files == Saved(old(files), [log])
      ensures rotateServiceable == (old(rotateServiceable) || log.parsed == Some(Serviceable))
      ensures rotateInformational == (old(rotateInformational) || log.parsed == Some(Informational))
    {
      assert [log][..0] == [];
      assert Saved(files, [log][..0]) == files;
      if log.parsed.None? {
        return;
      }
      if log.parsed.value == Serviceable {
        rotateServiceable := true;
      } else {
        rotateInformational := true;
      }
      if log.saved {
        files := files + {FileName(log.base, log.parsed.value)};
      }
    }

    method FindAndReadElogEvents(logs: seq<Elog>)
      modifies this
      ensures files == Saved(old(files), logs)
      ensures rotateServiceable == (old(rotateServiceable) || Parsed(logs, Serviceable))
      ensures rotateInformational == (old(rotateInformational) || Parsed(logs, Informational))
    {
      for i := 0 to |logs|
        invariant files == Saved(old(files), logs[..i])
        invariant rotateServiceable == (old(rotateServiceable) || Parsed(logs[..i], Serviceable))
        invariant rotateInformational == (old(rotateInformational) || Parsed(logs[..i], Informational))
      {
        ProcessElog(logs[i]);
        OneMoreLog(old(files), logs, i);
        ParsedMore(logs, i, Serviceable);
        ParsedMore(logs, i, Informational);
      }
      assert logs[..|logs|] == logs;
    }

    /** Removes the first files of a kind, given what the directory lists. */
    method RotateLogs(kind: Kind, max: nat, list: seq<string>)
      requires Alphabetical(OfKind(files, kind), list)
      modifies this`files
      ensures Rotated(OfKind(old(files), kind), OfKind(files, kind), max)
      ensures files <= old(files) && old(files) - files <= OfKind(old(files), kind)
    {
      var trim := true;
      ghost var dir := files;
      forall k | 0 <= k < |list|
        ensures list[k] in OfKind(files, kind)
      {
        assert list[k] in list;
      }
      for i := 0 to |list|
        invariant trim ==> i == 0 || i <= |list| - max
        invariant !trim ==> i > |list| - max
        invariant files <= dir && dir - files <= OfKind(dir, kind)
        invariant forall k :: 0 <= k < |list| ==> (list[k] in files <==> k >= i || k >= |list| - max)
      {
        if !trim {
          continue;
        }
        if i >= |list| - max {
          trim := false;
        }
        if trim {
          files := files - {list[i]};
        }
      }
      ListIsRotated(OfKind(dir, kind), OfKind(files, kind), list, max);
    }

    /**
     One round of the daemon: it reads the new logs, and rotates the kinds it came across. The
     directory is listed when a kind is rotated.
     */
    method Iterate(logs: seq<Elog>, serviceable: seq<string>, informational: seq<string>)
      requires Alphabetical(OfKind(Saved(files, logs), Serviceable), serviceable)
      requires Alphabetical(OfKind(Saved(files, logs), Informational), informational)
      modifies this
      ensures Round(old(files), files, logs, Serviceable, maxServiceable)
      ensures Round(old(files), files, logs, Informational, maxInformational)
      ensures OthersKept(old(files), files)
    {
      rotateServiceable, rotateInformational := false, false;
      ghost var before := files;
      FindAndReadElogEvents(logs);
      ghost var saved := files;
      OtherKindsAreKept(before, logs, Serviceable);
      OtherKindsAreKept(before, logs, Informational);
      SavedHasKind(before, logs);
      if rotateServiceable {
        RotateLogs(Serviceable, maxServiceable, serviceable);
        OtherKindIsKept(saved, files, Serviceable, Informational);
        OthersKeptOn(before, saved, files);
      }
      ghost var rotated := files;
      if rotateInformational {
        RotateLogs(Informational, maxInformational, informational);
        OtherKindIsKept(rotated, files, Informational, Serviceable);
        OthersKeptOn(before, rotated, files);
      }
    }
  }

  lemma OneMoreLog(files: set<string>, logs: seq<Elog>, i: nat)
    requires i < |logs|
    ensures Saved(files, logs[..i + 1]) == Saved(Saved(files, logs[..i]), [logs[i]])
  {
    assert logs[..i + 1][..i] == logs[..i];
    assert [logs[i]][..0] == [];
    assert Saved(Saved(files, logs[..i]), [logs[i]][..0]) == Saved(files, logs[..i]);
  }

  lemma ParsedMore(logs: seq<Elog>, i: nat, kind: Kind)
    requires i < |logs|
    ensures Parsed(logs[..i + 1], kind) <==> Parsed(logs[..i], kind) || logs[i].parsed == Some(kind)
  {
    var more := logs[..i + 1];
    assert more[i] == logs[i] && forall k :: 0 <= k < i ==> more[k] == logs[..i][k];
  }

  /** The files from position |list| - max on are the ones rotation leaves. */
  lemma ListIsRotated(files: set<string>, files': set<string>, list: seq<string>, max: nat)
    requires Alphabetical(files, list) && files' <= files
    requires forall k :: 0 <= k < |list| ==> (list[k] in files' <==> k >= |list| - max)
    ensures Rotated(files, files', max)
  {
    var from := if |list| < max then 0 else |list| - max;
    ListIsSet(list, files);
    forall f
      ensures f in list[from..] <==> f in files'
    {
      if f in files' {
        assert f in list;
        var k: nat :| k < |list| && list[k] == f;
        assert list[from..][k - from] == f;
      }
    }
    ListIsSet(list[from..], files');
    forall f, g | f in files' && g in files - files'
      ensures AtMost(g, f)
    {
      assert f in list && g in list;
      var a: nat :| a < |list| && list[a] == f;
      var b: nat :| b < |list| && list[b] == g;
      assert b < a;
    }
  }

  lemma {:induction false} ListIsSet(list: seq<string>, files: set<string>)
    requires (forall f :: f in list <==> f in files) && forall i, j :: 0 <= i < j < |list| ==> list[i] != list[j]
    ensures |files| == |list|
    decreases |list|
  {
    if list == [] {
      assert files == {};
    } else {
      var rest := list[1..];
      assert list == [list[0]] + rest;
      ListIsSet(rest, files - {list[0]});
    }
  }

  lemma SuffixTellsKind(base: string, kind: Kind)
    ensures KindOf(FileName(base, kind)) == Some(kind)
    ensures FileName(base, kind) == base + if kind == Serviceable then "-srvc" else "-info"
  {
    var file := FileName(base, kind);
    assert file[|file| - 4..] == Suffix(kind);
    assert Suffix(Serviceable)[0] != Suffix(Informational)[0];
  }

  /** Saving logs leaves the files of a kind alone when no log is of that kind. */
  lemma {:induction false} OtherKindsAreKept(files: set<string>, logs: seq<Elog>, kind: Kind)
    ensures !Parsed(logs, kind) ==> OfKind(Saved(files, logs), kind) == OfKind(files, kind)
    decreases |logs|
  {
    if logs != [] {
      var k := |logs| - 1;
      OtherKindsAreKept(files, logs[..k], kind);
      assert logs[..k + 1] == logs;
      ParsedMore(logs, k, kind);
      if logs[k].parsed.Some? {
        SuffixTellsKind(logs[k].base, logs[k].parsed.value);
      }
    }
  }

  /** Every file saved has a kind. */
  lemma {:induction false} SavedHasKind(files: set<string>, logs: seq<Elog>)
    ensures OthersKept(files, Saved(files, logs))
    decreases |logs|
  {
    if logs != [] {
      var last := logs[|logs| - 1];
      SavedHasKind(files, logs[..|logs| - 1]);
      if last.parsed.Some? {
        SuffixTellsKind(last.base, last.parsed.value);
      }
    }
  }

  lemma OtherKindIsKept(files: set<string>, files': set<string>, kind: Kind, other: Kind)
    requires files' <= files && files - files' <= OfKind(files, kind) && kind != other
    ensures OfKind(files', other) == OfKind(files, other) && OthersKept(files, files')
  {
    forall f | f in files && KindOf(f) != Some(kind)
      ensures f in files'
    {
      assert f !in OfKind(files, kind);
      assert f !in files - files';
    }
  }

  lemma OthersKeptOn(a: set<string>, b: set<string>, c: set<string>)
    requires OthersKept(a, b) && OthersKept(b, c)
    ensures OthersKept(a, c)
  {
  }

  // Whole runs.

  /** A run: the files before each round and after the last, and the logs each round found. */
  ghost predicate Run(dirs: seq<set<string>>, rounds: seq<seq<Elog>>, kind: Kind, max: nat) {
    |dirs| == |rounds| + 1 && forall i :: 0 <= i < |rounds| ==> Round(dirs[i], dirs[i + 1], rounds[i], kind, max)
  }

  /** Once a log of a kind has been parsed, every round ends with at most max files of that kind. */
  lemma {:induction false} LogsStayBounded(
      dirs: seq<set<string>>, rounds: seq<seq<Elog>>, kind: Kind, max: nat, j: nat)
    requires Run(dirs, rounds, kind, max) && j <= |rounds|
    requires |OfKind(dirs[0], kind)| <= max || exists i :: 0 <= i < j && Parsed(rounds[i], kind)
    ensures |OfKind(dirs[j], kind)| <= max
    decreases j
  {
    if j > 0 {
      var i := j - 1;
      assert Round(dirs[i], dirs[i + 1], rounds[i], kind, max);
      if !Parsed(rounds[i], kind) {
        LogsStayBounded(dirs, rounds, kind, max, i);
      }
    }
  }

  lemma {:induction false} AtMostTransitive(a: string, b: string, c: string)
    requires AtMost(a, b) && AtMost(b, c)
    ensures AtMost(a, c)
    decreases |a|
  {
    if a != "" && a[0] == b[0] == c[0] {
      AtMostTransitive(a[1..], b[1..], c[1..]);
    }
  }

  /** The file is there; or there are max files of the kind, and none of them comes before it. */
  ghost predicate KeptOrPassed(dir: set<string>, kind: Kind, max: nat, f: string) {
    f in OfKind(dir, kind) || (|OfKind(dir, kind)| == max && forall g :: g in OfKind(dir, kind) ==> AtMost(f, g))
  }

  lemma MoreFiles(a: set<string>, b: set<string>)
    requires a <= b
    ensures |a| <= |b| && (a != b ==> |a| < |b|)
  {
    assert b == a + (b - a);
  }

  /** Rotating more files than before keeps only files from f on, when all there were come from f on. */
  lemma RotationPasses(files: set<string>, more: set<string>, left: set<string>, max: nat, f: string, g: string)
    requires |files| == max && files <= more && Rotated(more, left, max) && g in left
    requires forall h :: h in files ==> AtMost(f, h)
    ensures AtMost(f, g)
  {
    if !AtMost(f, g) {
      MoreFiles(files, more);
      if h :| h in files && h !in left {
        AtMostTransitive(f, h, g);
      } else {
        MoreFiles(files + {g}, left);
      }
    }
  }

  lemma RoundPasses(
      files: set<string>, files': set<string>, logs: seq<Elog>, kind: Kind, max: nat, f: string)
    requires Round(files, files', logs, kind, max) && KeptOrPassed(files, kind, max, f)
    ensures KeptOrPassed(files', kind, max, f)
  {
    if Parsed(logs, kind) {
      var before, more, left := OfKind(files, kind), OfKind(Saved(files, logs), kind), OfKind(files', kind);
      SavedKeepsKind(files, logs, kind);
      MoreFiles(before, more);
      MoreFiles(left, more);
      if f !in left && f !in before {
        forall g | g in left
          ensures AtMost(f, g)
        {
          RotationPasses(before, more, left, max, f, g);
        }
      }
    }
  }

  lemma SavedKeepsKind(files: set<string>, logs: seq<Elog>, kind: Kind)
    ensures OfKind(files, kind) <= OfKind(Saved(files, logs), kind)
  {
    forall f | f in files
      ensures f in Saved(files, logs)
    {
      SavedKeeps(files, logs, f);
    }
  }

  /** A log that is saved stays as long as any file of its kind before it in the alphabet is there. */
  lemma {:induction false} LastLogsSurvive(
      dirs: seq<set<string>>, rounds: seq<seq<Elog>>, kind: Kind, max: nat, i: nat, j: nat, f: string)
    requires Run(dirs, rounds, kind, max) && i <= j <= |rounds| && f in OfKind(dirs[i], kind)
    ensures KeptOrPassed(dirs[j], kind, max, f)
    ensures (exists g :: g in OfKind(dirs[j], kind) && !AtMost(f, g)) ==> f in OfKind(dirs[j], kind)
    decreases j
  {
    if i < j {
      var k := j - 1;
      LastLogsSurvive(dirs, rounds, kind, max, i, k, f);
      assert Round(dirs[k], dirs[k + 1], rounds[k], kind, max);
      RoundPasses(dirs[k], dirs[j], rounds[k], kind, max, f);
    }
  }

  lemma {:induction false} SavedKeeps(files: set<string>, logs: seq<Elog>, f: string)
    requires f in files
    ensures f in Saved(files, logs)
    decreases |logs|
  {
    if logs != [] {
      SavedKeeps(files, logs[..|logs| - 1], f);
    }
  }
}
