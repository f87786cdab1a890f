/** Keeping the newest platform dumps of each type. */
module DumpRetention {
  import opened Wrappers

  const DUMP_TYPE_LEN: nat := 7

  /** The type of a dump: the start of its name. */
  function Type(name: string): string {
    if |name| < DUMP_TYPE_LEN then name else name[..DUMP_TYPE_LEN]
  }

  /** Two dumps are of one type when their names agree in the first seven characters. */
  lemma TypesAgree(f: string, g: string)
    ensures Type(f) == Type(g) <==> f == g || (|f| >= 7 && |g| >= 7 && forall k :: 0 <= k < 7 ==> f[k] == g[k])
  {
  }

  predicate Hidden(file: string) {
    file != "" && file[0] == '.'
  }

  /** A directory: its files and when they were last modified. */
  type Directory = map<string, int>

  /** The files of a type, except hidden ones. */
  function OfType(dir: Directory, typ: string): set<string> {
    set f | f in dir && !Hidden(f) && Type(f) == typ
  }

  /** A listing of a directory, newest first; files of one time come in any order. */
  ghost predicate NewestFirst(dir: Directory, list: seq<string>) {
    (forall f :: f in list <==> f in dir) &&
    (forall i, j :: 0 <= i < j < |list| ==> list[i] != list[j] && dir[list[i]] >= dir[list[j]])
  }

  /**
   A directory thinned out: of the files that count, as many as possible are left, but fewer than max,
   and none older than one that is gone. All other files are as they were.
   */
  ghost predicate Thinned(dir: Directory, dir': Directory, counted: set<string>, max: nat)
    requires max > 0 && counted <= dir.Keys
  {
    dir'.Keys <= dir.Keys && (forall f :: f in dir' ==> dir'[f] == dir[f]) &&
    dir.Keys - counted <= dir'.Keys &&
    |counted * dir'.Keys| == Min(|counted|, max - 1) &&
    (forall f, g :: f in counted && g in counted && f in dir' && g !in dir' ==> dir[f] >= dir[g])
  }

  /** A directory where room was made for a dump: its own name is gone, and its type thinned out. */
  ghost predicate MadeRoom(dir: Directory, dir': Directory, name: string, max: nat)
    requires max > 0
  {
    Thinned(dir - {name}, dir', OfType(dir - {name}, Type(name)), max)
  }

  /** How many of the first i files listed count. */
  function CountIn(list: seq<string>, i: nat, counted: set<string>): nat
    requires i <= |list|
  {
    if i == 0 then 0 else CountIn(list, i - 1, counted) + if list[i - 1] in counted then 1 else 0
  }

  predicate Survives(list: seq<string>, k: nat, counted: set<string>, max: nat)
    requires k < |list|
  {
    list[k] in counted ==> CountIn(list, k + 1, counted) < max
  }

  /** The first i files listed are dealt with: those that count, from the max-th on, are gone. */
  ghost predicate Trimmed(
      dir: Directory, files: Directory, list: seq<string>, i: nat, counted: set<string>, max: nat)
  {
    files.Keys <= dir.Keys && (forall f :: f in files ==> files[f] == dir[f]) &&
    forall k :: 0 <= k < |list| ==> (list[k] in files <==> k >= i || Survives(list, k, counted, max))
  }

  /** A directory of saved dumps. */
  class Store {
    const max: nat
    var files: Directory

    ghost predicate Valid()
      reads this
    {
      max > 0
    }

    constructor (max: nat, files: Directory)
      requires max > 0
      ensures Valid() && this.max == max && this.files == files
    {
      this.max, this.files := max, files;
    }

    method CheckDupDumpFile(name: string)
      modifies this
      ensures files == old(files) - {name}
    {
      if name in files {
        files := files - {name};
      }
    }

    /** Makes room for a dump, given what the directory lists without its duplicate. */
    method RemoveDumpFiles(name: string, list: seq<string>)
      requires Valid() && NewestFirst(files - {name}, list)
      modifies this
      ensures MadeRoom(old(files), files, name, max)
    {
      CheckDupDumpFile(name);
      ghost var dir := files;
      ghost var counted := OfType(dir, Type(name));
      var count := 0;
      for i := 0 to |list|
        invariant count == CountIn(list, i, counted) && Trimmed(dir, files, list, i, counted, max)
      {
        var file := list[i];
        ListedIsThere(dir, list, i);
        TrimOneMore(dir, files, list, i, counted, max);
        if Hidden(file) || Type(file) != Type(name) {
          continue;
        }
        count := count + 1;
        if count < max {
          continue;
        }
        Unlink(file);
      }
      ListIsThinned(dir, files, list, counted, max);
    }

    method Unlink(file: string)
      modifies this
      ensures files == old(files) - {file}
    {
      files := files - {file};
    }

    /** Saves a dump under its name; a temporary file of an earlier attempt is in the way. */
    method ProcessDump(name: string, now: int, list: seq<string>) returns (ok: bool)
      requires Valid() && NewestFirst(files - {name}, list)
      modifies this
      ensures Processed(old(files), files, Dump(name, now), max, ok)
      ensures ok <==> name + ".tmp" !in files
    {
      ghost var dir := files;
      RemoveDumpFiles(name, list);
      ghost var room := files;
      ok := name + ".tmp" !in files;
      if ok {
        Save(name, name + ".tmp", now);
      }
      DumpIsSaved(dir, room, files, Dump(name, now), max, ok);
    }

    /** Writes a new temporary file and renames it. */
    method Save(name: string, temporary: string, now: int)
      requires temporary !in files
      modifies this
      ensures files == old(files)[name := now]
    {
      files := files[temporary := now];
      files := (files - {temporary})[name := now];
    }
  }

  lemma ListedIsThere(dir: Directory, list: seq<string>, i: nat)
    requires NewestFirst(dir, list) && i < |list|
    ensures list[i] in dir && NoRepeats(list)
  {
    assert list[i] in list;
  }

  /** One more file dealt with: it stays, or it counts and is one too many. */
  lemma TrimOneMore(
      dir: Directory, files: Directory, list: seq<string>, i: nat, counted: set<string>, max: nat)
    requires NoRepeats(list) && i < |list| && Trimmed(dir, files, list, i, counted, max)
    ensures Survives(list, i, counted, max) ==> Trimmed(dir, files, list, i + 1, counted, max)
    ensures !Survives(list, i, counted, max) ==> Trimmed(dir, files - {list[i]}, list, i + 1, counted, max)
  {
  }

  /** Of the first i files listed, those that count and are among the given ones. */
  ghost function Seen(list: seq<string>, i: nat, counted: set<string>): set<string>
    requires i <= |list|
  {
    set f | f in list[..i] && f in counted
  }

  lemma SeenMore(list: seq<string>, i: nat, counted: set<string>)
    requires i < |list|
    ensures Seen(list, i + 1, counted) == Seen(list, i, counted) + if list[i] in counted then {list[i]} else {}
  {
    assert list[..i + 1] == list[..i] + [list[i]];
  }

  predicate NoRepeats(list: seq<string>) {
    forall a, b :: 0 <= a < b < |list| ==> list[a] != list[b]
  }

  lemma {:induction false} CountIsSize(list: seq<string>, i: nat, counted: set<string>)
    requires i <= |list| && NoRepeats(list)
    ensures |Seen(list, i, counted)| == CountIn(list, i, counted)
    decreases i
  {
    if i > 0 {
      var k := i - 1;
      CountIsSize(list, k, counted);
      SeenMore(list, k, counted);
      assert list[k] !in list[..k];
    }
  }

  /** Of the first i files listed, all that count are left until there are max - 1 of them. */
  lemma {:induction false} LeftIsSize(list: seq<string>, i: nat, counted: set<string>, left: set<string>, max: nat)
    requires max > 0 && i <= |list| && left <= counted && NoRepeats(list)
    requires forall k :: 0 <= k < |list| ==>
               (list[k] in left <==> list[k] in counted && Survives(list, k, counted, max))
    ensures |Seen(list, i, left)| == Min(CountIn(list, i, counted), max - 1)
    decreases i
  {
    if i > 0 {
      var k := i - 1;
      LeftIsSize(list, k, counted, left, max);
      SeenMore(list, k, left);
      assert list[k] !in list[..k];
      assert list[k] in left <==> list[k] in counted && Survives(list, k, counted, max);
      assert CountIn(list, i, counted) == CountIn(list, k, counted) + if list[k] in counted then 1 else 0;
    }
  }

  lemma {:induction false} CountsGrow(list: seq<string>, i: nat, j: nat, counted: set<string>)
    requires i <= j <= |list|
    ensures CountIn(list, i, counted) <= CountIn(list, j, counted)
    decreases j
  {
    if i < j {
      CountsGrow(list, i, j - 1, counted);
    }
  }

  lemma ListIsThinned(dir: Directory, files: Directory, list: seq<string>, counted: set<string>, max: nat)
    requires max > 0 && counted <= dir.Keys
    requires NewestFirst(dir, list) && Trimmed(dir, files, list, |list|, counted, max)
    ensures Thinned(dir, files, counted, max)
  {
    CountIsSize(list, |list|, counted);
    LeftIsSize(list, |list|, counted, counted * files.Keys, max);
    assert list[..|list|] == list;
    assert Seen(list, |list|, counted) == counted;
    assert Seen(list, |list|, counted * files.Keys) == counted * files.Keys;
    forall f, g | f in counted && g in counted && f in files && g !in files
      ensures dir[f] >= dir[g]
    {
      KeptIsNewer(dir, files, list, counted, max, f, g);
    }
    forall f | f in dir.Keys - counted
      ensures f in files
    {
      UncountedIsKept(dir, files, list, counted, max, f);
    }
  }

  lemma KeptIsNewer(
      dir: Directory, files: Directory, list: seq<string>, counted: set<string>, max: nat, f: string, g: string)
    requires NewestFirst(dir, list) && Trimmed(dir, files, list, |list|, counted, max)
    requires f in counted && g in counted && f in files && g in dir && g !in files
    ensures dir[f] >= dir[g]
  {
    assert f in list && g in list;
    var a: nat :| a < |list| && list[a] == f;
    var b: nat :| b < |list| && list[b] == g;
    SurvivorsComeFirst(list, a, b, counted, max);
  }

  lemma SurvivorsComeFirst(list: seq<string>, a: nat, b: nat, counted: set<string>, max: nat)
    requires a < |list| && b < |list| && list[a] in counted
    requires Survives(list, a, counted, max) && !Survives(list, b, counted, max)
    ensures a < b
  {
    if b < a {
      CountsGrow(list, b + 1, a + 1, counted);
    }
  }

  lemma UncountedIsKept(
      dir: Directory, files: Directory, list: seq<string>, counted: set<string>, max: nat, f: string)
    requires NewestFirst(dir, list) && Trimmed(dir, files, list, |list|, counted, max) && f in dir && f !in counted
    ensures f in files
  {
    assert f in list;
    var a: nat :| a < |list| && list[a] == f;
    assert Survives(list, a, counted, max);
  }

  // Whole runs.

  datatype Dump = Dump(name: string, time: int)

  /** What processing a dump does; ok tells whether it could be saved. */
  ghost predicate Processed(dir: Directory, dir': Directory, d: Dump, max: nat, ok: bool)
    requires max > 0
  {
    exists room: Directory :: RoomFor(dir, room, dir', d, max, ok)
  }

  ghost predicate RoomFor(dir: Directory, room: Directory, dir': Directory, d: Dump, max: nat, ok: bool)
    requires max > 0
  {
    MadeRoom(dir, room, d.name, max) && dir' == if ok then room[d.name := d.time] else room
  }

  lemma DumpIsSaved(dir: Directory, room: Directory, dir': Directory, d: Dump, max: nat, ok: bool)
    requires max > 0 && RoomFor(dir, room, dir', d, max, ok)
    ensures Processed(dir, dir', d, max, ok)
  {
  }

  /** A run: the directory before each dump and after the last, and which dumps could be saved. */
  ghost predicate Run(dirs: seq<Directory>, dumps: seq<Dump>, saved: seq<bool>, max: nat)
    requires max > 0
  {
    |dirs| == |dumps| + 1 && |saved| == |dumps| &&
    forall i :: 0 <= i < |dumps| ==> Processed(dirs[i], dirs[i + 1], dumps[i], max, saved[i])
  }

  lemma SmallerSet(a: set<string>, b: set<string>)
    requires a <= b
    ensures |a| <= |b|
  {
    assert b == a + (b - a);
  }

  /** A dump bounds the files of its type. */
  lemma OwnTypeIsBounded(dir: Directory, room: Directory, dir': Directory, d: Dump, max: nat, ok: bool)
    requires max > 0 && RoomFor(dir, room, dir', d, max, ok)
    ensures |OfType(dir', Type(d.name))| <= max
  {
    var typ := Type(d.name);
    var counted := OfType(dir - {d.name}, typ);
    var left := counted * room.Keys;
    assert OfType(dir', typ) <= left + {d.name};
    SmallerSet(OfType(dir', typ), left + {d.name});
  }

  /** A saved dump that is not hidden takes the room that was made: as many of its type are left as there may be. */
  lemma RoomIsUsed(dir: Directory, room: Directory, dir': Directory, d: Dump, max: nat)
    requires max > 0 && RoomFor(dir, room, dir', d, max, true) && d.name != "" && d.name[0] != '.'
    ensures |OfType(dir', Type(d.name))| == Min(|OfType(dir - {d.name}, Type(d.name))| + 1, max)
  {
    var left := OfType(dir - {d.name}, Type(d.name)) * room.Keys;
    SavedIsOfType(dir, room, dir', d, max);
    assert d.name !in left;
    OneMoreMember(left, d.name);
  }

  lemma OneMoreMember(a: set<string>, f: string)
    requires f !in a
    ensures |a + {f}| == |a| + 1
  {
  }

  lemma SavedIsOfType(dir: Directory, room: Directory, dir': Directory, d: Dump, max: nat)
    requires max > 0 && RoomFor(dir, room, dir', d, max, true) && !Hidden(d.name)
    ensures OfType(dir', Type(d.name)) == OfType(dir - {d.name}, Type(d.name)) * room.Keys + {d.name}
  {
  }

  /** A dump leaves the files of other types alone. */
  lemma OtherTypesAreKept(
      dir: Directory, room: Directory, dir': Directory, d: Dump, max: nat, ok: bool, typ: string)
    requires max > 0 && RoomFor(dir, room, dir', d, max, ok) && Type(d.name) != typ
    ensures OfType(dir', typ) == OfType(dir, typ)
    ensures forall f :: f in OfType(dir, typ) ==> dir'[f] == dir[f]
  {
    forall f | Type(f) == typ
      ensures f in dir' <==> f in dir
      ensures f in dir ==> dir'[f] == dir[f]
    {
      OtherFileIsKept(dir, room, d.name, max, f);
    }
  }

  lemma OtherFileIsKept(dir: Directory, room: Directory, name: string, max: nat, f: string)
    requires max > 0 && MadeRoom(dir, room, name, max) && Type(name) != Type(f)
    ensures f in room <==> f in dir
    ensures f in dir ==> room[f] == dir[f]
  {
    var counted := OfType(dir - {name}, Type(name));
    assert f in dir ==> f in dir - {name} && f !in counted;
  }

  /**
   Over any run, from the first dump of a type on there are at most max files of that type. (A
   directory that starts with no more than that keeps the bound from the start.)
   */
  lemma {:induction false} DumpsStayBounded(
      dirs: seq<Directory>, dumps: seq<Dump>, saved: seq<bool>, max: nat, typ: string, j: nat)
    requires max > 0 && Run(dirs, dumps, saved, max) && j <= |dumps|
    requires |OfType(dirs[0], typ)| <= max || exists i :: 0 <= i < j && Type(dumps[i].name) == typ
    ensures |OfType(dirs[j], typ)| <= max
    decreases j
  {
    if j > 0 {
      var i := j - 1;
      assert Processed(dirs[i], dirs[i + 1], dumps[i], max, saved[i]);
      var room :| RoomFor(dirs[i], room, dirs[j], dumps[i], max, saved[i]);
      if Type(dumps[i].name) == typ {
        OwnTypeIsBounded(dirs[i], room, dirs[j], dumps[i], max, saved[i]);
      } else {
        OtherTypesAreKept(dirs[i], room, dirs[j], dumps[i], max, saved[i], typ);
        DumpsStayBounded(dirs, dumps, saved, max, typ, i);
      }
    }
  }

  /** Each dump is newer than the one before it, saved or not. */
  predicate TimesIncrease(dumps: seq<Dump>) {
    forall i, k :: 0 <= i < k < |dumps| ==> dumps[i].time < dumps[k].time
  }

  predicate IsSaved(dir: Directory, d: Dump) {
    d.name in dir && dir[d.name] == d.time
  }

  /** A later dump removes a saved one only together with all older files of its type. */
  lemma SavedOneMore(
      dir: Directory, room: Directory, dir': Directory, last: Dump, max: nat, ok: bool, d: Dump, f: string)
    requires max > 0 && RoomFor(dir, room, dir', last, max, ok) && d.name != last.name && d.time < last.time
    requires f in OfType(dir', Type(d.name)) && dir'[f] < d.time
    ensures f in OfType(dir, Type(d.name)) && dir[f] == dir'[f]
    ensures IsSaved(dir, d) ==> IsSaved(dir', d)
  {
    var counted := OfType(dir - {last.name}, Type(last.name));
    assert f in room && f in dir - {last.name};
  }

  /**
   When time moves on from dump to dump, a saved dump is still there as long as any older file of
   its type is. So the files kept are the newest dumps.
   */
  lemma {:induction false} NewestDumpsSurvive(
      dirs: seq<Directory>, dumps: seq<Dump>, saved: seq<bool>, max: nat, i: nat, j: nat, f: string)
    requires max > 0 && Run(dirs, dumps, saved, max) && TimesIncrease(dumps)
    requires i < j <= |dumps| && saved[i] && forall k :: i < k < j ==> dumps[k].name != dumps[i].name
    requires f in OfType(dirs[j], Type(dumps[i].name)) && dirs[j][f] < dumps[i].time
    ensures IsSaved(dirs[j], dumps[i])
    decreases j
  {
    var k := j - 1;
    assert Processed(dirs[k], dirs[k + 1], dumps[k], max, saved[k]);
    var room :| RoomFor(dirs[k], room, dirs[j], dumps[k], max, saved[k]);
    if i < k {
      SavedOneMore(dirs[k], room, dirs[j], dumps[k], max, saved[k], dumps[i], f);
      NewestDumpsSurvive(dirs, dumps, saved, max, i, k, f);
    }
  }

  /** Names that start with a dot are never counted: dumps with such names all stay. */
  lemma HiddenDumpsPileUp(dir: Directory, room: Directory, dir': Directory, d: Dump, max: nat)
    requires max > 0 && RoomFor(dir, room, dir', d, max, true) && d.name != "" && d.name[0] == '.'
    ensures dir' == dir[d.name := d.time]
  {
    assert OfType(dir - {d.name}, Type(d.name)) == {} by {
      forall f | f in dir && f != d.name && Type(f) == Type(d.name)
        ensures Hidden(f)
      {
        assert Type(f)[0] == '.';
      }
    }
  }

  /** Over any run, a hidden file stays as it was until its own name is processed again. */
  lemma {:induction false} HiddenFilesStay(
      dirs: seq<Directory>, dumps: seq<Dump>, saved: seq<bool>, max: nat, i: nat, j: nat, f: string)
    requires max > 0 && Run(dirs, dumps, saved, max) && i <= j <= |dumps|
    requires f in dirs[i] && f != "" && f[0] == '.' && forall k :: i <= k < j ==> dumps[k].name != f
    ensures f in dirs[j] && dirs[j][f] == dirs[i][f]
    decreases j
  {
    if i < j {
      var k := j - 1;
      HiddenFilesStay(dirs, dumps, saved, max, i, k, f);
      assert Processed(dirs[k], dirs[k + 1], dumps[k], max, saved[k]);
      var room :| RoomFor(dirs[k], room, dirs[j], dumps[k], max, saved[k]);
      HiddenFileStays(dirs[k], room, dumps[k].name, max, f);
    }
  }

  lemma HiddenFileStays(dir: Directory, room: Directory, name: string, max: nat, f: string)
    requires max > 0 && MadeRoom(dir, room, name, max) && f in dir && f != name && Hidden(f)
    ensures f in room && room[f] == dir[f]
  {
    assert f in dir - {name} && f !in OfType(dir - {name}, Type(name));
  }
}
