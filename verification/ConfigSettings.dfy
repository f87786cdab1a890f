/** The settings a configuration file leaves, told from the last line of each name. */
module ConfigSettings {
  import opened Config
  import opened CString
  import opened Decimal
  import opened Wrappers

  // Values.

  /** A long within an int: the number of 32 bits that is the same modulo 2^32. */
  predicate IntOf(v: int, r: int) {
    -0x8000_0000 <= r <= 0x7FFF_FFFF && (v - r) % 0x1_0000_0000 == 0
  }

  /** What strtol makes of a sign and the number of some digits. */
  function Clamped(negative: bool, n: int): int {
    if negative then if n > 0x8000_0000_0000_0000 then -0x8000_0000_0000_0000 else -n
    else if n > 0x7FFF_FFFF_FFFF_FFFF then 0x7FFF_FFFF_FFFF_FFFF else n
  }

  lemma SignedNumber(sign: string, digits: string, rest: string)
    requires sign in ["", "+", "-"] && digits != "" && AllDigits(digits) && (rest != "" ==> !IsDigit(rest[0]))
    ensures StrToL(sign + (digits + rest)) == (Clamped(sign == "-", NumberOf(digits)), rest)
  {
    var u := digits + rest;
    assert u[0] == digits[0] && IsDigit(digits[0]);
    RunOfDigits(digits, rest);
    DigitsAreLong(digits, rest, u, sign == "-");
    SignIsTaken(sign, u);
  }

  lemma SignIsTaken(sign: string, u: string)
    requires sign in ["", "+", "-"] && u != "" && IsDigit(u[0])
    ensures StrToL(sign + u) == LongOf(u, sign == "-")
  {
    var s := sign + u;
    if sign == "" {
      assert s == u;
    } else {
      assert s[0] == sign[0] && s[1..] == u;
    }
  }

  lemma DigitsAreLong(digits: string, rest: string, u: string, negative: bool)
    requires AllDigits(digits) && u == digits + rest && DigitRun(u) == |digits|
    ensures LongOf(u, negative) == (Clamped(negative, NumberOf(digits)), rest)
  {
    assert u[..|digits|] == digits && u[|digits|..] == rest;
  }

  lemma WithinInt(v: int, r: int)
    requires IntOf(v, r)
    ensures ToInt(v) == r
  {
  }

  /**
   A value that starts with a number, which is r as an int: a minimum is r or at least 1, and a policy is r
   when nothing follows the number and r is 0 or 1.
   */
  lemma NumberIsValue(sign: string, digits: string, rest: string, r: int)
    requires sign in ["", "+", "-"] && digits != "" && AllDigits(digits) && (rest != "" ==> !IsDigit(rest[0]))
    requires IntOf(Clamped(sign == "-", NumberOf(digits)), r)
    ensures Minimum(sign + (digits + rest)) == if r < 1 then 1 else r
    ensures Policy(sign + (digits + rest)) == if rest == "" && (r == 0 || r == 1) then r else -1
  {
    SignedNumber(sign, digits, rest);
    WithinInt(Clamped(sign == "-", NumberOf(digits)), r);
  }

  /** A value that does not start with a number is 1 as a minimum, and as a policy -1. */
  lemma OtherIsNoValue(t: string)
    requires t != "" && !IsSpace(t[0])
    requires var u := if t[0] in "+-" then t[1..] else t; u == "" || !('0' <= u[0] <= '9')
    ensures Minimum(t) == 1 && Policy(t) == -1
  {
  }

  /** A numeral as a value. */
  lemma NumeralIsValue(n: nat)
    requires n <= 0x7FFF_FFFF
    ensures Minimum(Numeral(n)) == if n < 1 then 1 else n
    ensures Policy(Numeral(n)) == if n == 0 || n == 1 then n else -1
  {
    var t := Numeral(n);
    NumeralReadsBack(n);
    NumberIsValue("", t, "", n);
    assert "" + (t + "") == t;
  }

  // The last assignment of a name.

  function LastAssigned(done: seq<Assignment>, n: Name): Option<string> {
    if done == [] then None
    else
      var last := |done| - 1;
      if done[last].name == n then Some(done[last].value) else LastAssigned(done[..last], n)
  }

  lemma LastAssignedSnoc(done: seq<Assignment>, a: Assignment, n: Name)
    ensures LastAssigned(done + [a], n) == if a.name == n then Some(a.value) else LastAssigned(done, n)
  {
    assert (done + [a])[..|done|] == done;
  }

  /** A setting is the one its last value gives, or the one there was. */
  predicate GivenBy(c: Settings, before: Settings, last: Name -> Option<string>, policyKept: bool) {
    c.minProcessors == (match last(MinProcessors)
                        case None => before.minProcessors
                        case Some(t) => Minimum(t)) &&
    c.minEntitledCapacity == (match last(MinEntitledCapacity)
                              case None => before.minEntitledCapacity
                              case Some(t) => Minimum(t)) &&
    c.scanlogDumpPath == (match last(ScanlogDumpPath)
                          case None => before.scanlogDumpPath
                          case Some(t) => Directory(t)) &&
    c.platformDumpPath == (match last(PlatformDumpPath)
                           case None => before.platformDumpPath
                           case Some(t) => Directory(t)) &&
    c.restartPolicy == (match last(AutoRestartPolicy)
                        case None => before.restartPolicy
                        case Some(t) => if policyKept then Policy(t) else -1)
  }

  lemma OneMoreAssignment(
      c: Settings, before: Settings, was: Name -> Option<string>, a: Assignment, now: Name -> Option<string>,
      policyKept: bool)
    requires GivenBy(c, before, was, policyKept)
    requires forall n :: now(n) == if a.name == n then Some(a.value) else was(n)
    ensures GivenBy(Configured(c, a.name, a.value, policyKept), before, now, policyKept)
  {
  }

  lemma {:induction false} AssignedFields(c: Settings, done: seq<Assignment>, policyKept: bool)
    ensures GivenBy(Assigned(c, done, policyKept), c, n => LastAssigned(done, n), policyKept)
    decreases |done|
  {
    if done != [] {
      var init, a := done[..|done| - 1], done[|done| - 1];
      AssignedFields(c, init, policyKept);
      assert done == init + [a];
      forall n
        ensures LastAssigned(done, n) == if a.name == n then Some(a.value) else LastAssigned(init, n)
      {
        LastAssignedSnoc(init, a, n);
      }
      OneMoreAssignment(
        Assigned(c, init, policyKept), c, n => LastAssigned(init, n), a, n => LastAssigned(done, n), policyKept);
    }
  }

  /** The value of the last line that assigns a name. */
  function LastSet(lines: seq<Line>, n: Name): Option<string> {
    if lines == [] then None
    else
      var last := |lines| - 1;
      if lines[last].Set? && lines[last].name == n then Some(lines[last].value) else LastSet(lines[..last], n)
  }

  /** Line k assigns this name and no later line does. */
  predicate LastAt(lines: seq<Line>, n: Name, k: nat) {
    k < |lines| && lines[k].Set? && lines[k].name == n &&
    forall j :: k < j < |lines| && lines[j].Set? ==> lines[j].name != n
  }

  /** There is a last value exactly when some line assigns the name, and it is that of the last one. */
  lemma {:induction false} LastSetIsLast(lines: seq<Line>, n: Name)
    ensures LastSet(lines, n).None? <==> forall k :: 0 <= k < |lines| && lines[k].Set? ==> lines[k].name != n
    ensures LastSet(lines, n).Some? ==>
              exists k: nat :: LastAt(lines, n, k) && lines[k].value == LastSet(lines, n).value
    decreases |lines|
  {
    if lines != [] {
      var last := |lines| - 1;
      var init := lines[..last];
      if lines[last].Set? && lines[last].name == n {
        assert LastAt(lines, n, last);
      } else {
        LastSetIsLast(init, n);
        if LastSet(init, n).Some? {
          var k: nat :| LastAt(init, n, k) && init[k].value == LastSet(init, n).value;
          assert LastAt(lines, n, k);
        } else {
          assert forall k :: 0 <= k < |init| ==> lines[k] == init[k];
        }
      }
    }
  }

  lemma {:induction false} WrittenSnoc(lines: seq<Line>, l: Line, done: seq<Assignment>)
    ensures Written(lines + [l], done) == Written(lines, done) + Assignments(l)
    decreases |lines|
  {
    var all := lines + [l];
    if lines == [] {
      assert all[0] == l && all[1..] == [];
    } else {
      assert all[0] == lines[0] && all[1..] == lines[1..] + [l];
      WrittenSnoc(lines[1..], l, done + Assignments(lines[0]));
    }
  }

  lemma {:induction false} LastWritten(lines: seq<Line>, n: Name)
    ensures LastAssigned(Written(lines, []), n) == LastSet(lines, n)
    decreases |lines|
  {
    if lines != [] {
      var init, l := lines[..|lines| - 1], lines[|lines| - 1];
      assert lines == init + [l];
      WrittenSnoc(init, l, []);
      LastWritten(init, n);
      LastSetSnoc(init, l, n);
      if l.Set? {
        LastAssignedSnoc(Written(init, []), Assignment(l.name, l.value), n);
      } else {
        assert Written(init, []) + [] == Written(init, []);
      }
    }
  }

  lemma LastSetSnoc(lines: seq<Line>, l: Line, n: Name)
    ensures LastSet(lines + [l], n) == if l.Set? && l.name == n then Some(l.value) else LastSet(lines, n)
  {
    assert (lines + [l])[..|lines|] == lines;
  }

  /** The lines, written out. */
  lemma LinesAre(value: string)
    ensures LineText(Set(MinProcessors, value)) == "MinProcessors=" + value + "\n"
    ensures LineText(Set(MinEntitledCapacity, value)) == "MinEntitledCapacity=" + value + "\n"
    ensures LineText(Set(ScanlogDumpPath, value)) == "ScanlogDumpPath=" + value + "\n"
    ensures LineText(Set(PlatformDumpPath, value)) == "PlatformDumpPath=" + value + "\n"
    ensures LineText(Set(AutoRestartPolicy, value)) == "AutoRestartPolicy=" + value + "\n"
    ensures LineText(Remark(value)) == "#" + value + "\n" && LineText(Empty) == "\n"
  {
  }

  /** The minimum a last line gives, when it is a number in range. */
  predicate MinimumIs(m: int, last: Option<string>, default: int) {
    (last == None ==> m == default) &&
    forall n: nat :: last == Some(Numeral(n)) && n <= 0x7FFF_FFFF ==> m == if n < 1 then 1 else n
  }

  predicate PathIs(p: string, last: Option<string>, default: string) {
    p == match last
         case None => default
         case Some(v) => if v != "" && v[|v| - 1] == '/' then v else v + "/"
  }

  predicate PolicyIs(policy: int, last: Option<string>, kept: bool) {
    (last == None ==> policy == -1) &&
    forall n: nat :: last == Some(Numeral(n)) && n <= 0x7FFF_FFFF ==>
      policy == if kept && (n == 0 || n == 1) then n else -1
  }

  /**
   A file of assignments, remarks and empty lines gives each setting the value of the last line with its
   name, and leaves the others at their defaults. A minimum is at least 1, a policy 0 or 1 if the system
   takes it, and a path gets a slash at its end when it has none.
   */
  lemma SettingsAreLastValues(lines: seq<Line>, policyKept: bool)
    requires forall i :: 0 <= i < |lines| ==> GoodLine(lines[i])
    ensures var r := Configuration(Some(FileText(lines)), policyKept);
            r.Some? &&
            MinimumIs(r.value.minProcessors, LastSet(lines, MinProcessors), 1) &&
            MinimumIs(r.value.minEntitledCapacity, LastSet(lines, MinEntitledCapacity), 5) &&
            PathIs(r.value.scanlogDumpPath, LastSet(lines, ScanlogDumpPath), "/var/log/") &&
            PathIs(r.value.platformDumpPath, LastSet(lines, PlatformDumpPath), "/var/log/dump/") &&
            PolicyIs(r.value.restartPolicy, LastSet(lines, AutoRestartPolicy), policyKept)
  {
    ConfigurationRoundTrip(lines, policyKept);
    var done := Written(lines, []);
    var c := Assigned(Defaults(), done, policyKept);
    AssignedFields(Defaults(), done, policyKept);
    LastWritten(lines, MinProcessors);
    LastWritten(lines, MinEntitledCapacity);
    LastWritten(lines, ScanlogDumpPath);
    LastWritten(lines, PlatformDumpPath);
    LastWritten(lines, AutoRestartPolicy);
    MinimumGiven(c.minProcessors, LastAssigned(done, MinProcessors), 1);
    MinimumGiven(c.minEntitledCapacity, LastAssigned(done, MinEntitledCapacity), 5);
    PolicyGiven(c.restartPolicy, LastAssigned(done, AutoRestartPolicy), policyKept);
  }

  lemma MinimumGiven(m: int, last: Option<string>, default: int)
    requires m == match last
                  case None => default
                  case Some(t) => Minimum(t)
    ensures MinimumIs(m, last, default)
  {
    forall n: nat | last == Some(Numeral(n)) && n <= 0x7FFF_FFFF
      ensures m == if n < 1 then 1 else n
    {
      NumeralIsValue(n);
    }
  }

  lemma PolicyGiven(policy: int, last: Option<string>, kept: bool)
    requires policy == match last
                       case None => -1
                       case Some(t) => if kept then Policy(t) else -1
    ensures PolicyIs(policy, last, kept)
  {
    forall n: nat | last == Some(Numeral(n)) && n <= 0x7FFF_FFFF
      ensures policy == if kept && (n == 0 || n == 1) then n else -1
    {
      NumeralIsValue(n);
    }
  }
}
