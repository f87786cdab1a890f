/** Location codes and the search for the indicator nearest to a device. */
module LocationCode {
  import opened CString
  import opened Wrappers

  const LOCATION_LENGTH: nat := 80

  /** What fits a buffer for a location code. */
  function Cut(location: string): (t: string)
    ensures |t| < LOCATION_LENGTH
  {
    if |location| < LOCATION_LENGTH then location else location[..LOCATION_LENGTH - 1]
  }

  /** The last position of a hyphen, or -1. */
  function LastHyphen(s: string): (r: int)
    ensures -1 <= r < |s|
    ensures r >= 0 ==> s[r] == '-'
    ensures forall k :: r < k < |s| ==> s[k] != '-'
  {
    if s == "" then -1
    else if s[|s| - 1] == '-' then |s| - 1
    else LastHyphen(s[..|s| - 1])
  }

  /** The first entry of the indicator list that has this code. */
  function FirstMatch(codes: seq<string>, s: string): (r: Option<nat>)
    ensures r.None? <==> s !in codes
    ensures r.Some? ==> r.value < |codes| && codes[r.value] == s && s !in codes[..r.value]
  {
    if codes == [] then None
    else if codes[0] == s then Some(0)
    else
      match FirstMatch(codes[1..], s)
      case None => None
      case Some(i) =>
        assert codes[..i + 1] == [codes[0]] + codes[1..][..i];
        Some(i + 1)
  }

  datatype Hit = Hit(index: nat, prefix: string)

  /** Cuts the code at its last hyphen until an indicator has it. */
  function Nearest(codes: seq<string>, s: string): (r: Option<Hit>)
    ensures r.Some? ==> r.value.index < |codes| && FirstMatch(codes, r.value.prefix) == Some(r.value.index)
    ensures r.Some? ==> r.value.prefix <= s
    decreases |s|
  {
    match FirstMatch(codes, s)
    case Some(i) => Some(Hit(i, s))
    case None =>
      var h := LastHyphen(s);
      if h < 0 then None else Nearest(codes, s[..h])
  }

  /** A place where a location code may be cut: its end, or just before a hyphen. */
  predicate Boundary(s: string, n: nat) {
    n <= |s| && (n == |s| || s[n] == '-')
  }

  lemma {:induction false} NearestIsLongestPrefix(codes: seq<string>, s: string)
    ensures Nearest(codes, s).None? <==> forall n: nat :: Boundary(s, n) ==> s[..n] !in codes
    ensures Nearest(codes, s).Some? ==>
              var hit := Nearest(codes, s).value;
              Boundary(s, |hit.prefix|) &&
              hit.prefix == s[..|hit.prefix|] &&
              codes[hit.index] == hit.prefix &&
              hit.prefix !in codes[..hit.index] &&
              forall n: nat :: Boundary(s, n) && |hit.prefix| < n ==> s[..n] !in codes
    decreases |s|
  {
    assert s[..|s|] == s;
    if FirstMatch(codes, s).None? {
      var h := LastHyphen(s);
      if h >= 0 {
        var t := s[..h];
        NearestIsLongestPrefix(codes, t);
        forall n: nat | Boundary(s, n) && n < |s|
          ensures Boundary(t, n) && t[..n] == s[..n]
        {
        }
        forall n: nat | Boundary(t, n)
          ensures Boundary(s, n) && t[..n] == s[..n]
        {
        }
      } else {
        forall n: nat | Boundary(s, n)
          ensures s[..n] !in codes
        {
        }
      }
    } else {
      assert Boundary(s, |s|);
    }
  }

  /** Drops the last component of the code held in the buffer. */
  method TruncateLocCode(loccode: array<char>) returns (truncated: bool)
    requires Terminated(loccode[..])
    modifies loccode
    ensures Terminated(loccode[..])
    ensures var s := old(Str(loccode[..]));
            var h := LastHyphen(s);
            truncated == (h >= 0) &&
            Str(loccode[..]) == if h >= 0 then s[..h] else s
  {
    ghost var b := loccode[..];
    ghost var s := Str(b);
    var n: int := Strlen(loccode);
    var i := n - 1;
    while i >= 0
      invariant -1 <= i < n
      invariant loccode[..] == b
      invariant forall k :: i < k < n ==> s[k] != '-'
    {
      if loccode[i] == '-' {
        loccode[i] := NUL;
        assert loccode[..][..i] == s[..i];
        StrIs(loccode[..], i);
        assert LastHyphen(s) == i;
        return true;
      }
      i := i - 1;
    }
    return false;
  }

  method GetIndicatorForLocCode(codes: seq<string>, location: string) returns (r: Option<nat>)
    ensures r == FirstMatch(codes, location)
  {
    var i := 0;
    while i < |codes|
      invariant 0 <= i <= |codes|
      invariant location !in codes[..i]
    {
      if codes[i] == location {
        return Some(i);
      }
      i := i + 1;
    }
    return None;
  }

  /** The lookup, on the string a buffer holds. */
  method Lookup(codes: seq<string>, location: array<char>) returns (r: Option<nat>)
    requires Terminated(location[..])
    ensures r == FirstMatch(codes, Str(location[..]))
  {
    var n := Strlen(location);
    assert location[..n] == Str(location[..]);
    r := GetIndicatorForLocCode(codes, location[..n]);
  }

  /** Truncates the code in the buffer until an indicator has it. */
  method GetFruIndicator(codes: seq<string>, location: array<char>) returns (led: Option<nat>, truncated: bool)
    requires Terminated(location[..])
    modifies location
    ensures Terminated(location[..])
    ensures match Nearest(codes, old(Str(location[..])))
            case Some(hit) => led == Some(hit.index) && Str(location[..]) == hit.prefix
            case None => led == None
    ensures truncated <==> |Str(location[..])| < |old(Str(location[..]))|
  {
    truncated := false;
    led := Lookup(codes, location);
    while led.None?
      invariant Terminated(location[..])
      invariant led == FirstMatch(codes, Str(location[..]))
      invariant Nearest(codes, Str(location[..])) == Nearest(codes, old(Str(location[..])))
      invariant |Str(location[..])| <= |old(Str(location[..]))|
      invariant truncated <==> |Str(location[..])| < |old(Str(location[..]))|
      decreases |Str(location[..])|
    {
      var cut := TruncateLocCode(location);
      if !cut {
        return;
      }
      truncated := true;
      led := Lookup(codes, location);
    }
  }
}
