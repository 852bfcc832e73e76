/** The requirements-line filter of setup.py (`get_requirements`): strip every
    line, keep the ones that are not blank, not comments and not `--hash`
    continuation lines, and delete every " \" (space, backslash) from what is kept.
    The lines are a parameter; reading and splitting the file is not modelled. */
module Setup {

  /** The characters Python's `str.strip()` removes (those for which `str.isspace()` holds). */
  predicate IsSpace(c: char) {
    ('\t' <= c <= '\r') || ('\U{1C}' <= c <= ' ') ||
    c == '\U{85}' || c == '\U{A0}' || c == '\U{1680}' ||
    ('\U{2000}' <= c <= '\U{200A}') || c == '\U{2028}' || c == '\U{2029}' ||
    c == '\U{202F}' || c == '\U{205F}' || c == '\U{3000}'
  }

  function StripLeft(s: string): (r: string)
    ensures |r| <= |s| && r == s[|s| - |r|..]
    ensures forall i :: 0 <= i < |s| - |r| ==> IsSpace(s[i])
    ensures r == [] || !IsSpace(r[0])
  {
    if s != [] && IsSpace(s[0]) then StripLeft(s[1..]) else s
  }

  function StripRight(s: string): (r: string)
    ensures |r| <= |s| && r == s[..|r|]
    ensures forall i :: |r| <= i < |s| ==> IsSpace(s[i])
    ensures r == [] || !IsSpace(r[|r| - 1])
  {
    if s != [] && IsSpace(s[|s| - 1]) then StripRight(s[..|s| - 1]) else s
  }

  /** `r` is the slice of `s` starting at `a`, and everything outside it is whitespace. */
  predicate TrimmedAt(s: string, r: string, a: nat) {
    a + |r| <= |s| && r == s[a..a + |r|] &&
    (forall i :: 0 <= i < a ==> IsSpace(s[i])) &&
    (forall i :: a + |r| <= i < |s| ==> IsSpace(s[i]))
  }

  /** `str.strip()`: the slice of `s` left after removing whitespace at both ends. */
  function Strip(s: string): (r: string)
    ensures |r| <= |s|
    ensures r == [] <==> forall i :: 0 <= i < |s| ==> IsSpace(s[i])
    ensures r != [] ==> !IsSpace(r[0]) && !IsSpace(r[|r| - 1])
    ensures exists a: nat :: TrimmedAt(s, r, a)
  {
    var l := StripLeft(s);
    var r := StripRight(l);
    TrimTwice(s, l, r);
    if r == [] then
      assert l == [];
      r
    else
      assert !IsSpace(s[|s| - |l|]);
      r
  }

  /** Trimming a prefix of whitespace and then a suffix of whitespace leaves a slice. */
  lemma TrimTwice(s: string, l: string, r: string)
    requires |l| <= |s| && l == s[|s| - |l|..]
    requires forall i :: 0 <= i < |s| - |l| ==> IsSpace(s[i])
    requires |r| <= |l| && r == l[..|r|]
    requires forall i :: |r| <= i < |l| ==> IsSpace(l[i])
    ensures TrimmedAt(s, r, |s| - |l|)
  {
    var a := |s| - |l|;
    SliceOfSlice(s, a, |r|);
    forall i | a + |r| <= i < |s| ensures IsSpace(s[i]) {
      assert s[i] == l[i - a];
    }
  }

  lemma SliceOfSlice<T>(s: seq<T>, a: nat, n: nat)
    requires a + n <= |s|
    ensures s[a..][..n] == s[a..a + n]
  {
  }

  predicate StartsWith(s: string, prefix: string) {
    |prefix| <= |s| && s[..|prefix|] == prefix
  }

  /** A stripped line that survives the filter. */
  predicate Kept(line: string) {
    line != "" && !StartsWith(line, "#") && !StartsWith(line, "--hash")
  }

  /** An occurrence of " \" starts at position `i` of `s`. */
  predicate PatternAt(s: string, i: int) {
    0 <= i && i + 1 < |s| && s[i] == ' ' && s[i + 1] == '\\'
  }

  /** `s.replace(" \\", "")`: one left-to-right pass deleting non-overlapping
      occurrences of space-backslash. (The pattern cannot overlap itself, so
      matching at the first character whenever possible is that pass.) */
  function RemoveSpaceBackslash(s: string): (r: string)
    ensures |r| <= |s|
    ensures s != [] && s[0] != ' ' ==> r != [] && r[0] == s[0]
    decreases |s|
  {
    if |s| >= 2 && s[0] == ' ' && s[1] == '\\' then RemoveSpaceBackslash(s[2..])
    else if s == [] then []
    else [s[0]] + RemoveSpaceBackslash(s[1..])
  }

  /** `s.count(" \\")`: the number of non-overlapping occurrences, left to right. */
  function Occurrences(s: string): nat
    decreases |s|
  {
    if |s| < 2 then 0
    else if PatternAt(s, 0) then 1 + Occurrences(s[2..])
    else Occurrences(s[1..])
  }

  /** `get_requirements`, with the lines of the file as its argument. */
  function GetRequirements(lines: seq<string>): (r: seq<string>)
    ensures |r| <= |lines|
    ensures forall k :: 0 <= k < |r| ==> r[k] != [] && !IsSpace(r[k][0]) && r[k][0] != '#'
  {
    if lines == [] then []
    else
      var line := Strip(lines[0]);
      var rest := GetRequirements(lines[1..]);
      if Kept(line) then
        assert line[..1] != "#";
        [RemoveSpaceBackslash(line)] + rest
      else rest
  }

  /** The replacement works piece by piece: a line splits into pieces at any point
      that does not cut an occurrence of " \" in two, and the result is the
      pieces' results joined. */
  lemma {:induction false} RemovalConcat(a: string, b: string)
    requires !(a != [] && a[|a| - 1] == ' ' && b != [] && b[0] == '\\')
    ensures RemoveSpaceBackslash(a + b) == RemoveSpaceBackslash(a) + RemoveSpaceBackslash(b)
    decreases |a|
  {
    if a == [] {
      assert a + b == b;
    } else if |a| >= 2 && a[0] == ' ' && a[1] == '\\' {
      assert (a + b)[2..] == a[2..] + b;
      RemovalConcat(a[2..], b);
    } else {
      assert (a + b)[0] == a[0];
      assert (a + b)[1..] == a[1..] + b;
      RemovalConcat(a[1..], b);
    }
  }

  /** The pieces themselves: an occurrence of " \" disappears, any single
      character stays. With RemovalConcat this fixes the result of every line. */
  lemma RemovalPieces()
    ensures RemoveSpaceBackslash(" \\") == ""
    ensures forall c: char :: RemoveSpaceBackslash([c]) == [c]
  {
  }

  /** Every occurrence removed costs exactly its two characters. */
  lemma {:induction false} RemovedLength(s: string)
    ensures |RemoveSpaceBackslash(s)| == |s| - 2 * Occurrences(s)
    decreases |s|
  {
    if |s| >= 2 && PatternAt(s, 0) {
      RemovedLength(s[2..]);
    } else if s != [] {
      RemovedLength(s[1..]);
    }
  }

  /** The replacement changes a line exactly when the line contains " \". */
  lemma {:induction false} UnchangedIffNoPattern(s: string)
    ensures RemoveSpaceBackslash(s) == s <==> forall i :: 0 <= i < |s| ==> !PatternAt(s, i)
    decreases |s|
  {
    if |s| >= 2 && PatternAt(s, 0) {
      assert |RemoveSpaceBackslash(s)| < |s|;
    } else if s != [] {
      var t := s[1..];
      assert s == [s[0]] + t;
      assert RemoveSpaceBackslash(s) == [s[0]] + RemoveSpaceBackslash(t);
      UnchangedIffNoPattern(t);
      forall i | 0 <= i < |t| ensures PatternAt(t, i) == PatternAt(s, i + 1) {
      }
      if RemoveSpaceBackslash(s) == s {
        assert RemoveSpaceBackslash(t) == t;
        forall i | 0 <= i < |s| ensures !PatternAt(s, i) {
          if i > 0 {
            assert !PatternAt(t, i - 1);
          }
        }
      } else {
        assert RemoveSpaceBackslash(t) != t;
        var j :| 0 <= j < |t| && PatternAt(t, j);
        assert PatternAt(s, j + 1);
      }
    }
  }

  /** One pass does not reach a fixed point: deleting an occurrence can join a
      space and a backslash into a new one, so the output may still contain " \". */
  lemma RemovalCanLeavePattern()
    ensures RemoveSpaceBackslash("a  \\\\") == "a \\"
    ensures PatternAt(RemoveSpaceBackslash("a  \\\\"), 1)
    ensures RemoveSpaceBackslash(RemoveSpaceBackslash("a  \\\\")) != RemoveSpaceBackslash("a  \\\\")
  {
  }

  /** What one line contributes: its stripped, cleaned text if it is kept, nothing otherwise. */
  lemma OneLine(line: string)
    ensures GetRequirements([line]) ==
      if Kept(Strip(line)) then [RemoveSpaceBackslash(Strip(line))] else []
  {
  }

  /** The filter works line by line: the result for a concatenation is the
      concatenation of the results, so output order follows input order. */
  lemma {:induction false} ConcatenationDistributes(a: seq<string>, b: seq<string>)
    ensures GetRequirements(a + b) == GetRequirements(a) + GetRequirements(b)
    decreases |a|
  {
    if a != [] {
      assert (a + b)[0] == a[0];
      assert (a + b)[1..] == a[1..] + b;
      ConcatenationDistributes(a[1..], b);
    } else {
      assert a + b == b;
    }
  }

  /** Blank lines, comments and `--hash` lines contribute nothing. */
  lemma DroppedLine(lines: seq<string>, line: string)
    requires !Kept(Strip(line))
    ensures GetRequirements([line] + lines) == GetRequirements(lines)
  {
  }
}
