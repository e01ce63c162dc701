/** Glob matching with `*`: the greedy scan over the segments of the pattern,
    against the language the pattern denotes. */
module Glob {
  import opened Common

  /** The language of a pattern: `*` stands for any string, any other character
      for itself. */
  ghost predicate Matches(s: string, pattern: string)
    decreases |pattern|
  {
    if pattern == "" then s == ""
    else if pattern[0] == '*' then exists k :: 0 <= k <= |s| && Matches(s[k..], pattern[1..])
    else s != "" && s[0] == pattern[0] && Matches(s[1..], pattern[1..])
  }

  /** The parts between the stars; never empty. */
  function Split(pattern: string): (parts: seq<string>)
    ensures |parts| > 0
  {
    if pattern == "" then [""]
    else
      var rest := Split(pattern[1..]);
      if pattern[0] == '*' then [""] + rest else [[pattern[0]] + rest[0]] + rest[1..]
  }

  predicate OccursAt(s: string, seg: string, i: int) {
    0 <= i <= |s| - |seg| && s[i..i + |seg|] == seg
  }

  /** `s` is in the language of `*seg0*seg1...*segn`. */
  ghost predicate Floating(s: string, segs: seq<string>)
    decreases |segs|
  {
    if segs == [] then s == ""
    else if |segs| == 1 then |s| >= |segs[0]| && s[|s| - |segs[0]|..] == segs[0]
    else exists k :: OccursAt(s, segs[0], k) && Floating(s[k + |segs[0]|..], segs[1..])
  }

  predicate EndsWith(s: string, seg: string) {
    |s| >= |seg| && s[|s| - |seg|..] == seg
  }

  ghost predicate InParts(s: string, parts: seq<string>)
    requires |parts| > 0
  {
    if |parts| == 1 then s == parts[0]
    else parts[0] <= s && Floating(s[|parts[0]|..], parts[1..])
  }

  /** A leading star absorbs anything put in front. */
  lemma {:induction false} FloatingExtends(x: string, s: string, segs: seq<string>)
    requires |segs| > 0 && Floating(s, segs)
    ensures Floating(x + s, segs)
  {
    var t := x + s;
    if |segs| == 1 {
      assert t[|t| - |segs[0]|..] == s[|s| - |segs[0]|..];
    } else {
      var k :| OccursAt(s, segs[0], k) && Floating(s[k + |segs[0]|..], segs[1..]);
      var n := |segs[0]|;
      assert t[|x| + k..|x| + k + n] == s[k..k + n];
      assert t[|x| + k + n..] == s[k + n..];
      assert OccursAt(t, segs[0], |x| + k);
    }
  }

  /** A leading character must head both the string and its first part. */
  lemma CharInParts(s: string, c: char, rest: seq<string>)
    requires |rest| > 0
    ensures InParts(s, [[c] + rest[0]] + rest[1..]) <==> s != "" && s[0] == c && InParts(s[1..], rest)
  {
    var parts := [[c] + rest[0]] + rest[1..];
    assert parts[1..] == rest[1..];
    if s != "" {
      assert s == [s[0]] + s[1..];
      assert parts[0] <= s <==> s[0] == c && rest[0] <= s[1..];
      if parts[0] <= s {
        assert s[|parts[0]|..] == s[1..][|rest[0]|..];
      }
    }
  }

  /** The language and the parts say the same. */
  lemma {:induction false} PartsDenote(s: string, pattern: string)
    ensures Matches(s, pattern) <==> InParts(s, Split(pattern))
    decreases |pattern|
  {
    if pattern != "" {
      if pattern[0] == '*' {
        StarDenotes(s, pattern);
      } else {
        CharInParts(s, pattern[0], Split(pattern[1..]));
        if s != "" {
          PartsDenote(s[1..], pattern[1..]);
        }
      }
    }
  }

  lemma {:induction false} StarDenotes(s: string, pattern: string)
    requires pattern != "" && pattern[0] == '*'
    ensures Matches(s, pattern) <==> InParts(s, Split(pattern))
    decreases |pattern|, 0
  {
    var rest := Split(pattern[1..]);
    EmptyHead(s, rest);
    if Matches(s, pattern) {
      var k :| 0 <= k <= |s| && Matches(s[k..], pattern[1..]);
      PartsDenote(s[k..], pattern[1..]);
      FloatingAfter(s, k, rest);
    }
    if Floating(s, rest) {
      var k := PartsOfFloating(s, rest);
      PartsDenote(s[k..], pattern[1..]);
    }
  }

  lemma EmptyHead(s: string, rest: seq<string>)
    requires |rest| > 0
    ensures InParts(s, [""] + rest) <==> Floating(s, rest)
  {
    assert ([""] + rest)[1..] == rest && s[0..] == s;
  }

  lemma FloatingAfter(s: string, k: nat, parts: seq<string>)
    requires k <= |s| && |parts| > 0 && InParts(s[k..], parts)
    ensures Floating(s, parts)
  {
    FloatingOfParts(s[k..], parts);
    FloatingExtends(s[..k], s[k..], parts);
    assert s == s[..k] + s[k..];
  }

  lemma FloatingOfParts(s: string, parts: seq<string>)
    requires |parts| > 0 && InParts(s, parts)
    ensures Floating(s, parts)
  {
    if |parts| > 1 {
      assert OccursAt(s, parts[0], 0);
    }
  }

  lemma PartsOfFloating(s: string, parts: seq<string>) returns (k: int)
    requires |parts| > 0 && Floating(s, parts)
    ensures 0 <= k <= |s| && InParts(s[k..], parts)
  {
    if |parts| == 1 {
      k := |s| - |parts[0]|;
    } else {
      k :| OccursAt(s, parts[0], k) && Floating(s[k + |parts[0]|..], parts[1..]);
      assert s[k..][..|parts[0]|] == parts[0];
      assert s[k..][|parts[0]|..] == s[k + |parts[0]|..];
    }
  }

  /** Taking the leftmost occurrence of a segment loses nothing. */
  lemma LeftmostSuffices(s: string, segs: seq<string>, i: int)
    requires |segs| > 1 && OccursAt(s, segs[0], i)
    requires forall j :: OccursAt(s, segs[0], j) ==> i <= j
    ensures Floating(s, segs) <==> Floating(s[i + |segs[0]|..], segs[1..])
  {
    if Floating(s, segs) {
      var n := |segs[0]|;
      var k :| OccursAt(s, segs[0], k) && Floating(s[k + n..], segs[1..]);
      assert s[i + n..] == s[i + n..k + n] + s[k + n..];
      FloatingExtends(s[i + n..k + n], s[k + n..], segs[1..]);
    }
  }

  /** The first position at or after `from` where `seg` occurs. */
  method Find(s: string, seg: string, from: nat) returns (at: Option<nat>)
    requires from <= |s|
    ensures at.Some? ==> from <= at.value && OccursAt(s, seg, at.value)
    ensures at.Some? ==> forall j :: from <= j && OccursAt(s, seg, j) ==> at.value <= j
    ensures at.None? ==> forall j :: from <= j ==> !OccursAt(s, seg, j)
  {
    var i := from;
    while i + |seg| <= |s|
      invariant from <= i
      invariant forall j :: from <= j < i ==> !OccursAt(s, seg, j)
    {
      if s[i..i + |seg|] == seg {
        return Some(i);
      }
      i := i + 1;
    }
    at := None;
  }

  lemma Shifted(s: string, seg: string, pos: nat)
    requires pos <= |s|
    ensures forall j :: OccursAt(s[pos..], seg, j) <==> 0 <= j && OccursAt(s, seg, pos + j)
  {
    forall j ensures OccursAt(s[pos..], seg, j) <==> 0 <= j && OccursAt(s, seg, pos + j) {
      if 0 <= j && pos + j + |seg| <= |s| {
        assert s[pos..][j..j + |seg|] == s[pos + j..pos + j + |seg|];
      }
    }
  }

  lemma SkipEmpty(s: string, segs: seq<string>)
    requires |segs| > 1 && segs[0] == ""
    ensures Floating(s, segs) <==> Floating(s, segs[1..])
  {
    if Floating(s, segs) {
      var k :| OccursAt(s, segs[0], k) && Floating(s[k..], segs[1..]);
      assert s == s[..k] + s[k..];
      FloatingExtends(s[..k], s[k..], segs[1..]);
    }
    if Floating(s, segs[1..]) {
      assert OccursAt(s, segs[0], 0) && s[0..] == s;
    }
  }

  lemma NoOccurrence(s: string, segs: seq<string>)
    requires |segs| > 0 && forall j :: !OccursAt(s, segs[0], j)
    ensures !Floating(s, segs)
  {
    assert !OccursAt(s, segs[0], |s| - |segs[0]|);
  }

  /** A last segment found somewhere after `pos` ends the rest of the string
      exactly when it ends the whole string. */
  lemma LastFits(s: string, seg: string, pos: nat, at: nat)
    requires pos <= at && OccursAt(s, seg, at)
    ensures Floating(s[pos..], [seg]) <==> EndsWith(s, seg)
  {
    assert s[pos..][|s[pos..]| - |seg|..] == s[|s| - |seg|..];
  }

  /** What the rest of the scan has to decide after the segment `segs[0]`. */
  ghost predicate Remaining(s: string, pos: nat, segs: seq<string>, last: string)
    requires pos <= |s|
  {
    if segs == [] then EndsWith(s, last) else Floating(s[pos..], segs)
  }

  lemma StepEmpty(s: string, pos: nat, segs: seq<string>, last: string)
    requires pos <= |s| && segs != [] && segs[0] == "" && (|segs| == 1 ==> last == "")
    ensures Floating(s[pos..], segs) <==> Remaining(s, pos, segs[1..], last)
  {
    if |segs| > 1 {
      SkipEmpty(s[pos..], segs);
    } else {
      var t := s[pos..];
      assert t[|t|..] == "" && s[|s|..] == "";
    }
  }

  lemma StepFound(s: string, pos: nat, segs: seq<string>, last: string, at: nat)
    requires pos <= |s| && segs != [] && (|segs| == 1 ==> last == segs[0])
    requires pos <= at && OccursAt(s, segs[0], at)
    requires forall j :: pos <= j && OccursAt(s, segs[0], j) ==> at <= j
    ensures Floating(s[pos..], segs) <==> Remaining(s, at + |segs[0]|, segs[1..], last)
  {
    Shifted(s, segs[0], pos);
    if |segs| > 1 {
      LeftmostSuffices(s[pos..], segs, at - pos);
      assert s[pos..][at - pos + |segs[0]|..] == s[at + |segs[0]|..];
    } else {
      LastFits(s, segs[0], pos, at);
    }
  }

  lemma StepMissing(s: string, pos: nat, segs: seq<string>)
    requires pos <= |s| && segs != []
    requires forall j :: pos <= j ==> !OccursAt(s, segs[0], j)
    ensures !Floating(s[pos..], segs)
  {
    Shifted(s, segs[0], pos);
    NoOccurrence(s[pos..], segs);
  }

  lemma {:induction false} SplitStars(pattern: string)
    ensures '*' in pattern <==> |Split(pattern)| > 1
    ensures '*' !in pattern ==> Split(pattern) == [pattern]
    ensures pattern != "" && pattern[|pattern| - 1] == '*' ==> Split(pattern)[|Split(pattern)| - 1] == ""
  {
    if pattern != "" {
      SplitStars(pattern[1..]);
      assert pattern == [pattern[0]] + pattern[1..];
    }
  }

  /** Both arguments are case-folded already. An empty pattern matches all. */
  method GlobMatch(s: string, pattern: string) returns (matched: bool)
    ensures matched <==> pattern == "" || Matches(s, pattern)
  {
    PartsDenote(s, pattern);
    if pattern == "" || pattern == "*" {
      assert pattern == "*" ==> Matches(s[|s|..], pattern[1..]);
      return true;
    }
    var parts := Split(pattern);
    SplitStars(pattern);
    if '*' !in pattern {
      return s == pattern;
    }
    if parts[0] != "" && !(parts[0] <= s) {
      return false;
    }
    var pos: nat := |parts[0]|;
    var i := 1;
    var last := parts[|parts| - 1];
    while i < |parts|
      invariant 1 <= i <= |parts| && pos <= |s|
      invariant Remaining(s, pos, parts[i..], last) <==> InParts(s, parts)
    {
      ghost var segs := parts[i..];
      assert segs[0] == parts[i] && segs[1..] == parts[i + 1..];
      if parts[i] == "" {
        StepEmpty(s, pos, segs, last);
      } else {
        var at := Find(s, parts[i], pos);
        if at.None? {
          StepMissing(s, pos, segs);
          return false;
        }
        StepFound(s, pos, segs, last, at.value);
        pos := at.value + |parts[i]|;
      }
      i := i + 1;
    }
    if last != "" && pattern[|pattern| - 1] != '*' && !EndsWith(s, last) {
      return false;
    }
    matched := true;
  }
}
