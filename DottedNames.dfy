/** Dotted module names: depth, parent, str.split('.') / '.'.join and the set of
    dotted prefixes that the janzu setup collects before registering modules. */
module DottedNames {
  import opened Runtime

  /** Python's s.count('.'): the sort key of the janzu setup. */
  function Depth(s: string): (d: nat)
    ensures d <= |s|
  {
    if s == [] then 0
    else
      assert s == s[..|s| - 1] + [s[|s| - 1]];
      Depth(s[..|s| - 1]) + (if s[|s| - 1] == '.' then 1 else 0)
  }

  /** Python's '.' in s. */
  predicate HasDot(s: string)
  {
    '.' in s
  }

  /** The index of the last '.' in s. */
  function LastDot(s: string): (k: nat)
    requires HasDot(s)
    ensures k < |s| && s[k] == '.'
    ensures forall j :: k < j < |s| ==> s[j] != '.'
  {
    if s[|s| - 1] == '.' then |s| - 1
    else
      assert s == s[..|s| - 1] + [s[|s| - 1]];
      LastDot(s[..|s| - 1])
  }

  /** Python's s.rsplit('.', 1)[0]: the text before the last dot. */
  function Parent(s: string): (p: string)
    requires HasDot(s)
    ensures |p| < |s| && p == s[..|p|] && s[|p|] == '.'
    ensures forall j :: |p| < j < |s| ==> s[j] != '.'
  {
    s[..LastDot(s)]
  }

  /** Python's s.split('.'): the segments between the dots, in order. */
  function Split(s: string): (parts: seq<string>)
    ensures |parts| >= 1
    ensures forall i :: 0 <= i < |parts| ==> !HasDot(parts[i])
    decreases |s|
  {
    if HasDot(s) then Split(Parent(s)) + [s[LastDot(s) + 1..]] else [s]
  }

  /** Python's '.'.join(parts), for a non-empty list. */
  function Join(parts: seq<string>): (s: string)
    requires |parts| >= 1
    ensures |parts| > 1 ==> HasDot(s)
  {
    if |parts| == 1 then parts[0] else Join(parts[..|parts| - 1]) + "." + parts[|parts| - 1]
  }

  /** The dotted prefixes of s: s itself and the text before each of its dots. */
  function DottedPrefixes(s: string): (r: set<string>)
    ensures s in r
    ensures forall q :: q in r ==> q <= s
  {
    assert s[..|s|] == s;
    set k | 0 <= k <= |s| && (k == |s| || s[k] == '.') :: s[..k]
  }

  /** Every dotted prefix of every listed name. */
  function PrefixClosure(names: seq<string>): (r: set<string>)
    ensures forall i :: 0 <= i < |names| ==> names[i] in r
  {
    if names == [] then {}
    else PrefixClosure(names[..|names| - 1]) + DottedPrefixes(names[|names| - 1])
  }

  /** A set of names holds the parent of each of its dotted members. */
  ghost predicate PrefixClosed(names: set<string>)
  {
    forall p :: p in names && HasDot(p) ==> Parent(p) in names
  }

  // ---------------------------------------------------------------------------
  // Depth

  lemma {:induction false} DepthAppend(a: string, b: string)
    ensures Depth(a + b) == Depth(a) + Depth(b)
    decreases |b|
  {
    if b == [] {
      assert a + b == a;
    } else {
      var b' := b[..|b| - 1];
      assert (a + b)[..|a + b| - 1] == a + b';
      DepthAppend(a, b');
    }
  }

  lemma {:induction false} DepthZero(s: string)
    requires !HasDot(s)
    ensures Depth(s) == 0
    decreases |s|
  {
    if s != [] {
      assert s[..|s| - 1] <= s;
      DepthZero(s[..|s| - 1]);
    }
  }

  /** The parent of a dotted name is exactly one level shallower. */
  lemma ParentDepth(s: string)
    requires HasDot(s)
    ensures Depth(Parent(s)) + 1 == Depth(s)
  {
    var k := LastDot(s);
    var tail := s[k + 1..];
    assert s == s[..k] + ([s[k]] + tail);
    assert !HasDot(tail) by {
      forall j | 0 <= j < |tail| ensures tail[j] != '.' { assert tail[j] == s[k + 1 + j]; }
    }
    DepthZero(tail);
    DepthAppend([s[k]], tail);
    DepthAppend(s[..k], [s[k]] + tail);
    assert Depth([s[k]]) == 1 by { assert [s[k]][..0] == []; }
  }

  // ---------------------------------------------------------------------------
  // split and join

  /** '.'.join inverts str.split('.'). */
  lemma {:induction false} JoinSplit(s: string)
    ensures Join(Split(s)) == s
    decreases |s|
  {
    if HasDot(s) {
      var k := LastDot(s);
      var parts := Split(s);
      assert parts[..|parts| - 1] == Split(Parent(s));
      JoinSplit(Parent(s));
      assert s == s[..k] + "." + s[k + 1..];
    }
  }

  /** Joining a dot-free segment onto a name puts the name's last dot at the seam. */
  lemma ParentOfJoined(j: string, last: string)
    requires !HasDot(last)
    ensures HasDot(j + "." + last)
    ensures Parent(j + "." + last) == j && (j + "." + last)[|j| + 1..] == last
  {
    var s := j + "." + last;
    assert s[|j|] == '.';
    forall i | |j| < i < |s| ensures s[i] != '.' {
      assert s[i] == last[i - |j| - 1];
    }
    assert LastDot(s) == |j|;
  }

  /** str.split('.') inverts '.'.join on segments without dots. */
  lemma {:induction false} SplitJoin(parts: seq<string>)
    requires |parts| >= 1
    requires forall i :: 0 <= i < |parts| ==> !HasDot(parts[i])
    ensures Split(Join(parts)) == parts
    decreases |parts|
  {
    if |parts| > 1 {
      var init := parts[..|parts| - 1];
      var last := parts[|parts| - 1];
      ParentOfJoined(Join(init), last);
      SplitJoin(init);
    }
  }

  /** str.split('.') yields one more segment than there are dots. */
  lemma {:induction false} SplitLength(s: string)
    ensures |Split(s)| == Depth(s) + 1
    decreases |s|
  {
    if HasDot(s) {
      SplitLength(Parent(s));
      ParentDepth(s);
    } else {
      DepthZero(s);
    }
  }

  // ---------------------------------------------------------------------------
  // dotted prefixes

  /** '.'.join(parts[:i+1]): the first i+1 segments joined again. */
  function JoinUpTo(parts: seq<string>, i: nat): string
    requires i < |parts|
  {
    Join(parts[..i + 1])
  }

  /** The prefixes the janzu setup builds from the first n segments. */
  function JoinedPrefixes(parts: seq<string>, n: nat): set<string>
    requires n <= |parts|
  {
    set i | 0 <= i < n :: JoinUpTo(parts, i)
  }

  /** The dotted prefixes of a dotted name are those of its parent and the name itself. */
  lemma DottedPrefixesStep(s: string)
    requires HasDot(s)
    ensures DottedPrefixes(s) == DottedPrefixes(Parent(s)) + {s}
  {
    var p := Parent(s);
    var k := LastDot(s);
    forall q | q in DottedPrefixes(s) ensures q in DottedPrefixes(p) + {s} {
      var m :| 0 <= m <= |s| && (m == |s| || s[m] == '.') && q == s[..m];
      if m == |s| {
        assert q == s;
      } else {
        assert m <= k;
        if m == k {
          assert q == p && p == p[..|p|];
        } else {
          assert p[m] == '.' && q == p[..m];
        }
        assert q in DottedPrefixes(p);
      }
    }
    forall q | q in DottedPrefixes(p) + {s} ensures q in DottedPrefixes(s) {
      if q == s {
        assert q == s[..|s|];
      } else {
        var m :| 0 <= m <= |p| && (m == |p| || p[m] == '.') && q == p[..m];
        assert s[m] == '.' && q == s[..m];
      }
    }
  }

  /** A name without dots is its own only dotted prefix. */
  lemma DotFreePrefixes(s: string)
    requires !HasDot(s)
    ensures DottedPrefixes(s) == {s}
  {
    forall q | q in DottedPrefixes(s) ensures q == s {
      var m :| 0 <= m <= |s| && (m == |s| || s[m] == '.') && q == s[..m];
    }
  }

  /** A dotted name's segments are its parent's segments and one more; joining all of
      them gives the name back. */
  lemma SplitParent(s: string)
    requires HasDot(s)
    ensures |Split(s)| == |Split(Parent(s))| + 1
    ensures JoinUpTo(Split(s), |Split(Parent(s))|) == s
  {
    var parts := Split(s);
    assert parts[..|parts|] == parts;
    JoinSplit(s);
  }

  /** The joins of the first i+1 segments of a dotted name and of its parent agree. */
  lemma JoinUpToParent(s: string, i: nat)
    requires HasDot(s) && i < |Split(Parent(s))|
    ensures i < |Split(s)| && JoinUpTo(Split(s), i) == JoinUpTo(Split(Parent(s)), i)
  {
    var parts := Split(s);
    var pp := Split(Parent(s));
    assert parts == pp + [s[LastDot(s) + 1..]];
    assert parts[..i + 1] == pp[..i + 1];
  }

  /** One more segment whose joins agree with the shorter list's adds one join, x. */
  lemma JoinedPrefixesGrow(parts: seq<string>, pp: seq<string>, x: string)
    requires |parts| == |pp| + 1
    requires forall i :: 0 <= i < |pp| ==> JoinUpTo(parts, i) == JoinUpTo(pp, i)
    requires JoinUpTo(parts, |pp|) == x
    ensures JoinedPrefixes(parts, |parts|) == JoinedPrefixes(pp, |pp|) + {x}
  {
    forall q | q in JoinedPrefixes(parts, |parts|) ensures q in JoinedPrefixes(pp, |pp|) + {x} {
      var i :| 0 <= i < |parts| && q == JoinUpTo(parts, i);
      if i < |pp| {
        assert q == JoinUpTo(pp, i);
      }
    }
    forall q | q in JoinedPrefixes(pp, |pp|) + {x} ensures q in JoinedPrefixes(parts, |parts|) {
      if q != x {
        var i :| 0 <= i < |pp| && q == JoinUpTo(pp, i);
        assert q == JoinUpTo(parts, i);
      }
    }
  }

  /** The joins over a name's segments are the joins over its parent's segments plus the name. */
  lemma JoinedPrefixesStep(s: string)
    requires HasDot(s)
    ensures JoinedPrefixes(Split(s), |Split(s)|) == JoinedPrefixes(Split(Parent(s)), |Split(Parent(s))|) + {s}
  {
    SplitParent(s);
    forall i | 0 <= i < |Split(Parent(s))| ensures JoinUpTo(Split(s), i) == JoinUpTo(Split(Parent(s)), i) {
      JoinUpToParent(s, i);
    }
    JoinedPrefixesGrow(Split(s), Split(Parent(s)), s);
  }

  /** Joining the first i+1 segments, for every i, yields exactly the dotted prefixes. */
  lemma {:induction false} JoinedPrefixesAreDotted(s: string)
    ensures JoinedPrefixes(Split(s), |Split(s)|) == DottedPrefixes(s)
    decreases |s|
  {
    if HasDot(s) {
      JoinedPrefixesAreDotted(Parent(s));
      DottedPrefixesStep(s);
      JoinedPrefixesStep(s);
    } else {
      var parts := Split(s);
      assert parts == [s] && parts[..1] == [s];
      assert JoinUpTo(parts, 0) == s;
      assert JoinedPrefixes(parts, |parts|) == {s};
      DotFreePrefixes(s);
    }
  }

  /** The parent of a dotted prefix of s is again a dotted prefix of s. */
  lemma ParentOfPrefix(q: string, s: string)
    requires q in DottedPrefixes(s) && HasDot(q)
    ensures Parent(q) in DottedPrefixes(s)
  {
    var m :| 0 <= m <= |s| && (m == |s| || s[m] == '.') && q == s[..m];
    var k := LastDot(q);
    assert s[k] == '.' && Parent(q) == s[..k];
  }

  /** The collected set holds every dotted prefix of every listed name, and nothing else. */
  lemma {:induction false} PrefixClosureMembers(names: seq<string>, p: string)
    ensures p in PrefixClosure(names) <==> exists i :: 0 <= i < |names| && p in DottedPrefixes(names[i])
    decreases |names|
  {
    if names != [] {
      var init := names[..|names| - 1];
      PrefixClosureMembers(init, p);
      if p in PrefixClosure(init) {
        var i :| 0 <= i < |init| && p in DottedPrefixes(init[i]);
        assert names[i] == init[i];
      }
      if i :| 0 <= i < |names| && p in DottedPrefixes(names[i]) {
        if i < |init| {
          assert init[i] == names[i];
        }
      }
    }
  }

  /** The collected set holds the parent of each of its dotted members. */
  lemma PrefixClosureIsClosed(names: seq<string>)
    ensures PrefixClosed(PrefixClosure(names))
  {
    forall p | p in PrefixClosure(names) && HasDot(p) ensures Parent(p) in PrefixClosure(names) {
      PrefixClosureMembers(names, p);
      var i :| 0 <= i < |names| && p in DottedPrefixes(names[i]);
      ParentOfPrefix(p, names[i]);
      PrefixClosureMembers(names, Parent(p));
    }
  }
}
