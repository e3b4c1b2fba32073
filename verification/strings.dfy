/**
  Host names as `.`-separated labels.

  `Split` and `Join` model Go's `strings.Split(s, ".")` and
  `strings.Join(parts, ".")` as the domain code uses them: splitting never
  yields an empty list (the empty string is one empty label), consecutive
  dots yield empty labels, and the two functions are inverse to each other.
 */
module Strings {

  /** No label produced by `Split` contains the separator. */
  predicate IsLabel(s: string) {
    '.' !in s
  }

  /** `strings.Join(parts, ".")`: the labels with a single `.` between neighbours. */
  function Join(parts: seq<string>): string
  {
    if |parts| == 0 then ""
    else if |parts| == 1 then parts[0]
    else parts[0] + "." + Join(parts[1..])
  }

  /** `strings.Split(s, ".")`: the maximal dot-free pieces of `s`, left to right. */
  function Split(s: string): (parts: seq<string>)
    ensures |parts| >= 1
    ensures forall i :: 0 <= i < |parts| ==> IsLabel(parts[i])
    ensures Join(parts) == s
    decreases |s|
  {
    if |s| == 0 then [""]
    else
      var rest := Split(s[1..]);
      if s[0] == '.' then
        assert s == "." + s[1..];
        [""] + rest
      else
        var parts := [[s[0]] + rest[0]] + rest[1..];
        assert parts[1..] == rest[1..];
        assert |rest| > 1 ==> Join(rest) == rest[0] + "." + Join(rest[1..]);
        assert s == [s[0]] + s[1..];
        parts
  }

  /** A dot-free string followed by a dot splits into that label and the split of the rest. */
  lemma {:induction false} SplitLabelThenDot(p: string, t: string)
    requires IsLabel(p)
    ensures Split(p + "." + t) == [p] + Split(t)
    decreases |p|
  {
    var s := p + "." + t;
    if |p| == 0 {
      assert s[1..] == t;
    } else {
      assert s[0] == p[0];
      assert s[1..] == p[1..] + "." + t;
      SplitLabelThenDot(p[1..], t);
      assert [p[0]] + p[1..] == p;
    }
  }

  /** Joining two non-empty label lists one after the other puts one dot between their joins. */
  lemma {:induction false} JoinAppend(ps: seq<string>, ts: seq<string>)
    requires |ps| >= 1 && |ts| >= 1
    ensures Join(ps + ts) == Join(ps) + "." + Join(ts)
    decreases |ps|
  {
    assert (ps + ts)[0] == ps[0];
    assert (ps + ts)[1..] == ps[1..] + ts;
    if |ps| > 1 {
      JoinAppend(ps[1..], ts);
      var a, b, c := ps[0], Join(ps[1..]), Join(ts);
      assert a + "." + (b + "." + c) == (a + "." + b) + "." + c;
    }
  }

  /** Splitting at a dot: the labels before it followed by the labels after it. */
  lemma SplitDot(p: string, t: string)
    ensures Split(p + "." + t) == Split(p) + Split(t)
  {
    var ps, ts := Split(p), Split(t);
    JoinAppend(ps, ts);
    SplitJoin(ps + ts);
  }

  /** A dot-free string is a single label. */
  lemma {:induction false} SplitLabel(p: string)
    requires IsLabel(p)
    ensures Split(p) == [p]
    decreases |p|
  {
    if |p| > 0 {
      SplitLabel(p[1..]);
      assert [p[0]] + p[1..] == p;
    }
  }

  /** Round trip in the other direction: splitting a join of labels gives the labels back. */
  lemma {:induction false} SplitJoin(parts: seq<string>)
    requires |parts| >= 1
    requires forall i :: 0 <= i < |parts| ==> IsLabel(parts[i])
    ensures Split(Join(parts)) == parts
    decreases |parts|
  {
    if |parts| == 1 {
      SplitLabel(parts[0]);
    } else {
      SplitJoin(parts[1..]);
      SplitLabelThenDot(parts[0], Join(parts[1..]));
      assert [parts[0]] + parts[1..] == parts;
    }
  }

  /** A string has a single label exactly when it contains no dot. */
  lemma SingleLabelIffNoDot(s: string)
    ensures |Split(s)| == 1 <==> IsLabel(s)
  {
    var parts := Split(s);
    if |parts| >= 2 {
      assert s == parts[0] + "." + Join(parts[1..]);
      assert s[|parts[0]|] == '.';
    }
  }

  /** `b` ends with `a`. */
  predicate IsSuffix(a: string, b: string) {
    |a| <= |b| && b[|b| - |a|..] == a
  }

  /** Joining any tail of the labels yields a suffix of the joined whole. */
  lemma {:induction false} JoinTailIsSuffix(parts: seq<string>, k: nat)
    requires k <= |parts|
    ensures IsSuffix(Join(parts[k..]), Join(parts))
    decreases k
  {
    if k > 0 {
      JoinTailIsSuffix(parts[1..], k - 1);
      assert parts[1..][k - 1..] == parts[k..];
      var whole := Join(parts);
      var mid := Join(parts[1..]);
      var tail := Join(parts[k..]);
      if |parts| >= 2 {
        assert whole == parts[0] + "." + mid;
        assert whole[|whole| - |mid|..] == mid;
        assert whole[|whole| - |tail|..] == mid[|mid| - |tail|..];
      } else {
        assert parts[k..] == [];
      }
    }
  }

  /** A tail of a split survives the Join/Split round trip and joins to a suffix of the whole. */
  lemma TailRoundTrip(parts: seq<string>, k: nat)
    requires k < |parts|
    requires forall i :: 0 <= i < |parts| ==> IsLabel(parts[i])
    ensures Split(Join(parts[k..])) == parts[k..]
    ensures IsSuffix(Join(parts[k..]), Join(parts))
  {
    var tail := parts[k..];
    forall i | 0 <= i < |tail|
      ensures IsLabel(tail[i])
    {
      assert tail[i] == parts[k + i];
    }
    SplitJoin(tail);
    JoinTailIsSuffix(parts, k);
  }

  /** Two dot-free labels joined contain exactly one dot. */
  lemma TwoLabelsOneDot(a: string, b: string)
    requires IsLabel(a) && IsLabel(b)
    ensures multiset(Join([a, b]))['.'] == 1
  {
    assert [a, b][1..] == [b];
    assert Join([a, b]) == a + "." + b;
    assert multiset(a)['.'] == 0 && multiset(b)['.'] == 0;
    assert multiset(a + "." + b) == multiset(a) + multiset(".") + multiset(b);
  }
}
