/**
  The two string helpers of the service: order-preserving deduplication
  (`unique`) and the last-two-labels domain extractor
  (`extractSecondLevelDomain`).
 */
module Utils {
  import opened Strings

  /** No string occurs twice. */
  predicate NoDuplicates(xs: seq<string>) {
    forall i, j :: 0 <= i < j < |xs| ==> xs[i] != xs[j]
  }

  /** The position of the first occurrence of `x` in `xs`. */
  function FirstIndex(xs: seq<string>, x: string): (k: nat)
    requires x in xs
    ensures k < |xs| && xs[k] == x
    ensures forall j :: 0 <= j < k ==> xs[j] != x
  {
    if xs[0] == x then 0 else 1 + FirstIndex(xs[1..], x)
  }

  /** Appending an element does not move any earlier first occurrence. */
  lemma FirstIndexAppend(xs: seq<string>, z: string, y: string)
    requires y in xs
    ensures FirstIndex(xs + [z], y) == FirstIndex(xs, y)
  {
    var k := FirstIndex(xs, y);
    assert (xs + [z])[k] == y;
  }

  /** `r` lists elements of `xs` in the order of their first occurrence in `xs`,
      so it is a subsequence of `xs` picked at those positions. */
  ghost predicate FirstOccurrenceOrder(r: seq<string>, xs: seq<string>) {
    && (forall i :: 0 <= i < |r| ==> r[i] in xs)
    && (forall i, j :: 0 <= i < j < |r| ==> FirstIndex(xs, r[i]) < FirstIndex(xs, r[j]))
  }

  /** The reference description of `unique(xs)`: the distinct elements of `xs`,
      each once, in first-occurrence order. */
  ghost predicate IsDedupOf(r: seq<string>, xs: seq<string>) {
    && NoDuplicates(r)
    && (forall x :: x in r <==> x in xs)
    && FirstOccurrenceOrder(r, xs)
  }

  /** `unique`: keep each string at its first occurrence, drop later repeats. */
  function Unique(xs: seq<string>): (r: seq<string>)
    ensures IsDedupOf(r, xs)
    ensures |r| <= |xs|
    decreases |xs|
  {
    if |xs| == 0 then []
    else
      var init := xs[..|xs| - 1];
      var last := xs[|xs| - 1];
      var prefix := Unique(init);
      assert xs == init + [last];
      DedupExtend(prefix, init, last);
      if last in prefix then prefix else prefix + [last]
  }

  /** One step of `unique`: the dedup of a prefix extends to the dedup of the
      prefix plus one element, by keeping or appending that element. */
  lemma DedupExtend(prefix: seq<string>, init: seq<string>, last: string)
    requires IsDedupOf(prefix, init)
    ensures last in prefix ==> IsDedupOf(prefix, init + [last])
    ensures last !in prefix ==> IsDedupOf(prefix + [last], init + [last])
  {
    var xs := init + [last];
    forall y | y in init
      ensures FirstIndex(xs, y) == FirstIndex(init, y)
    {
      FirstIndexAppend(init, last, y);
    }
    if last !in prefix {
      var r := prefix + [last];
      assert FirstIndex(xs, last) == |init| by {
        assert last !in init;
        assert xs[|init|] == last;
      }
      forall i, j | 0 <= i < j < |r|
        ensures FirstIndex(xs, r[i]) < FirstIndex(xs, r[j])
      {
        assert r[i] == prefix[i];
        if j < |prefix| {
          assert r[j] == prefix[j];
        }
      }
      forall i, j | 0 <= i < j < |r|
        ensures r[i] != r[j]
      {
        if j < |prefix| {
          assert r[i] == prefix[i] && r[j] == prefix[j];
        } else {
          assert r[i] in prefix;
        }
      }
    }
  }

  /** The Go loop of `unique`: a set of seen keys and an output list appended to. */
  method UniqueWithSeenKeys(stringSlice: seq<string>) returns (list: seq<string>)
    ensures list == Unique(stringSlice)
  {
    var keys: map<string, bool> := map[];
    list := [];
    for i := 0 to |stringSlice|
      invariant list == Unique(stringSlice[..i])
      invariant forall x :: x in keys <==> x in list
    {
      var entry := stringSlice[i];
      assert stringSlice[..i + 1][..i] == stringSlice[..i];
      if entry !in keys {
        keys := keys[entry := true];
        list := list + [entry];
      }
    }
    assert stringSlice[..|stringSlice|] == stringSlice;
  }

  /** A list without duplicates is left as it is. */
  lemma UniqueOfDistinct(xs: seq<string>)
    requires NoDuplicates(xs)
    ensures Unique(xs) == xs
  {
    forall i | 0 <= i < |xs|
      ensures FirstIndex(xs, xs[i]) == i
    {
      var k := FirstIndex(xs, xs[i]);
      assert k <= i;
    }
    assert IsDedupOf(xs, xs);
    DedupIsUnique(Unique(xs), xs, xs);
  }

  /** Deduplicating twice is the same as deduplicating once. */
  lemma UniqueIdempotent(xs: seq<string>)
    ensures Unique(Unique(xs)) == Unique(xs)
  {
    UniqueOfDistinct(Unique(xs));
  }

  /** Two duplicate-free lists with the same elements, both in first-occurrence
      order of `xs`, are equal: the reference description fixes the result. */
  lemma {:induction false} DedupIsUnique(r: seq<string>, r': seq<string>, xs: seq<string>)
    requires IsDedupOf(r, xs) && IsDedupOf(r', xs)
    ensures r == r'
  {
    SameOrderedSetsEqual(r, r', xs);
  }

  lemma {:induction false} SameOrderedSetsEqual(r: seq<string>, r': seq<string>, xs: seq<string>)
    requires NoDuplicates(r) && NoDuplicates(r')
    requires forall x :: x in r <==> x in r'
    requires FirstOccurrenceOrder(r, xs) && FirstOccurrenceOrder(r', xs)
    ensures r == r'
    decreases |r|
  {
    assert |r'| > 0 ==> r'[0] in r';
    if |r| == 0 {
      assert |r'| == 0;
    } else {
      assert r[0] in r';
      assert r'[0] in r;
      HeadFirst(r, xs, r'[0]);
      HeadFirst(r', xs, r[0]);
      TailInOrder(r, xs);
      TailInOrder(r', xs);
      forall x
        ensures x in r[1..] <==> x in r'[1..]
      {
        TailMembers(r, x);
        TailMembers(r', x);
      }
      SameOrderedSetsEqual(r[1..], r'[1..], xs);
      assert r == [r[0]] + r[1..];
      assert r' == [r'[0]] + r'[1..];
    }
  }

  /** The head of an ordered list comes first in `xs` among the list's members. */
  lemma HeadFirst(r: seq<string>, xs: seq<string>, x: string)
    requires FirstOccurrenceOrder(r, xs) && |r| > 0 && x in r
    ensures FirstIndex(xs, r[0]) <= FirstIndex(xs, x)
  {
    var i :| 0 <= i < |r| && r[i] == x;
    if i > 0 {
      assert FirstIndex(xs, r[0]) < FirstIndex(xs, r[i]);
    }
  }

  lemma TailInOrder(r: seq<string>, xs: seq<string>)
    requires FirstOccurrenceOrder(r, xs) && NoDuplicates(r) && |r| > 0
    ensures FirstOccurrenceOrder(r[1..], xs) && NoDuplicates(r[1..])
  {
    var t := r[1..];
    forall i, j | 0 <= i < j < |t|
      ensures FirstIndex(xs, t[i]) < FirstIndex(xs, t[j]) && t[i] != t[j]
    {
      assert t[i] == r[i + 1] && t[j] == r[j + 1];
    }
  }

  lemma TailMembers(r: seq<string>, x: string)
    requires NoDuplicates(r) && |r| > 0
    ensures x in r[1..] <==> x in r && x != r[0]
  {
    if x in r && x != r[0] {
      var i :| 0 <= i < |r| && r[i] == x;
      assert r[1..][i - 1] == x;
    }
    if x in r[1..] {
      var i :| 0 <= i < |r| - 1 && r[1..][i] == x;
      assert r[i + 1] == x;
    }
  }

  /** `extractSecondLevelDomain`: the last two labels of `domain`, or the empty
      string when it has fewer than two. */
  function ExtractSecondLevelDomain(domain: string): string
  {
    var segments := Split(domain);
    if |segments| < 2 then "" else Join(segments[|segments| - 2..])
  }

  /** The extracted domain is empty exactly for a single-label input; otherwise
      it consists of the input's last two labels, holds exactly one dot, and in
      every case it is a suffix of the input. */
  lemma ExtractLastTwoLabels(domain: string)
    ensures ExtractSecondLevelDomain(domain) == "" <==> IsLabel(domain)
    ensures !IsLabel(domain) ==> Split(ExtractSecondLevelDomain(domain)) == Split(domain)[|Split(domain)| - 2..]
    ensures !IsLabel(domain) ==> multiset(ExtractSecondLevelDomain(domain))['.'] == 1
    ensures IsSuffix(ExtractSecondLevelDomain(domain), domain)
  {
    var segments := Split(domain);
    SingleLabelIffNoDot(domain);
    if |segments| >= 2 {
      var tail := segments[|segments| - 2..];
      TailRoundTrip(segments, |segments| - 2);
      assert tail == [tail[0], tail[1]];
      TwoLabelsOneDot(tail[0], tail[1]);
    }
  }

  /** Applying the extractor to its own result changes nothing. */
  lemma ExtractIdempotent(domain: string)
    ensures ExtractSecondLevelDomain(ExtractSecondLevelDomain(domain)) == ExtractSecondLevelDomain(domain)
  {
    var r := ExtractSecondLevelDomain(domain);
    ExtractLastTwoLabels(domain);
    ExtractLastTwoLabels(r);
    if !IsLabel(domain) {
      var parts := Split(r);
      assert |parts| == 2;
      assert parts[|parts| - 2..] == parts;
    }
  }

  /** Two multi-label hosts share their extracted domain exactly when they share their last two labels. */
  lemma ExtractSameIffSameLastTwoLabels(a: string, b: string)
    requires !IsLabel(a) && !IsLabel(b)
    ensures ExtractSecondLevelDomain(a) == ExtractSecondLevelDomain(b)
        <==> Split(a)[|Split(a)| - 2..] == Split(b)[|Split(b)| - 2..]
  {
    ExtractLastTwoLabels(a);
    ExtractLastTwoLabels(b);
  }

  /** The cases of the extractor's unit test: a single label gives the empty string. */
  lemma ExtractSingleLabelExample()
    ensures ExtractSecondLevelDomain("com") == ""
  {
    SplitLabel("com");
  }

  /** The cases of the extractor's unit test: a two-label host is its own domain. */
  lemma ExtractTwoLabelExample()
    ensures ExtractSecondLevelDomain("domain.com") == "domain.com"
  {
    assert "domain.com" == "domain" + "." + "com";
    SplitLabel("com");
    SplitLabelThenDot("domain", "com");
  }

  /** The unit test's subdomain cases for all labels: whatever precedes the
      last two labels `a.b`, the extractor yields `a.b`. */
  lemma ExtractOfSubdomain(prefix: string, a: string, b: string)
    requires IsLabel(a) && IsLabel(b)
    ensures ExtractSecondLevelDomain(prefix + "." + (a + "." + b)) == a + "." + b
  {
    var host := prefix + "." + (a + "." + b);
    SplitDot(prefix, a + "." + b);
    SplitLabelThenDot(a, b);
    SplitLabel(b);
    var segments := Split(host);
    assert segments == Split(prefix) + [a, b];
    assert segments[|segments| - 2..] == [a, b];
    assert [a, b][1..] == [b];
  }
}
