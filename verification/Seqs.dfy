/** Order-preserving list operations shared by the core: the list
    comprehension filter `[x for x in s if p(x)]`, the first element that
    passes a test, and the concatenation of listing pages. */
module Seqs {
  import opened Wrappers

  /** `[x for x in s if p(x)]`. */
  function Filter<T(==)>(s: seq<T>, p: T -> bool): (r: seq<T>)
    ensures |r| <= |s|
    ensures forall x :: x in r ==> x in s && p(x)
    ensures forall i :: 0 <= i < |r| ==> p(r[i])
    decreases |s|
  {
    if s == [] then []
    else
      var n := |s| - 1;
      Filter(s[..n], p) + (if p(s[n]) then [s[n]] else [])
  }

  /** Concatenation regroups freely. */
  lemma AppendAssoc<T>(a: seq<T>, b: seq<T>, c: seq<T>)
    ensures (a + b) + c == a + (b + c)
  {
  }

  /** Appending an element leaves the old sequence as a prefix. */
  lemma PrefixOfSnoc<T>(s: seq<T>, x: T)
    ensures (s + [x])[..|s|] == s
  {
  }

  /** A sequence that extends `s` agrees with it below `|s|`. */
  lemma PrefixAgrees<T>(s: seq<T>, t: seq<T>, k: nat)
    requires k < |s| <= |t| && t[..|s|] == s
    ensures t[..k] == s[..k] && t[k] == s[k]
  {
    assert t[..k] == t[..|s|][..k];
  }

  /** Extending a prefix of `s` by its next element. */
  lemma FilterExtend<T>(s: seq<T>, j: nat, p: T -> bool)
    requires j < |s|
    ensures Filter(s[..j + 1], p) == Filter(s[..j], p) + (if p(s[j]) then [s[j]] else [])
  {
    assert s[..j + 1][..j] == s[..j];
  }

  /** Scanning one more element of `s` after `acc`: the accumulator grows
      by that element exactly when it passes `p`. */
  lemma FilterScanStep<T>(acc: seq<T>, s: seq<T>, j: nat, p: T -> bool)
    requires j < |s|
    ensures p(s[j]) ==> (acc + Filter(s[..j], p)) + [s[j]] == acc + Filter(s[..j + 1], p)
    ensures !p(s[j]) ==> acc + Filter(s[..j], p) == acc + Filter(s[..j + 1], p)
  {
    FilterExtend(s, j, p);
    if p(s[j]) {
      AppendAssoc(acc, Filter(s[..j], p), [s[j]]);
    } else {
      assert Filter(s[..j], p) + [] == Filter(s[..j], p);
    }
  }

  /** Filtering keeps the original order: it distributes over concatenation. */
  lemma {:induction false} FilterAppend<T>(a: seq<T>, b: seq<T>, p: T -> bool)
    ensures Filter(a + b, p) == Filter(a, p) + Filter(b, p)
    decreases |b|
  {
    if b != [] {
      var n := |b| - 1;
      assert (a + b)[..|a| + n] == a + b[..n];
      FilterAppend(a, b[..n], p);
    } else {
      assert a + b == a;
    }
  }

  /** Every element that passes the test survives the filter. */
  lemma {:induction false} FilterKeeps<T>(s: seq<T>, p: T -> bool, i: nat)
    requires i < |s| && p(s[i])
    ensures s[i] in Filter(s, p)
    decreases |s|
  {
    var n := |s| - 1;
    if i < n {
      assert s[..n][i] == s[i];
      FilterKeeps(s[..n], p, i);
    }
  }

  /** A test that every element passes leaves the list unchanged. */
  lemma {:induction false} FilterAllPass<T>(s: seq<T>, p: T -> bool)
    requires forall i :: 0 <= i < |s| ==> p(s[i])
    ensures Filter(s, p) == s
    decreases |s|
  {
    if s != [] {
      var n := |s| - 1;
      FilterAllPass(s[..n], p);
      assert s[..n] + [s[n]] == s;
    }
  }

  /** A test that no element passes empties the list. */
  lemma {:induction false} FilterNonePass<T>(s: seq<T>, p: T -> bool)
    requires forall i :: 0 <= i < |s| ==> !p(s[i])
    ensures Filter(s, p) == []
    decreases |s|
  {
    if s != [] {
      FilterNonePass(s[..|s| - 1], p);
    }
  }

  /** The first element of `s` that passes `p`, or `None`. */
  function FirstWhere<T>(s: seq<T>, p: T -> bool): (r: Option<T>)
    ensures r.Some? ==> exists i :: 0 <= i < |s| && s[i] == r.value && p(s[i]) && forall j :: 0 <= j < i ==> !p(s[j])
    ensures r.None? ==> forall i :: 0 <= i < |s| ==> !p(s[i])
    decreases |s|
  {
    if s == [] then None
    else if p(s[0]) then Some(s[0])
    else
      var r := FirstWhere(s[1..], p);
      assert r.Some? ==> exists i :: 0 <= i < |s| && s[i] == r.value && p(s[i]) && forall j :: 0 <= j < i ==> !p(s[j]) by {
        if r.Some? {
          var i :| 0 <= i < |s| - 1 && s[1..][i] == r.value && p(s[1..][i]) && forall j :: 0 <= j < i ==> !p(s[1..][j]);
          assert s[i + 1] == r.value && p(s[i + 1]);
          forall j | 0 <= j < i + 1 ensures !p(s[j]) {
            if j > 0 { assert s[j] == s[1..][j - 1]; }
          }
        }
      }
      r
  }

  /** Searching a concatenation looks in the second part only when the first
      part has no match. */
  lemma {:induction false} FirstWhereAppend<T>(a: seq<T>, b: seq<T>, p: T -> bool)
    ensures FirstWhere(a + b, p) == if FirstWhere(a, p).Some? then FirstWhere(a, p) else FirstWhere(b, p)
    decreases |a|
  {
    if a == [] {
      assert a + b == b;
    } else {
      assert (a + b)[0] == a[0] && (a + b)[1..] == a[1..] + b;
      FirstWhereAppend(a[1..], b, p);
    }
  }

  /** The first match is the head of the filtered list. */
  lemma {:induction false} FirstWhereIsHeadOfFilter<T>(s: seq<T>, p: T -> bool)
    ensures FirstWhere(s, p) == if Filter(s, p) == [] then None else Some(Filter(s, p)[0])
    decreases |s|
  {
    if s != [] {
      FilterAppend([s[0]], s[1..], p);
      assert [s[0]] + s[1..] == s;
      assert Filter([s[0]], p) == if p(s[0]) then [s[0]] else [] by {
        assert [s[0]][..0] == [];
      }
      FirstWhereIsHeadOfFilter(s[1..], p);
    }
  }

  /** The concatenation of a paginated listing, pages in order. */
  function Flatten<T>(pages: seq<seq<T>>): (r: seq<T>)
    decreases |pages|
  {
    if pages == [] then [] else Flatten(pages[..|pages| - 1]) + pages[|pages| - 1]
  }

  /** The pages up to `p` are the pages before it followed by page `p`. */
  lemma FlattenStep<T>(pages: seq<seq<T>>, p: nat)
    requires p < |pages|
    ensures Flatten(pages[..p + 1]) == Flatten(pages[..p]) + pages[p]
  {
    assert pages[..p + 1][..p] == pages[..p];
  }

  /** Flattening distributes over concatenation of page lists. */
  lemma {:induction false} FlattenAppend<T>(a: seq<seq<T>>, b: seq<seq<T>>)
    ensures Flatten(a + b) == Flatten(a) + Flatten(b)
    decreases |b|
  {
    if b == [] {
      assert a + b == a;
    } else {
      var n := |b| - 1;
      assert (a + b)[..|a| + n] == a + b[..n];
      FlattenAppend(a, b[..n]);
    }
  }

  /** The whole listing, cut at entry `j` of page `p`: what comes before
      that entry, then the entry and everything after it. */
  lemma FlattenAround<T>(pages: seq<seq<T>>, p: nat, j: nat)
    requires p < |pages| && j <= |pages[p]|
    ensures Flatten(pages) == (Flatten(pages[..p]) + pages[p][..j]) + (pages[p][j..] + Flatten(pages[p + 1..]))
  {
    var page := pages[p];
    FlattenStep(pages, p);
    FlattenAppend(pages[..p + 1], pages[p + 1..]);
    assert pages[..p + 1] + pages[p + 1..] == pages;
    assert page == page[..j] + page[j..];
    AppendAssoc(Flatten(pages[..p]), page[..j], page[j..]);
    AppendAssoc(Flatten(pages[..p]) + page[..j], page[j..], Flatten(pages[p + 1..]));
  }

  /** A prefix with no match, extended by one element that does not match,
      still has no match. */
  lemma FirstWhereNoneStep<T>(acc: seq<T>, s: seq<T>, j: nat, p: T -> bool)
    requires j < |s| && !p(s[j]) && FirstWhere(acc + s[..j], p) == None
    ensures FirstWhere(acc + s[..j + 1], p) == None
  {
    FirstWhereAppend(acc + s[..j], [s[j]], p);
    assert [s[j]][1..] == [];
    assert s[..j + 1] == s[..j] + [s[j]];
    assert (acc + s[..j]) + [s[j]] == acc + s[..j + 1];
  }
}
