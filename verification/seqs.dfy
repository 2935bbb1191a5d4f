/** Sequence operations shared by the frontend and the backend model: JavaScript's
    `filter`, `new Set(...)` iteration order, `slice(0, end)`, and the notion of a
    subsequence used to say "in input order".

    The functions promise little in their own contracts; what they keep and drop is
    stated by the lemmas below them, which callers invoke where they need it. */
module Seqs {

  function Min(a: int, b: int): int { if a <= b then a else b }

  function Max(a: int, b: int): int { if a <= b then b else a }

  /** a can be obtained from b by deleting elements: the elements of a occur in b in the same order. */
  ghost predicate IsSubseq<T>(a: seq<T>, b: seq<T>)
    decreases |b|
  {
    if a == [] then true
    else if b == [] then false
    else (a[|a| - 1] == b[|b| - 1] && IsSubseq(a[..|a| - 1], b[..|b| - 1])) || IsSubseq(a, b[..|b| - 1])
  }

  /** No element occurs twice. */
  ghost predicate NoDup<T>(s: seq<T>) {
    forall i, j :: 0 <= i < j < |s| ==> s[i] != s[j]
  }

  /** `s.filter(p)`: the elements of s satisfying p, in their order in s. */
  function Filter<T>(s: seq<T>, p: T -> bool): (r: seq<T>)
    ensures |r| <= |s|
    ensures forall i :: 0 <= i < |r| ==> p(r[i])
    decreases |s|
  {
    if s == [] then []
    else
      var f := Filter(s[..|s| - 1], p);
      if p(s[|s| - 1]) then f + [s[|s| - 1]] else f
  }

  /** Filter keeps exactly the elements that satisfy p. */
  lemma {:induction false} FilterMember<T>(s: seq<T>, p: T -> bool, x: T)
    ensures x in Filter(s, p) <==> x in s && p(x)
    decreases |s|
  {
    if s != [] {
      assert s == s[..|s| - 1] + [s[|s| - 1]];
      FilterMember(s[..|s| - 1], p, x);
    }
  }

  /** Filter keeps the order of s. */
  lemma {:induction false} FilterIsSubseq<T>(s: seq<T>, p: T -> bool)
    ensures IsSubseq(Filter(s, p), s)
    decreases |s|
  {
    if s != [] {
      var f := Filter(s[..|s| - 1], p);
      FilterIsSubseq(s[..|s| - 1], p);
      if p(s[|s| - 1]) {
        assert (f + [s[|s| - 1]])[..|f|] == f;
      }
    }
  }

  /** Filtering a sequence without duplicates keeps it without duplicates. */
  lemma {:induction false} FilterNoDup<T>(s: seq<T>, p: T -> bool)
    requires NoDup(s)
    ensures NoDup(Filter(s, p))
    decreases |s|
  {
    if s != [] {
      var t := s[..|s| - 1];
      assert NoDup(t);
      FilterNoDup(t, p);
      FilterMember(t, p, s[|s| - 1]);
      assert s[|s| - 1] !in t by {
        forall i | 0 <= i < |t| ensures t[i] != s[|s| - 1] {
          assert s[i] == t[i];
        }
      }
    }
  }

  /** Every element Filter keeps comes from s. */
  lemma FilterFrom<T>(s: seq<T>, p: T -> bool)
    ensures forall i :: 0 <= i < |Filter(s, p)| ==> Filter(s, p)[i] in s
  {
    forall i | 0 <= i < |Filter(s, p)| ensures Filter(s, p)[i] in s {
      FilterMember(s, p, Filter(s, p)[i]);
    }
  }

  /** Filtering a sequence extended by one element. */
  lemma FilterSnoc<T>(s: seq<T>, x: T, p: T -> bool)
    ensures Filter(s + [x], p) == Filter(s, p) + (if p(x) then [x] else [])
  {
    assert (s + [x])[..|s|] == s;
  }

  /** Nothing survives a filter no element passes. */
  lemma FilterNone<T>(s: seq<T>, p: T -> bool)
    requires forall i :: 0 <= i < |s| ==> !p(s[i])
    ensures Filter(s, p) == []
  {
    if Filter(s, p) != [] {
      FilterMember(s, p, Filter(s, p)[0]);
    }
  }

  /** A filter every element passes keeps the whole sequence. */
  lemma {:induction false} FilterAll<T>(s: seq<T>, p: T -> bool)
    requires forall i :: 0 <= i < |s| ==> p(s[i])
    ensures Filter(s, p) == s
    decreases |s|
  {
    if s != [] {
      FilterAll(s[..|s| - 1], p);
    }
  }

  /** Two different positions passing p leave at least two elements after filtering. */
  lemma {:induction false} FilterTwo<T>(s: seq<T>, p: T -> bool, i: nat, j: nat)
    requires i < |s| && j < |s| && i != j
    requires p(s[i]) && p(s[j])
    ensures |Filter(s, p)| >= 2
    decreases |s|
  {
    var t := s[..|s| - 1];
    if i == |s| - 1 || j == |s| - 1 {
      var k := if i == |s| - 1 then j else i;
      assert t[k] == s[k];
      FilterMember(t, p, t[k]);
    } else {
      assert t[i] == s[i] && t[j] == s[j];
      FilterTwo(t, p, i, j);
    }
  }

  /** When at least two elements pass p, every passing position has a passing partner. */
  lemma {:induction false} FilterPartner<T>(s: seq<T>, p: T -> bool, i: nat)
    requires i < |s| && p(s[i])
    requires |Filter(s, p)| >= 2
    ensures exists j :: 0 <= j < |s| && j != i && p(s[j])
    decreases |s|
  {
    var t := s[..|s| - 1];
    var last := |s| - 1;
    if i == last {
      var f := Filter(t, p);
      assert |f| >= 1;
      FilterMember(t, p, f[0]);
      var j :| 0 <= j < |t| && t[j] == f[0];
      assert s[j] == t[j];
    } else if p(s[last]) {
      assert last != i;
    } else {
      assert t[i] == s[i];
      FilterPartner(t, p, i);
      var j :| 0 <= j < |t| && j != i && p(t[j]);
      assert s[j] == t[j];
    }
  }

  /** `Array.from(new Set(s))`: each distinct element once, in order of first appearance. */
  function Distinct<T(==)>(s: seq<T>): (r: seq<T>)
    ensures |r| <= |s|
    ensures NoDup(r)
    decreases |s|
  {
    if s == [] then []
    else
      var d := Distinct(s[..|s| - 1]);
      if s[|s| - 1] in d then d else d + [s[|s| - 1]]
  }

  /** Distinct keeps every element of s and adds none. */
  lemma {:induction false} DistinctMember<T>(s: seq<T>, x: T)
    ensures x in Distinct(s) <==> x in s
    decreases |s|
  {
    if s != [] {
      assert s == s[..|s| - 1] + [s[|s| - 1]];
      DistinctMember(s[..|s| - 1], x);
    }
  }

  /** DistinctMember for every position of s and of Distinct(s). */
  lemma DistinctMembers<T>(s: seq<T>)
    ensures forall i :: 0 <= i < |Distinct(s)| ==> Distinct(s)[i] in s
    ensures forall i :: 0 <= i < |s| ==> s[i] in Distinct(s)
  {
    forall i | 0 <= i < |Distinct(s)| ensures Distinct(s)[i] in s {
      DistinctMember(s, Distinct(s)[i]);
    }
    forall i | 0 <= i < |s| ensures s[i] in Distinct(s) {
      DistinctMember(s, s[i]);
    }
  }

  /** `s.slice(0, end)` with JavaScript's reading of a negative end (counted from the back). */
  function Slice<T>(s: seq<T>, end: int): (r: seq<T>)
    ensures 0 <= end ==> |r| == Min(end, |s|)
    ensures end < 0 ==> |r| == Max(0, |s| + end)
    ensures |r| <= |s| && r == s[..|r|]
  {
    if end >= |s| then s
    else if end >= 0 then s[..end]
    else if |s| + end > 0 then s[..|s| + end]
    else []
  }

  /** A sequence without duplicates has as many elements as the set of its elements. */
  lemma {:induction false} NoDupCard<T>(s: seq<T>)
    requires NoDup(s)
    ensures |set x | x in s| == |s|
    decreases |s|
  {
    if s != [] {
      var t := s[..|s| - 1];
      assert s == t + [s[|s| - 1]];
      NoDupCard(t);
      assert (set x | x in s) == (set x | x in t) + {s[|s| - 1]};
      assert s[|s| - 1] !in t by {
        forall i | 0 <= i < |t| ensures t[i] != s[|s| - 1] {
          assert s[i] == t[i];
        }
      }
    }
  }

  /** Two sequences without duplicates and without a common element concatenate to one without duplicates. */
  lemma NoDupConcat<T>(a: seq<T>, b: seq<T>)
    requires NoDup(a) && NoDup(b)
    requires forall i, j :: 0 <= i < |a| && 0 <= j < |b| ==> a[i] != b[j]
    ensures NoDup(a + b)
  {
    forall i, j | 0 <= i < j < |a + b| ensures (a + b)[i] != (a + b)[j] {
      if j < |a| {
        assert (a + b)[i] == a[i] && (a + b)[j] == a[j];
      } else if i >= |a| {
        assert (a + b)[i] == b[i - |a|] && (a + b)[j] == b[j - |a|];
      } else {
        assert (a + b)[i] == a[i] && (a + b)[j] == b[j - |a|];
      }
    }
  }
}
