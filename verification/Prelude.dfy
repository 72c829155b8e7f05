/** Small datatypes shared by every module. */
module Prelude {

  datatype Option<+T> = None | Some(value: T) {
    function GetOr(default: T): T {
      match this
      case Some(v) => v
      case None => default
    }
  }

  datatype Result<+T, +E> = Ok(value: T) | Err(error: E)

  const U8_MAX: nat := 0xFF
  const U32_MAX: nat := 0xFFFF_FFFF
  const U64_MAX: nat := 0xFFFF_FFFF_FFFF_FFFF

  /** True when no value occurs twice. */
  predicate Distinct<T(==)>(s: seq<T>) {
    forall i, j :: 0 <= i < j < |s| ==> s[i] != s[j]
  }

  lemma DistinctSnoc<T>(s: seq<T>, x: T)
    ensures Distinct(s + [x]) <==> Distinct(s) && x !in s
  {
    var t := s + [x];
    if Distinct(t) {
      forall i, j | 0 <= i < j < |s| ensures s[i] != s[j] {
        assert t[i] != t[j];
      }
      forall i | 0 <= i < |s| ensures s[i] != x {
        assert t[i] != t[|s|];
      }
    }
  }

  /** Part of a sequence without repetitions has none. */
  lemma DistinctPart<T>(part: seq<T>, whole: seq<T>)
    requires multiset(part) <= multiset(whole) && Distinct(whole)
    ensures Distinct(part)
  {
    forall i, j | 0 <= i < j < |part| ensures part[i] != part[j] {
      if part[i] == part[j] {
        assert part == part[..i] + [part[i]] + part[i + 1..j] + [part[j]] + part[j + 1..];
        AtMostOnce(whole, part[i]);
      }
    }
  }

  lemma {:induction false} AtMostOnce<T>(s: seq<T>, x: T)
    requires Distinct(s)
    ensures multiset(s)[x] <= 1
  {
    if s != [] {
      assert s == s[..|s| - 1] + [s[|s| - 1]];
      DistinctSnoc(s[..|s| - 1], s[|s| - 1]);
      AtMostOnce(s[..|s| - 1], x);
      if s[|s| - 1] == x {
        assert multiset(s[..|s| - 1])[x] == 0;
      }
    }
  }

  /** The elements that satisfy `p`, in order. */
  function Filter<T>(s: seq<T>, p: T -> bool): seq<T> {
    if s == [] then [] else (if p(s[0]) then [s[0]] else []) + Filter(s[1..], p)
  }

  lemma AppendEmpty<T>(s: seq<T>)
    ensures s + [] == s && [] + s == s
  {
  }

  lemma AppendAssoc<T>(a: seq<T>, b: seq<T>, c: seq<T>)
    ensures a + b + c == a + (b + c)
  {
  }

  /** A permutation has the same elements. */
  lemma SameElements<T>(a: seq<T>, b: seq<T>)
    requires multiset(a) == multiset(b)
    ensures forall x :: x in a <==> x in b
  {
    forall x ensures x in a <==> x in b {
      assert x in a <==> x in multiset(a);
      assert x in b <==> x in multiset(b);
    }
  }

  /** The first `n` parts, one after the other. */
  function Flat<T>(parts: seq<seq<T>>, n: nat): seq<T>
    requires n <= |parts|
  {
    if n == 0 then [] else Flat(parts, n - 1) + parts[n - 1]
  }

  lemma {:induction false} FlatOfOne<T>(parts: seq<seq<T>>, n: nat, j: nat)
    requires n <= |parts| && j < |parts|
    requires forall i :: 0 <= i < |parts| && i != j ==> parts[i] == []
    ensures Flat(parts, n) == if j < n then parts[j] else []
  {
    if n > 0 {
      FlatOfOne(parts, n - 1, j);
      FlatNext(parts, n - 1);
    }
  }

  /** An empty part adds nothing, and after nothing there is only the next part. */
  lemma FlatNext<T>(parts: seq<seq<T>>, n: nat)
    requires n < |parts|
    ensures parts[n] == [] ==> Flat(parts, n + 1) == Flat(parts, n)
    ensures Flat(parts, n) == [] ==> Flat(parts, n + 1) == parts[n]
  {
    AppendEmpty(Flat(parts, n));
    AppendEmpty(parts[n]);
  }
}
