/** The query operators the handlers apply to a collection, stated over the
    collection's documents in natural (insertion) order: `find` with a filter,
    `findOne`, `findOneAndDelete`/`findByIdAndDelete`, `$pull` and `sort`. */
module Collections {
  import opened Common

  /** The documents of `s` that match `p`, in their stored order (`find(filter)`). */
  function Filter<T(!new)>(s: seq<T>, p: T -> bool): (r: seq<T>)
    ensures |r| <= |s|
    ensures forall i :: 0 <= i < |r| ==> p(r[i])
  {
    if s == [] then [] else (if p(s[0]) then [s[0]] else []) + Filter(s[1..], p)
  }

  /** A document is returned exactly when it is stored and matches. */
  lemma {:induction false} FilterMember<T(!new)>(s: seq<T>, p: T -> bool, x: T)
    ensures x in Filter(s, p) <==> x in s && p(x)
  {
    if s != [] {
      FilterMember(s[1..], p, x);
      assert s == [s[0]] + s[1..];
    }
  }

  /** Every matching document is kept, as often as it is stored, and nothing else. */
  lemma {:induction false} FilterCounts<T(!new)>(s: seq<T>, p: T -> bool)
    ensures forall x :: multiset(Filter(s, p))[x] == if p(x) then multiset(s)[x] else 0
  {
    if s != [] {
      FilterCounts(s[1..], p);
      assert s == [s[0]] + s[1..];
      assert multiset(s) == multiset{s[0]} + multiset(s[1..]);
    }
  }

  /** Filtering distributes over concatenation: matches keep their relative order. */
  lemma {:induction false} FilterConcat<T(!new)>(a: seq<T>, b: seq<T>, p: T -> bool)
    ensures Filter(a + b, p) == Filter(a, p) + Filter(b, p)
  {
    if a != [] {
      assert (a + b)[0] == a[0];
      assert (a + b)[1..] == a[1..] + b;
      FilterConcat(a[1..], b, p);
      var head := if p(a[0]) then [a[0]] else [];
      calc {
        Filter(a + b, p);
        head + Filter(a[1..] + b, p);
        head + (Filter(a[1..], p) + Filter(b, p));
        (head + Filter(a[1..], p)) + Filter(b, p);
      }
    } else {
      assert a + b == b;
    }
  }

  /** A filter nothing matches gives no document. */
  lemma {:induction false} FilterNone<T(!new)>(s: seq<T>, p: T -> bool)
    requires forall i :: 0 <= i < |s| ==> !p(s[i])
    ensures Filter(s, p) == []
  {
    if s != [] {
      FilterNone(s[1..], p);
    }
  }

  /** Two filters can be applied in either order. */
  lemma {:induction false} FilterCommute<T(!new)>(s: seq<T>, p: T -> bool, q: T -> bool)
    ensures Filter(Filter(s, p), q) == Filter(Filter(s, q), p)
  {
    if s != [] {
      FilterCommute(s[1..], p, q);
      var head := if p(s[0]) then [s[0]] else [];
      var head' := if q(s[0]) then [s[0]] else [];
      FilterConcat(head, Filter(s[1..], p), q);
      FilterConcat(head', Filter(s[1..], q), p);
    }
  }

  /** A filter every document passes leaves the collection as it was. */
  lemma {:induction false} FilterKeepsAll<T(!new)>(s: seq<T>, p: T -> bool)
    requires forall i :: 0 <= i < |s| ==> p(s[i])
    ensures Filter(s, p) == s
  {
    if s != [] {
      FilterKeepsAll(s[1..], p);
    }
  }

  /** Index of the first document matching `p` (`findOne(filter)`). */
  function FirstIndex<T>(s: seq<T>, p: T -> bool): (r: Option<nat>)
    ensures r.Some? ==> r.value < |s| && p(s[r.value])
    ensures r.Some? ==> forall j :: 0 <= j < r.value ==> !p(s[j])
    ensures r.None? <==> forall i :: 0 <= i < |s| ==> !p(s[i])
  {
    if s == [] then None
    else if p(s[0]) then Some(0)
    else match FirstIndex(s[1..], p)
      case None => None
      case Some(i) => Some(i + 1)
  }

  /** `findOneAndDelete(filter)`: drop the first matching document, if any. */
  function RemoveFirst<T>(s: seq<T>, p: T -> bool): (r: seq<T>)
    ensures FirstIndex(s, p).None? ==> r == s
    ensures FirstIndex(s, p).Some? ==>
      var i := FirstIndex(s, p).value; r == s[..i] + s[i + 1..]
  {
    if s == [] then []
    else if p(s[0]) then s[1..]
    else
      var rest := RemoveFirst(s[1..], p);
      assert FirstIndex(s, p).Some? ==> var i := FirstIndex(s, p).value;
        s[..i] + s[i + 1..] == [s[0]] + (s[1..][..i - 1] + s[1..][i..]);
      [s[0]] + rest
  }

  /** Removing the first `p`-document leaves the `q`-documents alone when no document is both. */
  lemma {:induction false} RemoveFirstKeepsOthers<T(!new)>(s: seq<T>, p: T -> bool, q: T -> bool)
    requires forall i :: 0 <= i < |s| ==> !(p(s[i]) && q(s[i]))
    ensures Filter(RemoveFirst(s, p), q) == Filter(s, q)
  {
    if s != [] && !p(s[0]) {
      RemoveFirstKeepsOthers(s[1..], p, q);
      assert RemoveFirst(s, p) == [s[0]] + RemoveFirst(s[1..], p);
      assert ([s[0]] + RemoveFirst(s[1..], p))[1..] == RemoveFirst(s[1..], p);
    }
  }

  /** Removing the first `p`-document drops exactly the first of the `p`-documents. */
  lemma {:induction false} RemoveFirstDropsHead<T(!new)>(s: seq<T>, p: T -> bool)
    ensures Filter(RemoveFirst(s, p), p) == if Filter(s, p) == [] then [] else Filter(s, p)[1..]
  {
    if s != [] && !p(s[0]) {
      RemoveFirstDropsHead(s[1..], p);
      assert RemoveFirst(s, p) == [s[0]] + RemoveFirst(s[1..], p);
      assert ([s[0]] + RemoveFirst(s[1..], p))[1..] == RemoveFirst(s[1..], p);
    }
  }

  /** `s` is ordered by `key`, smallest first. */
  ghost predicate SortedBy<T>(s: seq<T>, key: T -> int)
  {
    forall i, j :: 0 <= i < j < |s| ==> key(s[i]) <= key(s[j])
  }

  /** Insert `x` into the sorted `s` before the first document with a key not below it. */
  function InsertBy<T>(x: T, s: seq<T>, key: T -> int): (r: seq<T>)
    requires SortedBy(s, key)
    ensures SortedBy(r, key)
    ensures multiset(r) == multiset(s) + multiset{x}
    ensures |r| == |s| + 1
    ensures r[0] == x || (s != [] && r[0] == s[0])
  {
    if s == [] || key(x) <= key(s[0]) then [x] + s
    else
      var rest := InsertBy(x, s[1..], key);
      assert s == [s[0]] + s[1..];
      assert key(s[0]) <= key(rest[0]);
      assert forall j :: 0 <= j < |rest| ==> key(rest[0]) <= key(rest[j]);
      [s[0]] + rest
  }

  /** `sort({ field: 1 })` on the key `key`: an ordering of the same documents. */
  function SortBy<T>(s: seq<T>, key: T -> int): (r: seq<T>)
    ensures SortedBy(r, key)
    ensures multiset(r) == multiset(s)
    ensures |r| == |s|
  {
    if s == [] then []
    else
      assert s == [s[0]] + s[1..];
      InsertBy(s[0], SortBy(s[1..], key), key)
  }
}
