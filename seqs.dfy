/** Sequence helpers shared by the tables and the queries: filtering, first match,
    newest-first ordering and the `orderBy: { order: 'asc' }` sort. */
module Seqs {
  import opened Wrappers

  /** The rows of `s` that satisfy `p`, in their original order (a `where` clause). */
  function Filter<T>(s: seq<T>, p: T -> bool): (r: seq<T>)
    ensures |r| <= |s|
    ensures forall i :: 0 <= i < |r| ==> p(r[i])
    ensures multiset(r) <= multiset(s)
  {
    if s == [] then []
    else
      assert s == [s[0]] + s[1..];
      (if p(s[0]) then [s[0]] else []) + Filter(s[1..], p)
  }

  /** The rows `Filter` keeps are exactly the rows of `s` that satisfy `p`. */
  lemma {:induction false} FilterMembers<T>(s: seq<T>, p: T -> bool)
    ensures forall x :: x in Filter(s, p) <==> x in s && p(x)
  {
    if s != [] {
      FilterMembers(s[1..], p);
      assert s == [s[0]] + s[1..];
    }
  }

  /** A row `Filter` kept is a row of `s` that satisfies `p`. */
  lemma FilterMember<T>(s: seq<T>, p: T -> bool, x: T)
    requires x in Filter(s, p)
    ensures x in s && p(x)
  {
    FilterMembers(s, p);
  }

  /** The first row of `s` that satisfies `p` (`findFirst` / `findUnique`). */
  function First<T>(s: seq<T>, p: T -> bool): (r: Option<T>)
    ensures r.Some? ==> r.value in s && p(r.value)
    ensures r.None? <==> forall i :: 0 <= i < |s| ==> !p(s[i])
  {
    if s == [] then None
    else if p(s[0]) then Some(s[0])
    else First(s[1..], p)
  }

  /** The value `f` gives for each row of `s`, in row order (a `select` of one column). */
  function Project<A, B>(s: seq<A>, f: A -> B): (r: seq<B>)
    ensures |r| == |s| && forall i :: 0 <= i < |s| ==> r[i] == f(s[i])
  {
    seq(|s|, i requires 0 <= i < |s| => f(s[i]))
  }

  /** `s` back to front: the newest row of an insertion-ordered table comes first. */
  function Reverse<T>(s: seq<T>): (r: seq<T>)
  {
    seq(|s|, i requires 0 <= i < |s| => s[|s| - 1 - i])
  }

  /** Every row of `s` whose `key` is `k` replaced by `f` of it, every other row kept
      (an `update` by id). */
  function Replace<T>(s: seq<T>, key: T -> int, k: int, f: T -> T): (r: seq<T>)
    ensures |r| == |s|
    ensures forall i :: 0 <= i < |s| ==> r[i] == if key(s[i]) == k then f(s[i]) else s[i]
  {
    seq(|s|, i requires 0 <= i < |s| => if key(s[i]) == k then f(s[i]) else s[i])
  }

  /** The rows of `s` whose `key` is not `k` (a `delete` by id). */
  function Remove<T>(s: seq<T>, key: T -> int, k: int): (r: seq<T>)
    ensures forall i :: 0 <= i < |r| ==> key(r[i]) != k
  {
    Filter(s, (x: T) => key(x) != k)
  }

  ghost predicate StrictlyIncreasing<T>(s: seq<T>, key: T -> int)
  {
    forall i, j :: 0 <= i < j < |s| ==> key(s[i]) < key(s[j])
  }

  ghost predicate StrictlyDecreasing<T>(s: seq<T>, key: T -> int)
  {
    forall i, j :: 0 <= i < j < |s| ==> key(s[i]) > key(s[j])
  }

  ghost predicate SortedBy<T>(s: seq<T>, key: T -> int)
  {
    forall i, j :: 0 <= i < j < |s| ==> key(s[i]) <= key(s[j])
  }

  /** Reversal keeps exactly the same rows. */
  lemma ReverseMembers<T>(s: seq<T>)
    ensures |Reverse(s)| == |s|
    ensures forall x :: x in Reverse(s) <==> x in s
  {
    var r := Reverse(s);
    forall x | x in s ensures x in r {
      var i :| 0 <= i < |s| && s[i] == x;
      assert r[|s| - 1 - i] == x;
    }
  }

  /** A filter of an increasing table is increasing. */
  lemma {:induction false} FilterIncreasing<T>(s: seq<T>, p: T -> bool, key: T -> int)
    requires StrictlyIncreasing(s, key)
    ensures StrictlyIncreasing(Filter(s, p), key)
  {
    if s != [] {
      var rest := s[1..];
      assert StrictlyIncreasing(rest, key) by {
        forall i, j | 0 <= i < j < |rest| ensures key(rest[i]) < key(rest[j]) {
          assert rest[i] == s[i + 1] && rest[j] == s[j + 1];
        }
      }
      FilterIncreasing(rest, p, key);
      var tail := Filter(rest, p);
      if p(s[0]) {
        forall i | 0 <= i < |tail| ensures key(s[0]) < key(tail[i]) {
          FilterMember(rest, p, tail[i]);
          var k :| 0 <= k < |rest| && rest[k] == tail[i];
          assert s[k + 1] == tail[i];
        }
        var r := [s[0]] + tail;
        assert Filter(s, p) == r;
        forall i, j | 0 <= i < j < |r| ensures key(r[i]) < key(r[j]) {
          assert r[j] == tail[j - 1];
          if i > 0 {
            assert r[i] == tail[i - 1];
          }
        }
      } else {
        assert Filter(s, p) == tail;
      }
    }
  }

  /** Reversing an increasing table gives the newest-first order. */
  lemma ReverseIncreasing<T>(s: seq<T>, key: T -> int)
    requires StrictlyIncreasing(s, key)
    ensures StrictlyDecreasing(Reverse(s), key)
  {
  }

  /** Newest first: the rows satisfying `p`, from the most recently created down. */
  function NewestFirst<T>(s: seq<T>, p: T -> bool): (r: seq<T>)
  {
    Reverse(Filter(s, p))
  }

  /** What every newest-first query promises: exactly the matching rows, newest first. */
  lemma NewestFirstSpec<T>(s: seq<T>, p: T -> bool, key: T -> int)
    requires StrictlyIncreasing(s, key)
    ensures forall x :: x in NewestFirst(s, p) <==> x in s && p(x)
    ensures StrictlyDecreasing(NewestFirst(s, p), key)
    ensures |NewestFirst(s, p)| == |Filter(s, p)|
  {
    ReverseMembers(Filter(s, p));
    FilterMembers(s, p);
    FilterIncreasing(s, p, key);
    ReverseIncreasing(Filter(s, p), key);
  }

  /** Inserts `x` before the first element with a larger-or-equal key. */
  function Insert<T>(x: T, s: seq<T>, key: T -> int): (r: seq<T>)
    requires SortedBy(s, key)
    ensures SortedBy(r, key)
    ensures multiset(r) == multiset(s) + multiset{x}
    ensures forall i :: 0 <= i < |r| ==> r[i] == x || r[i] in s
  {
    if s == [] then [x]
    else if key(x) <= key(s[0]) then [x] + s
    else
      var rest := s[1..];
      assert s == [s[0]] + rest;
      assert SortedBy(rest, key);
      var t := Insert(x, rest, key);
      InsertStep(s[0], rest, x, t, key);
      [s[0]] + t
  }

  /** The head of a sorted table stays in front of a sorted table built from its tail and
      one row with a larger key. */
  lemma InsertStep<T>(h: T, rest: seq<T>, x: T, t: seq<T>, key: T -> int)
    requires SortedBy([h] + rest, key) && key(h) < key(x) && SortedBy(t, key)
    requires forall i :: 0 <= i < |t| ==> t[i] == x || t[i] in rest
    ensures SortedBy([h] + t, key)
  {
    var s, r := [h] + rest, [h] + t;
    forall i | 0 <= i < |t| ensures key(h) <= key(t[i]) {
      if t[i] != x {
        var j :| 0 <= j < |rest| && rest[j] == t[i];
        assert s[0] == h && s[j + 1] == t[i];
      }
    }
    forall i, j | 0 <= i < j < |r| ensures key(r[i]) <= key(r[j]) {
      assert r[j] == t[j - 1];
      if i > 0 {
        assert r[i] == t[i - 1];
      }
    }
  }

  /** Insertion sort by `key`, ascending (`orderBy: { order: 'asc' }`). */
  function SortBy<T>(s: seq<T>, key: T -> int): (r: seq<T>)
    ensures SortedBy(r, key)
    ensures multiset(r) == multiset(s)
  {
    if s == [] then []
    else
      assert s == [s[0]] + s[1..];
      Insert(s[0], SortBy(s[1..], key), key)
  }

  /** Sorting keeps exactly the same rows. */
  lemma SortByMembers<T>(s: seq<T>, key: T -> int)
    ensures |SortBy(s, key)| == |s|
    ensures forall x :: x in SortBy(s, key) <==> x in s
  {
    var r := SortBy(s, key);
    assert multiset(r) == multiset(s);
    assert |r| == |multiset(r)| == |multiset(s)| == |s|;
    forall x ensures x in r <==> x in s {
      assert x in r <==> x in multiset(r);
      assert x in s <==> x in multiset(s);
    }
  }

  /** Sorting what a filter kept keeps exactly the rows the filter kept. */
  lemma SortedFilterMembers<T>(s: seq<T>, p: T -> bool, key: T -> int)
    ensures forall x :: x in SortBy(Filter(s, p), key) ==> x in s && p(x)
  {
    var f := Filter(s, p);
    var r := SortBy(f, key);
    forall x | x in r ensures x in s && p(x) {
      assert x in multiset(r);
      assert x in f;
      var i :| 0 <= i < |f| && f[i] == x;
    }
  }

  /** The invariant of a table whose ids (or creation times) come from a counter:
      strictly increasing along the table and all below the counter. */
  ghost predicate IncreasingBelow<T>(s: seq<T>, key: T -> int, next: int)
  {
    StrictlyIncreasing(s, key) && forall i :: 0 <= i < |s| ==> key(s[i]) < next
  }

  /** Appending a row stamped with the counter keeps the invariant for the next counter. */
  lemma AppendIncreasingBelow<T>(s: seq<T>, x: T, key: T -> int, next: int, next': int)
    requires IncreasingBelow(s, key, next)
    requires key(x) >= next && key(x) < next'
    ensures IncreasingBelow(s + [x], key, next')
  {
  }

  /** Dropping rows keeps the invariant. */
  lemma FilterIncreasingBelow<T>(s: seq<T>, p: T -> bool, key: T -> int, next: int)
    requires IncreasingBelow(s, key, next)
    ensures IncreasingBelow(Filter(s, p), key, next)
  {
    FilterIncreasing(s, p, key);
  }

  /** A table whose rows all come from `s` stays below the counter `s` is below. */
  lemma BelowKept<T>(s: seq<T>, r: seq<T>, key: T -> int, next: int)
    requires multiset(r) <= multiset(s)
    requires forall i :: 0 <= i < |s| ==> key(s[i]) < next
    ensures forall i :: 0 <= i < |r| ==> key(r[i]) < next
  {
    forall i | 0 <= i < |r| ensures key(r[i]) < next {
      assert r[i] in multiset(r);
      assert r[i] in multiset(s);
      var j :| 0 <= j < |s| && s[j] == r[i];
    }
  }

  /** `Remove` keeps exactly the rows with another key. */
  lemma RemoveMembers<T>(s: seq<T>, key: T -> int, k: int)
    ensures forall x :: x in Remove(s, key, k) <==> x in s && key(x) != k
  {
    FilterMembers(s, (x: T) => key(x) != k);
  }

  /** Replacing rows by ones with the same `other` key keeps the invariant on `other`. */
  lemma ReplaceIncreasingBelow<T>(s: seq<T>, key: T -> int, k: int, f: T -> T, other: T -> int, next: int)
    requires IncreasingBelow(s, other, next)
    requires forall i :: 0 <= i < |s| && key(s[i]) == k ==> other(f(s[i])) == other(s[i])
    ensures IncreasingBelow(Replace(s, key, k, f), other, next)
  {
  }

  /** Removing by key keeps the invariant on any key. */
  lemma RemoveIncreasingBelow<T>(s: seq<T>, key: T -> int, k: int, other: T -> int, next: int)
    requires IncreasingBelow(s, other, next)
    ensures IncreasingBelow(Remove(s, key, k), other, next)
  {
    FilterIncreasing(s, (x: T) => key(x) != k, other);
    BelowKept(s, Remove(s, key, k), other, next);
  }

  /** Under strictly increasing ids, at most one row has a given id: removing the rows with
      that id removes exactly one row when there is one. */
  lemma {:induction false} RemoveUnique<T>(s: seq<T>, key: T -> int, k: int)
    requires StrictlyIncreasing(s, key)
    ensures |Remove(s, key, k)| == |s| - (if exists i :: 0 <= i < |s| && key(s[i]) == k then 1 else 0)
  {
    if s != [] {
      RemoveUnique(s[1..], key, k);
      assert forall i :: 0 <= i < |s[1..]| ==> s[1..][i] == s[i + 1];
      if key(s[0]) == k {
        assert forall i :: 0 <= i < |s[1..]| ==> key(s[1..][i]) != k;
      } else {
        assert (exists i :: 0 <= i < |s| && key(s[i]) == k) <==> (exists i :: 0 <= i < |s[1..]| && key(s[1..][i]) == k) by {
          if exists i :: 0 <= i < |s| && key(s[i]) == k {
            var i :| 0 <= i < |s| && key(s[i]) == k;
            assert key(s[1..][i - 1]) == k;
          }
        }
      }
    }
  }

  /** Some row of `s` has `key` equal to `k` (a lookup by id or by foreign key). */
  predicate HasKey<T>(s: seq<T>, key: T -> int, k: int)
  {
    exists i :: 0 <= i < |s| && key(s[i]) == k
  }

  /** A row's own key is found in its table. */
  lemma MemberHasKey<T>(s: seq<T>, key: T -> int, x: T)
    requires x in s
    ensures HasKey(s, key, key(x))
  {
    var i :| 0 <= i < |s| && s[i] == x;
  }

  function KeyIs<T>(key: T -> int, k: int): T -> bool
  {
    (x: T) => key(x) == k
  }

  /** `findUnique({ where: { id } })`: the row with key `k`, found exactly when there is one. */
  function Lookup<T>(s: seq<T>, key: T -> int, k: int): (r: Option<T>)
    ensures r.Some? <==> HasKey(s, key, k)
    ensures r.Some? ==> r.value in s && key(r.value) == k
  {
    First(s, KeyIs(key, k))
  }

  /** Under strictly increasing keys, a key names at most one row. */
  lemma UniqueKey<T>(s: seq<T>, key: T -> int, a: T, b: T)
    requires StrictlyIncreasing(s, key)
    requires a in s && b in s && key(a) == key(b)
    ensures a == b
  {
    var i :| 0 <= i < |s| && s[i] == a;
    var j :| 0 <= j < |s| && s[j] == b;
    assert i == j;
  }

  /** Rewriting rows without touching `key` keeps every lookup by `key`. */
  lemma SameKeys<T>(a: seq<T>, b: seq<T>, key: T -> int)
    requires |a| == |b| && forall i :: 0 <= i < |a| ==> key(a[i]) == key(b[i])
    ensures forall k :: HasKey(a, key, k) <==> HasKey(b, key, k)
  {
    forall k ensures HasKey(a, key, k) <==> HasKey(b, key, k) {
      if HasKey(a, key, k) {
        var i :| 0 <= i < |a| && key(a[i]) == k;
        assert key(b[i]) == k;
      }
      if HasKey(b, key, k) {
        var i :| 0 <= i < |b| && key(b[i]) == k;
        assert key(a[i]) == k;
      }
    }
  }

  /** Appending a row keeps every lookup that succeeded. */
  lemma AppendKeys<T>(s: seq<T>, x: T, key: T -> int)
    ensures forall k :: HasKey(s, key, k) ==> HasKey(s + [x], key, k)
  {
    forall k | HasKey(s, key, k) ensures HasKey(s + [x], key, k) {
      var i :| 0 <= i < |s| && key(s[i]) == k;
      assert (s + [x])[i] == s[i];
    }
  }

  /** The child rows whose foreign key `fk` names a row of `parents` by its key `pk`. */
  function KeepChildren<C, P>(children: seq<C>, parents: seq<P>, fk: C -> int, pk: P -> int): (r: seq<C>)
    ensures forall i :: 0 <= i < |r| ==> HasKey(parents, pk, fk(r[i]))
  {
    Filter(children, HasParent(parents, fk, pk))
  }

  /** The kept children are exactly the children with a parent. */
  lemma KeepChildrenMembers<C, P>(children: seq<C>, parents: seq<P>, fk: C -> int, pk: P -> int)
    ensures forall c :: c in KeepChildren(children, parents, fk, pk) <==> c in children && HasKey(parents, pk, fk(c))
  {
    FilterMembers(children, HasParent(parents, fk, pk));
  }

  function HasParent<C, P>(parents: seq<P>, fk: C -> int, pk: P -> int): C -> bool
  {
    (c: C) => HasKey(parents, pk, fk(c))
  }

  /** Keeping children keeps the invariant of their table. */
  lemma KeepChildrenIncreasingBelow<C, P>(children: seq<C>, parents: seq<P>, fk: C -> int, pk: P -> int,
                                          key: C -> int, next: int)
    requires IncreasingBelow(children, key, next)
    ensures IncreasingBelow(KeepChildren(children, parents, fk, pk), key, next)
  {
    FilterIncreasing(children, HasParent(parents, fk, pk), key);
    BelowKept(children, KeepChildren(children, parents, fk, pk), key, next);
  }

  /** The child's parent (by `fk`/`pk`) is one of the `gone` rows of `parents`. */
  ghost predicate Orphaned<C, P>(parents: seq<P>, fk: C -> int, pk: P -> int, gone: P -> bool, c: C)
  {
    exists p :: p in parents && pk(p) == fk(c) && gone(p)
  }

  /** A cascading delete one level down: when `parents'` is `parents` without the `gone`
      rows, the children of `parents'` are exactly the children whose parent is not gone. */
  lemma Cascade<C, P>(children: seq<C>, parents: seq<P>, parents': seq<P>, fk: C -> int, pk: P -> int,
                      gone: P -> bool)
    requires forall i :: 0 <= i < |children| ==> HasKey(parents, pk, fk(children[i]))
    requires StrictlyIncreasing(parents, pk)
    requires forall p :: p in parents' <==> p in parents && !gone(p)
    ensures forall c :: c in KeepChildren(children, parents', fk, pk)
                    <==> c in children && !Orphaned(parents, fk, pk, gone, c)
  {
    var r := KeepChildren(children, parents', fk, pk);
    KeepChildrenMembers(children, parents', fk, pk);
    forall c ensures c in r <==> c in children && !Orphaned(parents, fk, pk, gone, c) {
      if c in r {
        var i :| 0 <= i < |r| && r[i] == c;
        var j :| 0 <= j < |parents'| && pk(parents'[j]) == fk(c);
        var p' := parents'[j];
        if Orphaned(parents, fk, pk, gone, c) {
          var p :| p in parents && pk(p) == fk(c) && gone(p);
          UniqueKey(parents, pk, p, p');
        }
      }
      if c in children && !Orphaned(parents, fk, pk, gone, c) {
        var i :| 0 <= i < |children| && children[i] == c;
        var j :| 0 <= j < |parents| && pk(parents[j]) == fk(c);
        var p := parents[j];
        assert p in parents';
        var j' :| 0 <= j' < |parents'| && parents'[j'] == p;
        assert HasKey(parents', pk, fk(c));
      }
    }
  }

  /** No two rows of `s` share `key`. */
  ghost predicate Distinct<T, K>(s: seq<T>, key: T -> K)
  {
    forall i, j :: 0 <= i < j < |s| ==> key(s[i]) != key(s[j])
  }

  lemma {:induction false} FilterDistinct<T, K>(s: seq<T>, p: T -> bool, key: T -> K)
    requires Distinct(s, key)
    ensures Distinct(Filter(s, p), key)
  {
    if s != [] {
      var rest := s[1..];
      assert Distinct(rest, key) by {
        forall i, j | 0 <= i < j < |rest| ensures key(rest[i]) != key(rest[j]) {
          assert rest[i] == s[i + 1] && rest[j] == s[j + 1];
        }
      }
      FilterDistinct(rest, p, key);
      var tail := Filter(rest, p);
      if p(s[0]) {
        forall i | 0 <= i < |tail| ensures key(s[0]) != key(tail[i]) {
          FilterMember(rest, p, tail[i]);
          var j :| 0 <= j < |rest| && rest[j] == tail[i];
          assert s[j + 1] == tail[i];
        }
        var r := [s[0]] + tail;
        assert Filter(s, p) == r;
        forall i, j | 0 <= i < j < |r| ensures key(r[i]) != key(r[j]) {
          assert r[j] == tail[j - 1];
          if i > 0 {
            assert r[i] == tail[i - 1];
          }
        }
      } else {
        assert Filter(s, p) == tail;
      }
    }
  }

  lemma KeepChildrenDistinct<C, P, K>(children: seq<C>, parents: seq<P>, fk: C -> int, pk: P -> int, key: C -> K)
    requires Distinct(children, key)
    ensures Distinct(KeepChildren(children, parents, fk, pk), key)
  {
    FilterDistinct(children, HasParent(parents, fk, pk), key);
  }

  lemma RemoveDistinct<T, K>(s: seq<T>, key: T -> int, k: int, other: T -> K)
    requires Distinct(s, other)
    ensures Distinct(Remove(s, key, k), other)
  {
    FilterDistinct(s, (x: T) => key(x) != k, other);
  }

  /** Every child names an existing parent: the foreign key `fk` of each row of `children`
      is the key `pk` of some row of `parents`. */
  ghost predicate ChildrenLinked<C, P>(children: seq<C>, parents: seq<P>, fk: C -> int, pk: P -> int)
  {
    forall i :: 0 <= i < |children| ==> HasKey(parents, pk, fk(children[i]))
  }

  /** A linked child's parent is found. */
  lemma LinkedMember<C, P>(children: seq<C>, parents: seq<P>, fk: C -> int, pk: P -> int, c: C)
    requires ChildrenLinked(children, parents, fk, pk) && c in children
    ensures HasKey(parents, pk, fk(c))
  {
    var i :| 0 <= i < |children| && children[i] == c;
  }

  lemma LinkedAppendParent<C, P>(children: seq<C>, parents: seq<P>, p: P, fk: C -> int, pk: P -> int)
    requires ChildrenLinked(children, parents, fk, pk)
    ensures ChildrenLinked(children, parents + [p], fk, pk)
  {
    AppendKeys(parents, p, pk);
  }

  lemma LinkedAppendChild<C, P>(children: seq<C>, x: C, parents: seq<P>, fk: C -> int, pk: P -> int)
    requires ChildrenLinked(children, parents, fk, pk) && HasKey(parents, pk, fk(x))
    ensures ChildrenLinked(children + [x], parents, fk, pk)
  {
  }

  lemma LinkedKeep<C, P>(children: seq<C>, parents: seq<P>, fk: C -> int, pk: P -> int)
    ensures ChildrenLinked(KeepChildren(children, parents, fk, pk), parents, fk, pk)
  {
  }

  lemma LinkedRemoveChild<C, P>(children: seq<C>, key: C -> int, k: int, parents: seq<P>, fk: C -> int, pk: P -> int)
    requires ChildrenLinked(children, parents, fk, pk)
    ensures ChildrenLinked(Remove(children, key, k), parents, fk, pk)
  {
    var r := Remove(children, key, k);
    RemoveMembers(children, key, k);
    forall i | 0 <= i < |r| ensures HasKey(parents, pk, fk(r[i])) {
      FilterMember(children, (x: C) => key(x) != k, r[i]);
      var j :| 0 <= j < |children| && children[j] == r[i];
    }
  }

  lemma LinkedReplaceChild<C, P>(children: seq<C>, key: C -> int, k: int, f: C -> C, parents: seq<P>,
                                 fk: C -> int, pk: P -> int)
    requires ChildrenLinked(children, parents, fk, pk)
    requires forall i :: 0 <= i < |children| && key(children[i]) == k ==> fk(f(children[i])) == fk(children[i])
    ensures ChildrenLinked(Replace(children, key, k, f), parents, fk, pk)
  {
  }

  lemma LinkedReplaceParent<C, P>(children: seq<C>, parents: seq<P>, key: P -> int, k: int, f: P -> P,
                                  fk: C -> int, pk: P -> int)
    requires ChildrenLinked(children, parents, fk, pk)
    requires forall i :: 0 <= i < |parents| && key(parents[i]) == k ==> pk(f(parents[i])) == pk(parents[i])
    ensures ChildrenLinked(children, Replace(parents, key, k, f), fk, pk)
  {
    SameKeys(parents, Replace(parents, key, k, f), pk);
  }

  /** A new row whose key is not yet taken keeps the keys distinct. */
  lemma AppendDistinct<T, K>(s: seq<T>, x: T, key: T -> K)
    requires Distinct(s, key)
    requires forall i :: 0 <= i < |s| ==> key(s[i]) != key(x)
    ensures Distinct(s + [x], key)
  {
  }

  /** A new row whose integer key no row has yet keeps the keys distinct. */
  lemma AppendNewKey<T>(s: seq<T>, x: T, key: T -> int)
    requires Distinct(s, key) && !HasKey(s, key, key(x))
    ensures Distinct(s + [x], key)
  {
  }
}
