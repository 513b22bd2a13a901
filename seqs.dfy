/** The list operations of the Kotlin standard library that the app uses
    (`filter`, `distinctBy`, stable `sortedWith`), with the facts the model needs about them. */
module Seqs {

  // ---------------------------------------------------------------- order-preserving selection

  /** `s` can be obtained from `t` by deleting elements: `s` is an order-preserving subsequence of `t`. */
  predicate IsSubsequence<T(==)>(s: seq<T>, t: seq<T>)
    decreases |t|
  {
    if s == [] then true
    else if t == [] then false
    else (s[0] == t[0] && IsSubsequence(s[1..], t[1..])) || IsSubsequence(s, t[1..])
  }

  lemma {:induction false} SubsequenceTransitive<T>(a: seq<T>, b: seq<T>, c: seq<T>)
    requires IsSubsequence(a, b) && IsSubsequence(b, c)
    ensures IsSubsequence(a, c)
    decreases |c|
  {
    if a != [] {
      if b[0] == c[0] && IsSubsequence(b[1..], c[1..]) {
        if a[0] == b[0] && IsSubsequence(a[1..], b[1..]) {
          SubsequenceTransitive(a[1..], b[1..], c[1..]);
        } else {
          SubsequenceTransitive(a, b[1..], c[1..]);
        }
      } else {
        SubsequenceTransitive(a, b, c[1..]);
      }
    }
  }

  /** `List.filter(p)`: the elements satisfying `p`, in their original order. */
  function Filter<T(==)>(s: seq<T>, p: T -> bool): (r: seq<T>)
    ensures |r| <= |s|
    ensures forall x | x in r :: x in s && p(x)
    ensures forall x | x in s && p(x) :: x in r
  {
    if s == [] then [] else (if p(s[0]) then [s[0]] else []) + Filter(s[1..], p)
  }

  lemma {:induction false} FilterIsSubsequence<T>(s: seq<T>, p: T -> bool)
    ensures IsSubsequence(Filter(s, p), s)
  {
    if s != [] {
      FilterIsSubsequence(s[1..], p);
      var r := Filter(s, p);
      if p(s[0]) {
        assert r[0] == s[0] && r[1..] == Filter(s[1..], p);
      } else {
        assert r == Filter(s[1..], p);
      }
    }
  }

  lemma {:induction false} FilterAppend<T>(a: seq<T>, b: seq<T>, p: T -> bool)
    ensures Filter(a + b, p) == Filter(a, p) + Filter(b, p)
  {
    if a == [] {
      assert a + b == b;
    } else {
      assert (a + b)[1..] == a[1..] + b;
      FilterAppend(a[1..], b, p);
    }
  }

  /** The filter keeps every copy of a passing element and no copy of any other. */
  lemma {:induction false} FilterCounts<T>(s: seq<T>, p: T -> bool)
    ensures forall x :: multiset(Filter(s, p))[x] == if p(x) then multiset(s)[x] else 0
  {
    if s != [] {
      FilterCounts(s[1..], p);
      assert s == [s[0]] + s[1..];
      assert multiset(s) == multiset{s[0]} + multiset(s[1..]);
      var head := if p(s[0]) then [s[0]] else [];
      assert multiset(Filter(s, p)) == multiset(head) + multiset(Filter(s[1..], p));
    }
  }

  /** Filtering a list whose elements have pairwise different keys keeps them different. */
  lemma {:induction false} FilterKeepsDistinctKeys<T, K>(s: seq<T>, p: T -> bool, key: T -> K)
    requires forall i, j | 0 <= i < j < |s| :: key(s[i]) != key(s[j])
    ensures forall i, j | 0 <= i < j < |Filter(s, p)| :: key(Filter(s, p)[i]) != key(Filter(s, p)[j])
  {
    if s != [] {
      var rest := Filter(s[1..], p);
      FilterKeepsDistinctKeys(s[1..], p, key);
      forall x | x in rest ensures key(x) != key(s[0]) {
        var k :| 0 <= k < |s[1..]| && s[1..][k] == x;
        assert s[k + 1] == x;
      }
      if p(s[0]) {
        var r := Filter(s, p);
        assert r == [s[0]] + rest;
        forall i, j | 0 <= i < j < |r| ensures key(r[i]) != key(r[j]) {
          assert r[j] == rest[j - 1];
          if i > 0 { assert r[i] == rest[i - 1]; } else { assert r[j] in rest; }
        }
      }
    }
  }

  /** Filtering a list with one more element at its end. */
  lemma {:induction false} FilterSnoc<T>(s: seq<T>, x: T, p: T -> bool)
    ensures Filter(s + [x], p) == Filter(s, p) + (if p(x) then [x] else [])
  {
    FilterAppend(s, [x], p);
  }

  /** A filter that every element passes returns the list itself. */
  lemma {:induction false} FilterAll<T>(s: seq<T>, p: T -> bool)
    requires forall x :: x in s ==> p(x)
    ensures Filter(s, p) == s
  {
    if s != [] { FilterAll(s[1..], p); }
  }

  /** Predicates that agree on the elements select the same elements. */
  lemma {:induction false} FilterEquivalent<T>(s: seq<T>, p: T -> bool, q: T -> bool)
    requires forall x | x in s :: p(x) == q(x)
    ensures Filter(s, p) == Filter(s, q)
  {
    if s != [] {
      assert forall x | x in s[1..] :: x in s;
      FilterEquivalent(s[1..], p, q);
    }
  }

  /** `List.map(f)`: `f` applied to every element, in order. */
  function Map<T, U>(s: seq<T>, f: T -> U): (r: seq<U>)
    ensures |r| == |s| && forall i :: 0 <= i < |s| ==> r[i] == f(s[i])
  {
    seq(|s|, i requires 0 <= i < |s| => f(s[i]))
  }

  /** Mapping a concatenation maps each part. */
  lemma MapAppend<T, U>(a: seq<T>, b: seq<T>, f: T -> U)
    ensures Map(a + b, f) == Map(a, f) + Map(b, f)
  {
  }

  /** `List.take(n)`: the first `n` elements, or all of them when there are fewer. */
  function Take<T>(s: seq<T>, n: nat): (r: seq<T>)
    ensures |r| == if |s| <= n then |s| else n
    ensures r == s[..|r|]
  {
    if |s| <= n then s else s[..n]
  }

  // ---------------------------------------------------------------- distinctBy

  /** The keys of the elements of `s`. */
  ghost function KeysOf<T, K>(s: seq<T>, key: T -> K): set<K> {
    set x | x in s :: key(x)
  }

  lemma KeysOfCons<T, K>(s: seq<T>, key: T -> K)
    requires s != []
    ensures KeysOf(s, key) == {key(s[0])} + KeysOf(s[1..], key)
  {
    assert forall x :: x in s <==> x == s[0] || x in s[1..];
  }

  /** Kotlin's `distinctBy(key)` loop, continued with the keys already in `seen`:
      an element is kept when its key has not been seen, and its key is then recorded. */
  function DistinctByFrom<T(==), K(==)>(s: seq<T>, key: T -> K, seen: set<K>): (r: seq<T>)
    ensures forall x :: x in r ==> x in s && key(x) !in seen
    decreases |s|
  {
    if s == [] then []
    else if key(s[0]) in seen then DistinctByFrom(s[1..], key, seen)
    else [s[0]] + DistinctByFrom(s[1..], key, seen + {key(s[0])})
  }

  /** `List.distinctBy(key)`: the first element of each key, in their original order. */
  function DistinctBy<T(==), K(==)>(s: seq<T>, key: T -> K): seq<T> {
    DistinctByFrom(s, key, {})
  }

  /** No two elements of `s` share a key. */
  ghost predicate DistinctKeys<T, K>(s: seq<T>, key: T -> K) {
    forall i, j :: 0 <= i < j < |s| ==> key(s[i]) != key(s[j])
  }

  /** A first element whose key no later element has keeps the keys distinct. */
  lemma ConsDistinctKeys<T, K>(x: T, s: seq<T>, key: T -> K)
    requires DistinctKeys(s, key)
    requires forall y :: y in s ==> key(y) != key(x)
    ensures DistinctKeys([x] + s, key)
  {
    var r := [x] + s;
    forall i, j | 0 <= i < j < |r| ensures key(r[i]) != key(r[j]) {
      assert r[j] == s[j - 1];
      if i > 0 { assert r[i] == s[i - 1]; }
    }
  }

  /** No two kept elements share a key. */
  lemma {:induction false} DistinctByFromDistinctKeys<T, K>(s: seq<T>, key: T -> K, seen: set<K>)
    ensures DistinctKeys(DistinctByFrom(s, key, seen), key)
    decreases |s|
  {
    if s != [] {
      if key(s[0]) in seen {
        DistinctByFromDistinctKeys(s[1..], key, seen);
        assert DistinctByFrom(s, key, seen) == DistinctByFrom(s[1..], key, seen);
      } else {
        var seen' := seen + {key(s[0])};
        DistinctByFromDistinctKeys(s[1..], key, seen');
        var r' := DistinctByFrom(s[1..], key, seen');
        assert DistinctByFrom(s, key, seen) == [s[0]] + r';
        ConsDistinctKeys(s[0], r', key);
      }
    }
  }

  lemma {:induction false} DistinctByFromIsSubsequence<T, K>(s: seq<T>, key: T -> K, seen: set<K>)
    ensures IsSubsequence(DistinctByFrom(s, key, seen), s)
    decreases |s|
  {
    if s != [] {
      var r := DistinctByFrom(s, key, seen);
      if key(s[0]) in seen {
        DistinctByFromIsSubsequence(s[1..], key, seen);
      } else {
        DistinctByFromIsSubsequence(s[1..], key, seen + {key(s[0])});
        assert r[0] == s[0] && r[1..] == DistinctByFrom(s[1..], key, seen + {key(s[0])});
      }
    }
  }

  /** Every key of the input that was not already seen has its representative in the output. */
  lemma {:induction false} DistinctByFromKeys<T, K>(s: seq<T>, key: T -> K, seen: set<K>)
    ensures KeysOf(DistinctByFrom(s, key, seen), key) == KeysOf(s, key) - seen
    decreases |s|
  {
    if s != [] {
      var r := DistinctByFrom(s, key, seen);
      KeysOfCons(s, key);
      if key(s[0]) in seen {
        DistinctByFromKeys(s[1..], key, seen);
      } else {
        var seen' := seen + {key(s[0])};
        DistinctByFromKeys(s[1..], key, seen');
        var r' := DistinctByFrom(s[1..], key, seen');
        assert r == [s[0]] + r';
        assert KeysOf(r, key) == {key(s[0])} + KeysOf(r', key) by {
          assert forall x :: x in r <==> x == s[0] || x in r';
        }
      }
    }
  }

  /** `s[i]` is the first element of `s` with its key. */
  ghost predicate FirstOfKey<T, K>(s: seq<T>, i: int, key: T -> K)
    requires 0 <= i < |s|
  {
    forall j :: 0 <= j < i ==> key(s[j]) != key(s[i])
  }

  /** `x` occurs in `s` at a position where its key occurs for the first time. */
  ghost predicate FirstIn<T, K>(s: seq<T>, x: T, key: T -> K) {
    exists i :: 0 <= i < |s| && s[i] == x && FirstOfKey(s, i, key)
  }

  /** Dropping the head changes nothing for another key; for the head's key only the head is first. */
  lemma {:induction false} FirstInTail<T, K>(s: seq<T>, x: T, key: T -> K)
    requires s != []
    ensures key(x) != key(s[0]) ==> (FirstIn(s, x, key) <==> FirstIn(s[1..], x, key))
    ensures key(x) == key(s[0]) ==> (FirstIn(s, x, key) <==> x == s[0])
  {
    var rest := s[1..];
    assert FirstOfKey(s, 0, key);
    if key(x) != key(s[0]) {
      if i :| 0 <= i < |s| && s[i] == x && FirstOfKey(s, i, key) {
        assert i > 0 && rest[i - 1] == x && FirstOfKey(rest, i - 1, key);
      }
      if i :| 0 <= i < |rest| && rest[i] == x && FirstOfKey(rest, i, key) {
        assert s[i + 1] == x && FirstOfKey(s, i + 1, key);
      }
    } else if i :| 0 <= i < |s| && s[i] == x && FirstOfKey(s, i, key) {
      assert i == 0;
    }
  }

  /** An element is kept exactly when its key is not already seen and it is the first of its key. */
  lemma {:induction false} DistinctByFromFirst<T, K>(s: seq<T>, key: T -> K, seen: set<K>, x: T)
    ensures x in DistinctByFrom(s, key, seen) <==> key(x) !in seen && FirstIn(s, x, key)
    decreases |s|
  {
    if s != [] {
      var rest := s[1..];
      FirstInTail(s, x, key);
      if key(s[0]) in seen {
        DistinctByFromFirst(rest, key, seen, x);
      } else {
        var seen' := seen + {key(s[0])};
        DistinctByFromFirst(rest, key, seen', x);
        assert DistinctByFrom(s, key, seen) == [s[0]] + DistinctByFrom(rest, key, seen');
      }
    }
  }

  /** `distinctBy` keeps the FIRST element of each key: an element at the end of the list
      is kept exactly when no earlier element has its key. */
  lemma {:induction false} DistinctByFromSnoc<T, K>(s: seq<T>, x: T, key: T -> K, seen: set<K>)
    ensures DistinctByFrom(s + [x], key, seen)
         == DistinctByFrom(s, key, seen) + (if key(x) in seen + KeysOf(s, key) then [] else [x])
    decreases |s|
  {
    if s == [] {
      assert KeysOf(s, key) == {};
      assert s + [x] == [x];
    } else {
      var rest := s[1..];
      assert (s + [x])[0] == s[0] && (s + [x])[1..] == rest + [x];
      var tail := if key(x) in seen + KeysOf(s, key) then [] else [x];
      if key(s[0]) in seen {
        calc {
          DistinctByFrom(s + [x], key, seen);
          DistinctByFrom(rest + [x], key, seen);
          { DistinctByFromSnoc(rest, x, key, seen);
            KeysOfCons(s, key);
            assert seen + KeysOf(rest, key) == seen + KeysOf(s, key); }
          DistinctByFrom(rest, key, seen) + tail;
          DistinctByFrom(s, key, seen) + tail;
        }
      } else {
        var seen' := seen + {key(s[0])};
        var r' := DistinctByFrom(rest, key, seen');
        calc {
          DistinctByFrom(s + [x], key, seen);
          [s[0]] + DistinctByFrom(rest + [x], key, seen');
          { DistinctByFromSnoc(rest, x, key, seen');
            KeysOfCons(s, key);
            assert seen' + KeysOf(rest, key) == seen + KeysOf(s, key); }
          [s[0]] + (r' + tail);
          ([s[0]] + r') + tail;
          DistinctByFrom(s, key, seen) + tail;
        }
      }
    }
  }

  // ---------------------------------------------------------------- stable sorting

  /** No element is preceded by one that `less` puts after it. */
  predicate SortedWith<T>(s: seq<T>, less: (T, T) -> bool) {
    forall i, j :: 0 <= i < j < |s| ==> !less(s[j], s[i])
  }

  /** `less` is irreflexive and transitive on the elements of `s`. */
  ghost predicate StrictOrderOn<T>(less: (T, T) -> bool, s: seq<T>) {
    && (forall a :: a in s ==> !less(a, a))
    && (forall a, b, c :: a in s && b in s && c in s && less(a, b) && less(b, c) ==> less(a, c))
  }

  /** Places `x` before the first element it must precede. */
  function Insert<T(==)>(x: T, s: seq<T>, less: (T, T) -> bool): (r: seq<T>)
    ensures |r| == |s| + 1
  {
    if s == [] then [x]
    else if less(x, s[0]) then [x] + s
    else [s[0]] + Insert(x, s[1..], less)
  }

  /** `Insert` adds `x` and loses nothing. */
  lemma {:induction false} InsertMultiset<T>(x: T, s: seq<T>, less: (T, T) -> bool)
    ensures multiset(Insert(x, s, less)) == multiset(s) + multiset{x}
  {
    if s != [] && !less(x, s[0]) {
      InsertMultiset(x, s[1..], less);
      assert s == [s[0]] + s[1..];
    }
  }

  /** `sortedWith(comparator)` with `less(a, b)` meaning `compare(a, b) < 0`: a stable
      insertion sort, each element inserted after the equal ones before it. */
  function SortWith<T(==)>(s: seq<T>, less: (T, T) -> bool): (r: seq<T>)
    ensures multiset(r) == multiset(s)
  {
    if s == [] then []
    else
      assert s == s[..|s| - 1] + [s[|s| - 1]];
      InsertMultiset(s[|s| - 1], SortWith(s[..|s| - 1], less), less);
      Insert(s[|s| - 1], SortWith(s[..|s| - 1], less), less)
  }

  /** A first element that no element of a sorted list must precede keeps it sorted. */
  lemma SortedCons<T>(x: T, s: seq<T>, less: (T, T) -> bool)
    requires SortedWith(s, less)
    requires forall y :: y in s ==> !less(y, x)
    ensures SortedWith([x] + s, less)
  {
    var r := [x] + s;
    forall i, j | 0 <= i < j < |r| ensures !less(r[j], r[i]) {
      assert r[j] == s[j - 1];
      if i > 0 { assert r[i] == s[i - 1]; }
    }
  }

  lemma {:induction false} InsertSorted<T>(x: T, s: seq<T>, less: (T, T) -> bool)
    requires SortedWith(s, less)
    requires StrictOrderOn(less, s + [x])
    ensures SortedWith(Insert(x, s, less), less)
  {
    if s != [] {
      if less(x, s[0]) {
        forall y | y in s ensures !less(y, x) {
          var m :| 0 <= m < |s| && s[m] == y;
          assert y in s + [x] && x in s + [x] && s[0] in s + [x];
          if m > 0 { assert !less(s[m], s[0]); }
        }
        SortedCons(x, s, less);
      } else {
        var t := Insert(x, s[1..], less);
        assert StrictOrderOn(less, s[1..] + [x]) by {
          assert forall y :: y in s[1..] + [x] ==> y in s + [x];
        }
        InsertSorted(x, s[1..], less);
        InsertMultiset(x, s[1..], less);
        forall y | y in t ensures !less(y, s[0]) {
          assert y in multiset(t);
          if y != x {
            var k :| 0 <= k < |s[1..]| && s[1..][k] == y;
            assert s[k + 1] == y;
          }
        }
        SortedCons(s[0], t, less);
        assert Insert(x, s, less) == [s[0]] + t;
      }
    }
  }

  /** When `less` is a strict order on its elements, the sort's output is sorted. */
  lemma {:induction false} SortWithSorted<T>(s: seq<T>, less: (T, T) -> bool)
    requires StrictOrderOn(less, s)
    ensures SortedWith(SortWith(s, less), less)
  {
    if s != [] {
      var init, last := s[..|s| - 1], s[|s| - 1];
      assert s == init + [last];
      SortWithSorted(init, less);
      var t := SortWith(init, less);
      assert forall y :: y in t + [last] ==> y in s by {
        forall y | y in t + [last] ensures y in s {
          if y != last { assert y in multiset(t); assert y in init; }
        }
      }
      InsertSorted(last, t, less);
    }
  }

  /** No element of `s` passes `p`. */
  lemma {:induction false} FilterNone<T>(s: seq<T>, p: T -> bool)
    requires forall x :: x in s ==> !p(x)
    ensures Filter(s, p) == []
  {
    if Filter(s, p) != [] { assert Filter(s, p)[0] in Filter(s, p); }
  }

  /** `p` picks out a class of elements that `less` never separates and treats alike. */
  ghost predicate UniformClass<T>(less: (T, T) -> bool, p: T -> bool, s: seq<T>) {
    && (forall a, b :: a in s && b in s && p(a) && p(b) ==> !less(a, b))
    && (forall a, b, c :: a in s && b in s && c in s && p(a) && p(b) && less(a, c) ==> less(b, c))
  }

  /** In a sorted list, nothing after an element that `x` must precede is in `x`'s class. */
  lemma {:induction false} NoClassMemberAfter<T>(x: T, s: seq<T>, less: (T, T) -> bool, p: T -> bool)
    requires |s| > 0 && less(x, s[0]) && p(x)
    requires SortedWith(s, less)
    requires UniformClass(less, p, s + [x])
    ensures forall y :: y in s ==> !p(y)
  {
    forall y | y in s ensures !p(y) {
      var m :| 0 <= m < |s| && s[m] == y;
      assert x in s + [x] && y in s + [x] && s[0] in s + [x];
      assert m > 0 ==> !less(s[m], s[0]);
    }
  }

  lemma {:induction false} UniformClassOfPart<T>(less: (T, T) -> bool, p: T -> bool, s: seq<T>, t: seq<T>)
    requires UniformClass(less, p, s)
    requires forall y :: y in t ==> y in s
    ensures UniformClass(less, p, t)
  {
  }

  /** The case of `InsertKeepsClassOrder` where `x` goes first. */
  lemma {:induction false} InsertAtFrontKeepsClassOrder<T>(x: T, s: seq<T>, less: (T, T) -> bool, p: T -> bool)
    requires |s| > 0 && less(x, s[0])
    requires SortedWith(s, less)
    requires UniformClass(less, p, s + [x])
    ensures Filter([x] + s, p) == Filter(s, p) + (if p(x) then [x] else [])
  {
    if p(x) {
      NoClassMemberAfter(x, s, less, p);
      FilterNone(s, p);
    }
    FilterAppend([x], s, p);
  }

  /** `Insert` places `x` at some position `k`, before the element it must precede. */
  lemma {:induction false} InsertPosition<T>(x: T, s: seq<T>, less: (T, T) -> bool) returns (k: nat)
    ensures k <= |s| && Insert(x, s, less) == s[..k] + [x] + s[k..]
    ensures k < |s| ==> less(x, s[k])
  {
    if s == [] || less(x, s[0]) {
      k := 0;
    } else {
      var rest := s[1..];
      var j := InsertPosition(x, rest, less);
      k := j + 1;
      calc {
        Insert(x, s, less);
        [s[0]] + Insert(x, rest, less);
        [s[0]] + (rest[..j] + [x] + rest[j..]);
        ([s[0]] + rest[..j]) + [x] + rest[j..];
        { assert [s[0]] + rest[..j] == s[..k]; assert rest[j..] == s[k..]; }
        s[..k] + [x] + s[k..];
      }
    }
  }

  /** Behind the insertion position of a class member there is no member of its class. */
  lemma {:induction false} AfterInsertPosition<T>(x: T, s: seq<T>, k: nat, less: (T, T) -> bool, p: T -> bool)
    requires k < |s| && less(x, s[k]) && p(x)
    requires SortedWith(s, less)
    requires UniformClass(less, p, s + [x])
    ensures Filter(s[k..], p) == []
  {
    var after := s[k..];
    assert forall y :: y in after + [x] ==> y in s + [x];
    UniformClassOfPart(less, p, s + [x], after + [x]);
    NoClassMemberAfter(x, after, less, p);
    FilterNone(after, p);
  }

  /** Filtering a list with `x` put between two parts, where no class member follows a class member `x`. */
  lemma {:induction false} FilterAroundElement<T>(before: seq<T>, x: T, after: seq<T>, p: T -> bool)
    requires p(x) ==> Filter(after, p) == []
    ensures Filter(before + [x] + after, p) == Filter(before + after, p) + (if p(x) then [x] else [])
  {
    FilterAppend(before + [x], after, p);
    FilterSnoc(before, x, p);
    FilterAppend(before, after, p);
    if p(x) {
      assert Filter(after, p) == [];
      assert Filter(before + [x], p) == Filter(before, p) + [x];
    } else {
      assert Filter(before + [x], p) == Filter(before, p);
    }
  }

  /** Inserting into a sorted list puts `x` after every element of its class. */
  lemma {:induction false} InsertKeepsClassOrder<T>(x: T, s: seq<T>, less: (T, T) -> bool, p: T -> bool)
    requires SortedWith(s, less)
    requires UniformClass(less, p, s + [x])
    ensures Filter(Insert(x, s, less), p) == Filter(s, p) + (if p(x) then [x] else [])
  {
    var k := InsertPosition(x, s, less);
    var before, after := s[..k], s[k..];
    assert before + after == s;
    if p(x) {
      if k < |s| {
        AfterInsertPosition(x, s, k, less, p);
      } else {
        assert after == [];
      }
    }
    FilterAroundElement(before, x, after, p);
  }

  /** The sort is stable: the elements of a class that `less` never separates keep their
      original relative order. */
  lemma {:induction false} SortWithStable<T>(s: seq<T>, less: (T, T) -> bool, p: T -> bool)
    requires StrictOrderOn(less, s)
    requires UniformClass(less, p, s)
    ensures Filter(SortWith(s, less), p) == Filter(s, p)
  {
    if s != [] {
      var init, last := s[..|s| - 1], s[|s| - 1];
      assert s == init + [last];
      assert forall y :: y in init ==> y in s;
      SortWithStable(init, less, p);
      SortWithSorted(init, less);
      var t := SortWith(init, less);
      assert forall y :: y in t + [last] ==> y in s by {
        forall y | y in t + [last] ensures y in s {
          if y != last { assert y in multiset(t); assert y in init; }
        }
      }
      InsertKeepsClassOrder(last, t, less, p);
      FilterSnoc(init, last, p);
    }
  }

  // ---------------------------------------------------------------- distinct elements

  predicate Distinct<T(==)>(s: seq<T>) {
    forall i, j :: 0 <= i < j < |s| ==> s[i] != s[j]
  }

  lemma {:induction false} DistinctCountsAtMostOne<T>(s: seq<T>, x: T)
    requires Distinct(s)
    ensures multiset(s)[x] <= 1
  {
    if s != [] {
      assert s == [s[0]] + s[1..];
      DistinctCountsAtMostOne(s[1..], x);
      if x == s[0] { assert x !in s[1..]; }
    }
  }

  /** A rearrangement of a list without repetitions has none either. */
  lemma {:induction false} DistinctPermutation<T>(a: seq<T>, b: seq<T>)
    requires multiset(a) == multiset(b) && Distinct(b)
    ensures Distinct(a)
  {
    forall i, j | 0 <= i < j < |a| ensures a[i] != a[j] {
      if a[i] == a[j] {
        assert a == a[..j] + a[j..];
        assert a[i] in a[..j] && a[j] in a[j..];
        assert multiset(a)[a[i]] == multiset(a[..j])[a[i]] + multiset(a[j..])[a[i]];
        DistinctCountsAtMostOne(b, a[i]);
      }
    }
  }

  /** Filtering a list without repetitions leaves none. */
  lemma {:induction false} FilterKeepsDistinct<T>(s: seq<T>, p: T -> bool)
    requires Distinct(s)
    ensures Distinct(Filter(s, p))
  {
    if s != [] {
      assert Distinct(s[1..]) by {
        forall i, j | 0 <= i < j < |s[1..]| ensures s[1..][i] != s[1..][j] {
          assert s[1..][i] == s[i + 1] && s[1..][j] == s[j + 1];
        }
      }
      FilterKeepsDistinct(s[1..], p);
      var rest := Filter(s[1..], p);
      assert s[0] !in s[1..];
      assert s[0] !in rest;
      if p(s[0]) {
        var r := Filter(s, p);
        assert r == [s[0]] + rest;
        forall i, j | 0 <= i < j < |r| ensures r[i] != r[j] {
          if i == 0 { assert r[j] == rest[j - 1]; } else { assert r[i] == rest[i - 1] && r[j] == rest[j - 1]; }
        }
      }
    }
  }
}
