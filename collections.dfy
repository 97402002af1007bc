/** The list and set idioms the scrapers share: dropping the elements whose key
    is already in a set (the `find_new_events` loops), and keeping only the first
    element of each key (`deduplicate_events` and the `seen_events` filters).
    Both ways of building a result go from the front of the input to its back,
    appending to the result, so both functions are defined on the last element. */
module Collections {

  /** `a` is `b` with some elements left out, the rest in their original order. */
  predicate IsSubsequence<T(==)>(a: seq<T>, b: seq<T>)
    decreases |b|
  {
    || a == []
    || (b != [] && (|| (a[|a| - 1] == b[|b| - 1] && IsSubsequence(a[..|a| - 1], b[..|b| - 1]))
                    || IsSubsequence(a, b[..|b| - 1])))
  }

  lemma {:induction false} SubsequenceRefl<T>(s: seq<T>)
    ensures IsSubsequence(s, s)
  {
    if s != [] {
      SubsequenceRefl(s[..|s| - 1]);
    }
  }

  /** The elements of a subsequence are elements of the whole. */
  lemma {:induction false} SubsequenceMembers<T>(a: seq<T>, b: seq<T>)
    requires IsSubsequence(a, b)
    ensures forall x :: x in a ==> x in b
    decreases |b|
  {
    if a != [] {
      var b' := b[..|b| - 1];
      assert b == b' + [b[|b| - 1]];
      if a[|a| - 1] == b[|b| - 1] && IsSubsequence(a[..|a| - 1], b') {
        SubsequenceMembers(a[..|a| - 1], b');
        assert a == a[..|a| - 1] + [a[|a| - 1]];
      } else {
        SubsequenceMembers(a, b');
      }
    }
  }

  /** The set `{key(x) for x in s}`. */
  function KeysOf<T(==), K(==)>(s: seq<T>, key: T -> K): set<K> {
    set x | x in s :: key(x)
  }

  lemma KeysOfSnoc<T, K>(s: seq<T>, x: T, key: T -> K)
    ensures KeysOf(s + [x], key) == KeysOf(s, key) + {key(x)}
  {
    assert forall y :: y in s + [x] <==> y in s || y == x;
  }

  /** No two elements share a key. */
  predicate DistinctKeys<T(==), K(==)>(s: seq<T>, key: T -> K) {
    forall i, j :: 0 <= i < j < |s| ==> key(s[i]) != key(s[j])
  }

  // ------------------------------------------------------------ Unseen

  /** `[x for x in s if key(x) not in seen]`. */
  function Unseen<T(==,!new), K(==)>(s: seq<T>, key: T -> K, seen: set<K>): (r: seq<T>)
    ensures IsSubsequence(r, s)
    ensures forall x :: x in r <==> x in s && key(x) !in seen
    ensures |r| <= |s|
  {
    if s == [] then []
    else
      var rest := Unseen(s[..|s| - 1], key, seen);
      var x := s[|s| - 1];
      assert s == s[..|s| - 1] + [x];
      if key(x) in seen then rest
      else
        assert (rest + [x])[..|rest|] == rest;
        rest + [x]
  }

  /** One step of the loop `for x in s: seen.add(key(x))`. */
  method AddKey<T(==), K(==)>(x: T, key: T -> K, seen: set<K>, ghost offered: seq<T>) returns (seen': set<K>)
    requires seen == KeysOf(offered, key)
    ensures seen' == KeysOf(offered + [x], key)
  {
    KeysOfSnoc(offered, x, key);
    seen' := seen + {key(x)};
  }

  /** One step of the loop `for x in s: if key(x) not in seen: out.append(x)`. */
  method AppendIfUnseen<T(==,!new), K(==)>(x: T, key: T -> K, seen: set<K>, found: seq<T>, ghost offered: seq<T>)
    returns (found': seq<T>)
    requires found == Unseen(offered, key, seen)
    ensures found' == Unseen(offered + [x], key, seen)
  {
    assert (offered + [x])[..|offered|] == offered;
    if key(x) !in seen {
      found' := found + [x];
    } else {
      found' := found;
    }
  }

  /** The loop `for x in s: seen.add(key(x))`, started with an empty set. */
  method CollectKeys<T(==), K(==)>(s: seq<T>, key: T -> K) returns (seen: set<K>)
    ensures seen == KeysOf(s, key)
  {
    seen := {};
    for j := 0 to |s|
      invariant seen == KeysOf(s[..j], key)
    {
      assert s[..j + 1] == s[..j] + [s[j]];
      seen := AddKey(s[j], key, seen, s[..j]);
    }
    assert s[..|s|] == s;
  }

  /** The loop `for x in s: if key(x) not in seen: out.append(x)`. */
  method FilterUnseen<T(==,!new), K(==)>(s: seq<T>, key: T -> K, seen: set<K>) returns (found: seq<T>)
    ensures found == Unseen(s, key, seen)
  {
    found := [];
    for i := 0 to |s|
      invariant found == Unseen(s[..i], key, seen)
    {
      assert s[..i + 1] == s[..i] + [s[i]];
      found := AppendIfUnseen(s[i], key, seen, found, s[..i]);
    }
    assert s[..|s|] == s;
  }

  /** Against an empty set every element is unseen. */
  lemma {:induction false} UnseenNothing<T(!new), K>(s: seq<T>, key: T -> K)
    ensures Unseen(s, key, {}) == s
  {
    if s != [] {
      UnseenNothing(s[..|s| - 1], key);
      assert s == s[..|s| - 1] + [s[|s| - 1]];
    }
  }

  /** Elements whose keys are all in the set are all filtered out. */
  lemma {:induction false} UnseenCovered<T(!new), K>(s: seq<T>, key: T -> K, seen: set<K>)
    requires forall i :: 0 <= i < |s| ==> key(s[i]) in seen
    ensures Unseen(s, key, seen) == []
  {
    if s != [] {
      UnseenCovered(s[..|s| - 1], key, seen);
    }
  }

  /** Every element of `s` is compared with the keys of `s` itself, so none is unseen. */
  lemma UnseenOwnKeys<T(!new), K>(s: seq<T>, key: T -> K)
    ensures Unseen(s, key, KeysOf(s, key)) == []
  {
    UnseenCovered(s, key, KeysOf(s, key));
  }

  /** Appending one element appends it to the result exactly when its key is not in the set. */
  lemma UnseenSnoc<T(!new), K>(s: seq<T>, x: T, key: T -> K, seen: set<K>)
    ensures Unseen(s + [x], key, seen) == Unseen(s, key, seen) + if key(x) in seen then [] else [x]
  {
    assert (s + [x])[..|s|] == s;
  }

  /** Solver aid: regrouping a three-part concatenation, stated once so that the
      proofs which need it do not pay for it each time. */
  lemma ConcatAssoc<T>(p: seq<T>, q: seq<T>, r: seq<T>)
    ensures (p + q) + r == p + (q + r)
  {
  }

  /** Solver aid: regrouping a three-part union, for the same reason. */
  lemma UnionAssoc<T>(a: set<T>, b: set<T>, c: set<T>)
    ensures (a + b) + c == a + (b + c)
  {
  }

  /** The filter works element by element, so it distributes over concatenation. */
  lemma {:induction false} UnseenAppend<T(!new), K>(a: seq<T>, b: seq<T>, key: T -> K, seen: set<K>)
    ensures Unseen(a + b, key, seen) == Unseen(a, key, seen) + Unseen(b, key, seen)
    decreases |b|
  {
    if b == [] {
      assert a + b == a;
    } else {
      var b' := b[..|b| - 1];
      var x := b[|b| - 1];
      var t := if key(x) in seen then [] else [x];
      assert b == b' + [x];
      assert a + b == (a + b') + [x];
      UnseenAppend(a, b', key, seen);
      UnseenSnoc(a + b', x, key, seen);
      UnseenSnoc(b', x, key, seen);
      ConcatAssoc(Unseen(a, key, seen), Unseen(b', key, seen), t);
    }
  }

  /** An element is filtered out exactly when its key is in the set. */
  lemma UnseenSingle<T(!new), K>(x: T, key: T -> K, seen: set<K>)
    ensures Unseen([x], key, seen) == if key(x) in seen then [] else [x]
  {
    assert [x][..0] == [];
  }

  // --------------------------------------------------------- KeepFirst

  /** The loop `for x in s: if key(x) not in seen: seen.add(key(x)); out.append(x)`,
      started with an empty `seen`. */
  function KeepFirst<T(==), K(==)>(s: seq<T>, key: T -> K): (r: seq<T>)
    ensures IsSubsequence(r, s)
    ensures KeysOf(r, key) == KeysOf(s, key)
    ensures DistinctKeys(r, key)
  {
    if s == [] then []
    else
      var p := s[..|s| - 1];
      var x := s[|s| - 1];
      var rest := KeepFirst(p, key);
      assert s == p + [x];
      KeysOfSnoc(p, x, key);
      if key(x) in KeysOf(p, key) then rest
      else
        KeysOfSnoc(rest, x, key);
        assert (rest + [x])[..|rest|] == rest;
        rest + [x]
  }

  /** One step of the loop: `if key(x) not in seen: seen.add(key(x)); out.append(x)`. */
  method KeepIfUnseen<T(==), K(==)>(x: T, key: T -> K, kept: seq<T>, seen: set<K>, ghost offered: seq<T>)
    returns (kept': seq<T>, seen': set<K>)
    requires kept == KeepFirst(offered, key) && seen == KeysOf(kept, key)
    ensures kept' == KeepFirst(offered + [x], key)
    ensures seen' == KeysOf(kept', key)
  {
    assert (offered + [x])[..|offered|] == offered;
    var k := key(x);
    if k !in seen {
      KeysOfSnoc(kept, x, key);
      seen' := seen + {k};
      kept' := kept + [x];
    } else {
      kept', seen' := kept, seen;
    }
  }

  /** In a list with distinct keys nothing is dropped. */
  lemma {:induction false} KeepFirstOfDistinct<T, K>(s: seq<T>, key: T -> K)
    requires DistinctKeys(s, key)
    ensures KeepFirst(s, key) == s
  {
    if s != [] {
      var p := s[..|s| - 1];
      var x := s[|s| - 1];
      assert DistinctKeys(p, key);
      KeepFirstOfDistinct(p, key);
    }
  }

  /** Removing duplicates twice is the same as removing them once. */
  lemma KeepFirstIdempotent<T, K>(s: seq<T>, key: T -> K)
    ensures KeepFirst(KeepFirst(s, key), key) == KeepFirst(s, key)
  {
    KeepFirstOfDistinct(KeepFirst(s, key), key);
  }

  /** An element whose key occurred earlier is dropped; the earlier one stays. */
  lemma KeepFirstDropsLater<T, K>(s: seq<T>, x: T, key: T -> K)
    requires key(x) in KeysOf(s, key)
    ensures KeepFirst(s + [x], key) == KeepFirst(s, key)
  {
    assert (s + [x])[..|s|] == s;
  }

  /** An element with a key not seen before is kept, at the end. */
  lemma KeepFirstKeepsNew<T, K>(s: seq<T>, x: T, key: T -> K)
    requires key(x) !in KeysOf(s, key)
    ensures KeepFirst(s + [x], key) == KeepFirst(s, key) + [x]
  {
    assert (s + [x])[..|s|] == s;
  }

  /** The first element of each key is the one that is kept. */
  lemma {:induction false} KeepFirstKeepsFirst<T, K>(s: seq<T>, i: nat, key: T -> K)
    requires i < |s| && key(s[i]) !in KeysOf(s[..i], key)
    ensures s[i] in KeepFirst(s, key)
  {
    var p := s[..|s| - 1];
    var x := s[|s| - 1];
    assert s == p + [x];
    if i < |s| - 1 {
      assert p[..i] == s[..i] && p[i] == s[i];
      KeepFirstKeepsFirst(p, i, key);
      if key(x) in KeysOf(p, key) {
        KeepFirstDropsLater(p, x, key);
      } else {
        KeepFirstKeepsNew(p, x, key);
      }
    } else {
      assert p == s[..i];
      KeepFirstKeepsNew(p, x, key);
    }
  }

  // ----------------------------------------------------------- FlatMap

  /** `[y for x in s for y in f(x)]`: the outputs of `f` on each element, in order. */
  function FlatMap<T, U>(s: seq<T>, f: T -> seq<U>): seq<U> {
    if s == [] then [] else FlatMap(s[..|s| - 1], f) + f(s[|s| - 1])
  }

  /** The outputs of a concatenation are the outputs of its parts, concatenated. */
  lemma {:induction false} FlatMapAppend<T, U>(a: seq<T>, b: seq<T>, f: T -> seq<U>)
    ensures FlatMap(a + b, f) == FlatMap(a, f) + FlatMap(b, f)
    decreases |b|
  {
    if b == [] {
      assert a + b == a;
    } else {
      var b' := b[..|b| - 1];
      var x := b[|b| - 1];
      assert b == b' + [x];
      assert a + b == (a + b') + [x];
      assert (a + b)[..|a + b| - 1] == a + b';
      FlatMapAppend(a, b', f);
      ConcatAssoc(FlatMap(a, f), FlatMap(b', f), f(x));
    }
  }

  /** Every output of every element is in the result. */
  lemma {:induction false} FlatMapComplete<T, U>(s: seq<T>, f: T -> seq<U>, i: nat, y: U)
    requires i < |s| && y in f(s[i])
    ensures y in FlatMap(s, f)
  {
    var p := s[..|s| - 1];
    if i < |s| - 1 {
      assert p[i] == s[i];
      FlatMapComplete(p, f, i, y);
    }
  }

  /** Every element of the result is an output of some element. */
  lemma {:induction false} FlatMapSound<T, U>(s: seq<T>, f: T -> seq<U>, y: U)
    requires y in FlatMap(s, f)
    ensures exists i :: 0 <= i < |s| && y in f(s[i])
  {
    var p := s[..|s| - 1];
    if y in FlatMap(p, f) {
      FlatMapSound(p, f, y);
      var i :| 0 <= i < |p| && y in f(p[i]);
      assert p[i] == s[i];
    } else {
      assert y in f(s[|s| - 1]);
    }
  }
}
