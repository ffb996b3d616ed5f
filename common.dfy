/** Small sequence helpers shared by every stage of the review pipeline. */
module Common {

  datatype Option<T> = None | Some(value: T)

  /** Python's `xs[:n]` for the non-negative `n` the pipeline uses, and
      `Counter.most_common(n)`'s behaviour of returning nothing for `n <= 0`. */
  function Take<T>(xs: seq<T>, n: int): (r: seq<T>)
    ensures |r| <= |xs| && (n >= 0 ==> |r| <= n)
    ensures |r| == if n <= 0 then 0 else if n < |xs| then n else |xs|
    ensures r == xs[..|r|]
  {
    if n <= 0 then [] else if n >= |xs| then xs else xs[..n]
  }

  /** A list comprehension `[x for x in xs if p(x)]`: the elements that pass `p`,
      in their original order. */
  function Keep<T(!new)>(xs: seq<T>, p: T -> bool): (r: seq<T>)
    ensures |r| <= |xs|
    ensures forall x :: x in r <==> x in xs && p(x)
    decreases |xs|
  {
    if xs == [] then []
    else
      var init, last := xs[..|xs| - 1], xs[|xs| - 1];
      assert xs == init + [last];
      Keep(init, p) + (if p(last) then [last] else [])
  }

  lemma {:induction false} KeepAppend<T(!new)>(xs: seq<T>, ys: seq<T>, p: T -> bool)
    ensures Keep(xs + ys, p) == Keep(xs, p) + Keep(ys, p)
    decreases |ys|
  {
    if ys == [] {
      assert xs + ys == xs;
    } else {
      var init, last := ys[..|ys| - 1], ys[|ys| - 1];
      assert xs + ys == (xs + init) + [last];
      assert ys == init + [last];
      KeepAppend(xs, init, p);
      KeepSnoc(xs + init, last, p);
      KeepSnoc(init, last, p);
    }
  }

  /** A non-empty sequence is its front followed by its last element. */
  lemma {:induction false} SnocParts<T>(xs: seq<T>)
    requires xs != []
    ensures xs == xs[..|xs| - 1] + [xs[|xs| - 1]]
  {
  }

  /** `Keep` of a sequence with one more element at the end. */
  lemma {:induction false} KeepSnoc<T(!new)>(xs: seq<T>, x: T, p: T -> bool)
    ensures Keep(xs + [x], p) == Keep(xs, p) + (if p(x) then [x] else [])
  {
    var ys := xs + [x];
    assert ys[..|ys| - 1] == xs && ys[|ys| - 1] == x;
  }

  /** A filter keeps every occurrence of an element that passes it and none of
      one that does not. */
  lemma {:induction false} KeepCount<T(!new)>(xs: seq<T>, p: T -> bool, x: T)
    ensures multiset(Keep(xs, p))[x] == if p(x) then multiset(xs)[x] else 0
    decreases |xs|
  {
    if xs != [] {
      var init, last := xs[..|xs| - 1], xs[|xs| - 1];
      assert xs == init + [last];
      KeepCount(init, p, x);
    }
  }

  /** Filtering twice keeps what passes both filters. */
  lemma {:induction false} KeepKeep<T(!new)>(xs: seq<T>, p: T -> bool, q: T -> bool, both: T -> bool)
    requires forall x :: both(x) == (p(x) && q(x))
    ensures Keep(Keep(xs, p), q) == Keep(xs, both)
    decreases |xs|
  {
    if xs != [] {
      var init, last := xs[..|xs| - 1], xs[|xs| - 1];
      assert xs == init + [last];
      KeepKeep(init, p, q, both);
      KeepAppend(Keep(init, p), if p(last) then [last] else [], q);
    }
  }

  /** Two filters that no element passes together select at most all the elements. */
  lemma {:induction false} KeepDisjoint<T(!new)>(xs: seq<T>, p: T -> bool, q: T -> bool)
    requires forall x :: p(x) ==> !q(x)
    ensures |Keep(xs, p)| + |Keep(xs, q)| <= |xs|
    decreases |xs|
  {
    if xs != [] {
      KeepDisjoint(xs[..|xs| - 1], p, q);
    }
  }

  /** A filter that no element passes keeps nothing. */
  lemma {:induction false} KeepNone<T(!new)>(xs: seq<T>, p: T -> bool)
    requires forall x :: x in xs ==> !p(x)
    ensures Keep(xs, p) == []
    decreases |xs|
  {
    if xs != [] {
      KeepNone(xs[..|xs| - 1], p);
    }
  }

  /** A filter that every element passes keeps everything. */
  lemma {:induction false} KeepAllPass<T(!new)>(xs: seq<T>, p: T -> bool)
    requires forall x :: x in xs ==> p(x)
    ensures Keep(xs, p) == xs
    decreases |xs|
  {
    if xs != [] {
      var init, last := xs[..|xs| - 1], xs[|xs| - 1];
      assert xs == init + [last];
      assert forall x :: x in init ==> x in xs;
      KeepAllPass(init, p);
      KeepSnoc(init, last, p);
    }
  }

  /** The dictionary a loop `for k in keys: d[k] = value(...)` leaves behind,
      starting from `{}`; the value stored for a key may depend on every key
      visited so far, the key itself last. */
  function Assigned<K(!new), V>(keys: seq<K>, value: seq<K> -> V): (d: map<K, V>)
    ensures forall k :: k in d <==> k in keys
    decreases |keys|
  {
    if keys == [] then map[]
    else Assigned(keys[..|keys| - 1], value)[keys[|keys| - 1] := value(keys)]
  }

  /** With distinct keys, the entry of the `i`-th key is the value computed when
      the loop reached it: later assignments go to other keys. */
  lemma {:induction false} AssignedEntry<K(!new), V>(keys: seq<K>, value: seq<K> -> V, i: nat)
    requires forall j, k :: 0 <= j < k < |keys| ==> keys[j] != keys[k]
    requires i < |keys|
    ensures keys[i] in Assigned(keys, value) && Assigned(keys, value)[keys[i]] == value(keys[..i + 1])
    decreases |keys|
  {
    var n := |keys| - 1;
    assert keys[..n + 1] == keys;
    if i < n {
      var init := keys[..n];
      assert keys[i] != keys[n];
      AssignedEntry(init, value, i);
      assert init[..i + 1] == keys[..i + 1];
    }
  }

  /** When the stored value depends only on the key being assigned, and the
      keys are distinct, each key ends up with its own value. */
  lemma {:induction false} AssignedByKey<K(!new), V>(keys: seq<K>, value: seq<K> -> V, f: K -> V)
    requires forall j, k :: 0 <= j < k < |keys| ==> keys[j] != keys[k]
    requires forall visited :: |visited| > 0 ==> value(visited) == f(visited[|visited| - 1])
    ensures forall k :: k in keys ==> k in Assigned(keys, value) && Assigned(keys, value)[k] == f(k)
  {
    forall k | k in keys ensures k in Assigned(keys, value) && Assigned(keys, value)[k] == f(k) {
      var i :| 0 <= i < |keys| && keys[i] == k;
      AssignedEntry(keys, value, i);
      assert keys[..i + 1][i] == k;
    }
  }

  /** A property every stored value has holds of every entry. */
  lemma {:induction false} AssignedAll<K(!new), V>(keys: seq<K>, value: seq<K> -> V, p: V -> bool)
    requires forall visited :: p(value(visited))
    ensures forall k :: k in Assigned(keys, value) ==> p(Assigned(keys, value)[k])
    decreases |keys|
  {
    if keys != [] {
      AssignedAll(keys[..|keys| - 1], value, p);
    }
  }

  /** Extending a prefix by the next element gives the next prefix. */
  lemma {:induction false} PrefixSnoc<T>(xs: seq<T>, i: nat)
    requires i < |xs|
    ensures xs[..i] + [xs[i]] == xs[..i + 1]
  {
  }

  /** When the first `k` elements are all that `xs[:n]` can hold, they are `xs[:n]`. */
  lemma {:induction false} TakePrefix<T>(xs: seq<T>, n: int, k: nat)
    requires k <= |xs|
    requires k == n || (k == |xs| && (k < n || k == 0))
    ensures Take(xs, n) == xs[..k]
  {
  }

  /** One more step of a filtering loop over `xs`. */
  lemma {:induction false} KeepStep<T(!new)>(xs: seq<T>, i: nat, p: T -> bool)
    requires i < |xs|
    ensures Keep(xs[..i + 1], p) == Keep(xs[..i], p) + (if p(xs[i]) then [xs[i]] else [])
  {
    assert xs[..i + 1][..i] == xs[..i];
  }

  /** A filter keeps nothing exactly when no element passes it. */
  lemma {:induction false} KeepEmpty<T(!new)>(xs: seq<T>, p: T -> bool)
    ensures Keep(xs, p) == [] <==> forall x :: x in xs ==> !p(x)
  {
    if Keep(xs, p) != [] {
      assert Keep(xs, p)[0] in Keep(xs, p);
    }
  }

  /** `[f(x) for x in xs]`. */
  function Mapped<T, U>(xs: seq<T>, f: T -> U): (r: seq<U>)
    ensures |r| == |xs| && forall i :: 0 <= i < |xs| ==> r[i] == f(xs[i])
    decreases |xs|
  {
    if xs == [] then [] else Mapped(xs[..|xs| - 1], f) + [f(xs[|xs| - 1])]
  }

  /** One more step of a loop that appends `f(x)` for each `x` of `xs`. */
  lemma {:induction false} MappedStep<T, U>(xs: seq<T>, i: nat, f: T -> U)
    requires i < |xs|
    ensures Mapped(xs[..i + 1], f) == Mapped(xs[..i], f) + [f(xs[i])]
  {
    assert xs[..i + 1][..i] == xs[..i];
  }
}
