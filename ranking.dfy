/** `collections.Counter` and `Counter.most_common`, which both extractors use to
    rank words and phrases by frequency.

    A Counter is kept as its items in insertion order (the order in which a
    dict iterates). `most_common(n)` is `sorted(items, key=count, reverse=True)[:n]`;
    Python's sort is stable, so items with equal counts stay in insertion order. */
module Ranking {
  import opened Common

  /** One `(key, count)` item of a Counter or of a dict of running totals. */
  datatype Entry = Entry(key: string, count: nat)

  function Keys(es: seq<Entry>): (ks: seq<string>)
    ensures |ks| == |es| && forall i :: 0 <= i < |es| ==> ks[i] == es[i].key
  {
    seq(|es|, i requires 0 <= i < |es| => es[i].key)
  }

  predicate DistinctKeys(es: seq<Entry>) {
    forall i, j :: 0 <= i < j < |es| ==> es[i].key != es[j].key
  }

  /** The sum of all counts. */
  function Total(es: seq<Entry>): nat
    decreases |es|
  {
    if es == [] then 0 else es[0].count + Total(es[1..])
  }

  /** `d[key] = d.get(key, 0) + amount` on a dict kept as its items in insertion
      order: the entry for `key` grows by `amount`, or a new entry is appended. */
  function Add(es: seq<Entry>, key: string, amount: nat): (r: seq<Entry>)
    requires DistinctKeys(es)
    ensures |r| == if key in Keys(es) then |es| else |es| + 1
    ensures forall i :: 0 <= i < |es| ==>
      r[i] == Entry(es[i].key, es[i].count + if es[i].key == key then amount else 0)
    ensures key !in Keys(es) ==> r[|es|] == Entry(key, amount)
    decreases |es|
  {
    if es == [] then [Entry(key, amount)]
    else if es[0].key == key then
      assert key in Keys(es) by { assert Keys(es)[0] == key; }
      [Entry(key, es[0].count + amount)] + es[1..]
    else
      var tail := es[1..];
      assert DistinctKeys(tail) by {
        forall i, j | 0 <= i < j < |tail| ensures tail[i].key != tail[j].key {
          assert tail[i] == es[i + 1] && tail[j] == es[j + 1];
        }
      }
      var rest := Add(tail, key, amount);
      AddCons(es, key, amount, rest);
      [es[0]] + rest
  }

  /** A key other than the first is a key of the rest. */
  lemma {:induction false} KeysTail(es: seq<Entry>, key: string)
    requires es != [] && es[0].key != key
    ensures key in Keys(es) <==> key in Keys(es[1..])
  {
    var tail := es[1..];
    if key in Keys(es) {
      var i :| 0 <= i < |es| && Keys(es)[i] == key;
      assert Keys(tail)[i - 1] == key;
    }
    if key in Keys(tail) {
      var i :| 0 <= i < |tail| && Keys(tail)[i] == key;
      assert Keys(es)[i + 1] == key;
    }
  }

  /** The recursive step of `Add`, past a first entry with another key. */
  lemma {:induction false} AddCons(es: seq<Entry>, key: string, amount: nat, rest: seq<Entry>)
    requires es != [] && es[0].key != key
    requires |rest| == if key in Keys(es[1..]) then |es| - 1 else |es|
    requires forall i :: 0 <= i < |es| - 1 ==>
      rest[i] == Entry(es[1..][i].key, es[1..][i].count + if es[1..][i].key == key then amount else 0)
    requires key !in Keys(es[1..]) ==> rest[|es| - 1] == Entry(key, amount)
    ensures |[es[0]] + rest| == if key in Keys(es) then |es| else |es| + 1
    ensures forall i :: 0 <= i < |es| ==>
      ([es[0]] + rest)[i] == Entry(es[i].key, es[i].count + if es[i].key == key then amount else 0)
    ensures key !in Keys(es) ==> ([es[0]] + rest)[|es|] == Entry(key, amount)
  {
    KeysTail(es, key);
    forall i | 1 <= i < |es|
      ensures ([es[0]] + rest)[i] == Entry(es[i].key, es[i].count + if es[i].key == key then amount else 0)
    {
      assert es[i] == es[1..][i - 1] && ([es[0]] + rest)[i] == rest[i - 1];
    }
  }

  /** `Add` never creates a second entry for a key. */
  lemma {:induction false} AddDistinct(es: seq<Entry>, key: string, amount: nat)
    requires DistinctKeys(es)
    ensures DistinctKeys(Add(es, key, amount))
  {
    var r := Add(es, key, amount);
    if key !in Keys(es) {
      forall i | 0 <= i < |es| ensures r[i].key != key {
        assert Keys(es)[i] == es[i].key;
      }
    }
  }

  /** `Add` raises the sum of the counts by exactly `amount`. */
  lemma {:induction false} AddTotal(es: seq<Entry>, key: string, amount: nat)
    requires DistinctKeys(es)
    ensures Total(Add(es, key, amount)) == Total(es) + amount
    decreases |es|
  {
    var r := Add(es, key, amount);
    if es != [] && es[0].key != key {
      AddTotal(es[1..], key, amount);
      assert r == [es[0]] + Add(es[1..], key, amount);
      assert r[1..] == Add(es[1..], key, amount);
    } else if es != [] {
      assert r[1..] == es[1..];
    }
  }

  /** A position past the old entries holds the entry `Add` appended for a
      new key. */
  lemma {:induction false} AddNewEntry(es: seq<Entry>, key: string, amount: nat, i: nat)
    requires DistinctKeys(es)
    requires |es| <= i < |Add(es, key, amount)|
    ensures key !in Keys(es) && i == |es| && Add(es, key, amount)[i] == Entry(key, amount)
  {
  }

  /** Index of the first occurrence of `x` in `xs`, or `|xs|` when there is none. */
  function FirstIndex(xs: seq<string>, x: string): (i: nat)
    ensures i <= |xs| && (i < |xs| <==> x in xs)
    ensures i < |xs| ==> xs[i] == x
    ensures forall j :: 0 <= j < i ==> xs[j] != x
    decreases |xs|
  {
    if xs == [] then 0 else if xs[0] == x then 0 else 1 + FirstIndex(xs[1..], x)
  }

  /** The keys of `es` are listed in the order of their first occurrence in `xs`. */
  predicate FirstSeenOrder(es: seq<Entry>, xs: seq<string>) {
    forall i, j :: 0 <= i < j < |es| ==> FirstIndex(xs, es[i].key) < FirstIndex(xs, es[j].key)
  }

  lemma {:induction false} FirstIndexSnoc(xs: seq<string>, y: string, x: string)
    ensures x in xs ==> FirstIndex(xs + [y], x) == FirstIndex(xs, x)
    ensures x !in xs && x == y ==> FirstIndex(xs + [y], x) == |xs|
  {
    var i, k := FirstIndex(xs + [y], x), FirstIndex(xs, x);
    if x in xs {
      assert (xs + [y])[k] == x;
    } else if x == y {
      assert (xs + [y])[|xs|] == x;
    }
  }

  /** `Counter(xs).items()`: every distinct element of `xs` once, with its
      number of occurrences, in order of first occurrence. */
  function Tally(xs: seq<string>): (es: seq<Entry>)
    ensures TallyOf(es, xs)
    decreases |xs|
  {
    if xs == [] then []
    else
      var init, last := xs[..|xs| - 1], xs[|xs| - 1];
      assert xs == init + [last];
      var t := Tally(init);
      TallyStep(init, last, t);
      Add(t, last, 1)
  }

  /** What a Counter's items are: distinct keys, exactly the elements of `xs`,
      each with its number of occurrences, in order of first occurrence, the
      counts adding up to `|xs|`. */
  ghost predicate TallyOf(es: seq<Entry>, xs: seq<string>) {
    && DistinctKeys(es)
    && (forall x :: x in Keys(es) <==> x in xs)
    && (forall i :: 0 <= i < |es| ==> es[i].count == multiset(xs)[es[i].key] > 0)
    && FirstSeenOrder(es, xs)
    && Total(es) == |xs|
  }

  lemma {:induction false} TallyStep(init: seq<string>, last: string, t: seq<Entry>)
    requires TallyOf(t, init)
    ensures TallyOf(Add(t, last, 1), init + [last])
  {
    AddDistinct(t, last, 1);
    AddTotal(t, last, 1);
    TallyStepKeys(init, last, t);
    TallyStepCounts(init, last, t);
    TallyStepOrder(init, last, t);
  }

  lemma {:induction false} TallyStepKeys(init: seq<string>, last: string, t: seq<Entry>)
    requires DistinctKeys(t)
    requires forall x :: x in Keys(t) <==> x in init
    ensures forall x :: x in Keys(Add(t, last, 1)) <==> x in init + [last]
  {
    var r, xs := Add(t, last, 1), init + [last];
    forall x ensures x in Keys(r) <==> x in xs {
      if x in Keys(r) {
        var k :| 0 <= k < |r| && Keys(r)[k] == x;
        if k < |t| { assert Keys(t)[k] == x; }
      }
      if x in init || (x == last && last in Keys(t)) {
        assert x in Keys(t);
        var k :| 0 <= k < |t| && Keys(t)[k] == x;
        assert Keys(r)[k] == x;
      }
      if x == last && last !in Keys(t) {
        assert Keys(r)[|t|] == x;
      }
    }
  }

  lemma {:induction false} TallyStepCounts(init: seq<string>, last: string, t: seq<Entry>)
    requires DistinctKeys(t)
    requires forall x :: x in Keys(t) <==> x in init
    requires forall i :: 0 <= i < |t| ==> t[i].count == multiset(init)[t[i].key] > 0
    ensures var r := Add(t, last, 1);
      forall i :: 0 <= i < |r| ==> r[i].count == multiset(init + [last])[r[i].key] > 0
  {
    var r, xs := Add(t, last, 1), init + [last];
    assert multiset(xs) == multiset(init) + multiset{last};
    forall i | 0 <= i < |r| ensures r[i].count == multiset(xs)[r[i].key] > 0 {
      if i < |t| {
        assert r[i] == Entry(t[i].key, t[i].count + if t[i].key == last then 1 else 0);
      } else {
        assert last !in Keys(t) && r[i] == Entry(last, 1);
        assert last !in init;
      }
    }
  }

  lemma {:induction false} TallyStepOrder(init: seq<string>, last: string, t: seq<Entry>)
    requires DistinctKeys(t) && FirstSeenOrder(t, init)
    requires forall x :: x in Keys(t) <==> x in init
    ensures FirstSeenOrder(Add(t, last, 1), init + [last])
  {
    AddOrder(t, init, last, 1);
  }

  /** A dict whose keys are listed in order of first appearance in `xs` keeps
      that order when `d[key] += amount` follows one more element `key`. */
  lemma {:induction false} AddOrder(es: seq<Entry>, xs: seq<string>, key: string, amount: nat)
    requires DistinctKeys(es) && FirstSeenOrder(es, xs)
    requires forall x :: x in Keys(es) <==> x in xs
    ensures FirstSeenOrder(Add(es, key, amount), xs + [key])
  {
    var r, ys := Add(es, key, amount), xs + [key];
    forall i, j | 0 <= i < j < |r| ensures FirstIndex(ys, r[i].key) < FirstIndex(ys, r[j].key) {
      AddFirstIndexOld(es, xs, key, amount, i);
      if j < |es| {
        AddFirstIndexOld(es, xs, key, amount, j);
        assert FirstIndex(xs, es[i].key) < FirstIndex(xs, es[j].key);
      } else {
        AddFirstIndexNew(es, xs, key, amount, j);
      }
    }
  }

  /** An old key after `Add` first occurs in `xs + [key]` where it first
      occurred in `xs`. */
  lemma {:induction false} AddFirstIndexOld(es: seq<Entry>, xs: seq<string>, key: string, amount: nat, k: nat)
    requires DistinctKeys(es) && forall x :: x in Keys(es) <==> x in xs
    requires k < |es|
    ensures FirstIndex(xs + [key], Add(es, key, amount)[k].key) == FirstIndex(xs, es[k].key) < |xs|
  {
    assert Add(es, key, amount)[k].key == es[k].key && Keys(es)[k] == es[k].key;
    assert es[k].key in xs;
    FirstIndexSnoc(xs, key, es[k].key);
  }

  /** A new key after `Add` first occurs in `xs + [key]` at its last place. */
  lemma {:induction false} AddFirstIndexNew(es: seq<Entry>, xs: seq<string>, key: string, amount: nat, k: nat)
    requires DistinctKeys(es) && forall x :: x in Keys(es) <==> x in xs
    requires |es| <= k < |Add(es, key, amount)|
    ensures FirstIndex(xs + [key], Add(es, key, amount)[k].key) == |xs|
  {
    assert key !in Keys(es) && Add(es, key, amount)[k].key == key;
    assert key !in xs;
    FirstIndexSnoc(xs, key, key);
  }

  /** After `Add`, the keys are the old keys and the added one. */
  lemma {:induction false} AddKeys(es: seq<Entry>, key: string, amount: nat)
    requires DistinctKeys(es)
    ensures forall k :: k in Keys(Add(es, key, amount)) <==> k in Keys(es) || k == key
  {
    var r := Add(es, key, amount);
    forall k ensures k in Keys(r) <==> k in Keys(es) || k == key {
      if k in Keys(r) {
        var i :| 0 <= i < |r| && Keys(r)[i] == k;
        if i < |es| {
          assert Keys(es)[i] == k;
        }
      }
      if k in Keys(es) {
        var i :| 0 <= i < |es| && Keys(es)[i] == k;
        assert Keys(r)[i] == k;
      }
      if k == key {
        if key in Keys(es) {
          var i :| 0 <= i < |es| && Keys(es)[i] == k;
          assert Keys(r)[i] == k;
        } else {
          assert Keys(r)[|es|] == k;
        }
      }
    }
  }

  /** The entries of `es` whose count is exactly `c`, in order. */
  function WithCount(es: seq<Entry>, c: nat): seq<Entry>
    decreases |es|
  {
    if es == [] then []
    else (if es[0].count == c then [es[0]] else []) + WithCount(es[1..], c)
  }

  lemma {:induction false} WithCountMembers(es: seq<Entry>, c: nat)
    ensures forall e :: e in WithCount(es, c) <==> e in es && e.count == c
    decreases |es|
  {
    if es != [] {
      WithCountMembers(es[1..], c);
      WithCountCons(es[0], es[1..], c);
      assert es == [es[0]] + es[1..];
    }
  }

  lemma {:induction false} WithCountAppend(a: seq<Entry>, b: seq<Entry>, c: nat)
    ensures WithCount(a + b, c) == WithCount(a, c) + WithCount(b, c)
    decreases |a|
  {
    if a != [] {
      assert a + b == [a[0]] + (a[1..] + b);
      assert a == [a[0]] + a[1..];
      WithCountCons(a[0], a[1..] + b, c);
      WithCountCons(a[0], a[1..], c);
      WithCountAppend(a[1..], b, c);
      AppendAssoc(if a[0].count == c then [a[0]] else [], WithCount(a[1..], c), WithCount(b, c));
    } else {
      assert a + b == b;
    }
  }

  lemma {:induction false} NoneWithCount(s: seq<Entry>, c: nat)
    requires forall k :: 0 <= k < |s| ==> s[k].count < c
    ensures WithCount(s, c) == []
    decreases |s|
  {
    if s != [] {
      NoneWithCount(s[1..], c);
    }
  }

  /** Counts never increase along the sequence. */
  predicate NonIncreasing(es: seq<Entry>) {
    forall i, j :: 0 <= i < j < |es| ==> es[i].count >= es[j].count
  }

  /** `NonIncreasing` stated one neighbour at a time, which is what the proofs
      about insertion walk along. */
  predicate Descending(es: seq<Entry>)
    decreases |es|
  {
    |es| <= 1 || (es[0].count >= es[1].count && Descending(es[1..]))
  }

  lemma {:induction false} DescendingOf(es: seq<Entry>)
    requires NonIncreasing(es)
    ensures Descending(es)
    decreases |es|
  {
    if |es| > 1 {
      assert NonIncreasing(es[1..]) by {
        forall i, j | 0 <= i < j < |es[1..]| ensures es[1..][i].count >= es[1..][j].count {
          assert es[1..][i] == es[i + 1] && es[1..][j] == es[j + 1];
        }
      }
      DescendingOf(es[1..]);
    }
  }

  /** In a descending sequence whose first count is below `x`, every count is. */
  lemma {:induction false} DescendingBelow(s: seq<Entry>, x: nat)
    requires Descending(s) && (s == [] || s[0].count < x)
    ensures forall k :: 0 <= k < |s| ==> s[k].count < x
    decreases |s|
  {
    if |s| > 1 {
      DescendingBelow(s[1..], x);
      forall k | 1 <= k < |s| ensures s[k].count < x {
        assert s[k] == s[1..][k - 1];
      }
    }
  }

  /** Inserts `e` after every entry whose count is at least `e.count`. */
  function Insert(s: seq<Entry>, e: Entry): (r: seq<Entry>)
    ensures |r| == |s| + 1
    ensures r[0] == if s == [] || s[0].count < e.count then e else s[0]
    decreases |s|
  {
    if s == [] then [e]
    else if s[0].count >= e.count then [s[0]] + Insert(s[1..], e)
    else [e] + s
  }

  /** Inserting into a sequence sorted by descending count keeps it sorted. */
  lemma {:induction false} InsertSorted(s: seq<Entry>, e: Entry)
    requires NonIncreasing(s)
    ensures NonIncreasing(Insert(s, e))
    decreases |s|
  {
    if s != [] && s[0].count >= e.count {
      var rest := Insert(s[1..], e);
      InsertSorted(s[1..], e);
      var r := [s[0]] + rest;
      assert Insert(s, e) == r;
      forall i, j | 0 <= i < j < |r| ensures r[i].count >= r[j].count {
        if i == 0 {
          assert r[j] == rest[j - 1] && rest[0].count >= rest[j - 1].count;
        } else {
          assert r[i] == rest[i - 1] && r[j] == rest[j - 1];
        }
      }
    }
  }

  lemma {:induction false} InsertMembers(s: seq<Entry>, e: Entry)
    ensures forall x :: x in Insert(s, e) <==> x in s || x == e
    decreases |s|
  {
    if s != [] && s[0].count >= e.count {
      InsertMembers(s[1..], e);
      assert s == [s[0]] + s[1..];
    }
  }

  /** Inserting keeps, for every count, the entries with that count in order,
      the inserted one last among its equals. */
  lemma {:induction false} InsertWithCount(s: seq<Entry>, e: Entry, c: nat)
    requires Descending(s)
    ensures WithCount(Insert(s, e), c) == WithCount(s, c) + (if c == e.count then [e] else [])
    decreases |s|, 1
  {
    if s != [] && s[0].count >= e.count {
      InsertHead(s, e, c);
    } else {
      InsertFront(s, e, c);
    }
  }

  /** An entry more frequent than all of `s` goes first. */
  lemma {:induction false} InsertFront(s: seq<Entry>, e: Entry, c: nat)
    requires Descending(s) && (s == [] || s[0].count < e.count)
    ensures WithCount(Insert(s, e), c) == WithCount(s, c) + (if c == e.count then [e] else [])
  {
    assert Insert(s, e) == [e] + s;
    DescendingBelow(s, e.count);
    NoneWithCount(s, e.count);
    WithCountCons(e, s, c);
    if c == e.count {
      assert WithCount(s, c) == [];
      assert WithCount([e] + s, c) == [e] + [];
    } else {
      assert WithCount([e] + s, c) == [] + WithCount(s, c);
    }
  }

  lemma {:induction false} InsertHead(s: seq<Entry>, e: Entry, c: nat)
    requires Descending(s) && s != [] && s[0].count >= e.count
    ensures WithCount(Insert(s, e), c) == WithCount(s, c) + (if c == e.count then [e] else [])
    decreases |s|, 0
  {
    var tail := if c == e.count then [e] else [];
    var head := if s[0].count == c then [s[0]] else [];
    var rest := Insert(s[1..], e);
    var mid := WithCount(s[1..], c);
    assert WithCount(Insert(s, e), c) == head + WithCount(rest, c) by {
      assert Insert(s, e) == [s[0]] + rest;
      WithCountCons(s[0], rest, c);
    }
    assert WithCount(s, c) == head + mid by {
      WithCountCons(s[0], s[1..], c);
      assert [s[0]] + s[1..] == s;
    }
    InsertWithCount(s[1..], e, c);
    AppendAssoc(head, mid, tail);
  }

  lemma {:induction false} AppendAssoc<T>(a: seq<T>, b: seq<T>, c: seq<T>)
    ensures a + (b + c) == (a + b) + c
  {
  }

  /** `WithCount` looks at the first entry, then at the rest. */
  lemma {:induction false} WithCountCons(e: Entry, rest: seq<Entry>, c: nat)
    ensures WithCount([e] + rest, c) == (if e.count == c then [e] else []) + WithCount(rest, c)
  {
    assert ([e] + rest)[0] == e && ([e] + rest)[1..] == rest;
  }

  /** A stable sort by descending count. */
  function SortByCount(es: seq<Entry>): (r: seq<Entry>)
    ensures |r| == |es| && forall x :: x in r <==> x in es
    ensures NonIncreasing(r)
    ensures forall c :: WithCount(r, c) == WithCount(es, c)
    decreases |es|
  {
    if es == [] then []
    else
      var init, last := es[..|es| - 1], es[|es| - 1];
      assert es == init + [last];
      var sorted := SortByCount(init);
      SortStep(init, last, sorted);
      InsertMembers(sorted, last);
      InsertSorted(sorted, last);
      Insert(sorted, last)
  }

  lemma {:induction false} SortStep(init: seq<Entry>, last: Entry, sorted: seq<Entry>)
    requires NonIncreasing(sorted)
    requires forall c :: WithCount(sorted, c) == WithCount(init, c)
    ensures forall c :: WithCount(Insert(sorted, last), c) == WithCount(init + [last], c)
  {
    DescendingOf(sorted);
    forall c: nat ensures WithCount(Insert(sorted, last), c) == WithCount(init + [last], c) {
      InsertWithCount(sorted, last, c);
      WithCountAppend(init, [last], c);
      assert WithCount([last], c) == (if c == last.count then [last] else []) + WithCount([], c);
    }
  }

  /** `Counter.most_common(n)`: the `n` most frequent entries, most frequent
      first, equal counts in insertion order; nothing when `n <= 0`. */
  function MostCommon(es: seq<Entry>, n: int): (r: seq<Entry>)
    ensures |r| == if n <= 0 then 0 else if n < |es| then n else |es|
    ensures forall e :: e in r ==> e in es
    ensures NonIncreasing(r)
  {
    var s := SortByCount(es);
    var r := Take(s, n);
    assert forall e :: e in r ==> e in s;
    r
  }

  /** An empty Counter has no items. */
  lemma {:induction false} TallyOfNothing(xs: seq<string>)
    requires xs == []
    ensures Tally(xs) == []
  {
  }

  /** Every item of `Counter(xs)` is an element of `xs` with its number of
      occurrences. */
  lemma {:induction false} TallyEntries(xs: seq<string>)
    ensures forall e :: e in Tally(xs) ==> e.key in xs && e.count == multiset(xs)[e.key] > 0
  {
    var t := Tally(xs);
    forall e | e in t ensures e.key in xs && e.count == multiset(xs)[e.key] > 0 {
      var i :| 0 <= i < |t| && t[i] == e;
      assert Keys(t)[i] == e.key;
    }
  }

  /** `Counter(xs).most_common(n)` lists elements of `xs`, each with its number
      of occurrences. */
  lemma {:induction false} MostCommonCounts(xs: seq<string>, n: int)
    ensures forall e :: e in MostCommon(Tally(xs), n) ==>
      e.key in xs && e.count == multiset(xs)[e.key] > 0
  {
    TallyEntries(xs);
  }

  /** Every entry left out of `most_common(n)` is no more frequent than the last
      one returned. */
  lemma {:induction false} MostCommonIsTop(es: seq<Entry>, n: int, e: Entry)
    requires e in es
    ensures var r := MostCommon(es, n);
      e in r || n <= 0 || (|r| == n && e.count <= r[n - 1].count)
  {
    var s := SortByCount(es);
    var j :| 0 <= j < |s| && s[j] == e;
    if n > 0 && j < n && n <= |s| {
      assert s[..n][j] == e;
    }
  }

  /** In `most_common(n)` the counts never increase, and entries with equal
      counts keep the order of first occurrence in `xs` when `es` had it. */
  lemma {:induction false} MostCommonTiesInFirstSeenOrder(es: seq<Entry>, xs: seq<string>, n: int)
    requires FirstSeenOrder(es, xs)
    ensures var r := MostCommon(es, n);
      NonIncreasing(r) &&
      forall i, j :: 0 <= i < j < |r| && r[i].count == r[j].count ==>
        FirstIndex(xs, r[i].key) < FirstIndex(xs, r[j].key)
  {
    var s := SortByCount(es);
    var r := MostCommon(es, n);
    forall i, j | 0 <= i < j < |r| && r[i].count == r[j].count
      ensures FirstIndex(xs, r[i].key) < FirstIndex(xs, r[j].key)
    {
      var c := s[i].count;
      assert r[i] == s[i] && r[j] == s[j];
      WithCountKeepsOrder(es, xs, c);
      var p, q := WithCountPositions(s, c, i, j);
    }
  }

  lemma {:induction false} WithCountKeepsOrder(es: seq<Entry>, xs: seq<string>, c: nat)
    requires FirstSeenOrder(es, xs)
    ensures FirstSeenOrder(WithCount(es, c), xs)
    decreases |es|
  {
    if es != [] {
      var rest := WithCount(es[1..], c);
      assert FirstSeenOrder(es[1..], xs) by {
        forall i, j | 0 <= i < j < |es[1..]|
          ensures FirstIndex(xs, es[1..][i].key) < FirstIndex(xs, es[1..][j].key)
        {
          assert es[1..][i] == es[i + 1] && es[1..][j] == es[j + 1];
        }
      }
      WithCountKeepsOrder(es[1..], xs, c);
      if es[0].count == c {
        WithCountMembers(es[1..], c);
        forall j | 0 <= j < |rest| ensures FirstIndex(xs, es[0].key) < FirstIndex(xs, rest[j].key) {
          assert rest[j] in es[1..];
          var k :| 0 <= k < |es[1..]| && es[1..][k] == rest[j];
          assert es[k + 1] == rest[j];
        }
        FirstSeenCons(es[0], rest, xs);
      }
    }
  }

  /** An entry seen before everything in an ordered `rest` can go in front of it. */
  lemma {:induction false} FirstSeenCons(e: Entry, rest: seq<Entry>, xs: seq<string>)
    requires FirstSeenOrder(rest, xs)
    requires forall j :: 0 <= j < |rest| ==> FirstIndex(xs, e.key) < FirstIndex(xs, rest[j].key)
    ensures FirstSeenOrder([e] + rest, xs)
  {
    var r := [e] + rest;
    forall i, j | 0 <= i < j < |r| ensures FirstIndex(xs, r[i].key) < FirstIndex(xs, r[j].key) {
      assert r[j] == rest[j - 1];
      if i > 0 {
        assert r[i] == rest[i - 1];
      }
    }
  }

  lemma {:induction false} WithCountPositions(s: seq<Entry>, c: nat, i: nat, j: nat) returns (p: nat, q: nat)
    requires i < j < |s| && s[i].count == c && s[j].count == c
    ensures p < q < |WithCount(s, c)|
    ensures WithCount(s, c)[p] == s[i] && WithCount(s, c)[q] == s[j]
  {
    assert s == s[..i] + s[i..j] + s[j..];
    WithCountAppend(s[..i] + s[i..j], s[j..], c);
    WithCountAppend(s[..i], s[i..j], c);
    var a, b, d := WithCount(s[..i], c), WithCount(s[i..j], c), WithCount(s[j..], c);
    assert b[0] == s[i];
    assert d[0] == s[j];
    p, q := |a|, |a| + |b|;
  }

  /** The first `n` of the `m >= n` most common entries are the `n` most common. */
  lemma {:induction false} MostCommonPrefix(es: seq<Entry>, m: int, n: int)
    requires n <= m || n <= 0
    ensures Take(MostCommon(es, m), n) == MostCommon(es, n)
  {
    var s := SortByCount(es);
    assert MostCommon(es, m) == Take(s, m);
    assert MostCommon(es, n) == Take(s, n);
  }

  lemma {:induction false} TotalAppend(a: seq<Entry>, b: seq<Entry>)
    ensures Total(a + b) == Total(a) + Total(b)
    decreases |a|
  {
    if a == [] {
      assert a + b == b;
    } else {
      assert (a + b)[1..] == a[1..] + b;
      TotalAppend(a[1..], b);
    }
  }

  lemma {:induction false} InsertTotal(s: seq<Entry>, e: Entry)
    ensures Total(Insert(s, e)) == Total(s) + e.count
    decreases |s|
  {
    if s != [] && s[0].count >= e.count {
      InsertTotal(s[1..], e);
      assert ([s[0]] + Insert(s[1..], e))[1..] == Insert(s[1..], e);
    } else if s != [] {
      assert ([e] + s)[1..] == s;
    }
  }

  /** Sorting moves entries but keeps the sum of the counts. */
  lemma {:induction false} SortKeepsTotal(es: seq<Entry>)
    ensures Total(SortByCount(es)) == Total(es)
    decreases |es|
  {
    if es != [] {
      var init, last := es[..|es| - 1], es[|es| - 1];
      assert es == init + [last];
      SortKeepsTotal(init);
      InsertTotal(SortByCount(init), last);
      TotalAppend(init, [last]);
    }
  }
}
