/** Character classes and string operations the scripts take from Python's `str`
    and `re`, restricted to ASCII: `lower()`, `\w`, `\s`, `in` on strings,
    `' '.join` and `split()`. */
module Text {
  import opened Common

  predicate IsUpper(c: char) { 'A' <= c <= 'Z' }

  predicate IsLowerLetter(c: char) { 'a' <= c <= 'z' }

  predicate IsDigit(c: char) { '0' <= c <= '9' }

  /** The class `[a-zA-Z0-9]`. */
  predicate IsAlnum(c: char) { IsLowerLetter(c) || IsUpper(c) || IsDigit(c) }

  /** The class `\w` on ASCII: `[a-zA-Z0-9_]`. */
  predicate IsWordChar(c: char) { IsAlnum(c) || c == '_' }

  /** The class `\s` on ASCII, which is also what `str.isspace`, `strip()` and
      `split()` treat as whitespace: tab, line feed, vertical tab, form feed,
      carriage return, the separators 0x1C to 0x1F, and space. */
  predicate IsSpace(c: char) {
    var n := c as int; n == 32 || 9 <= n <= 13 || 28 <= n <= 31
  }

  predicate NotSpace(c: char) { !IsSpace(c) }

  predicate AllLowerLetters(s: string) { forall i :: 0 <= i < |s| ==> IsLowerLetter(s[i]) }

  predicate NoSpace(s: string) { forall i :: 0 <= i < |s| ==> !IsSpace(s[i]) }

  function ToLower(c: char): char {
    if IsUpper(c) then (c as int + 32) as char else c
  }

  /** `str.lower()` on ASCII: each upper-case letter becomes the lower-case
      letter at the same place in the alphabet, and every other character is
      left as it is. */
  function Lower(s: string): (r: string)
    ensures |r| == |s|
    ensures forall i :: 0 <= i < |s| ==> !IsUpper(r[i])
    ensures forall i :: 0 <= i < |s| ==>
      if IsUpper(s[i]) then IsLowerLetter(r[i]) && r[i] as int - 'a' as int == s[i] as int - 'A' as int
      else r[i] == s[i]
  {
    seq(|s|, i requires 0 <= i < |s| => ToLower(s[i]))
  }

  /** Lower-casing works character by character, so it distributes over
      concatenation. */
  lemma {:induction false} LowerAppend(a: string, b: string)
    ensures Lower(a + b) == Lower(a) + Lower(b)
  {
    assert forall i :: 0 <= i < |a + b| ==> Lower(a + b)[i] == (Lower(a) + Lower(b))[i];
  }

  /** Length of the longest prefix of `s` whose characters all satisfy `p`
      (what a greedy `p+` or `p*` consumes). */
  function RunLength(s: string, p: char -> bool): (n: nat)
    ensures n <= |s|
    ensures forall i :: 0 <= i < n ==> p(s[i])
    ensures n < |s| ==> !p(s[n])
    decreases |s|
  {
    if s != [] && p(s[0]) then 1 + RunLength(s[1..], p) else 0
  }

  predicate IsPrefix(p: string, s: string) { |p| <= |s| && s[..|p|] == p }

  predicate IsSuffix(p: string, s: string) { |p| <= |s| && s[|s| - |p|..] == p }

  /** Python's substring test `sub in s`. */
  predicate Contains(s: string, sub: string)
    decreases |s|
  {
    IsPrefix(sub, s) || (s != [] && Contains(s[1..], sub))
  }

  /** `sub` occurs in `s` starting at position `i`. */
  predicate OccursAt(s: string, sub: string, i: int) {
    0 <= i && i + |sub| <= |s| && s[i..i + |sub|] == sub
  }

  /** `sub in s` holds exactly when `sub` occurs at some position of `s`. */
  lemma {:induction false} ContainsAt(s: string, sub: string)
    ensures Contains(s, sub) <==> exists i :: OccursAt(s, sub, i)
    decreases |s|
  {
    if IsPrefix(sub, s) {
      assert OccursAt(s, sub, 0);
    } else if s != [] {
      ContainsAt(s[1..], sub);
      if Contains(s[1..], sub) {
        var i :| OccursAt(s[1..], sub, i);
        assert s[1..][i..i + |sub|] == s[i + 1..i + 1 + |sub|];
        assert OccursAt(s, sub, i + 1);
      }
      if exists i :: OccursAt(s, sub, i) {
        var i :| OccursAt(s, sub, i);
        assert s[1..][i - 1..i - 1 + |sub|] == s[i..i + |sub|];
        assert OccursAt(s[1..], sub, i - 1);
      }
    }
  }

  /** A string shorter than `sub` does not contain it. */
  lemma {:induction false} ContainsNeedsRoom(s: string, sub: string)
    requires |s| < |sub|
    ensures !Contains(s, sub)
    decreases |s|
  {
    if s != [] {
      ContainsNeedsRoom(s[1..], sub);
    }
  }

  /** A run-length prefix that stops inside `a` is not affected by what
      follows `a`. */
  lemma {:induction false} RunLengthAppend(a: string, b: string, p: char -> bool)
    requires RunLength(a, p) < |a|
    ensures RunLength(a + b, p) == RunLength(a, p)
  {
    assert !p((a + b)[RunLength(a, p)]);
  }

  /** A prefix of `p`-characters that fills `a` stops where `b` starts when
      `b` starts with another character. */
  lemma {:induction false} RunLengthAcross(a: string, b: string, p: char -> bool)
    requires RunLength(a, p) == |a| && b != [] && !p(b[0])
    ensures RunLength(a + b, p) == |a|
  {
    assert (a + b)[|a|] == b[0];
  }

  /** Removes trailing whitespace: the result is a prefix of `s`, everything
      cut off is whitespace, and the result does not end in whitespace. */
  function TrimEnd(s: string): (r: string)
    ensures |r| <= |s| && r == s[..|r|]
    ensures forall i :: |r| <= i < |s| ==> IsSpace(s[i])
    ensures |r| > 0 ==> NotSpace(r[|r| - 1])
    decreases |s|
  {
    if s != [] && IsSpace(s[|s| - 1]) then TrimEnd(s[..|s| - 1]) else s
  }

  /** `str.strip()`: the slice of `s` left after removing leading and trailing
      whitespace. Every character outside the slice is whitespace, and the
      slice neither starts nor ends with whitespace. */
  function Strip(s: string): (r: string)
    ensures RunLength(s, IsSpace) + |r| <= |s|
    ensures forall i :: 0 <= i < |r| ==> r[i] == s[RunLength(s, IsSpace) + i]
    ensures forall i :: 0 <= i < |s| && !(RunLength(s, IsSpace) <= i < RunLength(s, IsSpace) + |r|) ==> IsSpace(s[i])
    ensures |r| > 0 ==> NotSpace(r[0]) && NotSpace(r[|r| - 1])
  {
    var lead := RunLength(s, IsSpace);
    var r := TrimEnd(s[lead..]);
    StripSlice(s, lead, r);
    r
  }

  /** Cutting a whitespace prefix of length `lead` and then a whitespace suffix
      leaves a slice of `s` with only whitespace outside it. */
  lemma {:induction false} StripSlice(s: string, lead: nat, r: string)
    requires lead <= |s| && forall i :: 0 <= i < lead ==> IsSpace(s[i])
    requires lead < |s| ==> !IsSpace(s[lead])
    requires |r| <= |s[lead..]| && r == s[lead..][..|r|]
    requires forall i :: |r| <= i < |s[lead..]| ==> IsSpace(s[lead..][i])
    requires |r| > 0 ==> NotSpace(r[|r| - 1])
    ensures lead + |r| <= |s|
    ensures forall i :: 0 <= i < |r| ==> r[i] == s[lead + i]
    ensures forall i :: 0 <= i < |s| && !(lead <= i < lead + |r|) ==> IsSpace(s[i])
    ensures |r| > 0 ==> NotSpace(r[0]) && NotSpace(r[|r| - 1])
  {
    var rest := s[lead..];
    forall i | 0 <= i < |r| ensures r[i] == s[lead + i] {
      assert r[i] == rest[i];
    }
    forall i | lead + |r| <= i < |s| ensures IsSpace(s[i]) {
      assert s[i] == rest[i - lead];
    }
  }

  /** `sep.join(xs)`. */
  function Join(xs: seq<string>, sep: string): string
    decreases |xs|
  {
    if xs == [] then ""
    else if |xs| == 1 then xs[0]
    else xs[0] + sep + Join(xs[1..], sep)
  }

  /** A join starts with the first string and ends with the last. */
  lemma {:induction false} JoinEnds(xs: seq<string>, sep: string)
    requires xs != []
    ensures IsPrefix(xs[0], Join(xs, sep)) && IsSuffix(xs[|xs| - 1], Join(xs, sep))
    decreases |xs|
  {
    if |xs| > 1 {
      var rest := Join(xs[1..], sep);
      JoinEnds(xs[1..], sep);
      var r := xs[0] + sep + rest;
      assert xs[1..][|xs[1..]| - 1] == xs[|xs| - 1];
      assert r[..|xs[0]|] == xs[0];
      assert r[|r| - |rest|..] == rest;
    }
  }

  /** Joining two or more strings puts the first, the separator, then the join
      of the others. */
  lemma {:induction false} JoinCons(xs: seq<string>, sep: string)
    requires |xs| > 1
    ensures Join(xs, sep) == xs[0] + sep + Join(xs[1..], sep)
  {
  }

  /** Joining one more string appends the separator and that string. */
  lemma {:induction false} JoinSnoc(xs: seq<string>, x: string, sep: string)
    requires xs != []
    ensures Join(xs + [x], sep) == Join(xs, sep) + sep + x
    decreases |xs|
  {
    var ys := xs + [x];
    assert ys[0] == xs[0];
    if |xs| == 1 {
      assert ys[1..] == [x];
    } else {
      assert ys[1..] == xs[1..] + [x];
      JoinSnoc(xs[1..], x, sep);
    }
  }

  /** The strings of `ws`, concatenated. */
  function Concat(ws: seq<string>): (r: string)
    ensures |ws| > 0 ==> r == ws[0] + Concat(ws[1..])
    decreases |ws|
  {
    if ws == [] then "" else ws[0] + Concat(ws[1..])
  }

  // -------------------------------------------------------------- maximal runs

  /** A non-empty string of `p`-characters. */
  predicate IsRun(w: string, p: char -> bool) {
    |w| > 0 && forall i :: 0 <= i < |w| ==> p(w[i])
  }

  /** A string without any `p`-character. */
  predicate NoneOf(s: string, p: char -> bool) {
    forall i :: 0 <= i < |s| ==> !p(s[i])
  }

  /** The maximal runs of characters satisfying `p`, left to right: what
      `re.findall` returns for the pattern `p+`. */
  function Runs(s: string, p: char -> bool): (runs: seq<string>)
    ensures forall w :: w in runs ==> IsRun(w, p)
    decreases |s|
  {
    if s == [] then []
    else if !p(s[0]) then Runs(s[1..], p)
    else
      var n := RunLength(s, p);
      [s[..n]] + Runs(s[n..], p)
  }

  /** Every character of a run is a character of `s`. */
  lemma {:induction false} RunsFrom(s: string, p: char -> bool, w: string, c: char)
    requires w in Runs(s, p) && c in w
    ensures c in s
    decreases |s|
  {
    if !p(s[0]) {
      RunsFrom(s[1..], p, w, c);
    } else {
      var n := RunLength(s, p);
      if w != s[..n] {
        RunsFrom(s[n..], p, w, c);
      }
    }
  }

  /** No run can continue from the end of `a` into `b`. */
  predicate Boundary(a: string, b: string, p: char -> bool) {
    a == [] || b == [] || !p(a[|a| - 1]) || !p(b[0])
  }

  /** Runs never cross a boundary: the runs of `a + b` are those of `a`
      followed by those of `b`. */
  lemma {:induction false} RunsAppend(a: string, b: string, p: char -> bool)
    requires Boundary(a, b, p)
    ensures Runs(a + b, p) == Runs(a, p) + Runs(b, p)
    decreases |a|
  {
    var s := a + b;
    if a == [] {
      assert s == b;
    } else if !p(a[0]) {
      assert s[1..] == a[1..] + b;
      RunsAppend(a[1..], b, p);
    } else {
      var n := RunLength(a, p);
      if n < |a| {
        RunsAppend(a[n..], b, p);
        RunsAppendAfterRun(a, b, p);
      } else if b == [] {
        assert s == a;
      } else {
        RunsAppendWholeRun(a, b, p);
      }
    }
  }

  /** The step of `RunsAppend` where `a` opens with a run that ends inside it. */
  lemma {:induction false} RunsAppendAfterRun(a: string, b: string, p: char -> bool)
    requires a != [] && p(a[0]) && RunLength(a, p) < |a|
    requires Runs(a[RunLength(a, p)..] + b, p) == Runs(a[RunLength(a, p)..], p) + Runs(b, p)
    ensures Runs(a + b, p) == Runs(a, p) + Runs(b, p)
  {
    var s, n := a + b, RunLength(a, p);
    RunLengthAppend(a, b, p);
    assert s[..n] == a[..n] && s[n..] == a[n..] + b;
  }

  /** The step of `RunsAppend` where `a` is one whole run. */
  lemma {:induction false} RunsAppendWholeRun(a: string, b: string, p: char -> bool)
    requires a != [] && p(a[0]) && RunLength(a, p) == |a| && b != [] && Boundary(a, b, p)
    ensures Runs(a + b, p) == Runs(a, p) + Runs(b, p)
  {
    var s, n := a + b, |a|;
    assert !p(s[|a|]);
    RunLengthAcross(a, b, p);
    assert s[..n] == a && s[n..] == b && a[..n] == a && a[n..] == [];
    assert Runs(s, p) == [a] + Runs(b, p);
    assert Runs(a, p) == [a] + Runs([], p);
  }

  /** A non-empty separator without `p`-characters splits the runs in two:
      those before it and those after it. */
  lemma {:induction false} RunsAround(a: string, sep: string, b: string, p: char -> bool)
    requires |sep| > 0 && NoneOf(sep, p)
    ensures Runs(a + sep + b, p) == Runs(a, p) + Runs(b, p)
  {
    assert Boundary(a + sep, b, p);
    RunsAppend(a + sep, b, p);
    RunsAppend(a, sep, p);
    RunsNone(sep, p);
    AppendNothing(Runs(a, p));
  }

  /** A prefix without `p`-characters adds no run. */
  lemma {:induction false} RunsSkip(gap: string, rest: string, p: char -> bool)
    requires NoneOf(gap, p)
    ensures Runs(gap + rest, p) == Runs(rest, p)
  {
    assert Boundary(gap, rest, p);
    RunsAppend(gap, rest, p);
    RunsNone(gap, p);
    AppendNothing(Runs(rest, p));
  }

  /** A non-empty string of `p`-characters is a single run. */
  lemma {:induction false} RunsWhole(w: string, p: char -> bool)
    requires IsRun(w, p)
    ensures Runs(w, p) == [w]
  {
    assert RunLength(w, p) == |w|;
    assert w[..|w|] == w && w[|w|..] == [];
  }

  /** A string with no `p`-character has no run. */
  lemma {:induction false} RunsNone(s: string, p: char -> bool)
    requires NoneOf(s, p)
    ensures Runs(s, p) == []
    decreases |s|
  {
    if s != [] {
      RunsNone(s[1..], p);
    }
  }

  /** Joining runs with a non-empty separator that holds no `p`-character
      gives back exactly those runs. */
  lemma {:induction false} RunsJoin(ws: seq<string>, sep: string, p: char -> bool)
    requires forall w :: w in ws ==> IsRun(w, p)
    requires |sep| > 0 && NoneOf(sep, p)
    ensures Runs(Join(ws, sep), p) == ws
    decreases |ws|
  {
    if |ws| == 1 {
      RunsWhole(ws[0], p);
    } else if |ws| > 1 {
      JoinCons(ws, sep);
      assert ws[0] in ws;
      assert forall v :: v in ws[1..] ==> v in ws;
      RunsAround(ws[0], sep, Join(ws[1..], sep), p);
      RunsWhole(ws[0], p);
      RunsJoin(ws[1..], sep, p);
    }
  }

  /** Separator characters before and after a join do not change its runs. */
  lemma {:induction false} RunsJoinPadded(lead: string, ws: seq<string>, sep: string, trail: string, p: char -> bool)
    requires forall w :: w in ws ==> IsRun(w, p)
    requires |sep| > 0 && NoneOf(sep, p)
    requires NoneOf(lead, p) && NoneOf(trail, p)
    ensures Runs(lead + Join(ws, sep) + trail, p) == ws
  {
    var middle := Join(ws, sep);
    RunsAppend(lead, middle, p);
    RunsAppend(lead + middle, trail, p);
    RunsNone(lead, p);
    RunsNone(trail, p);
    RunsJoin(ws, sep, p);
  }

  /** `Keep` of a sequence with one more element in front. */
  lemma {:induction false} KeepCons(c: char, s: string, p: char -> bool)
    ensures Keep([c] + s, p) == (if p(c) then [c] else []) + Keep(s, p)
  {
    KeepAppend([c], s, p);
    assert [c] == [] + [c];
    KeepSnoc([], c, p);
  }

  /** The runs, put back together, are exactly the `p`-characters of `s` in
      order: none is lost, moved or invented. */
  lemma {:induction false} RunsKeep(s: string, p: char -> bool)
    ensures Concat(Runs(s, p)) == Keep(s, p)
    decreases |s|
  {
    if s != [] {
      if !p(s[0]) {
        assert s == [s[0]] + s[1..];
        KeepCons(s[0], s[1..], p);
        RunsKeep(s[1..], p);
      } else {
        var n := RunLength(s, p);
        var w, rest := s[..n], s[n..];
        assert Runs(s, p) == [w] + Runs(rest, p);
        assert ([w] + Runs(rest, p))[1..] == Runs(rest, p);
        assert s == w + rest;
        KeepAppend(w, rest, p);
        KeepAllPass(w, p);
        RunsKeep(rest, p);
      }
    }
  }

  // -------------------------------------------------------------------- split

  /** `str.split()` with no argument: the maximal runs of non-whitespace, in order. */
  function Split(s: string): (words: seq<string>)
    ensures forall w :: w in words ==> |w| > 0 && NoSpace(w)
  {
    Runs(s, NotSpace)
  }

  /** Splitting space-free words joined by single spaces gives back the words. */
  lemma {:induction false} SplitJoin(ws: seq<string>)
    requires forall w :: w in ws ==> |w| > 0 && NoSpace(w)
    ensures Split(Join(ws, " ")) == ws
  {
    RunsJoin(ws, " ", NotSpace);
  }

  /** Splitting two space-free words joined by one space gives back the two words. */
  lemma {:induction false} SplitPair(a: string, b: string)
    requires |a| > 0 && |b| > 0 && NoSpace(a) && NoSpace(b)
    ensures Split(a + " " + b) == [a, b]
  {
    assert [a, b][1..] == [b];
    SplitJoin([a, b]);
  }

  /** The words of two texts joined by a space are the words of the first
      followed by those of the second. */
  lemma {:induction false} SplitAppend(a: string, b: string)
    ensures Split(a + " " + b) == Split(a) + Split(b)
  {
    var sp := " ";
    assert !NotSpace(sp[0]);
    RunsAround(a, sp, b, NotSpace);
  }

  lemma {:induction false} AppendNothing<T>(xs: seq<T>)
    ensures xs + [] == xs
  {
  }

  /** `strip()` changes no word. */
  lemma {:induction false} SplitStrip(s: string)
    ensures Split(Strip(s)) == Split(s)
  {
    var lead, r := RunLength(s, IsSpace), Strip(s);
    var head, tail := s[..lead], s[lead + |r|..];
    StripParts(s, lead, r);
    RunsPadded(head, r, tail, NotSpace);
    assert Runs(s, NotSpace) == Runs(r, NotSpace);
  }

  /** `s` is its leading whitespace, its stripped slice `r` and its trailing
      whitespace, in that order. */
  lemma {:induction false} StripParts(s: string, lead: nat, r: string)
    requires lead + |r| <= |s|
    requires forall i :: 0 <= i < |r| ==> r[i] == s[lead + i]
    requires forall i :: 0 <= i < |s| && !(lead <= i < lead + |r|) ==> IsSpace(s[i])
    ensures var head, tail := s[..lead], s[lead + |r|..];
      && s == head + (r + tail)
      && NoneOf(head, NotSpace) && NoneOf(tail, NotSpace)
      && Boundary(r, tail, NotSpace)
  {
    var head, tail := s[..lead], s[lead + |r|..];
    assert r == s[lead..lead + |r|];
    assert s == head + (r + tail);
    forall i | 0 <= i < |head| ensures !NotSpace(head[i]) {
      assert head[i] == s[i];
    }
    forall i | 0 <= i < |tail| ensures !NotSpace(tail[i]) {
      assert tail[i] == s[lead + |r| + i];
    }
  }

  /** Text without `p`-characters on either side adds no run. */
  lemma {:induction false} RunsPadded(head: string, r: string, tail: string, p: char -> bool)
    requires NoneOf(head, p) && NoneOf(tail, p) && Boundary(r, tail, p)
    ensures Runs(head + (r + tail), p) == Runs(r, p)
  {
    RunsSkip(head, r + tail, p);
    RunsAppend(r, tail, p);
    RunsNone(tail, p);
    AppendNothing(Runs(r, p));
  }

  /** The words, put back together, are the non-whitespace characters in order. */
  lemma {:induction false} SplitKeep(s: string)
    ensures Concat(Split(s)) == Keep(s, NotSpace)
  {
    RunsKeep(s, NotSpace);
  }
}
