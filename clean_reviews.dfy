/** `src/clean_reviews.py`: review text normalisation (`clean_text`), the bank
    chosen from the file name, and the in-place steps of `process_file`. */
module CleanReviews {
  import opened Common
  import opened Text
  import opened Ranking

  /** A CSV cell: a string, or a value that is not one (pandas reads an empty
      cell as the float NaN). */
  datatype Field = Str(s: string) | NonStr

  // ---------------------------------------------------------------- clean_text

  /** `re.sub(r"http\S+", "", s)` matches at the start of `s`: `http` followed by
      at least one non-whitespace character. */
  predicate StartsUrl(s: string) {
    |s| >= 5 && s[..4] == "http" && NotSpace(s[4])
  }

  /** `re.sub(r"http\S+", "", s)`: scanning left to right, every `http` that is
      followed by a non-whitespace character is deleted together with the rest
      of its non-whitespace run. */
  function RemoveUrls(s: string): (r: string)
    ensures forall c :: c in r ==> c in s
    decreases |s|
  {
    if s == [] then []
    else if StartsUrl(s) then
      var n := RunLength(s, NotSpace);
      assert n > 0 by { assert s[0] == s[..4][0] == 'h'; }
      RemoveUrls(s[n..])
    else [s[0]] + RemoveUrls(s[1..])
  }

  /** `re.sub(r"[^a-zA-Z0-9\s]", "", s)`: drops every character that is neither
      an ASCII letter or digit nor whitespace. */
  function RemoveSpecial(s: string): (r: string)
    ensures forall i :: 0 <= i < |r| ==> IsAlnum(r[i]) || IsSpace(r[i])
    decreases |s|
  {
    if s == [] then []
    else (if IsAlnum(s[0]) || IsSpace(s[0]) then [s[0]] else []) + RemoveSpecial(s[1..])
  }

  /** `re.sub(r"\s+", " ", s)`: every maximal whitespace run becomes one space. */
  function CollapseSpaces(s: string): (r: string)
    ensures forall i :: 0 <= i < |r| ==> r[i] == ' ' || NotSpace(r[i])
    ensures forall i :: 0 <= i < |r| - 1 ==> !(r[i] == ' ' && r[i + 1] == ' ')
    ensures |s| > 0 ==> |r| > 0 && r[0] == if IsSpace(s[0]) then ' ' else s[0]
    decreases |s|
  {
    if s == [] then []
    else if IsSpace(s[0]) then " " + CollapseSpaces(s[RunLength(s, IsSpace)..])
    else [s[0]] + CollapseSpaces(s[1..])
  }

  /** Only lower-case letters, digits and spaces. */
  predicate CleanChars(t: string) {
    forall i :: 0 <= i < |t| ==> IsLowerLetter(t[i]) || IsDigit(t[i]) || t[i] == ' '
  }

  /** The shape of every cleaned review: lower-case letters, digits and single
      spaces, with no space at either end. */
  predicate IsClean(r: string) {
    && CleanChars(r)
    && (|r| > 0 ==> r[0] != ' ' && r[|r| - 1] != ' ')
    && (forall i :: 0 <= i < |r| - 1 ==> !(r[i] == ' ' && r[i + 1] == ' '))
  }

  /** `clean_text`: a non-string becomes the empty string; a string is
      lower-cased, stripped of URLs and special characters, and its whitespace
      collapsed and trimmed. */
  function CleanText(text: Field): (r: string)
    ensures text.NonStr? ==> r == ""
    ensures IsClean(r)
  {
    match text
    case NonStr => ""
    case Str(s) =>
      var collapsed := CollapseSpaces(RemoveSpecial(RemoveUrls(Lower(s))));
      CleanedChars(s);
      StripKeepsShape(collapsed);
      Strip(collapsed)
  }

  /** Trimming text made of lower-case letters, digits and single spaces leaves
      a clean text. */
  lemma {:induction false} StripKeepsShape(t: string)
    requires CleanChars(t)
    requires forall i :: 0 <= i < |t| - 1 ==> !(t[i] == ' ' && t[i + 1] == ' ')
    ensures IsClean(Strip(t))
  {
    var r := Strip(t);
    var n := RunLength(t, IsSpace);
    forall i | 0 <= i < |r| - 1 ensures !(r[i] == ' ' && r[i + 1] == ' ') {
      assert r[i] == t[n + i] && r[i + 1] == t[n + i + 1];
    }
  }

  /** `RemoveSpecial` only deletes characters. */
  lemma {:induction false} RemoveSpecialFrom(s: string)
    ensures forall c :: c in RemoveSpecial(s) ==> c in s
    decreases |s|
  {
    if s != [] {
      RemoveSpecialFrom(s[1..]);
    }
  }

  /** `CollapseSpaces` introduces no character other than the space. */
  lemma {:induction false} CollapseSpacesFrom(s: string)
    ensures forall c :: c in CollapseSpaces(s) && c != ' ' ==> c in s
    decreases |s|
  {
    if s != [] {
      if IsSpace(s[0]) {
        CollapseSpacesFrom(s[RunLength(s, IsSpace)..]);
      } else {
        CollapseSpacesFrom(s[1..]);
      }
    }
  }

  /** Before trimming, the cleaned text holds only lower-case letters, digits
      and spaces. */
  lemma {:induction false} CleanedChars(s: string)
    ensures CleanChars(CollapseSpaces(RemoveSpecial(RemoveUrls(Lower(s)))))
  {
    var lowered := Lower(s);
    var noUrls := RemoveUrls(lowered);
    var kept := RemoveSpecial(noUrls);
    var collapsed := CollapseSpaces(kept);
    RemoveSpecialFrom(noUrls);
    CollapseSpacesFrom(kept);
    forall i | 0 <= i < |collapsed| && collapsed[i] != ' '
      ensures IsLowerLetter(collapsed[i]) || IsDigit(collapsed[i])
    {
      var c := collapsed[i];
      assert c in kept;
      var j :| 0 <= j < |kept| && kept[j] == c;
      assert IsAlnum(c);
      assert c in lowered;
      var k :| 0 <= k < |lowered| && lowered[k] == c;
      assert !IsUpper(c);
    }
  }

  // ------------------------------------------------------ properties of clean_text

  /** A URL is deleted only when something follows `http`: a bare `http`, at the
      end or before whitespace, is kept. */
  lemma {:induction false} BareHttpKept(rest: string)
    requires rest == [] || IsSpace(rest[0])
    ensures RemoveUrls("http" + rest) == "http" + RemoveUrls(rest)
  {
    var s := "http" + rest;
    assert !StartsUrl(s) && s[1..] == "ttp" + rest;
    assert RemoveUrls(s) == "h" + RemoveUrls(s[1..]);
    assert !StartsUrl(s[1..]) && s[1..][1..] == "tp" + rest;
    assert RemoveUrls(s[1..]) == "t" + RemoveUrls("tp" + rest);
    assert ("tp" + rest)[1..] == "p" + rest;
    assert RemoveUrls("tp" + rest) == "t" + RemoveUrls("p" + rest);
    assert ("p" + rest)[1..] == rest;
    assert RemoveUrls("p" + rest) == "p" + RemoveUrls(rest);
  }

  /** No URL survives: the output never holds `http` followed by a non-whitespace
      character. */
  lemma {:induction false} NoUrlSurvives(s: string)
    ensures forall i :: 0 <= i <= |RemoveUrls(s)| ==> !StartsUrl(RemoveUrls(s)[i..])
    decreases |s|
  {
    if s == [] {
    } else if StartsUrl(s) {
      NoUrlSurvives(s[RunLength(s, NotSpace)..]);
    } else {
      var r, tail := RemoveUrls(s), RemoveUrls(s[1..]);
      assert r == [s[0]] + tail;
      NoUrlSurvives(s[1..]);
      forall i | 1 <= i <= |r| ensures !StartsUrl(r[i..]) {
        assert r[i..] == tail[i - 1..];
      }
      UrlNotCreated(s);
    }
  }

  /** A kept character never starts a URL together with what follows it. */
  lemma {:induction false} UrlNotCreated(s: string)
    requires s != [] && !StartsUrl(s)
    ensures !StartsUrl([s[0]] + RemoveUrls(s[1..]))
  {
    var tail := RemoveUrls(s[1..]);
    var r := [s[0]] + tail;
    if StartsUrl(r) {
      assert r[1..5] == tail[..4];
      forall j | 0 <= j <= 3 ensures NotSpace(tail[j]) {
        assert tail[j] == r[j + 1];
      }
      RemoveUrlsCopiesPrefix(s[1..], 3);
      assert false;
    }
  }

  /** Up to its first whitespace, the output of `RemoveUrls` is a copy of its input. */
  lemma {:induction false} RemoveUrlsCopiesPrefix(t: string, k: nat)
    requires k < |RemoveUrls(t)|
    requires forall j :: 0 <= j <= k ==> NotSpace(RemoveUrls(t)[j])
    ensures k < |t| && t[..k + 1] == RemoveUrls(t)[..k + 1]
    ensures forall j :: 0 <= j <= k ==> t[j] == RemoveUrls(t)[j]
    decreases |t|
  {
    var r := RemoveUrls(t);
    if StartsUrl(t) {
      RemoveUrlsAfterUrl(t);
      assert false;
    }
    var tail := RemoveUrls(t[1..]);
    assert r == [t[0]] + tail;
    if k > 0 {
      forall j | 0 <= j <= k - 1 ensures NotSpace(tail[j]) {
        assert tail[j] == r[j + 1];
      }
      RemoveUrlsCopiesPrefix(t[1..], k - 1);
      assert t[..k + 1] == [t[0]] + t[1..][..k];
      assert r[..k + 1] == [t[0]] + tail[..k];
    }
  }

  /** A deleted URL is always followed by whitespace or by the end of the text. */
  lemma {:induction false} RemoveUrlsAfterUrl(t: string)
    requires StartsUrl(t)
    ensures RemoveUrls(t) == [] || IsSpace(RemoveUrls(t)[0])
  {
    var rest := t[RunLength(t, NotSpace)..];
    assert RemoveUrls(t) == RemoveUrls(rest);
    if rest != [] {
      assert IsSpace(rest[0]);
      assert !StartsUrl(rest) by { if |rest| >= 5 { assert rest[..4][0] == rest[0]; } }
      assert RemoveUrls(rest)[0] == rest[0];
    }
  }

  lemma {:induction false} RemoveUrlsWithoutHttp(s: string)
    requires !Contains(s, "http")
    ensures RemoveUrls(s) == s
    decreases |s|
  {
    if s != [] {
      assert !StartsUrl(s);
      RemoveUrlsWithoutHttp(s[1..]);
    }
  }

  lemma {:induction false} RemoveSpecialKeepsClean(s: string)
    requires forall i :: 0 <= i < |s| ==> IsAlnum(s[i]) || IsSpace(s[i])
    ensures RemoveSpecial(s) == s
    decreases |s|
  {
    if s != [] {
      RemoveSpecialKeepsClean(s[1..]);
    }
  }

  lemma {:induction false} CollapseKeepsSingleSpaces(s: string)
    requires forall i :: 0 <= i < |s| ==> IsSpace(s[i]) ==> s[i] == ' '
    requires forall i :: 0 <= i < |s| - 1 ==> !(s[i] == ' ' && s[i + 1] == ' ')
    ensures CollapseSpaces(s) == s
    decreases |s|
  {
    if s != [] {
      if IsSpace(s[0]) {
        assert RunLength(s, IsSpace) == 1 by {
          if |s| > 1 { assert !IsSpace(s[1]); }
        }
      }
      CollapseKeepsSingleSpaces(s[1..]);
    }
  }

  /** Cleaning is the identity on an already clean text that holds no `http`. */
  lemma {:induction false} CleanFixesCleanText(r: string)
    requires IsClean(r) && !Contains(r, "http")
    ensures CleanText(Str(r)) == r
  {
    assert Lower(r) == r;
    RemoveUrlsWithoutHttp(r);
    RemoveSpecialKeepsClean(r);
    CollapseKeepsSingleSpaces(r);
    assert RunLength(r, IsSpace) == 0;
    assert TrimEnd(r) == r;
  }

  /** `clean_text` is idempotent on every text whose cleaned form holds no `http`. */
  lemma {:induction false} CleanIdempotentWithoutHttp(text: Field)
    requires !Contains(CleanText(text), "http")
    ensures CleanText(Str(CleanText(text))) == CleanText(text)
  {
    CleanFixesCleanText(CleanText(text));
  }

  // ------------------------------------------------------- content of clean_text

  /** What the special-character filter keeps: `[a-zA-Z0-9\s]`. */
  predicate KeptBySpecial(c: char) { IsAlnum(c) || IsSpace(c) }

  /** The filter keeps every ASCII letter, digit and whitespace character of
      `s`, in order, and drops everything else. */
  lemma {:induction false} RemoveSpecialIsKeep(s: string)
    ensures RemoveSpecial(s) == Keep(s, KeptBySpecial)
    decreases |s|
  {
    if s != [] {
      assert s == [s[0]] + s[1..];
      KeepCons(s[0], s[1..], KeptBySpecial);
      RemoveSpecialIsKeep(s[1..]);
    }
  }

  /** URL removal never reaches past whitespace: text that ends in whitespace
      and the text after it are processed independently. */
  lemma {:induction false} RemoveUrlsAppend(a: string, b: string)
    requires a == [] || IsSpace(a[|a| - 1])
    ensures RemoveUrls(a + b) == RemoveUrls(a) + RemoveUrls(b)
    decreases |a|
  {
    var s := a + b;
    if a == [] {
      assert s == b;
    } else {
      UrlStartsBeforeSpace(a, b);
      if StartsUrl(s) {
        var n := RunLength(a, NotSpace);
        RunLengthAppend(a, b, NotSpace);
        assert s[n..] == a[n..] + b;
        RemoveUrlsAppend(a[n..], b);
      } else {
        assert s[1..] == a[1..] + b;
        RemoveUrlsAppend(a[1..], b);
      }
    }
  }

  /** Whether a URL starts at the front does not depend on what follows a
      whitespace character. */
  lemma {:induction false} UrlStartsBeforeSpace(a: string, b: string)
    requires a != [] && IsSpace(a[|a| - 1])
    ensures StartsUrl(a + b) <==> StartsUrl(a)
  {
    var s := a + b;
    assert s[|a| - 1] == a[|a| - 1];
    if |a| >= 5 {
      assert a[..4] == s[..4] && a[4] == s[4];
    }
  }

  /** Within a word, URL removal keeps exactly the part before the first
      position where a URL starts. */
  lemma {:induction false} RemoveUrlsWord(w: string)
    requires NoSpace(w)
    ensures var r := RemoveUrls(w);
      && |r| <= |w| && r == w[..|r|]
      && (forall i :: 0 <= i < |r| ==> !StartsUrl(w[i..]))
      && (|r| < |w| ==> StartsUrl(w[|r|..]))
    decreases |w|
  {
    if w != [] {
      if StartsUrl(w) {
        assert RunLength(w, NotSpace) == |w|;
        assert w[|w|..] == [];
      } else {
        var tail := w[1..];
        RemoveUrlsWord(tail);
        var r := RemoveUrls(w);
        assert r == [w[0]] + RemoveUrls(tail);
        forall i | 1 <= i < |r| ensures !StartsUrl(w[i..]) {
          assert w[i..] == tail[i - 1..];
        }
        if |r| < |w| {
          assert w[|r|..] == tail[|r| - 1..];
        }
      }
    }
  }

  /** A leading run of non-whitespace passes collapsing unchanged. */
  lemma {:induction false} CollapseWord(s: string, n: nat)
    requires n <= RunLength(s, NotSpace)
    ensures CollapseSpaces(s) == s[..n] + CollapseSpaces(s[n..])
    decreases n
  {
    if n > 0 {
      var t := s[1..];
      assert NotSpace(s[0]) && RunLength(s, NotSpace) == 1 + RunLength(t, NotSpace);
      CollapseWord(t, n - 1);
      assert CollapseSpaces(s) == [s[0]] + CollapseSpaces(t);
      assert t[..n - 1] == s[1..n] && t[n - 1..] == s[n..];
      assert s[..n] == [s[0]] + s[1..n];
    }
  }

  /** Collapsing whitespace changes no word: the text has the same words, in
      the same order, before and after. */
  lemma {:induction false} SplitCollapse(s: string)
    ensures Split(CollapseSpaces(s)) == Split(s)
    decreases |s|
  {
    if s != [] {
      if IsSpace(s[0]) {
        SplitCollapse(s[RunLength(s, IsSpace)..]);
        SplitCollapseSpaces(s);
      } else {
        SplitCollapse(s[RunLength(s, NotSpace)..]);
        SplitCollapseWord(s);
      }
    }
  }

  /** The step of `SplitCollapse` at a leading whitespace run. */
  lemma {:induction false} SplitCollapseSpaces(s: string)
    requires s != [] && IsSpace(s[0])
    requires Runs(CollapseSpaces(s[RunLength(s, IsSpace)..]), NotSpace) == Runs(s[RunLength(s, IsSpace)..], NotSpace)
    ensures Runs(CollapseSpaces(s), NotSpace) == Runs(s, NotSpace)
  {
    var k := RunLength(s, IsSpace);
    var gap, rest := s[..k], s[k..];
    assert NoneOf(gap, NotSpace) && s == gap + rest;
    RunsSkip(gap, rest, NotSpace);
    assert CollapseSpaces(s) == " " + CollapseSpaces(rest);
    RunsSkip(" ", CollapseSpaces(rest), NotSpace);
  }

  /** The step of `SplitCollapse` at a leading word. */
  lemma {:induction false} SplitCollapseWord(s: string)
    requires s != [] && !IsSpace(s[0])
    requires Runs(CollapseSpaces(s[RunLength(s, NotSpace)..]), NotSpace) == Runs(s[RunLength(s, NotSpace)..], NotSpace)
    ensures Runs(CollapseSpaces(s), NotSpace) == Runs(s, NotSpace)
  {
    var n := RunLength(s, NotSpace);
    var word, rest := s[..n], s[n..];
    var tail := CollapseSpaces(rest);
    CollapseWord(s, n);
    assert rest != [] ==> !NotSpace(rest[0]) && tail != [] && tail[0] == ' ';
    assert Boundary(word, tail, NotSpace) && Boundary(word, rest, NotSpace);
    calc {
      Runs(CollapseSpaces(s), NotSpace);
      Runs(word + tail, NotSpace);
      { RunsAppend(word, tail, NotSpace); }
      Runs(word, NotSpace) + Runs(tail, NotSpace);
      Runs(word, NotSpace) + Runs(rest, NotSpace);
      { RunsAppend(word, rest, NotSpace); }
      Runs(word + rest, NotSpace);
      { assert s == word + rest; }
      Runs(s, NotSpace);
    }
  }

  /** Collapsing whitespace keeps every non-whitespace character, in order. */
  lemma {:induction false} CollapseKeepsNonSpace(s: string)
    ensures Keep(CollapseSpaces(s), NotSpace) == Keep(s, NotSpace)
  {
    SplitCollapse(s);
    SplitKeep(s);
    SplitKeep(CollapseSpaces(s));
  }

  /** A clean text is its words joined by single spaces. */
  lemma {:induction false} CleanIsJoin(r: string)
    requires IsClean(r)
    ensures r == Join(Split(r), " ")
    decreases |r|
  {
    if r == [] {
      assert Split(r) == [];
    } else {
      var n := RunLength(r, NotSpace);
      assert n > 0 by { assert NotSpace(r[0]); }
      var w := r[..n];
      if n == |r| {
        assert w == r;
        RunsWhole(r, NotSpace);
      } else {
        assert r[n] == ' ' && n + 1 < |r|;
        var rest := r[n + 1..];
        assert IsClean(rest) by {
          assert rest[0] == r[n + 1] != ' ';
          assert forall i :: 0 <= i < |rest| ==> rest[i] == r[n + 1 + i];
        }
        var sp := " ";
        assert r == w + sp + rest;
        assert NoneOf(sp, NotSpace);
        RunsAround(w, sp, rest, NotSpace);
        RunsWhole(w, NotSpace);
        CleanIsJoin(rest);
        assert Split(rest) != [];
        assert ([w] + Split(rest))[1..] == Split(rest);
      }
    }
  }

  /** `clean_text` of a string is the words left after lower-casing, URL
      removal and the character filter, joined by single spaces. */
  lemma {:induction false} CleanTextWords(s: string)
    ensures CleanText(Str(s)) == Join(Split(RemoveSpecial(RemoveUrls(Lower(s)))), " ")
  {
    var kept := RemoveSpecial(RemoveUrls(Lower(s)));
    var r := CleanText(Str(s));
    assert r == Strip(CollapseSpaces(kept));
    CleanIsJoin(r);
    SplitStrip(CollapseSpaces(kept));
    SplitCollapse(kept);
  }

  /** The non-whitespace characters of a cleaned review are exactly the ASCII
      letters and digits of the lower-cased text outside URLs, in order. */
  lemma {:induction false} CleanTextKeepsAlnum(s: string)
    ensures Keep(CleanText(Str(s)), NotSpace) == Keep(RemoveUrls(Lower(s)), IsAlnum)
  {
    var noUrls := RemoveUrls(Lower(s));
    var kept := RemoveSpecial(noUrls);
    var r := CleanText(Str(s));
    assert r == Strip(CollapseSpaces(kept));
    SplitStrip(CollapseSpaces(kept));
    SplitCollapse(kept);
    SplitKeep(r);
    SplitKeep(kept);
    RemoveSpecialIsKeep(noUrls);
    KeepKeep(noUrls, KeptBySpecial, NotSpace, IsAlnum);
  }

  lemma {:induction false} HiddenUrlIsNoUrl()
    ensures !Contains("h!ttpx", "http")
  {
    var s := "h!ttpx";
    ContainsNeedsRoom(s[3..], "http");
    assert s[2..][1..] == s[3..] && s[2..][..4][0] == 't';
    assert s[1..][1..] == s[2..] && s[1..][..4][0] == '!';
    assert s[..4][1] == '!';
  }

  lemma {:induction false} HiddenUrlSpecials()
    ensures RemoveSpecial("h!ttpx") == "httpx"
  {
    assert "h!ttpx"[1..] == "!ttpx";
    DropBang();
  }

  lemma {:induction false} DropBang()
    ensures RemoveSpecial("!ttpx") == "ttpx"
  {
    assert "!ttpx"[1..] == "ttpx";
    AlnumOnly();
  }

  lemma {:induction false} AlnumOnly()
    ensures RemoveSpecial("ttpx") == "ttpx"
  {
    assert forall i :: 0 <= i < |"ttpx"| ==> IsAlnum("ttpx"[i]);
    RemoveSpecialKeepsClean("ttpx");
  }

  lemma {:induction false} HttpxIsClean()
    ensures Strip(CollapseSpaces("httpx")) == "httpx"
  {
    CollapseHttpx();
    StripHttpx();
  }

  lemma {:induction false} CollapseHttpx()
    ensures CollapseSpaces("httpx") == "httpx"
  {
    assert forall i :: 0 <= i < |"httpx"| ==> !IsSpace("httpx"[i]);
    CollapseKeepsSingleSpaces("httpx");
  }

  lemma {:induction false} StripHttpx()
    ensures Strip("httpx") == "httpx"
  {
    var u := "httpx";
    assert RunLength(u, IsSpace) == 0;
    assert TrimEnd(u) == u;
  }

  lemma {:induction false} UrlOnlyRemoved()
    ensures RemoveUrls("httpx") == ""
  {
    var u := "httpx";
    assert StartsUrl(u);
    assert RunLength(u, NotSpace) == 5 by {
      assert RunLength(u[4..], NotSpace) == 1;
      assert u[3..][1..] == u[4..];
      assert u[2..][1..] == u[3..];
      assert u[1..][1..] == u[2..];
    }
  }

  lemma {:induction false} LowerExamples()
    ensures Lower("h!ttpx") == "h!ttpx" && Lower("httpx") == "httpx"
  {
  }

  lemma {:induction false} FirstPass()
    ensures CleanText(Str("h!ttpx")) == "httpx"
  {
    var s := "h!ttpx";
    assert RemoveUrls(Lower(s)) == s by {
      LowerExamples();
      HiddenUrlIsNoUrl();
      RemoveUrlsWithoutHttp(s);
    }
    assert RemoveSpecial(s) == "httpx" by { HiddenUrlSpecials(); }
    HttpxIsClean();
  }

  lemma {:induction false} SecondPass()
    ensures CleanText(Str("httpx")) == ""
  {
    LowerExamples();
    UrlOnlyRemoved();
    assert RemoveSpecial("") == "" && CollapseSpaces("") == "" && Strip("") == "";
  }

  /** ... and not in general: deleting the `!` creates a URL that the second
      pass removes. */
  lemma {:induction false} CleanNotIdempotent()
    ensures CleanText(Str("h!ttpx")) == "httpx"
    ensures CleanText(Str("httpx")) == ""
  {
    FirstPass();
    SecondPass();
  }

  // ------------------------------------------------------ bank from the file name

  /** `os.path.basename`: what follows the last `/`. */
  function BaseName(path: string): (name: string)
    ensures '/' !in name
    ensures |name| <= |path| && name == path[|path| - |name|..]
    decreases |path|
  {
    if path == [] || path[|path| - 1] == '/' then []
    else BaseName(path[..|path| - 1]) + [path[|path| - 1]]
  }

  /** The bank named by a scraped file: `cbe` in the lower-cased base name wins,
      then `boa`, and every other name is Dashen's. */
  function BankFromFileName(path: string): (bank: string)
    ensures bank == "CBE" || bank == "Abyssinia" || bank == "Dashen"
    ensures var name := Lower(BaseName(path));
      && (bank == "CBE" <==> Contains(name, "cbe"))
      && (bank == "Abyssinia" <==> !Contains(name, "cbe") && Contains(name, "boa"))
  {
    var name := Lower(BaseName(path));
    if Contains(name, "cbe") then "CBE"
    else if Contains(name, "boa") then "Abyssinia"
    else "Dashen"
  }

  /** Only the base name decides the bank: the directory is ignored. */
  lemma {:induction false} BankIgnoresDirectory(dir: string, name: string)
    requires '/' !in name
    ensures BankFromFileName(dir + "/" + name) == BankFromFileName(name)
  {
    BaseNameOfJoin(dir, name);
    BaseNameWithoutSlash(name);
  }

  lemma {:induction false} BaseNameWithoutSlash(name: string)
    requires '/' !in name
    ensures BaseName(name) == name
    decreases |name|
  {
    if name != [] {
      var init := name[..|name| - 1];
      assert name == init + [name[|name| - 1]];
      BaseNameWithoutSlash(init);
    }
  }

  lemma {:induction false} BaseNameOfJoin(dir: string, name: string)
    requires '/' !in name
    ensures BaseName(dir + "/" + name) == name
    decreases |name|
  {
    var p := dir + "/" + name;
    if name == [] {
      assert p[|p| - 1] == '/';
    } else {
      var init := name[..|name| - 1];
      assert p[..|p| - 1] == dir + "/" + init;
      assert p[|p| - 1] == name[|name| - 1];
      BaseNameOfJoin(dir, init);
    }
  }

  // ---------------------------------------------------------------- process_file

  /** A row of a scraped file after `df[cols]` and the renaming of the columns to
      `review_id`, `user`, `review`, `rating` and `date`. */
  datatype Row = Row(reviewId: string, user: string, review: Field, rating: int, date: string)

  predicate HasReview(row: Row) { row.review.Str? }

  /** `df['review'].apply(clean_text)`. */
  function CleanColumn(rows: seq<Row>): (r: seq<Row>)
    ensures |r| == |rows|
    ensures forall i :: 0 <= i < |r| ==>
      r[i] == rows[i].(review := Str(CleanText(rows[i].review)))
  {
    seq(|rows|, i requires 0 <= i < |rows| => rows[i].(review := Str(CleanText(rows[i].review))))
  }

  /** Row `i` is the first one with its review id. */
  predicate IsFirstOccurrence(rows: seq<Row>, i: nat)
    requires i < |rows|
  {
    forall j :: 0 <= j < i ==> rows[j].reviewId != rows[i].reviewId
  }

  /** `drop_duplicates(subset='review_id')` with pandas' default `keep='first'`:
      the rows that are the first with their id, in their original order. */
  function FirstOccurrences(rows: seq<Row>): (r: seq<Row>)
    ensures forall row :: row in r ==> row in rows
    decreases |rows|
  {
    if rows == [] then []
    else
      var n := |rows| - 1;
      FirstOccurrences(rows[..n]) + (if IsFirstOccurrence(rows, n) then [rows[n]] else [])
  }

  predicate UniqueIds(rows: seq<Row>) {
    forall i, j :: 0 <= i < j < |rows| ==> rows[i].reviewId != rows[j].reviewId
  }

  /** The rows kept by `FirstOccurrences` that come from a prefix of the input
      are exactly the ones kept from that prefix. */
  lemma {:induction false} FirstOccurrencesStep(rows: seq<Row>)
    requires rows != []
    ensures var n := |rows| - 1;
      FirstOccurrences(rows) ==
        FirstOccurrences(rows[..n]) + (if IsFirstOccurrence(rows, n) then [rows[n]] else [])
  {
  }

  /** After dropping duplicates every review id occurs once. */
  lemma {:induction false} FirstOccurrencesUnique(rows: seq<Row>)
    ensures UniqueIds(FirstOccurrences(rows))
    decreases |rows|
  {
    if rows != [] {
      var n := |rows| - 1;
      var init := rows[..n];
      var d := FirstOccurrences(init);
      FirstOccurrencesUnique(init);
      FirstOccurrencesStep(rows);
      if IsFirstOccurrence(rows, n) {
        forall k | 0 <= k < |d| ensures d[k].reviewId != rows[n].reviewId {
          assert d[k] in init;
          var j :| 0 <= j < n && init[j] == d[k];
          assert rows[j] == init[j];
        }
        var r := d + [rows[n]];
        forall i, j | 0 <= i < j < |r| ensures r[i].reviewId != r[j].reviewId {
          if j < |d| {
            assert r[i] == d[i] && r[j] == d[j];
          } else {
            assert r[i] == d[i] && r[j] == rows[n];
          }
        }
      }
    }
  }

  /** Every row that is the first with its id survives. */
  lemma {:induction false} FirstOccurrencesKeepsFirsts(rows: seq<Row>)
    ensures forall i :: 0 <= i < |rows| && IsFirstOccurrence(rows, i) ==> rows[i] in FirstOccurrences(rows)
  {
    forall i | 0 <= i < |rows| && IsFirstOccurrence(rows, i) ensures rows[i] in FirstOccurrences(rows) {
      FirstOccurrenceKept(rows, i);
    }
  }

  lemma {:induction false} FirstOccurrenceKept(rows: seq<Row>, i: nat)
    requires i < |rows| && IsFirstOccurrence(rows, i)
    ensures rows[i] in FirstOccurrences(rows)
    decreases |rows|
  {
    var n := |rows| - 1;
    var init := rows[..n];
    FirstOccurrencesStep(rows);
    if i < n {
      FirstOccurrenceInPrefix(rows, n, i);
      FirstOccurrenceKept(init, i);
      assert init[i] == rows[i];
    }
  }

  /** Being the first with its id does not depend on the rows that follow. */
  lemma {:induction false} FirstOccurrenceInPrefix(rows: seq<Row>, k: nat, i: nat)
    requires i < k <= |rows|
    ensures IsFirstOccurrence(rows[..k], i) == IsFirstOccurrence(rows, i)
  {
    assert forall j :: 0 <= j <= i ==> rows[..k][j] == rows[j];
  }

  /** Every review id of the input is still present. */
  lemma {:induction false} FirstOccurrencesKeepsIds(rows: seq<Row>)
    ensures forall i :: 0 <= i < |rows| ==>
      exists k :: 0 <= k < |FirstOccurrences(rows)| && FirstOccurrences(rows)[k].reviewId == rows[i].reviewId
    decreases |rows|
  {
    if rows != [] {
      var n := |rows| - 1;
      var init := rows[..n];
      var d := FirstOccurrences(init);
      var r := FirstOccurrences(rows);
      FirstOccurrencesKeepsIds(init);
      FirstOccurrencesStep(rows);
      assert forall k :: 0 <= k < |d| ==> r[k] == d[k];
      forall i | 0 <= i < |rows|
        ensures exists k :: 0 <= k < |r| && r[k].reviewId == rows[i].reviewId
      {
        if i < n {
          assert rows[i] == init[i];
          var k :| 0 <= k < |d| && d[k].reviewId == init[i].reviewId;
          assert r[k] == d[k];
        } else if IsFirstOccurrence(rows, n) {
          assert r[|d|] == rows[n];
        } else {
          var j :| 0 <= j < n && rows[j].reviewId == rows[n].reviewId;
          assert rows[j] == init[j];
          var k :| 0 <= k < |d| && d[k].reviewId == init[j].reviewId;
          assert r[k] == d[k];
        }
      }
    }
  }

  /** The `review_id` column. */
  function Ids(rows: seq<Row>): (ids: seq<string>)
    ensures |ids| == |rows| && forall i :: 0 <= i < |rows| ==> ids[i] == rows[i].reviewId
  {
    seq(|rows|, i requires 0 <= i < |rows| => rows[i].reviewId)
  }

  /** The surviving rows keep their relative order: they come in the order in
      which their ids first appear in the input. */
  lemma {:induction false} FirstOccurrencesKeepOrder(rows: seq<Row>)
    ensures var r := FirstOccurrences(rows);
      forall p, q :: 0 <= p < q < |r| ==> FirstIndex(Ids(rows), r[p].reviewId) < FirstIndex(Ids(rows), r[q].reviewId)
    decreases |rows|
  {
    if rows != [] {
      var n := |rows| - 1;
      var init := rows[..n];
      var d := FirstOccurrences(init);
      var r := FirstOccurrences(rows);
      var id := rows[n].reviewId;
      FirstOccurrencesKeepOrder(init);
      FirstOccurrencesStep(rows);
      assert Ids(rows) == Ids(init) + [id];
      forall k | 0 <= k < |d|
        ensures FirstIndex(Ids(rows), d[k].reviewId) == FirstIndex(Ids(init), d[k].reviewId) < n
      {
        assert d[k] in init;
        var j :| 0 <= j < n && init[j] == d[k];
        assert Ids(init)[j] == d[k].reviewId;
        FirstIndexSnoc(Ids(init), id, d[k].reviewId);
      }
      if IsFirstOccurrence(rows, n) {
        assert id !in Ids(init) by {
          forall j | 0 <= j < n ensures Ids(init)[j] != id {
            assert rows[j] == init[j];
          }
        }
        FirstIndexSnoc(Ids(init), id, id);
        forall p, q | 0 <= p < q < |r|
          ensures FirstIndex(Ids(rows), r[p].reviewId) < FirstIndex(Ids(rows), r[q].reviewId)
        {
          assert r[p] == d[p];
          if q < |d| {
            assert r[q] == d[q];
          } else {
            assert r[q] == rows[n];
          }
        }
      } else {
        assert r == d;
      }
    }
  }

  /** The DataFrame `process_file` builds and changes in place. */
  class ReviewFrame {
    var rows: seq<Row>
    /** The `bank` column; `process_file` gives every row of a file the same value. */
    var bank: Option<string>

    constructor (raw: seq<Row>)
      ensures rows == raw && bank == None
    {
      rows := raw;
      bank := None;
    }

    /** `df['bank'] = ...`, chosen from the file name. */
    method AssignBank(path: string)
      modifies this
      ensures rows == old(rows)
      ensures bank == Some(BankFromFileName(path))
    {
      var name := Lower(BaseName(path));
      if Contains(name, "cbe") {
        bank := Some("CBE");
      } else if Contains(name, "boa") {
        bank := Some("Abyssinia");
      } else {
        bank := Some("Dashen");
      }
    }

    /** `df['review'] = df['review'].apply(clean_text)`. */
    method CleanReviews()
      modifies this
      ensures bank == old(bank)
      ensures rows == CleanColumn(old(rows))
    {
      rows := CleanColumn(rows);
    }

    /** `df.drop_duplicates(subset='review_id', inplace=True)`. */
    method DropDuplicateIds()
      modifies this
      ensures bank == old(bank)
      ensures rows == FirstOccurrences(old(rows))
    {
      var all := rows;
      var kept: seq<Row> := [];
      var seen: set<string> := {};
      for i := 0 to |all|
        invariant kept == FirstOccurrences(all[..i])
        invariant seen == set j | 0 <= j < i :: all[j].reviewId
      {
        assert all[..i + 1][..i] == all[..i];
        assert IsFirstOccurrence(all[..i + 1], i) <==> all[i].reviewId !in seen by {
          if all[i].reviewId in seen {
            var j :| 0 <= j < i && all[j].reviewId == all[i].reviewId;
            assert all[..i + 1][j] == all[j];
          }
        }
        if all[i].reviewId !in seen {
          kept := kept + [all[i]];
          seen := seen + {all[i].reviewId};
        }
      }
      assert all[..|all|] == all;
      rows := kept;
    }

    /** `df.dropna(subset=['review'], inplace=True)`. */
    method DropMissingReviews()
      modifies this
      ensures bank == old(bank)
      ensures rows == Keep(old(rows), HasReview)
    {
      rows := Keep(rows, HasReview);
    }
  }

  /** `dropna` on `review` removes nothing after cleaning, since `clean_text`
      always returns a string. */
  lemma {:induction false} NothingMissingAfterCleaning(rows: seq<Row>)
    ensures Keep(CleanColumn(rows), HasReview) == CleanColumn(rows)
  {
    KeepAllPass(CleanColumn(rows), HasReview);
  }

  /** `process_file` on the rows read from `path` (reading the CSV, selecting and
      renaming the columns, and the date conversion are not part of this model). */
  method ProcessFile(path: string, raw: seq<Row>) returns (frame: ReviewFrame)
    ensures fresh(frame)
    ensures frame.bank == Some(BankFromFileName(path))
    ensures frame.rows == FirstOccurrences(CleanColumn(raw))
    ensures UniqueIds(frame.rows)
    ensures forall row :: row in frame.rows ==> row.review.Str? && IsClean(row.review.s)
  {
    frame := new ReviewFrame(raw);
    frame.AssignBank(path);
    frame.CleanReviews();
    frame.DropDuplicateIds();
    NothingMissingAfterCleaning(raw);
    FirstOccurrencesKeepsReviews(CleanColumn(raw));
    frame.DropMissingReviews();
    FirstOccurrencesUnique(CleanColumn(raw));
  }

  lemma {:induction false} FirstOccurrencesKeepsReviews(rows: seq<Row>)
    requires forall row :: row in rows ==> HasReview(row)
    ensures Keep(FirstOccurrences(rows), HasReview) == FirstOccurrences(rows)
  {
    KeepAllPass(FirstOccurrences(rows), HasReview);
  }
}
