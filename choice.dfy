/** The word filter of the `choice` command: it validates and deduplicates the
    words a user offered before one of them is picked at random. */
module Choice {
  import opened Common

  // ---------------------------------------------------------------------------
  // String.prototype.trim
  // ---------------------------------------------------------------------------

  /** The code points `trim` strips: the ECMAScript WhiteSpace characters (TAB,
      VT, FF, SP, NBSP, ZWNBSP and the Unicode space separators) and the
      LineTerminator characters (LF, CR, LS, PS). */
  predicate IsTrimmable(c: char) {
    || c == '\t' || c == '\n' || c == '\U{000B}' || c == '\U{000C}' || c == '\r'
    || c == ' ' || c == '\U{00A0}' || c == '\U{1680}' || ('\U{2000}' <= c <= '\U{200A}')
    || c == '\U{2028}' || c == '\U{2029}' || c == '\U{202F}' || c == '\U{205F}'
    || c == '\U{3000}' || c == '\U{FEFF}'
  }

  predicate AllTrimmable(s: string) {
    forall k :: 0 <= k < |s| ==> IsTrimmable(s[k])
  }

  /** `s` without its leading whitespace. */
  function TrimStart(s: string): string {
    if s != [] && IsTrimmable(s[0]) then TrimStart(s[1..]) else s
  }

  /** `s` without its trailing whitespace. */
  function TrimEnd(s: string): string {
    if s != [] && IsTrimmable(s[|s| - 1]) then TrimEnd(s[..|s| - 1]) else s
  }

  /** `s.trim()`. */
  function Trim(s: string): string {
    TrimEnd(TrimStart(s))
  }

  lemma AllTrimmableConcat(a: string, b: string)
    requires AllTrimmable(a) && AllTrimmable(b)
    ensures AllTrimmable(a + b)
  {
    forall k | 0 <= k < |a + b| ensures IsTrimmable((a + b)[k]) {
      if k < |a| { assert (a + b)[k] == a[k]; } else { assert (a + b)[k] == b[k - |a|]; }
    }
  }

  /** TrimStart removes a whitespace prefix and stops at the first other
      character. */
  lemma {:induction false} TrimStartShape(s: string)
    ensures var r := TrimStart(s);
      && |r| <= |s| && r == s[|s| - |r|..] && AllTrimmable(s[..|s| - |r|])
      && (r != [] ==> !IsTrimmable(r[0]))
  {
    if s != [] && IsTrimmable(s[0]) {
      TrimStartShape(s[1..]);
      var r := TrimStart(s);
      assert s[1..][|s| - 1 - |r|..] == s[|s| - |r|..];
      assert s[..|s| - |r|] == [s[0]] + s[1..][..|s| - 1 - |r|];
      AllTrimmableConcat([s[0]], s[1..][..|s| - 1 - |r|]);
    } else {
      assert s[..0] == [];
    }
  }

  /** TrimEnd removes a whitespace suffix and stops at the last other
      character. */
  lemma {:induction false} TrimEndShape(s: string)
    ensures var r := TrimEnd(s);
      && |r| <= |s| && r == s[..|r|] && AllTrimmable(s[|r|..])
      && (r != [] ==> !IsTrimmable(r[|r| - 1]))
  {
    if s != [] && IsTrimmable(s[|s| - 1]) {
      var init := s[..|s| - 1];
      TrimEndShape(init);
      var r := TrimEnd(s);
      assert init[..|r|] == s[..|r|];
      assert s[|r|..] == init[|r|..] + [s[|s| - 1]];
      AllTrimmableConcat(init[|r|..], [s[|s| - 1]]);
    } else {
      assert s[|s|..] == [];
    }
  }

  /** Leading whitespace makes no difference to TrimStart. */
  lemma {:induction false} TrimStartSpaces(p: string, s: string)
    requires AllTrimmable(p)
    ensures TrimStart(p + s) == TrimStart(s)
  {
    if p != [] {
      assert (p + s)[0] == p[0];
      assert (p + s)[1..] == p[1..] + s;
      assert AllTrimmable(p[1..]) by {
        forall k | 0 <= k < |p[1..]| ensures IsTrimmable(p[1..][k]) {
          assert p[1..][k] == p[k + 1];
        }
      }
      TrimStartSpaces(p[1..], s);
    } else {
      assert p + s == s;
    }
  }

  /** Trailing whitespace makes no difference to TrimEnd. */
  lemma {:induction false} TrimEndSpaces(s: string, q: string)
    requires AllTrimmable(q)
    ensures TrimEnd(s + q) == TrimEnd(s)
  {
    if q != [] {
      var u, init := s + q, q[..|q| - 1];
      assert u[|u| - 1] == q[|q| - 1];
      assert u[..|u| - 1] == s + init;
      assert AllTrimmable(init) by {
        forall k | 0 <= k < |init| ensures IsTrimmable(init[k]) {
          assert init[k] == q[k];
        }
      }
      TrimEndSpaces(s, init);
    } else {
      assert s + q == s;
    }
  }

  /** Once a word has a character that is not whitespace, what follows it
      does not affect TrimStart. */
  lemma {:induction false} TrimStartWord(s: string, q: string)
    requires !AllTrimmable(s)
    ensures TrimStart(s + q) == TrimStart(s) + q
  {
    if IsTrimmable(s[0]) {
      assert (s + q)[1..] == s[1..] + q;
      assert !AllTrimmable(s[1..]) by {
        var k :| 0 <= k < |s| && !IsTrimmable(s[k]);
        assert s[1..][k - 1] == s[k];
      }
      TrimStartWord(s[1..], q);
    } else {
      assert (s + q)[0] == s[0];
    }
  }

  /** `trim` of a word that is all whitespace is empty. */
  lemma TrimAllSpaces(s: string)
    requires AllTrimmable(s)
    ensures Trim(s) == []
  {
    TrimStartSpaces(s, []);
    assert s + [] == s;
  }

  /** `trim` gives the empty word exactly for a word of whitespace only, and
      otherwise a word that neither starts nor ends with whitespace. */
  lemma TrimShape(s: string)
    ensures Trim(s) == [] <==> AllTrimmable(s)
    ensures Trim(s) != [] ==> !IsTrimmable(Trim(s)[0]) && !IsTrimmable(Trim(s)[|Trim(s)| - 1])
  {
    var t := TrimStart(s);
    var r := TrimEnd(t);
    TrimStartShape(s);
    TrimEndShape(t);
    if AllTrimmable(s) {
      TrimAllSpaces(s);
    } else if r == [] {
      assert t[|r|..] == t;
      assert s == s[..|s| - |t|] + t;
      AllTrimmableConcat(s[..|s| - |t|], t);
      assert false;
    } else {
      assert r[0] == t[0];
    }
  }

  /** Whitespace around a word does not change what `trim` returns. */
  lemma TrimIgnoresSurrounding(p: string, s: string, q: string)
    requires AllTrimmable(p) && AllTrimmable(q)
    ensures Trim(p + s + q) == Trim(s)
  {
    assert p + s + q == p + (s + q);
    TrimStartSpaces(p, s + q);
    if AllTrimmable(s) {
      AllTrimmableConcat(s, q);
      TrimAllSpaces(s + q);
      TrimAllSpaces(s);
    } else {
      TrimStartWord(s, q);
      TrimEndSpaces(TrimStart(s), q);
    }
  }

  /** What `trim` returns is a slice of its argument with only whitespace around it. */
  lemma TrimIsSlice(s: string)
    ensures var r := Trim(s);
      exists i :: 0 <= i <= |s| - |r| && r == s[i..i + |r|]
                  && AllTrimmable(s[..i]) && AllTrimmable(s[i + |r|..])
  {
    var t := TrimStart(s);
    var r := TrimEnd(t);
    TrimStartShape(s);
    TrimEndShape(t);
    var i := |s| - |t|;
    assert r == s[i..i + |r|];
    assert s[i + |r|..] == t[|r|..];
  }

  // ---------------------------------------------------------------------------
  // Sequences standing for insertion-ordered JavaScript sets
  // ---------------------------------------------------------------------------

  predicate NoDuplicates<T(==)>(s: seq<T>) {
    forall i, j :: 0 <= i < j < |s| ==> s[i] != s[j]
  }

  /** Position of the first occurrence of `x` in `xs`. */
  function IndexOf<T(==)>(xs: seq<T>, x: T): (i: nat)
    requires x in xs
    ensures i < |xs| && xs[i] == x && x !in xs[..i]
  {
    if xs[0] == x then 0
    else
      var i := IndexOf(xs[1..], x);
      assert xs[..i + 1] == [xs[0]] + xs[1..][..i];
      1 + i
  }

  lemma {:induction false} IndexOfUnique<T>(xs: seq<T>, x: T, i: nat)
    requires i < |xs| && xs[i] == x && x !in xs[..i]
    ensures IndexOf(xs, x) == i
  {
    if i > 0 {
      assert xs[..i][0] == xs[0];
      assert xs[1..][..i - 1] == xs[..i][1..];
      IndexOfUnique(xs[1..], x, i - 1);
    }
  }

  /** Appending after an element's first occurrence does not move it. */
  lemma IndexOfAppend<T>(xs: seq<T>, ys: seq<T>, x: T)
    requires x in xs
    ensures x in xs + ys && IndexOf(xs + ys, x) == IndexOf(xs, x)
  {
    var i := IndexOf(xs, x);
    assert (xs + ys)[..i] == xs[..i];
    IndexOfUnique(xs + ys, x, i);
  }

  /** An element new to `xs` first occurs at position `|xs|` of `xs + [x]`. */
  lemma IndexOfNew<T>(xs: seq<T>, x: T)
    requires x !in xs
    ensures IndexOf(xs + [x], x) == |xs|
  {
    assert (xs + [x])[..|xs|] == xs;
    IndexOfUnique(xs + [x], x, |xs|);
  }

  /** Each distinct element of `xs` once, in the order of first occurrence:
      the contents of a `Set` into which `xs` was added element by element. */
  function FirstOccurrences<T(==,!new)>(xs: seq<T>): (r: seq<T>)
    ensures NoDuplicates(r)
    ensures forall x :: x in r <==> x in xs
  {
    if xs == [] then []
    else
      var init, x := xs[..|xs| - 1], xs[|xs| - 1];
      assert xs == init + [x];
      if x in init then FirstOccurrences(init) else FirstOccurrences(init) + [x]
  }

  /** The elements of `xs` that occur again after their first occurrence,
      each once, in the order of their second occurrence: the words the loop
      adds to `filtered`. */
  function Repeats<T(==,!new)>(xs: seq<T>): (r: seq<T>)
    ensures NoDuplicates(r)
    ensures forall x :: x in r <==> multiset(xs)[x] >= 2
  {
    if xs == [] then []
    else
      var init, x := xs[..|xs| - 1], xs[|xs| - 1];
      assert xs == init + [x];
      assert multiset(xs) == multiset(init) + multiset{x};
      var r := Repeats(init);
      if x in init && x !in r then r + [x] else r
  }

  lemma FirstOccurrencesSnoc<T(!new)>(xs: seq<T>, x: T)
    ensures FirstOccurrences(xs + [x]) == if x in xs then FirstOccurrences(xs) else FirstOccurrences(xs) + [x]
  {
    assert (xs + [x])[..|xs|] == xs;
  }

  lemma RepeatsSnoc<T(!new)>(xs: seq<T>, x: T)
    ensures Repeats(xs + [x]) == if x in xs && x !in Repeats(xs) then Repeats(xs) + [x] else Repeats(xs)
  {
    assert (xs + [x])[..|xs|] == xs;
  }

  /** FirstOccurrences keeps the order in which elements first occur in `xs`. */
  lemma {:induction false} FirstOccurrencesOrdered<T(!new)>(xs: seq<T>)
    ensures forall a, b :: 0 <= a < b < |FirstOccurrences(xs)| ==>
      IndexOf(xs, FirstOccurrences(xs)[a]) < IndexOf(xs, FirstOccurrences(xs)[b])
  {
    if xs != [] {
      var init, x := xs[..|xs| - 1], xs[|xs| - 1];
      assert xs == init + [x];
      FirstOccurrencesOrdered(init);
      var r0, r := FirstOccurrences(init), FirstOccurrences(xs);
      forall y | y in init ensures IndexOf(xs, y) == IndexOf(init, y) {
        IndexOfAppend(init, [x], y);
      }
      if x !in init {
        IndexOfNew(init, x);
        assert r == r0 + [x];
        forall a, b | 0 <= a < b < |r| ensures IndexOf(xs, r[a]) < IndexOf(xs, r[b]) {
          assert r[a] == r0[a] && r[a] in init;
          if b < |r0| { assert r[b] == r0[b]; }
        }
      }
    }
  }

  // ---------------------------------------------------------------------------
  // The filter
  // ---------------------------------------------------------------------------

  /** Every raw word trimmed, empty or not, in input order. */
  function Trimmed(words: seq<string>): (r: seq<string>)
    ensures |r| == |words| && forall i :: 0 <= i < |words| ==> r[i] == Trim(words[i])
  {
    seq(|words|, i requires 0 <= i < |words| => Trim(words[i]))
  }

  /** The non-empty words of `ts`, in order. */
  function NonEmpty(ts: seq<string>): (r: seq<string>)
    ensures forall w :: w in r <==> w != [] && w in ts
  {
    if ts == [] then []
    else
      var init, t := ts[..|ts| - 1], ts[|ts| - 1];
      assert ts == init + [t];
      NonEmpty(init) + (if t == [] then [] else [t])
  }

  /** The words the loop body gets past its `continue`: the non-empty trimmed
      words, in input order. */
  function Candidates(words: seq<string>): (r: seq<string>)
    ensures forall w :: w in r <==> w != [] && w in Trimmed(words)
  {
    NonEmpty(Trimmed(words))
  }

  lemma NonEmptySnoc(ts: seq<string>, t: string)
    ensures NonEmpty(ts + [t]) == NonEmpty(ts) + (if t == [] then [] else [t])
  {
    assert (ts + [t])[..|ts|] == ts;
  }

  lemma TrimmedSnoc(words: seq<string>, i: nat)
    requires i < |words|
    ensures Trimmed(words[..i + 1]) == Trimmed(words[..i]) + [Trim(words[i])]
  {
  }

  lemma CandidatesSnoc(words: seq<string>, i: nat)
    requires i < |words|
    ensures Trim(words[i]) == [] ==> Candidates(words[..i + 1]) == Candidates(words[..i])
    ensures Trim(words[i]) != [] ==> Candidates(words[..i + 1]) == Candidates(words[..i]) + [Trim(words[i])]
  {
    TrimmedSnoc(words, i);
    NonEmptySnoc(Trimmed(words[..i]), Trim(words[i]));
  }

  /** Dropping empty words keeps the count of every non-empty word. */
  lemma {:induction false} NonEmptyCount(ts: seq<string>, x: string)
    requires x != []
    ensures multiset(NonEmpty(ts))[x] == multiset(ts)[x]
  {
    if ts != [] {
      var init, t := ts[..|ts| - 1], ts[|ts| - 1];
      assert ts == init + [t];
      NonEmptyCount(init, x);
    }
  }

  /** One step of NonEmptyKeepOrder: appending a word, kept only when non-empty. */
  lemma KeepOrderStep(c0: seq<string>, t0: seq<string>, word: string, x: string, y: string)
    requires forall z :: z in c0 <==> z != [] && z in t0
    requires var c := c0 + (if word == [] then [] else [word]); x in c && y in c
    requires x in c0 && y in c0 ==>
      (IndexOf(c0, x) < IndexOf(c0, y) <==> IndexOf(t0, x) < IndexOf(t0, y))
    ensures var c := c0 + (if word == [] then [] else [word]);
      x in t0 + [word] && y in t0 + [word] &&
      (IndexOf(c, x) < IndexOf(c, y) <==> IndexOf(t0 + [word], x) < IndexOf(t0 + [word], y))
  {
    var extra := if word == [] then [] else [word];
    var c := c0 + extra;
    if x in c0 {
      IndexOfAppend(c0, extra, x);
      IndexOfAppend(t0, [word], x);
    }
    if y in c0 {
      IndexOfAppend(c0, extra, y);
      IndexOfAppend(t0, [word], y);
    }
    if x !in c0 || y !in c0 {
      assert extra == [word] && word !in c0 && word !in t0;
      IndexOfNew(c0, word);
      IndexOfNew(t0, word);
    }
  }

  /** Dropping the empty words keeps the relative order of first occurrences. */
  lemma {:induction false} NonEmptyKeepOrder(ts: seq<string>, x: string, y: string)
    requires x in NonEmpty(ts) && y in NonEmpty(ts)
    ensures IndexOf(NonEmpty(ts), x) < IndexOf(NonEmpty(ts), y)
        <==> IndexOf(ts, x) < IndexOf(ts, y)
  {
    var init, t := ts[..|ts| - 1], ts[|ts| - 1];
    assert ts == init + [t];
    NonEmptySnoc(init, t);
    if x in NonEmpty(init) && y in NonEmpty(init) {
      NonEmptyKeepOrder(init, x, y);
    }
    KeepOrderStep(NonEmpty(init), init, t, x, y);
  }

  /** The separator of `[...filtered].join("', '")`. */
  const DuplicatesSeparator: string := "', '"

  /** `Array.prototype.join`. */
  function Join(parts: seq<string>, sep: string): string {
    if |parts| == 0 then ""
    else if |parts| == 1 then parts[0]
    else parts[0] + sep + Join(parts[1..], sep)
  }

  /** Joining one more part appends the separator and that part. */
  lemma {:induction false} JoinSnoc(parts: seq<string>, p: string, sep: string)
    requires parts != []
    ensures Join(parts + [p], sep) == Join(parts, sep) + sep + p
  {
    if |parts| == 1 {
      assert (parts + [p])[1..] == [p];
    } else {
      assert (parts + [p])[1..] == parts[1..] + [p];
      JoinSnoc(parts[1..], p, sep);
    }
  }

  /** The errors `filterWords` raises: the `ChoiceMissing` and
      `ChoiceDuplicates` language keys, the latter with its `words` argument. */
  datatype ChoiceError = ChoiceMissing | ChoiceDuplicates(words: string)

  /** What `filterWords` returns or raises for the split arguments `words`. */
  function FilterResult(words: seq<string>): Result<seq<string>, ChoiceError> {
    if |words| < 2 then Err(ChoiceMissing)
    else
      var output := FirstOccurrences(Candidates(words));
      if |output| >= 2 then Ok(output)
      else Err(ChoiceDuplicates(Join(Repeats(Candidates(words)), DuplicatesSeparator)))
  }

  /** `output` and `filtered` after the loop has gone through `words`. */
  function Scan(words: seq<string>): (sets: (seq<string>, seq<string>))
  {
    if words == [] then ([], [])
    else
      var (output, filtered) := Scan(words[..|words| - 1]);
      var word := Trim(words[|words| - 1]);
      if word == [] then (output, filtered)
      else if word in output then (output, if word in filtered then filtered else filtered + [word])
      else (output + [word], filtered)
  }

  /** The loop's two sets are the first occurrences and the repeats of the
      words that get past the `continue`. */
  lemma {:induction false} ScanSets(words: seq<string>)
    ensures Scan(words) == (FirstOccurrences(Candidates(words)), Repeats(Candidates(words)))
  {
    if words != [] {
      var n := |words| - 1;
      var init := words[..n];
      ScanSets(init);
      assert words[..n + 1] == words;
      CandidatesSnoc(words, n);
      var seen, word := Candidates(init), Trim(words[n]);
      if word != [] {
        FirstOccurrencesSnoc(seen, word);
        RepeatsSnoc(seen, word);
      }
    }
  }

  /** `filterWords`: one pass over the raw words filling `output` and
      `filtered`, then the size check. */
  method FilterWords(words: seq<string>) returns (r: Result<seq<string>, ChoiceError>)
    ensures r == FilterResult(words)
  {
    if |words| < 2 {
      return Err(ChoiceMissing);
    }
    var output: seq<string> := [];
    var filtered: seq<string> := [];
    for i := 0 to |words|
      invariant (output, filtered) == Scan(words[..i])
    {
      assert words[..i + 1][..i] == words[..i];
      var word := Trim(words[i]);
      if word == [] {
        continue;
      }
      if word in output {
        filtered := if word in filtered then filtered else filtered + [word];
      } else {
        output := output + [word];
      }
    }
    assert words[..|words|] == words;
    ScanSets(words);
    if |output| >= 2 {
      return Ok(output);
    }
    return Err(ChoiceDuplicates(Join(filtered, DuplicatesSeparator)));
  }

  // ---------------------------------------------------------------------------
  // Properties of the filter
  // ---------------------------------------------------------------------------

  /** The "missing" error is raised exactly when fewer than two raw words
      were given, whatever they contain. */
  lemma FilterMissing(words: seq<string>)
    ensures FilterResult(words) == Err(ChoiceMissing) <==> |words| < 2
  {
  }

  /** A success lists at least two words, each non-empty, each the trimmed
      form of some raw word, none twice, and every non-empty trimmed word
      among them. */
  lemma FilterSuccess(words: seq<string>)
    ensures FilterResult(words).Ok? ==>
      var out := FilterResult(words).value;
      && |out| >= 2
      && NoDuplicates(out)
      && (forall w :: w in out ==> w != [] && exists i :: 0 <= i < |words| && Trim(words[i]) == w)
      && (forall i :: 0 <= i < |words| && Trim(words[i]) != [] ==> Trim(words[i]) in out)
  {
    if FilterResult(words).Ok? {
      var out := FilterResult(words).value;
      forall w | w in out ensures exists i :: 0 <= i < |words| && Trim(words[i]) == w {
        var i :| 0 <= i < |Trimmed(words)| && Trimmed(words)[i] == w;
      }
    }
  }

  /** A success lists the words in the order of their first occurrence among
      the trimmed raw words. */
  lemma FilterSuccessOrder(words: seq<string>)
    ensures FilterResult(words).Ok? ==>
      var out := FilterResult(words).value;
      forall a, b :: 0 <= a < b < |out| ==>
        IndexOf(Trimmed(words), out[a]) < IndexOf(Trimmed(words), out[b])
  {
    if FilterResult(words).Ok? {
      var c := Candidates(words);
      var out := FirstOccurrences(c);
      FirstOccurrencesOrdered(c);
      forall a, b | 0 <= a < b < |out|
        ensures IndexOf(Trimmed(words), out[a]) < IndexOf(Trimmed(words), out[b])
      {
        NonEmptyKeepOrder(Trimmed(words), out[a], out[b]);
      }
    }
  }

  /** A word lands in `filtered` exactly when it is non-empty and at least two
      raw words trim to it. */
  lemma FilteredIffRepeated(words: seq<string>, x: string)
    ensures x in Repeats(Candidates(words)) <==> x != [] && multiset(Trimmed(words))[x] >= 2
  {
    if x != [] {
      NonEmptyCount(Trimmed(words), x);
    } else {
      assert x !in Candidates(words);
    }
  }

  /** A sequence without duplicates has as many distinct elements as it is long. */
  lemma {:induction false} DistinctCard<T>(xs: seq<T>)
    requires NoDuplicates(xs)
    ensures |set x | x in xs| == |xs|
  {
    if xs != [] {
      var init, last := xs[..|xs| - 1], xs[|xs| - 1];
      assert xs == init + [last];
      DistinctCard(init);
      assert (set x | x in xs) == (set x | x in init) + {last};
    }
  }

  /** A sequence without duplicates whose elements all occur in another
      sequence without duplicates is at most as long. */
  lemma DistinctWithin<T>(a: seq<T>, b: seq<T>)
    requires NoDuplicates(a) && NoDuplicates(b)
    requires forall x :: x in a ==> x in b
    ensures |a| <= |b|
  {
    DistinctCard(a);
    DistinctCard(b);
    var sa, sb := set x | x in a, set x | x in b;
    assert sb == sa + (sb - sa);
  }

  /** With two or more raw words, the "duplicates" error is raised exactly
      when fewer than two distinct non-empty trimmed words remain. It carries
      the repeated words joined by `', '`; there is at most one of them, so
      the argument is that word or empty and never holds the separator. */
  lemma FilterDuplicates(words: seq<string>)
    requires |words| >= 2
    ensures FilterResult(words).Err? <==> |set w | w in Candidates(words)| < 2
    ensures FilterResult(words).Err? ==>
      var rep := Repeats(Candidates(words));
      && |rep| <= 1
      && FilterResult(words).error == ChoiceDuplicates(Join(rep, DuplicatesSeparator))
      && FilterResult(words).error.words == (if rep == [] then "" else rep[0])
  {
    var c := Candidates(words);
    var out, rep := FirstOccurrences(c), Repeats(c);
    DistinctCard(out);
    assert (set w | w in c) == (set w | w in out);
    DistinctWithin(rep, out);
  }

  /** Two raw words that differ only by surrounding whitespace give one entry
      of a successful result. */
  lemma FilterCollapsesWhitespace(words: seq<string>, i: nat, j: nat, p: string, q: string)
    requires i < |words| && j < |words| && Trim(words[i]) != []
    requires words[j] == p + words[i] + q && AllTrimmable(p) && AllTrimmable(q)
    ensures Trim(words[j]) == Trim(words[i])
    ensures FilterResult(words).Ok? ==>
      var out := FilterResult(words).value;
      && Trim(words[i]) in out
      && forall a, b :: 0 <= a < |out| && 0 <= b < |out| && out[a] == Trim(words[i]) && out[b] == Trim(words[j]) ==> a == b
  {
    TrimIgnoresSurrounding(p, words[i], q);
  }
}
