/**
 * `SpamChecking`: a `Perceptron1L<String>` whose constructors pick the
 * labels "spam" and "ham", and which turns a sentence into its tokens by
 * lower-casing it and splitting it with Java's `split("\\W+")`.
 *
 * The subclass adds no state, so its constructors are modelled as methods
 * that build and return a `Perceptron1L<string>`.
 *
 * `\W` is every character outside `[A-Za-z0-9_]`. Java's `split` with no
 * limit cuts at every maximal run of such characters, keeps a leading empty
 * token (the input starts with a separator), drops every trailing empty
 * token, and returns the input itself when no separator occurs.
 */
module SpamChecking {
  import opened FrequencyTable
  import opened Perceptrons

  /** The characters `\w` matches. */
  predicate IsWordChar(c: char)
  {
    'a' <= c <= 'z' || 'A' <= c <= 'Z' || '0' <= c <= '9' || c == '_'
  }

  predicate IsUpper(c: char)
  {
    'A' <= c <= 'Z'
  }

  /** `Character.toLowerCase` on the ASCII letters; other characters are kept. */
  function LowerChar(c: char): (r: char)
    ensures !IsUpper(r)
    ensures IsWordChar(r) == IsWordChar(c)
    ensures !IsUpper(c) ==> r == c
  {
    if IsUpper(c) then (c as int + 32) as char else c
  }

  /** `String.toLowerCase`, character by character. */
  function Lower(s: string): (r: string)
    ensures |r| == |s|
    ensures forall i :: 0 <= i < |s| ==> r[i] == LowerChar(s[i])
    ensures NoUpper(r)
    ensures NoUpper(s) ==> r == s
  {
    seq(|s|, i requires 0 <= i < |s| => LowerChar(s[i]))
  }

  /**
   * The length of the longest prefix of `s` whose characters are word
   * characters (`word`) or separators (`!word`).
   */
  function Run(s: string, word: bool): (n: nat)
    ensures n <= |s|
    ensures forall i :: 0 <= i < n ==> IsWordChar(s[i]) == word
    ensures n < |s| ==> IsWordChar(s[n]) != word
    decreases |s|
  {
    if s == [] || IsWordChar(s[0]) != word then 0 else 1 + Run(s[1..], word)
  }

  /**
   * The pieces between the maximal separator runs of `s`, empty ones
   * included: what `split` computes before it drops trailing empty tokens.
   */
  function Fields(s: string): seq<string>
    decreases |s|
  {
    if Run(s, true) == |s| then [s] else [s[..Run(s, true)]] + Fields(AfterSeparator(s))
  }

  /**
   * What follows the first separator run of `s`: a suffix that is empty or
   * starts with a word character, with only separators between it and the
   * leading word.
   */
  function AfterSeparator(s: string): (t: string)
    requires Run(s, true) < |s|
    ensures |t| < |s| - Run(s, true)
    ensures t == s[|s| - |t|..]
    ensures t == [] || IsWordChar(t[0])
    ensures forall i :: Run(s, true) <= i < |s| - |t| ==> !IsWordChar(s[i])
  {
    var w := Run(s, true);
    assert s[w..][0] == s[w];
    var g := Run(s[w..], false);
    assert forall i :: w <= i < w + g ==> s[i] == s[w..][i - w];
    s[w + g..]
  }

  /** The list without its trailing empty strings. */
  function DropTrailingEmpty(xs: seq<string>): (r: seq<string>)
    ensures |r| <= |xs| && r == xs[..|r|]
    ensures r == [] || r[|r| - 1] != ""
    ensures forall i :: |r| <= i < |xs| ==> xs[i] == ""
    decreases |xs|
  {
    if xs == [] then []
    else if xs[|xs| - 1] == "" then DropTrailingEmpty(xs[..|xs| - 1])
    else xs
  }

  predicate HasSeparator(s: string)
  {
    exists i :: 0 <= i < |s| && !IsWordChar(s[i])
  }

  /**
   * `s.split("\\W+")`: the input itself when it has no separator;
   * otherwise the pieces between its separator runs, with the trailing
   * empty pieces removed.
   */
  function JavaSplit(s: string): (r: seq<string>)
    ensures !HasSeparator(s) ==> r == [s]
    ensures HasSeparator(s) ==> |r| <= |Fields(s)| && r == Fields(s)[..|r|]
    ensures HasSeparator(s) ==> forall i :: |r| <= i < |Fields(s)| ==> Fields(s)[i] == ""
    ensures HasSeparator(s) ==> r == [] || r[|r| - 1] != ""
  {
    if HasSeparator(s) then DropTrailingEmpty(Fields(s)) else [s]
  }

  /**
   * `sentenceToWords`: the tokens of the lower-cased sentence. Lower-casing
   * moves no separator, so a sentence without one is a single token.
   */
  function SentenceToWords(s: string): (r: seq<string>)
    ensures !HasSeparator(s) ==> r == [Lower(s)]
    ensures HasSeparator(s) ==> r == [] || r[|r| - 1] != ""
  {
    LowerKeepsSeparators(s);
    JavaSplit(Lower(s))
  }

  /** Lower-casing keeps every separator a separator and every word character a word character. */
  lemma LowerKeepsSeparators(s: string)
    ensures HasSeparator(Lower(s)) == HasSeparator(s)
  {
    assert forall i :: 0 <= i < |s| ==> IsWordChar(Lower(s)[i]) == IsWordChar(s[i]);
  }

  /** The tokens written one after the other. */
  function Flatten(xs: seq<string>): string
    decreases |xs|
  {
    if xs == [] then [] else xs[0] + Flatten(xs[1..])
  }

  /** The word characters of `s`, in order. */
  function WordChars(s: string): string
    decreases |s|
  {
    if s == [] then [] else (if IsWordChar(s[0]) then [s[0]] else []) + WordChars(s[1..])
  }

  /** Words separated by single spaces. */
  function JoinSpaces(ws: seq<string>): string
    requires ws != []
    decreases |ws|
  {
    if |ws| == 1 then ws[0] else ws[0] + " " + JoinSpaces(ws[1..])
  }

  /**
   * The separator runs of `s`, in order: where `split` cuts. `Fields(s)`
   * holds what lies between them.
   */
  function Gaps(s: string): seq<string>
    decreases |s|
  {
    if Run(s, true) == |s| then []
    else [s[Run(s, true)..|s| - |AfterSeparator(s)|]] + Gaps(AfterSeparator(s))
  }

  /** `pieces[0] + gaps[0] + pieces[1] + gaps[1] + ... + pieces[|gaps|]`. */
  function Weave(pieces: seq<string>, gaps: seq<string>): string
    requires |pieces| == |gaps| + 1
    decreases |gaps|
  {
    if gaps == [] then pieces[0] else pieces[0] + gaps[0] + Weave(pieces[1..], gaps[1..])
  }

  /** A non-empty run of separators. */
  predicate Gap(g: string)
  {
    g != [] && Separators(g)
  }

  /**
   * `pieces` and `gaps` cut a string at its maximal separator runs: the
   * pieces hold word characters only, the gaps separators only, and only
   * the first and the last piece may be empty.
   */
  predicate Cut(pieces: seq<string>, gaps: seq<string>)
  {
    && |pieces| == |gaps| + 1
    && (forall i :: 0 <= i < |pieces| ==> WordOnly(pieces[i]))
    && (forall i :: 1 <= i < |pieces| - 1 ==> pieces[i] != "")
    && (forall i :: 0 <= i < |gaps| ==> Gap(gaps[i]))
  }

  // ---------------------------------------------------------------------
  // Constructors
  // ---------------------------------------------------------------------

  /**
   * `new SpamChecking()`: the superclass constructor runs first, then a
   * fresh table, the labels "spam" and "ham" and a zero success total.
   */
  method Create() returns (p: Perceptron1L<string>)
    ensures fresh(p) && fresh(p.rep) && p.rep.entries == map[]
    ensures p.success == "spam" && p.fail == "ham"
    ensures p.succeedTotal == 0 && p.failTotal == 0
  {
    p := new Perceptron1L<string>();
    p.rep := new CountTable();
    p.SetSuccessAndFail("spam", "ham");
    p.succeedTotal := 0;
  }

  /** `new SpamChecking(successName, failName)`. */
  method CreateNamed(successName: string, failName: string) returns (p: Perceptron1L<string>)
    ensures fresh(p) && fresh(p.rep) && p.rep.entries == map[]
    ensures p.success == successName && p.fail == failName
    ensures p.succeedTotal == 0 && p.failTotal == 0
  {
    p := new Perceptron1L<string>();
    p.rep := new CountTable();
    p.SetSuccessAndFail(successName, failName);
    p.succeedTotal := 0;
    p.failTotal := 0;
  }

  /**
   * `new SpamChecking(succName, failName, loader)`: the loader's own table
   * object (shared, not copied) and its totals, under the given labels.
   */
  method CreateLoaded(succName: string, failName: string, loader: Perceptron1L<string>)
    returns (p: Perceptron1L<string>)
    ensures fresh(p)
    ensures p.rep == loader.rep
    ensures p.success == succName && p.fail == failName
    ensures p.succeedTotal == loader.succeedTotal && p.failTotal == loader.failTotal
  {
    p := new Perceptron1L<string>();
    p.SetSuccessAndFail(succName, failName);
    p.rep := loader.GetRep();
    p.succeedTotal := loader.succeedTotal;
    p.failTotal := loader.failTotal;
  }

  /** `newInstance()`: a fresh default spam checker; the receiver plays no part. */
  method NewInstance() returns (p: Perceptron1L<string>)
    ensures fresh(p) && fresh(p.rep) && p.rep.entries == map[]
    ensures p.success == "spam" && p.fail == "ham"
    ensures p.succeedTotal == 0 && p.failTotal == 0
  {
    p := Create();
  }

  // ---------------------------------------------------------------------
  // Facts about the splitting
  // ---------------------------------------------------------------------

  /** Word characters only. */
  predicate WordOnly(w: string)
  {
    forall j :: 0 <= j < |w| ==> IsWordChar(w[j])
  }

  /** Separators only: a (possibly empty) run of what `\W` matches. */
  predicate Separators(g: string)
  {
    forall j :: 0 <= j < |g| ==> !IsWordChar(g[j])
  }

  /** No upper-case ASCII letter. */
  predicate NoUpper(w: string)
  {
    forall j :: 0 <= j < |w| ==> !IsUpper(w[j])
  }

  /** A non-empty lower-case word: what a token of `sentenceToWords` looks like. */
  predicate LowerWord(w: string)
  {
    w != [] && WordOnly(w) && NoUpper(w)
  }

  predicate HasWord(s: string)
  {
    exists i :: 0 <= i < |s| && IsWordChar(s[i])
  }

  /** The leading word of `s` holds word characters only. */
  lemma {:induction false} LeadingWord(s: string)
    ensures WordOnly(s[..Run(s, true)])
  {
    var w := Run(s, true);
    forall j | 0 <= j < w
      ensures IsWordChar(s[..w][j])
    {
      assert s[..w][j] == s[j];
    }
  }

  /** Pieces of a string without upper-case letters have none either. */
  lemma {:induction false} NoUpperSlice(s: string, lo: nat, hi: nat)
    requires lo <= hi <= |s| && NoUpper(s)
    ensures NoUpper(s[lo..hi])
  {
    forall j | 0 <= j < hi - lo
      ensures !IsUpper(s[lo..hi][j])
    {
      assert s[lo..hi][j] == s[lo + j];
    }
  }

  /** A word, a separator run and a rest that starts with a word character (or is empty). */
  lemma {:induction false} FieldsCons(w: string, g: string, rest: string)
    requires WordOnly(w)
    requires g != [] && Separators(g)
    requires rest == [] || IsWordChar(rest[0])
    ensures Fields(w + g + rest) == [w] + Fields(rest)
    ensures Gaps(w + g + rest) == [g] + Gaps(rest)
  {
    var s := w + g + rest;
    var n := Run(s, true);
    assert s[|w|] == g[0];
    assert forall i :: 0 <= i < |w| ==> s[i] == w[i];
    assert n == |w|;
    var t := AfterSeparator(s);
    assert |t| == |rest| by {
      assert |w| + |g| < |s| ==> s[|w| + |g|] == rest[0];
      assert forall i :: |w| <= i < |w| + |g| ==> s[i] == g[i - |w|];
    }
    assert t == rest;
    assert s[..n] == w;
    assert s[n..|s| - |t|] == g;
  }

  /**
   * Every piece holds word characters only, and has no upper-case letter
   * when `s` has none.
   */
  lemma {:induction false} FieldsChars(s: string)
    ensures forall i :: 0 <= i < |Fields(s)| ==> WordOnly(Fields(s)[i])
    ensures NoUpper(s) ==> forall i :: 0 <= i < |Fields(s)| ==> NoUpper(Fields(s)[i])
    decreases |s|
  {
    var w := Run(s, true);
    LeadingWord(s);
    if w == |s| {
      assert s[..w] == s;
    } else {
      var rest := AfterSeparator(s);
      FieldsChars(rest);
      if NoUpper(s) {
        NoUpperSlice(s, 0, w);
        NoUpperSlice(s, |s| - |rest|, |s|);
      }
      var f := Fields(s);
      assert f == [s[..w]] + Fields(rest);
      assert f[0] == s[..w];
      assert f[1..] == Fields(rest);
    }
  }

  /** After a separator run, every piece but the last is non-empty. */
  lemma {:induction false} FieldsAfterSeparator(s: string)
    requires s == [] || IsWordChar(s[0])
    ensures forall i :: 0 <= i < |Fields(s)| - 1 ==> Fields(s)[i] != ""
    decreases |s|
  {
    var w := Run(s, true);
    if w < |s| {
      var rest := AfterSeparator(s);
      FieldsAfterSeparator(rest);
      var f := Fields(s);
      assert f == [s[..w]] + Fields(rest);
      assert f[0] == s[..w] && |f[0]| > 0;
      assert f[1..] == Fields(rest);
    }
  }

  /**
   * Only the first and the last piece can be empty; the first is empty
   * exactly when `s` starts with a separator.
   */
  lemma {:induction false} FieldsShape(s: string)
    ensures Fields(s) != []
    ensures forall i :: 1 <= i < |Fields(s)| - 1 ==> Fields(s)[i] != ""
    ensures s != [] ==> (Fields(s)[0] == "" <==> !IsWordChar(s[0]))
  {
    var w := Run(s, true);
    if w < |s| {
      var rest := AfterSeparator(s);
      FieldsAfterSeparator(rest);
      var f := Fields(s);
      assert f == [s[..w]] + Fields(rest);
      assert f[0] == s[..w];
      assert f[1..] == Fields(rest);
    }
  }

  lemma {:induction false} FlattenAppend(a: seq<string>, b: seq<string>)
    ensures Flatten(a + b) == Flatten(a) + Flatten(b)
    decreases |a|
  {
    if a != [] {
      assert (a + b)[0] == a[0];
      assert (a + b)[1..] == a[1..] + b;
      FlattenAppend(a[1..], b);
    } else {
      assert a + b == b;
    }
  }

  lemma {:induction false} WordCharsAppend(a: string, b: string)
    ensures WordChars(a + b) == WordChars(a) + WordChars(b)
    decreases |a|
  {
    if a != [] {
      assert (a + b)[0] == a[0];
      assert (a + b)[1..] == a[1..] + b;
      WordCharsAppend(a[1..], b);
    } else {
      assert a + b == b;
    }
  }

  lemma {:induction false} WordCharsOfWord(w: string)
    requires WordOnly(w)
    ensures WordChars(w) == w
    decreases |w|
  {
    if w != [] {
      WordCharsOfWord(w[1..]);
    }
  }

  lemma {:induction false} WordCharsOfSeparators(g: string)
    requires Separators(g)
    ensures WordChars(g) == ""
    decreases |g|
  {
    if g != [] {
      WordCharsOfSeparators(g[1..]);
    }
  }

  lemma {:induction false} WordCharsNonEmpty(s: string, k: nat)
    requires k < |s| && IsWordChar(s[k])
    ensures WordChars(s) != ""
    decreases |s|
  {
    if k > 0 {
      WordCharsNonEmpty(s[1..], k - 1);
    }
  }

  /** The word characters of a word, a separator run and a rest. */
  lemma {:induction false} WordCharsOfPiece(w: string, g: string, rest: string)
    requires WordOnly(w) && Separators(g)
    ensures WordChars(w + g + rest) == w + WordChars(rest)
  {
    WordCharsAppend(w + g, rest);
    WordCharsAppend(w, g);
    WordCharsOfWord(w);
    WordCharsOfSeparators(g);
  }

  /** The word characters of `s`: its leading word, then those after the first separator run. */
  lemma {:induction false} WordCharsAtSeparator(s: string)
    requires Run(s, true) < |s|
    ensures WordChars(s) == s[..Run(s, true)] + WordChars(AfterSeparator(s))
  {
    var w := Run(s, true);
    var rest := AfterSeparator(s);
    LeadingWord(s);
    var g := s[w..|s| - |rest|];
    assert s == s[..w] + g + rest;
    assert forall i :: 0 <= i < |g| ==> g[i] == s[w + i];
    WordCharsOfPiece(s[..w], g, rest);
  }

  /** Written one after the other, the pieces are exactly the word characters of `s`. */
  lemma {:induction false} FieldsFlatten(s: string)
    ensures Flatten(Fields(s)) == WordChars(s)
    decreases |s|
  {
    var w := Run(s, true);
    LeadingWord(s);
    if w == |s| {
      assert s[..w] == s;
      WordCharsOfWord(s);
      assert Flatten([s]) == s + Flatten([]);
    } else {
      var rest := AfterSeparator(s);
      FieldsFlatten(rest);
      WordCharsAtSeparator(s);
      var f := Fields(s);
      assert f == [s[..w]] + Fields(rest);
      assert f[0] == s[..w];
      assert f[1..] == Fields(rest);
    }
  }

  lemma {:induction false} FlattenOfEmpties(xs: seq<string>)
    requires forall i :: 0 <= i < |xs| ==> xs[i] == ""
    ensures Flatten(xs) == ""
    decreases |xs|
  {
    if xs != [] {
      FlattenOfEmpties(xs[1..]);
    }
  }

  lemma {:induction false} FlattenNonEmpty(xs: seq<string>, k: nat)
    requires k < |xs| && xs[k] != ""
    ensures Flatten(xs) != ""
    decreases |xs|
  {
    if k > 0 {
      FlattenNonEmpty(xs[1..], k - 1);
    }
  }

  /** Dropping empty tokens at the end changes nothing in the concatenation. */
  lemma {:induction false} DropTrailingFlatten(xs: seq<string>)
    ensures Flatten(DropTrailingEmpty(xs)) == Flatten(xs)
  {
    var r := DropTrailingEmpty(xs);
    var tail := xs[|r|..];
    assert xs == r + tail;
    FlattenAppend(r, tail);
    FlattenOfEmpties(tail);
  }

  /** Written one after the other, the tokens of `split` are exactly the word characters of the input. */
  lemma {:induction false} JavaSplitFlatten(s: string)
    ensures Flatten(JavaSplit(s)) == WordChars(s)
  {
    if HasSeparator(s) {
      FieldsFlatten(s);
      DropTrailingFlatten(Fields(s));
    } else {
      assert WordOnly(s);
      WordCharsOfWord(s);
      assert Flatten([s]) == s + Flatten([]);
    }
  }

  /**
   * Every token of `split` holds word characters only (and no upper-case
   * letter when the input has none), and no token after the first is empty.
   */
  lemma {:induction false} JavaSplitTokens(s: string)
    ensures forall i :: 0 <= i < |JavaSplit(s)| ==> WordOnly(JavaSplit(s)[i])
    ensures NoUpper(s) ==> forall i :: 0 <= i < |JavaSplit(s)| ==> NoUpper(JavaSplit(s)[i])
    ensures forall i :: 1 <= i < |JavaSplit(s)| ==> JavaSplit(s)[i] != ""
  {
    var t := JavaSplit(s);
    if HasSeparator(s) {
      var f := Fields(s);
      assert t == f[..|t|];
      FieldsChars(s);
      FieldsShape(s);
      forall i | 0 <= i < |t|
        ensures WordOnly(t[i]) && (NoUpper(s) ==> NoUpper(t[i])) && (i >= 1 ==> t[i] != "")
      {
        assert t[i] == f[i];
      }
    } else {
      assert t == [s];
      assert WordOnly(s);
    }
  }

  /**
   * The first token is empty exactly when the input starts with a
   * separator and has a word character somewhere; with none, the result is
   * one empty token for the empty input and no token at all otherwise; a
   * split at a separator never ends with an empty token.
   */
  lemma {:induction false} JavaSplitEnds(s: string)
    ensures s == [] ==> JavaSplit(s) == [""]
    ensures s != [] && !HasWord(s) ==> JavaSplit(s) == []
    ensures HasWord(s) ==> JavaSplit(s) != [] && (JavaSplit(s)[0] == "" <==> !IsWordChar(s[0]))
    ensures HasSeparator(s) ==> JavaSplit(s) == [] || JavaSplit(s)[|JavaSplit(s)| - 1] != ""
  {
    var t := JavaSplit(s);
    JavaSplitFlatten(s);
    if t != [] && t[|t| - 1] != "" {
      FlattenNonEmpty(t, |t| - 1);
    }
    if HasSeparator(s) {
      if HasWord(s) {
        var k :| 0 <= k < |s| && IsWordChar(s[k]);
        WordCharsNonEmpty(s, k);
        assert Flatten([]) == "";
        FieldsShape(s);
      } else {
        assert Separators(s);
        WordCharsOfSeparators(s);
      }
    } else if s != [] {
      assert IsWordChar(s[0]);
    }
  }

  /**
   * `sentenceToWords`: written one after the other, the tokens are the word
   * characters of the lower-cased sentence; every token is lower case and
   * made of word characters; no token after the first is empty.
   */
  lemma {:induction false} SentenceToWordsTokens(s: string)
    ensures Flatten(SentenceToWords(s)) == WordChars(Lower(s))
    ensures forall i :: 0 <= i < |SentenceToWords(s)| ==> WordOnly(SentenceToWords(s)[i]) && NoUpper(SentenceToWords(s)[i])
    ensures forall i :: 1 <= i < |SentenceToWords(s)| ==> SentenceToWords(s)[i] != ""
  {
    var l := Lower(s);
    assert NoUpper(l);
    JavaSplitFlatten(l);
    JavaSplitTokens(l);
  }

  /**
   * `sentenceToWords` at the ends: the empty sentence gives one empty
   * token, a sentence without word characters none, and otherwise the
   * first token is empty exactly when the sentence starts with a separator.
   */
  lemma {:induction false} SentenceToWordsEnds(s: string)
    ensures s == [] ==> SentenceToWords(s) == [""]
    ensures s != [] && !HasWord(s) ==> SentenceToWords(s) == []
    ensures HasWord(s) ==> SentenceToWords(s) != [] && (SentenceToWords(s)[0] == "" <==> !IsWordChar(s[0]))
  {
    var l := Lower(s);
    JavaSplitEnds(l);
    if HasWord(s) {
      var k :| 0 <= k < |s| && IsWordChar(s[k]);
      assert IsWordChar(l[k]);
    } else {
      assert forall k :: 0 <= k < |l| ==> !IsWordChar(l[k]);
    }
    if s != [] {
      assert IsWordChar(l[0]) == IsWordChar(s[0]);
    }
  }

  /**
   * Splitting undoes joining: lower-case words joined by single spaces, and
   * followed by any run of separators, come back as the same list; a
   * separator after the last word produces no trailing empty token.
   */
  lemma {:induction false} SentenceToWordsOfJoin(ws: seq<string>, g: string)
    requires ws != []
    requires forall i :: 0 <= i < |ws| ==> LowerWord(ws[i])
    requires Separators(g)
    ensures SentenceToWords(JoinSpaces(ws) + g) == ws
  {
    var s := JoinSpaces(ws) + g;
    JoinSpacesShape(ws);
    assert forall i :: 0 <= i < |s| ==> !IsUpper(s[i]);
    assert Lower(s) == s;
    JavaSplitOfJoin(ws, g);
  }

  lemma {:induction false} JavaSplitOfJoin(ws: seq<string>, g: string)
    requires ws != []
    requires forall i :: 0 <= i < |ws| ==> LowerWord(ws[i])
    requires Separators(g)
    ensures JavaSplit(JoinSpaces(ws) + g) == ws
  {
    var s := JoinSpaces(ws) + g;
    JoinSpacesShape(ws);
    if |ws| == 1 && g == [] {
      assert s == ws[0];
      assert !HasSeparator(s);
    } else {
      FieldsOfJoin(ws, g);
      if g != [] {
        assert !IsWordChar(s[|s| - 1]);
        assert HasSeparator(s);
        DropEmptyAfter(ws);
      } else {
        assert s[|ws[0]|] == ' ';
        assert HasSeparator(s);
        assert ws[|ws| - 1] != "";
      }
    }
  }

  lemma {:induction false} DropEmptyAfter(ws: seq<string>)
    requires ws != [] && ws[|ws| - 1] != ""
    ensures DropTrailingEmpty(ws + [""]) == ws
  {
    assert (ws + [""])[..|ws|] == ws;
  }

  /** A join starts with its first word and has no upper-case letter. */
  lemma {:induction false} JoinSpacesShape(ws: seq<string>)
    requires ws != []
    requires forall i :: 0 <= i < |ws| ==> LowerWord(ws[i])
    ensures |JoinSpaces(ws)| >= |ws[0]| && JoinSpaces(ws)[..|ws[0]|] == ws[0]
    ensures NoUpper(JoinSpaces(ws))
    decreases |ws|
  {
    if |ws| > 1 {
      JoinSpacesShape(ws[1..]);
      var s := JoinSpaces(ws);
      var r := JoinSpaces(ws[1..]);
      assert s == ws[0] + " " + r;
      assert LowerWord(ws[0]);
      forall i | 0 <= i < |s|
        ensures !IsUpper(s[i])
      {
        if i < |ws[0]| {
          assert s[i] == ws[0][i];
        } else if i > |ws[0]| {
          assert s[i] == r[i - |ws[0]| - 1];
        }
      }
    }
  }

  /** The pieces of a join followed by separators: the words, then one empty piece if there are separators. */
  lemma {:induction false} FieldsOfJoin(ws: seq<string>, g: string)
    requires ws != []
    requires forall i :: 0 <= i < |ws| ==> LowerWord(ws[i])
    requires Separators(g)
    ensures Fields(JoinSpaces(ws) + g) == ws + (if g == [] then [] else [""])
    decreases |ws|
  {
    if |ws| == 1 {
      FieldsOfLastWord(ws[0], g);
      assert ws == [ws[0]];
    } else {
      FieldsOfJoinStep(ws, g);
      FieldsOfJoin(ws[1..], g);
      ConsAppend(ws, if g == [] then [] else [""]);
    }
  }

  /** The last word and the separators after it. */
  lemma {:induction false} FieldsOfLastWord(w: string, g: string)
    requires LowerWord(w) && Separators(g)
    ensures Fields(w + g) == [w] + (if g == [] then [] else [""])
  {
    if g == [] {
      assert w + g == w;
      assert Run(w, true) == |w|;
    } else {
      assert w + g + "" == w + g;
      FieldsCons(w, g, "");
      assert Run("", true) == 0;
    }
  }

  /** The first word of a join of several words is a piece of its own. */
  lemma {:induction false} FieldsOfJoinStep(ws: seq<string>, g: string)
    requires |ws| > 1
    requires forall i :: 0 <= i < |ws| ==> LowerWord(ws[i])
    requires Separators(g)
    ensures Fields(JoinSpaces(ws) + g) == [ws[0]] + Fields(JoinSpaces(ws[1..]) + g)
  {
    JoinAfterFirst(ws, g);
    FieldsOfSpace(ws[0], JoinSpaces(ws[1..]) + g);
  }

  /** A join of several words is its first word, a space, and the join of the others. */
  lemma {:induction false} JoinAfterFirst(ws: seq<string>, g: string)
    requires |ws| > 1
    requires forall i :: 0 <= i < |ws| ==> LowerWord(ws[i])
    ensures WordOnly(ws[0])
    ensures JoinSpaces(ws[1..]) + g != [] && IsWordChar((JoinSpaces(ws[1..]) + g)[0])
    ensures JoinSpaces(ws) + g == ws[0] + " " + (JoinSpaces(ws[1..]) + g)
  {
    var r := JoinSpaces(ws[1..]);
    assert LowerWord(ws[0]);
    JoinSpacesShape(ws[1..]);
    assert LowerWord(ws[1]);
    assert (r + g)[0] == r[..|ws[1]|][0];
  }

  /** A word, one space, and a rest that starts with a word character. */
  lemma {:induction false} FieldsOfSpace(w: string, rest: string)
    requires WordOnly(w)
    requires rest != [] && IsWordChar(rest[0])
    ensures Fields(w + " " + rest) == [w] + Fields(rest)
  {
    FieldsCons(w, " ", rest);
  }

  lemma {:induction false} ConsAppend(ws: seq<string>, last: seq<string>)
    requires ws != []
    ensures [ws[0]] + (ws[1..] + last) == ws + last
  {
    assert ws == [ws[0]] + ws[1..];
  }

  // ---------------------------------------------------------------------
  // Where `split` cuts: the maximal runs
  // ---------------------------------------------------------------------

  /**
   * The pieces and the separator runs of `s`, interleaved, give back `s`;
   * each separator run is non-empty.
   */
  lemma {:induction false} GapsWeave(s: string)
    ensures |Fields(s)| == |Gaps(s)| + 1
    ensures forall i :: 0 <= i < |Gaps(s)| ==> Gap(Gaps(s)[i])
    ensures Weave(Fields(s), Gaps(s)) == s
    decreases |s|
  {
    var w := Run(s, true);
    if w == |s| {
      assert s[..w] == s;
    } else {
      var rest := AfterSeparator(s);
      var g := s[w..|s| - |rest|];
      GapsStep(s);
      GapsWeave(rest);
      WeaveCons(s[..w], g, Fields(rest), Gaps(rest));
      var gs := Gaps(s);
      assert gs[0] == g && gs[1..] == Gaps(rest);
    }
  }

  /** One step of `Fields` and `Gaps`: the leading word, the first separator run, the rest. */
  lemma {:induction false} GapsStep(s: string)
    requires Run(s, true) < |s|
    ensures Fields(s) == [s[..Run(s, true)]] + Fields(AfterSeparator(s))
    ensures Gaps(s) == [s[Run(s, true)..|s| - |AfterSeparator(s)|]] + Gaps(AfterSeparator(s))
    ensures Gap(s[Run(s, true)..|s| - |AfterSeparator(s)|])
    ensures s == s[..Run(s, true)] + s[Run(s, true)..|s| - |AfterSeparator(s)|] + AfterSeparator(s)
  {
    var w := Run(s, true);
    var rest := AfterSeparator(s);
    SeparatorRun(s);
    assert s == s[..w] + s[w..|s| - |rest|] + rest;
  }

  /** The first separator run of `s` is a gap. */
  lemma {:induction false} SeparatorRun(s: string)
    requires Run(s, true) < |s|
    ensures Gap(s[Run(s, true)..|s| - |AfterSeparator(s)|])
  {
    var w := Run(s, true);
    var rest := AfterSeparator(s);
    var g := s[w..|s| - |rest|];
    forall j | 0 <= j < |g|
      ensures !IsWordChar(g[j])
    {
      assert g[j] == s[w + j];
    }
  }

  lemma {:induction false} WeaveCons(p: string, g: string, ps: seq<string>, gs: seq<string>)
    requires |ps| == |gs| + 1
    ensures Weave([p] + ps, [g] + gs) == p + g + Weave(ps, gs)
  {
    assert ([p] + ps)[1..] == ps;
    assert ([g] + gs)[1..] == gs;
  }

  /** A weave whose first piece is non-empty (or alone) starts with a word character. */
  lemma {:induction false} WeaveStart(pieces: seq<string>, gaps: seq<string>)
    requires Cut(pieces, gaps)
    requires gaps != [] ==> pieces[0] != ""
    ensures Weave(pieces, gaps) == [] || IsWordChar(Weave(pieces, gaps)[0])
  {
    if gaps != [] {
      assert WordOnly(pieces[0]);
      assert Weave(pieces, gaps)[0] == pieces[0][0];
    } else {
      assert WordOnly(pieces[0]);
    }
  }

  /** Dropping the first piece and the first gap of a cut leaves a cut. */
  lemma {:induction false} CutTail(pieces: seq<string>, gaps: seq<string>)
    requires Cut(pieces, gaps) && gaps != []
    ensures Cut(pieces[1..], gaps[1..])
    ensures gaps[1..] != [] ==> pieces[1] != ""
  {
    forall i | 0 <= i < |pieces| - 1
      ensures WordOnly(pieces[1..][i])
    {
      assert pieces[1..][i] == pieces[i + 1];
    }
  }

  /**
   * The cut is unique: any way of writing a string as word pieces and
   * non-empty separator runs, with only the outer pieces allowed to be
   * empty, is exactly `Fields` and `Gaps` of that string.
   */
  lemma {:induction false} WeaveFields(pieces: seq<string>, gaps: seq<string>)
    requires Cut(pieces, gaps)
    ensures Fields(Weave(pieces, gaps)) == pieces
    ensures Gaps(Weave(pieces, gaps)) == gaps
    decreases |gaps|
  {
    var s := Weave(pieces, gaps);
    if gaps == [] {
      assert s == pieces[0] && WordOnly(s);
      assert Run(s, true) == |s|;
      assert pieces == [s];
    } else {
      var rest := Weave(pieces[1..], gaps[1..]);
      assert s == pieces[0] + gaps[0] + rest;
      CutTail(pieces, gaps);
      WeaveStart(pieces[1..], gaps[1..]);
      assert WordOnly(pieces[0]) && Gap(gaps[0]);
      FieldsCons(pieces[0], gaps[0], rest);
      WeaveFields(pieces[1..], gaps[1..]);
      assert pieces == [pieces[0]] + pieces[1..];
      assert gaps == [gaps[0]] + gaps[1..];
    }
  }

  /**
   * `split("\\W+")` in terms of the cut: a string written as word pieces
   * and separator runs splits into those pieces, without the trailing
   * empty ones once there is a separator at all.
   */
  lemma {:induction false} JavaSplitOfWeave(pieces: seq<string>, gaps: seq<string>)
    requires Cut(pieces, gaps)
    ensures JavaSplit(Weave(pieces, gaps)) == if gaps == [] then pieces else DropTrailingEmpty(pieces)
  {
    var s := Weave(pieces, gaps);
    WeaveFields(pieces, gaps);
    if gaps == [] {
      assert s == pieces[0] && WordOnly(s);
      assert pieces == [s];
    } else {
      var rest := Weave(pieces[1..], gaps[1..]);
      assert s == pieces[0] + gaps[0] + rest;
      assert Gap(gaps[0]);
      assert s[|pieces[0]|] == gaps[0][0];
    }
  }

  /**
   * Every string is cut at its maximal separator runs: its pieces and gaps
   * form a cut that rebuilds it, and its tokens are those pieces (all but
   * the trailing empty ones when it has a separator).
   */
  lemma {:induction false} JavaSplitRuns(s: string)
    ensures Cut(Fields(s), Gaps(s))
    ensures Weave(Fields(s), Gaps(s)) == s
    ensures JavaSplit(s) == if Gaps(s) == [] then Fields(s) else DropTrailingEmpty(Fields(s))
  {
    GapsWeave(s);
    FieldsChars(s);
    FieldsShape(s);
    JavaSplitOfWeave(Fields(s), Gaps(s));
  }

  /**
   * `sentenceToWords` cuts the lower-cased sentence at its maximal
   * separator runs, and any such cut determines the tokens.
   */
  lemma {:induction false} SentenceToWordsRuns(s: string)
    ensures Cut(Fields(Lower(s)), Gaps(Lower(s)))
    ensures Weave(Fields(Lower(s)), Gaps(Lower(s))) == Lower(s)
    ensures SentenceToWords(s)
         == if Gaps(Lower(s)) == [] then Fields(Lower(s)) else DropTrailingEmpty(Fields(Lower(s)))
  {
    JavaSplitRuns(Lower(s));
  }

  /** A sentence whose lower-cased form is cut into `pieces` and `gaps` has those pieces as tokens. */
  lemma {:induction false} SentenceToWordsOfWeave(s: string, pieces: seq<string>, gaps: seq<string>)
    requires Cut(pieces, gaps) && Lower(s) == Weave(pieces, gaps)
    ensures SentenceToWords(s) == if gaps == [] then pieces else DropTrailingEmpty(pieces)
  {
    JavaSplitOfWeave(pieces, gaps);
  }
}
