/** `clean_text` and `extract_keywords` (src/utils/text_processing.py), and
    the `str.lower()` the bot applies to incoming text. */
module TextProcessing {
  import Seqs

  /** The Unicode whitespace of Python's `str.isspace()`, which is also what
      the regex class `\s`, `str.split()` and `str.strip()` use. */
  predicate IsSpace(c: char) {
    var n := c as int;
    || n == 0x20 || 0x09 <= n <= 0x0d || 0x1c <= n <= 0x1f || n == 0x85 || n == 0xa0
    || n == 0x1680 || 0x2000 <= n <= 0x200a || n == 0x2028 || n == 0x2029
    || n == 0x202f || n == 0x205f || n == 0x3000
  }

  /** The parts of Python's Unicode database the model leaves open: the regex
      class `\w` and the per-character case mapping of `str.lower()`. */
  datatype CharDb = CharDb(isWord: char -> bool, lower: char -> char)

  /** `\w` and `\s` are disjoint. */
  ghost predicate Valid(db: CharDb) {
    forall c :: db.isWord(c) ==> !IsSpace(c)
  }

  /** `s.lower()`, one character at a time. */
  function Lower(db: CharDb, s: string): (r: string)
    ensures |r| == |s|
    ensures forall i :: 0 <= i < |s| ==> r[i] == db.lower(s[i])
  {
    seq(|s|, i requires 0 <= i < |s| => db.lower(s[i]))
  }

  // ---------------------------------------------------------------------------
  // clean_text

  /** The characters `[\w\s]` matches. */
  function Kept(db: CharDb): char -> bool {
    c => db.isWord(c) || IsSpace(c)
  }

  /** `re.sub(r'[^\w\s]', '', s)`: keep word and space characters only. */
  function RemoveSpecial(db: CharDb, s: string): (r: string)
    ensures forall i :: 0 <= i < |r| ==> db.isWord(r[i]) || IsSpace(r[i])
    ensures Seqs.Filter(db.isWord, r) == Seqs.Filter(db.isWord, s)
    ensures r == Seqs.Filter(Kept(db), s)
  {
    if |s| == 0 then ""
    else if db.isWord(s[0]) || IsSpace(s[0]) then [s[0]] + RemoveSpecial(db, s[1..])
    else RemoveSpecial(db, s[1..])
  }

  /** Drops leading whitespace: the left half of `str.strip()`. */
  function SkipSpaces(s: string): (r: string)
    ensures |r| <= |s| && r == s[|s| - |r|..]
    ensures |r| > 0 ==> !IsSpace(r[0])
    ensures forall i :: 0 <= i < |s| - |r| ==> IsSpace(s[i])
  {
    if |s| > 0 && IsSpace(s[0]) then SkipSpaces(s[1..]) else s
  }

  /** Drops trailing whitespace: the right half of `str.strip()`. */
  function SkipTrailingSpaces(s: string): (r: string)
    ensures |r| <= |s| && r == s[..|r|]
    ensures |r| > 0 ==> !IsSpace(r[|r| - 1])
    ensures forall i :: |r| <= i < |s| ==> IsSpace(s[i])
  {
    if |s| > 0 && IsSpace(s[|s| - 1]) then SkipTrailingSpaces(s[..|s| - 1]) else s
  }

  /** `re.sub(r'\s+', ' ', s)`: every run of whitespace becomes one space. */
  function CollapseSpaces(s: string): (r: string)
    ensures |r| > 0 && IsSpace(r[0]) ==> |s| > 0 && IsSpace(s[0])
    ensures forall i :: 0 <= i < |r| ==> (IsSpace(r[i]) ==> r[i] == ' ') && (!IsSpace(r[i]) ==> r[i] in s)
    ensures forall i :: 0 < i < |r| ==> !(IsSpace(r[i - 1]) && IsSpace(r[i]))
    decreases |s|
  {
    if |s| == 0 then ""
    else if IsSpace(s[0]) then " " + CollapseSpaces(SkipSpaces(s[1..]))
    else [s[0]] + CollapseSpaces(s[1..])
  }

  /** `s.strip()` */
  function Strip(s: string): (r: string) {
    SkipTrailingSpaces(SkipSpaces(s))
  }

  /** Word characters and single spaces only. */
  ghost predicate SingleSpaced(db: CharDb, s: string) {
    && (forall i :: 0 <= i < |s| ==> db.isWord(s[i]) || s[i] == ' ')
    && (forall i :: 0 < i < |s| ==> !(s[i - 1] == ' ' && s[i] == ' '))
  }

  /** The shape of `clean_text`'s output: word characters separated by single
      spaces, with no space at either end. */
  ghost predicate IsClean(db: CharDb, s: string) {
    && SingleSpaced(db, s)
    && (|s| > 0 ==> s[0] != ' ' && s[|s| - 1] != ' ')
  }

  /** `clean_text` */
  function CleanText(db: CharDb, text: string): (r: string)
    requires Valid(db)
    ensures IsClean(db, r)
  {
    var s := CollapseSpaces(RemoveSpecial(db, text));
    CollapsedIsSingleSpaced(db, RemoveSpecial(db, text));
    StripKeepsShape(db, s);
    Strip(s)
  }

  lemma CollapsedIsSingleSpaced(db: CharDb, s: string)
    requires Valid(db)
    requires forall i :: 0 <= i < |s| ==> db.isWord(s[i]) || IsSpace(s[i])
    ensures SingleSpaced(db, CollapseSpaces(s))
  {
    var r := CollapseSpaces(s);
    forall i | 0 <= i < |r|
      ensures db.isWord(r[i]) || r[i] == ' '
      ensures r[i] == ' ' <==> IsSpace(r[i])
    {
      assert IsSpace(' ');
    }
  }

  lemma StripKeepsShape(db: CharDb, s: string)
    requires Valid(db)
    requires SingleSpaced(db, s)
    ensures IsClean(db, Strip(s))
  {
    var t := SkipSpaces(s);
    var r := SkipTrailingSpaces(t);
    SingleSpacedSuffix(db, s, |s| - |t|);
    SingleSpacedPrefix(db, t, |r|);
    if |r| > 0 {
      assert IsSpace(' ');
      assert r[0] == t[0];
    }
  }

  /** A prefix of a single-spaced text is single-spaced. */
  lemma SingleSpacedPrefix(db: CharDb, s: string, k: nat)
    requires SingleSpaced(db, s)
    requires k <= |s|
    ensures SingleSpaced(db, s[..k])
  {
  }

  // ---------------------------------------------------------------------------
  // Idempotence

  lemma {:induction false} RemoveSpecialKeepsSingleSpaced(db: CharDb, s: string)
    requires SingleSpaced(db, s)
    ensures RemoveSpecial(db, s) == s
  {
    if |s| > 0 {
      assert IsSpace(' ');
      RemoveSpecialKeepsSingleSpaced(db, s[1..]);
    }
  }

  lemma {:induction false} CollapseKeepsSingleSpaced(db: CharDb, s: string)
    requires Valid(db)
    requires SingleSpaced(db, s)
    ensures CollapseSpaces(s) == s
  {
    if |s| > 0 {
      assert IsSpace(' ');
      CollapseKeepsSingleSpaced(db, s[1..]);
      if s[0] == ' ' {
        assert SkipSpaces(s[1..]) == s[1..] by {
          if |s| > 1 {
            assert db.isWord(s[1]);
          }
        }
      }
    }
  }

  /** Cleaning a clean text changes nothing. */
  lemma CleanTextFixesCleanText(db: CharDb, s: string)
    requires Valid(db)
    requires IsClean(db, s)
    ensures CleanText(db, s) == s
  {
    RemoveSpecialKeepsSingleSpaced(db, s);
    CollapseKeepsSingleSpaced(db, s);
    if |s| > 0 {
      assert db.isWord(s[0]) && db.isWord(s[|s| - 1]);
    }
    assert SkipSpaces(s) == s;
  }

  /** `clean_text(clean_text(x)) == clean_text(x)` */
  lemma CleanTextIdempotent(db: CharDb, text: string)
    requires Valid(db)
    ensures CleanText(db, CleanText(db, text)) == CleanText(db, text)
  {
    CleanTextFixesCleanText(db, CleanText(db, text));
  }

  // ---------------------------------------------------------------------------
  // Word characters survive cleaning, in order

  lemma {:induction false} SkipSpacesKeepsWords(db: CharDb, s: string)
    requires Valid(db)
    ensures Seqs.Filter(db.isWord, SkipSpaces(s)) == Seqs.Filter(db.isWord, s)
    decreases |s|
  {
    if |s| > 0 && IsSpace(s[0]) {
      assert !db.isWord(s[0]);
      SkipSpacesKeepsWords(db, s[1..]);
    }
  }

  lemma {:induction false} SkipTrailingSpacesKeepsWords(db: CharDb, s: string)
    requires Valid(db)
    ensures Seqs.Filter(db.isWord, SkipTrailingSpaces(s)) == Seqs.Filter(db.isWord, s)
    decreases |s|
  {
    if |s| > 0 && IsSpace(s[|s| - 1]) {
      var front := s[..|s| - 1];
      var last := s[|s| - 1];
      SkipTrailingSpacesKeepsWords(db, front);
      assert s == front + [last];
      Seqs.FilterAppend(db.isWord, front, [last]);
      assert !db.isWord(last);
      assert [last][1..] == [];
    }
  }

  lemma {:induction false} CollapseKeepsWords(db: CharDb, s: string)
    requires Valid(db)
    ensures Seqs.Filter(db.isWord, CollapseSpaces(s)) == Seqs.Filter(db.isWord, s)
    decreases |s|
  {
    if |s| > 0 {
      if IsSpace(s[0]) {
        var rest := SkipSpaces(s[1..]);
        CollapseKeepsWords(db, rest);
        SkipSpacesKeepsWords(db, s[1..]);
        assert IsSpace(' ');
        assert (" " + CollapseSpaces(rest))[1..] == CollapseSpaces(rest);
      } else {
        CollapseKeepsWords(db, s[1..]);
        assert ([s[0]] + CollapseSpaces(s[1..]))[1..] == CollapseSpaces(s[1..]);
      }
    }
  }

  lemma StripKeepsWords(db: CharDb, s: string)
    requires Valid(db)
    ensures Seqs.Filter(db.isWord, Strip(s)) == Seqs.Filter(db.isWord, s)
  {
    SkipSpacesKeepsWords(db, s);
    SkipTrailingSpacesKeepsWords(db, SkipSpaces(s));
  }

  /** `clean_text` removes only non-word characters: its word characters are
      those of the input, in the same order. */
  lemma CleanTextKeepsWordChars(db: CharDb, text: string)
    requires Valid(db)
    ensures Seqs.Filter(db.isWord, CleanText(db, text)) == Seqs.Filter(db.isWord, text)
  {
    var s := RemoveSpecial(db, text);
    CollapseKeepsWords(db, s);
    StripKeepsWords(db, CollapseSpaces(s));
  }

  // ---------------------------------------------------------------------------
  // str.split() and extract_keywords

  /** A non-empty run of non-whitespace characters. */
  ghost predicate IsWord(w: string) {
    |w| > 0 && forall j :: 0 <= j < |w| ==> !IsSpace(w[j])
  }

  /** The leading run of non-whitespace characters. */
  function TakeWord(s: string): (w: string)
    ensures |w| <= |s| && w == s[..|w|]
    ensures forall i :: 0 <= i < |w| ==> !IsSpace(w[i])
    ensures |w| < |s| ==> IsSpace(s[|w|])
  {
    if |s| > 0 && !IsSpace(s[0]) then [s[0]] + TakeWord(s[1..]) else ""
  }

  /** `s.split()`: the maximal runs of non-whitespace, in order. */
  function Words(s: string): (ws: seq<string>)
    ensures forall i :: 0 <= i < |ws| ==> IsWord(ws[i])
    decreases |s|
  {
    var t := SkipSpaces(s);
    if |t| == 0 then []
    else
      var w := TakeWord(t);
      assert IsWord(w);
      var rest := Words(t[|w|..]);
      var ws := [w] + rest;
      assert forall i :: 0 < i < |ws| ==> ws[i] == rest[i - 1];
      ws
  }

  /** Every non-space character of `s` is a word character. */
  ghost predicate NonSpaceIsWord(db: CharDb, s: string) {
    forall i :: 0 <= i < |s| && !IsSpace(s[i]) ==> db.isWord(s[i])
  }

  ghost predicate AllWordChars(db: CharDb, w: string) {
    forall j :: 0 <= j < |w| ==> db.isWord(w[j])
  }

  lemma NonSpaceIsWordSuffix(db: CharDb, s: string, k: nat)
    requires NonSpaceIsWord(db, s)
    requires k <= |s|
    ensures NonSpaceIsWord(db, s[k..])
  {
    assert forall i :: 0 <= i < |s| - k ==> s[k..][i] == s[k + i];
  }

  /** When the non-space characters of a text are word characters, so are all
      the characters of its words. */
  lemma {:induction false} WordsAreWordChars(db: CharDb, s: string)
    requires NonSpaceIsWord(db, s)
    ensures forall i :: 0 <= i < |Words(s)| ==> AllWordChars(db, Words(s)[i])
    decreases |s|
  {
    var t := SkipSpaces(s);
    if |t| > 0 {
      NonSpaceIsWordSuffix(db, s, |s| - |t|);
      var w := TakeWord(t);
      assert AllWordChars(db, w) by {
        assert forall j :: 0 <= j < |w| ==> w[j] == t[j];
      }
      NonSpaceIsWordSuffix(db, t, |w|);
      var rest := t[|w|..];
      WordsAreWordChars(db, rest);
      assert Words(s) == [w] + Words(rest);
      AllWordCharsCons(db, w, Words(rest));
    }
  }

  lemma AllWordCharsCons(db: CharDb, w: string, ws: seq<string>)
    requires AllWordChars(db, w)
    requires forall i :: 0 <= i < |ws| ==> AllWordChars(db, ws[i])
    ensures forall i :: 0 <= i < |[w] + ws| ==> AllWordChars(db, ([w] + ws)[i])
  {
    forall i | 0 <= i < |[w] + ws|
      ensures AllWordChars(db, ([w] + ws)[i])
    {
      if i > 0 {
        assert ([w] + ws)[i] == ws[i - 1];
      }
    }
  }

  /** A suffix of a single-spaced text is single-spaced. */
  lemma SingleSpacedSuffix(db: CharDb, s: string, k: nat)
    requires SingleSpaced(db, s)
    requires k <= |s|
    ensures SingleSpaced(db, s[k..])
  {
    assert forall i :: 0 <= i < |s| - k ==> s[k..][i] == s[k + i];
  }

  /** After a space inside a clean text comes a clean, non-empty tail. */
  lemma CleanTail(db: CharDb, s: string, k: nat)
    requires Valid(db)
    requires IsClean(db, s)
    requires k < |s| && s[k] == ' '
    ensures k + 1 < |s|
    ensures IsClean(db, s[k + 1..])
    ensures SkipSpaces(s[k..]) == s[k + 1..]
  {
    var tail := s[k + 1..];
    assert k + 1 < |s|;
    assert db.isWord(s[k + 1]);
    SingleSpacedSuffix(db, s, k + 1);
    assert tail[0] == s[k + 1] && tail[|tail| - 1] == s[|s| - 1];
    assert IsSpace(' ');
    assert s[k..][1..] == tail;
    assert SkipSpaces(tail) == tail;
  }

  /** `" ".join(ws)` */
  function Join(ws: seq<string>): string {
    if |ws| == 0 then ""
    else if |ws| == 1 then ws[0]
    else ws[0] + " " + Join(ws[1..])
  }

  /** A clean text starts with its first word. */
  lemma WordsOfCleanText(db: CharDb, s: string)
    requires Valid(db)
    requires IsClean(db, s) && |s| > 0
    ensures Words(s) == [TakeWord(s)] + Words(s[|TakeWord(s)|..])
  {
    assert IsSpace(' ');
    assert db.isWord(s[0]);
    assert SkipSpaces(s) == s;
  }

  /** Inside a clean text, the words after a space are the words of what
      follows the space. */
  lemma WordsAfterSpace(db: CharDb, s: string, k: nat)
    requires Valid(db)
    requires IsClean(db, s)
    requires k < |s| && s[k] == ' '
    ensures k + 1 < |s| && IsClean(db, s[k + 1..])
    ensures Words(s[k..]) == Words(s[k + 1..])
  {
    CleanTail(db, s, k);
    var tail := s[k + 1..];
    assert db.isWord(tail[0]);
    assert SkipSpaces(tail) == tail;
  }

  lemma SplitAround(s: string, k: nat)
    requires k < |s|
    ensures s == s[..k] + [s[k]] + s[k + 1..]
  {
  }

  lemma JoinCons(w: string, ws: seq<string>)
    requires |ws| > 0
    ensures Join([w] + ws) == w + " " + Join(ws)
  {
    assert ([w] + ws)[1..] == ws;
  }

  /** A clean text with a space in it is its first word, a space, and a
      clean tail whose words are the remaining words. */
  lemma CleanSplit(db: CharDb, s: string)
    requires Valid(db)
    requires IsClean(db, s) && |s| > 0
    requires |TakeWord(s)| < |s|
    ensures var w := TakeWord(s);
      var tail := s[|w| + 1..];
      && |w| + 1 < |s| && IsClean(db, tail)
      && Words(s) == [w] + Words(tail)
      && s == w + " " + tail
  {
    var w := TakeWord(s);
    WordsOfCleanText(db, s);
    assert IsSpace(s[|w|]);
    assert s[|w|] == ' ';
    WordsAfterSpace(db, s, |w|);
    SplitAround(s, |w|);
  }

  /** A clean text without a space is one word. */
  lemma CleanSingleWord(db: CharDb, s: string)
    requires Valid(db)
    requires IsClean(db, s) && |s| > 0
    requires |TakeWord(s)| == |s|
    ensures Words(s) == [s]
  {
    WordsOfCleanText(db, s);
    var w := TakeWord(s);
    assert w == s;
    assert s[|w|..] == [];
    assert SkipSpaces(s[|w|..]) == [];
  }

  /** Splitting a clean text and joining the words back with single spaces
      gives the text again. */
  lemma {:induction false} JoinWordsOfCleanText(db: CharDb, s: string)
    requires Valid(db)
    requires IsClean(db, s)
    ensures Join(Words(s)) == s
    ensures |s| > 0 ==> |Words(s)| > 0
    decreases |s|
  {
    if |s| > 0 {
      var w := TakeWord(s);
      if |w| < |s| {
        CleanSplit(db, s);
        var tail := s[|w| + 1..];
        JoinWordsOfCleanText(db, tail);
        JoinCons(w, Words(tail));
      } else {
        CleanSingleWord(db, s);
      }
    } else {
      assert SkipSpaces(s) == [];
    }
  }

  // ---------------------------------------------------------------------------
  // clean_text only renormalises the separators of split()

  /** Leading whitespace does not change the words. */
  lemma WordsSkipSpaces(s: string)
    ensures Words(SkipSpaces(s)) == Words(s)
  {
    var t := SkipSpaces(s);
    assert SkipSpaces(t) == t;
  }

  /** A whitespace character in front does not change the words. */
  lemma WordsConsSpace(c: char, x: string)
    requires IsSpace(c)
    ensures Words([c] + x) == Words(x)
  {
    assert ([c] + x)[1..] == x;
    assert SkipSpaces([c] + x) == SkipSpaces(x);
  }

  /** A word character in front starts a new first word, or joins the first
      word of the rest when that rest starts with a word character. */
  lemma WordsConsWord(c: char, x: string)
    requires !IsSpace(c)
    ensures |x| > 0 && !IsSpace(x[0]) ==>
      |Words(x)| > 0 && Words([c] + x) == [[c] + Words(x)[0]] + Words(x)[1..]
    ensures !(|x| > 0 && !IsSpace(x[0])) ==> Words([c] + x) == [[c]] + Words(x)
  {
    var s := [c] + x;
    assert s[1..] == x;
    assert SkipSpaces(s) == s;
    var w := TakeWord(x);
    assert TakeWord(s) == [c] + w;
    assert s[|[c] + w|..] == x[|w|..];
    if |x| > 0 && !IsSpace(x[0]) {
      assert SkipSpaces(x) == x;
    } else if |x| > 0 {
      assert w == [];
    }
  }

  /** Collapsing whitespace runs keeps the words. */
  lemma {:induction false} CollapseKeepsWordList(s: string)
    ensures Words(CollapseSpaces(s)) == Words(s)
    decreases |s|
  {
    if |s| > 0 {
      assert s == [s[0]] + s[1..];
      if IsSpace(s[0]) {
        var x := SkipSpaces(s[1..]);
        CollapseKeepsWordList(x);
        assert IsSpace(' ');
        WordsConsSpace(' ', CollapseSpaces(x));
        WordsSkipSpaces(s[1..]);
        WordsConsSpace(s[0], s[1..]);
      } else {
        var x := s[1..];
        CollapseKeepsWordList(x);
        WordsConsWord(s[0], CollapseSpaces(x));
        WordsConsWord(s[0], x);
      }
    } else {
      assert SkipSpaces(s) == [];
    }
  }

  /** Leading whitespace is dropped the same way with more text after. */
  lemma {:induction false} SkipSpacesAppend(p: string, q: string)
    requires |SkipSpaces(p)| > 0
    ensures SkipSpaces(p + q) == SkipSpaces(p) + q
    decreases |p|
  {
    if IsSpace(p[0]) {
      assert (p + q)[1..] == p[1..] + q;
      SkipSpacesAppend(p[1..], q);
    }
  }

  /** A word that ends before a space, or at the end of the text, is not
      lengthened by whitespace appended to the text. */
  lemma {:induction false} TakeWordAppend(t: string, q: string)
    requires forall i :: 0 <= i < |q| ==> IsSpace(q[i])
    ensures TakeWord(t + q) == TakeWord(t)
    decreases |t|
  {
    if |t| > 0 && !IsSpace(t[0]) {
      assert (t + q)[1..] == t[1..] + q;
      TakeWordAppend(t[1..], q);
    } else if |t| == 0 {
      assert t + q == q;
    }
  }

  /** A text of whitespace only has no words. */
  lemma AllSpaceNoWords(s: string)
    requires forall i :: 0 <= i < |s| ==> IsSpace(s[i])
    ensures Words(s) == []
  {
    assert SkipSpaces(s) == [];
  }

  /** Trailing whitespace does not change the words. */
  lemma {:induction false} WordsDropTrailing(p: string, q: string)
    requires forall i :: 0 <= i < |q| ==> IsSpace(q[i])
    ensures Words(p + q) == Words(p)
    decreases |p|
  {
    var t := SkipSpaces(p);
    if |t| == 0 {
      AllSpaceNoWords(p);
      assert forall i :: 0 <= i < |p + q| ==> IsSpace((p + q)[i]) by {
        forall i | 0 <= i < |p + q|
          ensures IsSpace((p + q)[i])
        {
          if i < |p| {
            assert (p + q)[i] == p[i];
          } else {
            assert (p + q)[i] == q[i - |p|];
          }
        }
      }
      AllSpaceNoWords(p + q);
    } else {
      SkipSpacesAppend(p, q);
      TakeWordAppend(t, q);
      var w := TakeWord(t);
      var rest := t[|w|..];
      assert |w| > 0;
      Seqs.DropAppend(t, q, |w|);
      WordsDropTrailing(rest, q);
      assert Words(p) == [w] + Words(rest);
      assert Words(p + q) == [w] + Words(rest + q);
    }
  }

  /** `strip()` keeps the words. */
  lemma SkipTrailingKeepsWordList(t: string)
    ensures Words(SkipTrailingSpaces(t)) == Words(t)
  {
    var r := SkipTrailingSpaces(t);
    var q := t[|r|..];
    forall i | 0 <= i < |q|
      ensures IsSpace(q[i])
    {
      assert q[i] == t[|r| + i];
    }
    Seqs.SplitAt(t, |r|);
    WordsDropTrailing(r, q);
  }

  lemma StripKeepsWordList(s: string)
    ensures Words(Strip(s)) == Words(s)
  {
    WordsSkipSpaces(s);
    SkipTrailingKeepsWordList(SkipSpaces(s));
  }

  /** `clean_text(x).split() == re.sub(r'[^\w\s]', '', x).split()`: past the
      removal of special characters, cleaning only renormalises the
      whitespace between words. */
  lemma CleanTextKeepsWordList(db: CharDb, text: string)
    requires Valid(db)
    ensures Words(CleanText(db, text)) == Words(RemoveSpecial(db, text))
  {
    var s := RemoveSpecial(db, text);
    CollapseKeepsWordList(s);
    StripKeepsWordList(CollapseSpaces(s));
  }

  /** `clean_text(x) == " ".join(re.sub(r'[^\w\s]', '', x).split())`. */
  lemma CleanTextIsJoinedWords(db: CharDb, text: string)
    requires Valid(db)
    ensures CleanText(db, text) == Join(Words(RemoveSpecial(db, text)))
  {
    CleanTextKeepsWordList(db, text);
    JoinWordsOfCleanText(db, CleanText(db, text));
  }

  /** The French stop words of `extract_keywords`. */
  const StopWords: seq<string> :=
    ["le", "la", "les", "un", "une", "des", "et", "ou", "de", "du", "ce", "cette", "ces",
     "mon", "ma", "mes", "ton", "ta", "tes", "son", "sa", "ses"]

  predicate IsKeyword(w: string) {
    w !in StopWords && |w| > 2
  }

  /** `extract_keywords` */
  function ExtractKeywords(db: CharDb, text: string): (r: seq<string>)
    requires Valid(db)
    ensures forall i :: 0 <= i < |r| ==> IsKeyword(r[i])
    ensures Seqs.IsSubsequence(r, Words(CleanText(db, Lower(db, text))))
    ensures var ws := Words(CleanText(db, Lower(db, text)));
            forall i :: 0 <= i < |ws| && IsKeyword(ws[i]) ==> ws[i] in r
    ensures var ws := Words(CleanText(db, Lower(db, text)));
            forall w :: multiset(r)[w] == if IsKeyword(w) then multiset(ws)[w] else 0
  {
    var words := Words(CleanText(db, Lower(db, text)));
    Seqs.FilterIsSubsequence(IsKeyword, words);
    forall w {
      Seqs.FilterCount(IsKeyword, words, w);
    }
    Seqs.Filter(IsKeyword, words)
  }

  /** Keywords are made of word characters only. */
  lemma KeywordsAreWordChars(db: CharDb, text: string)
    requires Valid(db)
    ensures var r := ExtractKeywords(db, text);
            forall i :: 0 <= i < |r| ==> AllWordChars(db, r[i])
  {
    var cleaned := CleanText(db, Lower(db, text));
    assert IsSpace(' ');
    WordsAreWordChars(db, cleaned);
    var words := Words(cleaned);
    var r := ExtractKeywords(db, text);
    forall i | 0 <= i < |r|
      ensures AllWordChars(db, r[i])
    {
      MemberAllWordChars(db, words, r[i]);
    }
  }

  lemma MemberAllWordChars(db: CharDb, ws: seq<string>, w: string)
    requires w in ws
    requires forall i :: 0 <= i < |ws| ==> AllWordChars(db, ws[i])
    ensures AllWordChars(db, w)
  {
    var k :| 0 <= k < |ws| && ws[k] == w;
  }
}
