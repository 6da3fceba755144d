/** Words (`split_whitespace`), and what lists of pieces keep of the words of a text. */
module Pieces {
  import opened Text

  predicate HasNoWhitespace(s: string) {
    forall i | 0 <= i < |s| :: !IsWhitespace(s[i])
  }

  predicate Clean(s: string) {
    s != [] && Trimmed(s)
  }

  /** Two pieces joined by one space. */
  function Spaced(s: string, t: string): string {
    s + [' '] + t
  }

  lemma SpacedBytes(s: string, t: string)
    ensures Bytes(Spaced(s, t)) == Bytes(s) + 1 + Bytes(t)
  {
    BytesAppend(s + [' '], t);
    BytesAppend(s, [' ']);
  }

  lemma SpacedClean(s: string, t: string)
    requires Clean(s) && Clean(t)
    ensures Clean(Spaced(s, t))
  {
  }

  // ---- words -----------------------------------------------------------

  /** The first word's length: up to the first white space. */
  function WordEnd(s: string): (n: nat)
    ensures n <= |s| && HasNoWhitespace(s[..n]) && (n < |s| ==> IsWhitespace(s[n]))
  {
    if s == [] || IsWhitespace(s[0]) then 0 else
      var n := WordEnd(s[1..]);
      assert s[..1 + n] == [s[0]] + s[1..][..n];
      1 + n
  }

  lemma {:induction false} TrimStartShortens(s: string)
    ensures |TrimStart(s)| <= |s|
  {
    if s != [] && IsWhitespace(s[0]) { TrimStartShortens(s[1..]); }
  }

  /** `str::split_whitespace`. */
  function Words(s: string): (words: seq<string>)
    decreases |s|
  {
    TrimStartShortens(s);
    var rest := TrimStart(s);
    if rest == [] then [] else
      var n := WordEnd(rest);
      [rest[..n]] + Words(rest[n..])
  }

  lemma TrimStartOfBlankPrefix(a: string, b: string)
    requires TrimStart(a) == []
    ensures TrimStart(a + b) == TrimStart(b)
    decreases |a|
  {
    if a == [] {
      assert a + b == b;
    } else {
      assert (a + b)[1..] == a[1..] + b && (a + b)[0] == a[0];
      TrimStartOfBlankPrefix(a[1..], b);
    }
  }

  lemma TrimStartOfPrefix(a: string, b: string)
    requires TrimStart(a) != []
    ensures TrimStart(a + b) == TrimStart(a) + b
    decreases |a|
  {
    if IsWhitespace(a[0]) {
      assert (a + b)[1..] == a[1..] + b && (a + b)[0] == a[0];
      TrimStartOfPrefix(a[1..], b);
    }
  }

  lemma WordHasNoWhitespace(s: string)
    ensures forall k | 0 <= k < WordEnd(s) :: !IsWhitespace(s[k])
  {
    var w := s[..WordEnd(s)];
    forall k | 0 <= k < |w|
      ensures !IsWhitespace(s[k])
    {
      assert w[k] == s[k];
    }
  }

  lemma WordEndIs(s: string, n: nat)
    requires n <= |s| && (forall k | 0 <= k < n :: !IsWhitespace(s[k])) && (n < |s| ==> IsWhitespace(s[n]))
    ensures WordEnd(s) == n
  {
    WordHasNoWhitespace(s);
  }

  lemma PrefixSlices(r: string, b: string, n: nat)
    requires n <= |r|
    ensures (r + b)[..n] == r[..n] && (r + b)[n..] == r[n..] + b
  {
  }

  /** The first word of `r` is the first word of `r + b`, if white space ends it or starts `b`. */
  lemma FirstWordOfPrefix(r: string, b: string)
    requires WordEnd(r) < |r| || b == [] || IsWhitespace(b[0])
    ensures WordEnd(r + b) == WordEnd(r)
  {
    WordHasNoWhitespace(r);
    WordEndIs(r + b, WordEnd(r));
  }

  lemma WordsUnfold(s: string, rest: string, n: nat)
    requires rest == TrimStart(s) && rest != [] && n == WordEnd(rest)
    ensures Words(s) == [rest[..n]] + Words(rest[n..])
  {
  }

  lemma WordsOfBlankPrefix(a: string, b: string)
    requires TrimStart(a) == []
    ensures Words(a + b) == Words(b) && Words(a) == []
  {
    TrimStartOfBlankPrefix(a, b);
  }

  /** White space at the seam of two texts, or an empty text: no word crosses it. */
  predicate Seam(a: string, b: string) {
    a == [] || b == [] || IsWhitespace(a[|a| - 1]) || IsWhitespace(b[0])
  }

  lemma LastOfSuffix(a: string, r: string)
    requires a != [] && r != [] && |r| <= |a| && r == a[|a| - |r|..]
    ensures r[|r| - 1] == a[|a| - 1]
  {
  }

  lemma SeamAfterWord(a: string, r: string, b: string)
    requires Seam(a, b) && a != [] && r != [] && |r| <= |a| && r == a[|a| - |r|..]
    ensures WordEnd(r) < |r| ==> Seam(r[WordEnd(r)..], b)
    ensures WordEnd(r) == |r| ==> b == [] || IsWhitespace(b[0])
  {
    var n := WordEnd(r);
    LastOfSuffix(a, r);
    if n < |r| {
      LastOfSuffix(r, r[n..]);
    } else {
      assert r[..n] == r;
    }
  }

  /** The word at the start of `r` is dropped from both sides. */
  lemma WordsAppendStep(a: string, r: string, b: string)
    requires r == TrimStart(a) && r != [] && TrimStart(a + b) == r + b
    requires WordEnd(r) < |r| || b == [] || IsWhitespace(b[0])
    requires Words(r[WordEnd(r)..] + b) == Words(r[WordEnd(r)..]) + Words(b)
    ensures Words(a + b) == Words(a) + Words(b)
  {
    var n := WordEnd(r);
    FirstWordOfPrefix(r, b);
    PrefixSlices(r, b, n);
    WordsUnfold(a, r, n);
    WordsUnfold(a + b, r + b, n);
    Associative([r[..n]], Words(r[n..]), Words(b));
  }

  lemma {:induction false} WordsAppend(a: string, b: string)
    requires Seam(a, b)
    ensures Words(a + b) == Words(a) + Words(b)
    decreases |a|
  {
    var r := TrimStart(a);
    TrimStartIsSuffix(a);
    if r == [] {
      WordsOfBlankPrefix(a, b);
    } else {
      TrimStartOfPrefix(a, b);
      SeamAfterWord(a, r, b);
      WordsAppend(r[WordEnd(r)..], b);
      WordsAppendStep(a, r, b);
    }
  }

  lemma BlankHasNoWords(s: string)
    requires Blank(s)
    ensures Words(s) == []
  {
    TrimStartOfBlank(s);
  }

  lemma {:induction false} TrimStartOfBlank(s: string)
    requires Blank(s)
    ensures TrimStart(s) == []
  {
    if s != [] { TrimStartOfBlank(s[1..]); }
  }

  lemma SpacedWords(s: string, t: string)
    ensures Words(Spaced(s, t)) == Words(s) + Words(t)
  {
    WordsAppend(s + [' '], t);
    WordsAppend(s, [' ']);
    BlankHasNoWords([' ']);
    assert Words(s) + [] == Words(s);
  }

  lemma {:induction false} WordsOfTrimStart(s: string)
    ensures Words(TrimStart(s)) == Words(s)
    decreases |s|
  {
    if s != [] && IsWhitespace(s[0]) {
      WordsOfTrimStart(s[1..]);
      BlankHasNoWords([s[0]]);
      WordsAppend([s[0]], s[1..]);
      assert s == [s[0]] + s[1..] && [] + Words(s[1..]) == Words(s[1..]);
    }
  }

  lemma {:induction false} WordsOfTrimEnd(s: string)
    ensures Words(TrimEnd(s)) == Words(s)
    decreases |s|
  {
    if s != [] && IsWhitespace(s[|s| - 1]) {
      var n := |s| - 1;
      WordsOfTrimEnd(s[..n]);
      BlankHasNoWords([s[n]]);
      WordsAppend(s[..n], [s[n]]);
      assert s == s[..n] + [s[n]] && Words(s[..n]) + [] == Words(s[..n]);
    }
  }

  lemma WordsOfTrim(s: string)
    ensures Words(Trim(s)) == Words(s)
  {
    WordsOfTrimStart(s);
    WordsOfTrimEnd(TrimStart(s));
  }

  lemma WordsOfWord(w: string)
    requires w != [] && HasNoWhitespace(w)
    ensures Words(w) == [w]
  {
    var n := WordEnd(w);
    assert TrimStart(w) == w && n == |w|;
    WordsUnfold(w, w, n);
    BlankHasNoWords([]);
    assert w[..n] == w && w[n..] == [];
  }

  lemma {:induction false} WordsAreWords(s: string)
    ensures forall i | 0 <= i < |Words(s)| :: Clean(Words(s)[i]) && HasNoWhitespace(Words(s)[i])
    decreases |s|
  {
    TrimStartShortens(s);
    var rest := TrimStart(s);
    if rest != [] { WordsAreWords(rest[WordEnd(rest)..]); }
  }

  // ---- what a list of pieces keeps of the text -------------------------

  /** The words of all the pieces, in order. */
  function AllWords(pieces: seq<string>): seq<string> {
    if pieces == [] then [] else AllWords(pieces[..|pieces| - 1]) + Words(pieces[|pieces| - 1])
  }

  lemma AllWordsPush(pieces: seq<string>, piece: string)
    ensures AllWords(pieces + [piece]) == AllWords(pieces) + Words(piece)
  {
    assert (pieces + [piece])[..|pieces|] == pieces;
  }

  lemma {:induction false} AllWordsAppend(pieces: seq<string>, more: seq<string>)
    ensures AllWords(pieces + more) == AllWords(pieces) + AllWords(more)
  {
    if more == [] {
      assert pieces + more == pieces;
    } else {
      var n := |more| - 1;
      AllWordsAppend(pieces, more[..n]);
      AllWordsPush(pieces + more[..n], more[n]);
      assert pieces + more == (pieces + more[..n]) + [more[n]];
      Associative(AllWords(pieces), AllWords(more[..n]), Words(more[n]));
    }
  }

  lemma AllWordsOfOne(piece: string)
    ensures AllWords([piece]) == Words(piece)
  {
    AllWordsPush([], piece);
    assert [] + [piece] == [piece];
  }

  /** The characters of all the pieces other than white space, in order. */
  function InkAll(pieces: seq<string>): string {
    if pieces == [] then [] else InkAll(pieces[..|pieces| - 1]) + Ink(pieces[|pieces| - 1])
  }

  lemma InkAllPush(pieces: seq<string>, piece: string)
    ensures InkAll(pieces + [piece]) == InkAll(pieces) + Ink(piece)
  {
    assert (pieces + [piece])[..|pieces|] == pieces;
  }

  lemma {:induction false} InkAllAppend(pieces: seq<string>, more: seq<string>)
    ensures InkAll(pieces + more) == InkAll(pieces) + InkAll(more)
  {
    if more == [] {
      assert pieces + more == pieces;
    } else {
      InkAllAppend(pieces, more[..|more| - 1]);
      assert (pieces + more)[..|pieces + more| - 1] == pieces + more[..|more| - 1];
    }
  }

  lemma {:induction false} InkAllCons(piece: string, more: seq<string>)
    ensures InkAll([piece] + more) == Ink(piece) + InkAll(more)
  {
    InkAllAppend([piece], more);
    assert [piece][..0] == [];
    assert InkAll([piece]) == Ink(piece);
  }

  lemma {:induction false} WordsKeepInk(s: string)
    ensures InkAll(Words(s)) == Ink(s)
    decreases |s|
  {
    TrimStartShortens(s);
    TrimStartKeepsInk(s);
    var rest := TrimStart(s);
    if rest != [] {
      var n := WordEnd(rest);
      WordsKeepInk(rest[n..]);
      InkAllCons(rest[..n], Words(rest[n..]));
      InkAppend(rest[..n], rest[n..]);
      assert rest == rest[..n] + rest[n..];
    }
  }

  /** Lists with the same words hold the same characters. */
  lemma {:induction false} InkOfAllWords(pieces: seq<string>)
    ensures InkAll(AllWords(pieces)) == InkAll(pieces)
  {
    if pieces != [] {
      var n := |pieces| - 1;
      InkOfAllWords(pieces[..n]);
      InkAllAppend(AllWords(pieces[..n]), Words(pieces[n]));
      WordsKeepInk(pieces[n]);
    }
  }

  // ---- collecting pieces -----------------------------------------------

  /** Whole pieces and the one being built hold exactly these words. */
  predicate Holds(out: seq<string>, building: string, words: seq<string>) {
    AllWords(out) + Words(building) == words
  }

  lemma AllWordsPrefix(pieces: seq<string>, i: nat)
    requires i < |pieces|
    ensures AllWords(pieces[..i + 1]) == AllWords(pieces[..i]) + Words(pieces[i])
  {
    AllWordsPush(pieces[..i], pieces[i]);
    assert pieces[..i + 1] == pieces[..i] + [pieces[i]];
  }

  lemma Associative(a: seq<string>, b: seq<string>, c: seq<string>)
    ensures (a + b) + c == a + (b + c)
  {
  }

  lemma HoldsWhole(out: seq<string>, words: seq<string>)
    ensures Holds(out, [], words) <==> AllWords(out) == words
  {
    BlankHasNoWords([]);
    assert AllWords(out) + [] == AllWords(out);
  }

  lemma StartBuilding(out: seq<string>, piece: string, words: seq<string>)
    requires Holds(out, [], words)
    ensures Holds(out, piece, words + Words(piece))
  {
    HoldsWhole(out, words);
  }

  lemma KeepBuilding(out: seq<string>, building: string, piece: string, words: seq<string>)
    requires Holds(out, building, words)
    ensures Holds(out, Spaced(building, piece), words + Words(piece))
  {
    SpacedWords(building, piece);
    Associative(AllWords(out), Words(building), Words(piece));
  }

  lemma PushAndRestart(out: seq<string>, building: string, piece: string, words: seq<string>)
    requires Holds(out, building, words)
    ensures Holds(out + [building], piece, words + Words(piece))
  {
    AllWordsPush(out, building);
  }

  /** The pieces, with the last one if there is one. */
  function Pushed(pieces: seq<string>, last: string): seq<string> {
    if last != [] then pieces + [last] else pieces
  }

  lemma PushLast(out: seq<string>, building: string, words: seq<string>)
    requires Holds(out, building, words)
    ensures AllWords(Pushed(out, building)) == words
  {
    AllWordsPush(out, building);
    if building == [] { HoldsWhole(out, words); }
  }
}
