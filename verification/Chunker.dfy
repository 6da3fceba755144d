/** The speech chunker (crates/c0mpute-core/src/speech_session.rs): text to the pieces a caller pipelines. */
module Chunker {
  import opened Wrappers
  import opened Text
  import opened Pieces

  /** What every chunk promises: not empty, no white space at the edges, and within the limit unless it is one word. */
  predicate IsChunk(s: string, limit: nat) {
    Clean(s) && (Bytes(s) <= limit || HasNoWhitespace(s))
  }

  predicate AllChunks(chunks: seq<string>, limit: nat) {
    forall i | 0 <= i < |chunks| :: IsChunk(chunks[i], limit)
  }

  // ---- sentences -------------------------------------------------------

  predicate EndsSentence(c: char) {
    c == '.' || c == '!' || c == '?'
  }

  /** A sentence ends at `k`: a full stop there, and white space or the end of the text after it. */
  predicate Boundary(text: string, k: nat)
    requires k < |text|
  {
    EndsSentence(text[k]) && (k + 1 == |text| || IsWhitespace(text[k + 1]))
  }

  /** No sentence ends before the last character. */
  predicate OneSentence(s: string) {
    forall k | 0 <= k < |s| - 1 :: !Boundary(s, k)
  }

  /** Every sentence but the last ends with a full stop. */
  predicate FullStops(sentences: seq<string>) {
    forall i | 0 <= i < |sentences| - 1 :: FullStop(sentences[i])
  }

  predicate FullStop(s: string) {
    s != [] && EndsSentence(s[|s| - 1])
  }

  /** `trim` only cuts at the two ends. */
  lemma TrimIsSlice(s: string) returns (from: nat, to: nat)
    ensures from <= to <= |s| && Trim(s) == s[from..to]
  {
    TrimStartIsSuffix(s);
    from := |s| - |TrimStart(s)|;
    to := from + |Trim(s)|;
  }

  lemma TrimKeepsOneSentence(s: string)
    requires OneSentence(s)
    ensures OneSentence(Trim(s))
  {
    var from, to := TrimIsSlice(s);
    forall k | 0 <= k < |Trim(s)| - 1
      ensures !Boundary(Trim(s), k)
    {
      assert Trim(s)[k] == s[from + k] && Trim(s)[k + 1] == s[from + k + 1];
      assert !Boundary(s, from + k);
    }
  }

  lemma TrimKeepsTheEnd(s: string)
    requires s != [] && !IsWhitespace(s[|s| - 1])
    ensures Trim(s) != [] && Trim(s)[|Trim(s)| - 1] == s[|s| - 1]
  {
    TrimStartKeepsInk(s);
    TrimStartIsSuffix(s);
    InkAppend(s[..|s| - 1], [s[|s| - 1]]);
    assert s == s[..|s| - 1] + [s[|s| - 1]];
  }

  predicate IsSentence(s: string) {
    Clean(s) && OneSentence(s)
  }

  predicate AllSentences(out: seq<string>) {
    forall i | 0 <= i < |out| :: IsSentence(out[i])
  }

  /** The characters since the last boundary, trimmed, are one sentence. */
  lemma TrimmedSentence(text: string, from: nat, to: nat)
    requires from <= to <= |text| && forall k | from <= k < to - 1 :: !Boundary(text, k)
    ensures OneSentence(Trim(text[from..to])) && Trimmed(Trim(text[from..to]))
  {
    NoBoundaryInside(text, from, text[from..to]);
    TrimKeepsOneSentence(text[from..to]);
    TrimIsTrimmed(text[from..to]);
  }

  /** And when they run up to a boundary, it is not empty and ends with the full stop. */
  lemma FinishedSentence(text: string, from: nat, to: nat)
    requires from < to <= |text| && EndsSentence(text[to - 1])
    ensures FullStop(Trim(text[from..to]))
  {
    TrimKeepsTheEnd(text[from..to]);
  }

  /** A place where the text may be cut: its ends, and before white space. */
  predicate Cut(text: string, from: nat)
    requires from <= |text|
  {
    from == 0 || from == |text| || IsWhitespace(text[from])
  }

  lemma WordsUpTo(text: string, from: nat, to: nat)
    requires from <= to <= |text| && Cut(text, from)
    ensures Words(text[..to]) == Words(text[..from]) + Words(text[from..to])
  {
    assert text[..to] == text[..from] + text[from..to];
    WordsAppend(text[..from], text[from..to]);
  }

  /** No sentence ends at or after `from` and before `i`. */
  predicate NoBoundary(text: string, from: nat, i: nat)
    requires from <= i <= |text|
  {
    forall k | from <= k < i :: !Boundary(text, k)
  }

  predicate AllFinished(out: seq<string>) {
    forall k | 0 <= k < |out| :: IsSentence(out[k]) && FullStop(out[k])
  }

  /** Up to `i`, the finished sentences and the characters since `from`, where the last one ended. */
  ghost predicate Sentences(text: string, out: seq<string>, from: nat, i: nat)
    requires from <= i <= |text|
  {
    AllFinished(out) && NoBoundary(text, from, i) && Cut(text, from) && AllWords(out) == Words(text[..from])
  }

  lemma WordsPushed(text: string, out: seq<string>, from: nat, to: nat)
    requires from <= to <= |text| && Cut(text, from) && AllWords(out) == Words(text[..from])
    ensures AllWords(out + [Trim(text[from..to])]) == Words(text[..to])
  {
    WordsUpTo(text, from, to);
    WordsOfTrim(text[from..to]);
    AllWordsPush(out, Trim(text[from..to]));
  }

  lemma PushFinished(text: string, out: seq<string>, from: nat, i: nat)
    requires from <= i < |text| && AllFinished(out) && NoBoundary(text, from, i) && Boundary(text, i)
    ensures AllFinished(out + [Trim(text[from..i + 1])]) && Cut(text, i + 1)
  {
    TrimmedSentence(text, from, i + 1);
    FinishedSentence(text, from, i + 1);
  }

  lemma PushSentence(text: string, out: seq<string>, from: nat, i: nat)
    requires from <= i < |text| && Sentences(text, out, from, i) && Boundary(text, i)
    ensures Sentences(text, out + [Trim(text[from..i + 1])], i + 1, i + 1)
  {
    PushFinished(text, out, from, i);
    WordsPushed(text, out, from, i + 1);
  }

  lemma LastWords(text: string, out: seq<string>, from: nat)
    requires from <= |text| && Cut(text, from) && AllWords(out) == Words(text[..from])
    ensures AllWords(Pushed(out, Trim(text[from..]))) == Words(text)
  {
    var last := Trim(text[from..]);
    assert text[..|text|] == text && text[from..|text|] == text[from..];
    WordsPushed(text, out, from, |text|);
    AllWordsPush(out, last);
    if last == [] {
      BlankHasNoWords([]);
      assert AllWords(out) + [] == AllWords(out);
    }
  }

  lemma LastSentence(text: string, out: seq<string>, from: nat)
    requires from <= |text| && Sentences(text, out, from, |text|)
    ensures var all := Pushed(out, Trim(text[from..]));
            AllWords(all) == Words(text) && AllSentences(all) && FullStops(all)
  {
    LastShape(text, out, from);
    LastWords(text, out, from);
  }

  lemma LastShape(text: string, out: seq<string>, from: nat)
    requires from <= |text| && AllFinished(out) && NoBoundary(text, from, |text|)
    ensures var all := Pushed(out, Trim(text[from..])); AllSentences(all) && FullStops(all)
  {
    assert text[from..|text|] == text[from..];
    TrimmedSentence(text, from, |text|);
  }

  /**
   * The text cut after every full stop that white space or the end follows. Every word is kept, no
   * sentence holds another boundary, and each but the last ends with a full stop.
   */
  method SplitSentences(text: string) returns (out: seq<string>)
    ensures AllWords(out) == Words(text) && AllSentences(out) && FullStops(out)
  {
    out := [];
    var current: string := [];
    ghost var from := 0;
    BlankHasNoWords(text[..0]);
    for i := 0 to |text|
      invariant from <= i && current == text[from..i] && Sentences(text, out, from, i)
    {
      current := current + [text[i]];
      assert current == text[from..i + 1];
      if text[i] in ['.', '!', '?'] && (i + 1 == |text| || IsWhitespace(text[i + 1])) {
        PushSentence(text, out, from, i);
        out := out + [Trim(current)];
        current, from := [], i + 1;
      }
    }
    assert current == text[from..];
    LastSentence(text, out, from);
    if Trim(current) != [] {
      out := out + [Trim(current)];
    }
  }

  lemma NoBoundaryInside(text: string, from: nat, s: string)
    requires from + |s| <= |text| && s == text[from..from + |s|]
    requires forall k | from <= k < from + |s| - 1 :: !Boundary(text, k)
    ensures OneSentence(s)
  {
    forall k | 0 <= k < |s| - 1
      ensures !Boundary(s, k)
    {
      assert s[k] == text[from + k] && s[k + 1] == text[from + k + 1];
      assert !Boundary(text, from + k);
    }
  }

  // ---- what is kept in one piece ---------------------------------------

  predicate OccursAt(s: string, t: string, i: nat) {
    i + |s| <= |t| && t[i..i + |s|] == s
  }

  /** `s` stands unbroken in `t`. */
  ghost predicate Within(s: string, t: string) {
    exists i: nat :: OccursAt(s, t, i)
  }

  /** `s` stands unbroken in a piece that is within the limit. */
  ghost predicate WithinSome(s: string, pieces: seq<string>, current: string, limit: nat) {
    || (Bytes(current) <= limit && Within(s, current))
    || exists k :: 0 <= k < |pieces| && Bytes(pieces[k]) <= limit && Within(s, pieces[k])
  }

  /** Everything that fits a chunk is in one piece whole. */
  ghost predicate ShortOnesWhole(sentences: seq<string>, pieces: seq<string>, current: string, limit: nat) {
    forall i | 0 <= i < |sentences| && sentences[i] != [] && Bytes(sentences[i]) <= limit ::
      WithinSome(sentences[i], pieces, current, limit)
  }

  lemma WithinIsNoLonger(s: string, t: string)
    requires Within(s, t)
    ensures |s| <= |t|
  {
    var i: nat :| OccursAt(s, t, i);
  }

  lemma WithinSpaced(s: string, t: string, more: string)
    requires Within(s, t)
    ensures Within(s, Spaced(t, more))
  {
    var i: nat :| OccursAt(s, t, i);
    assert Spaced(t, more)[i..i + |s|] == t[i..i + |s|];
    assert OccursAt(s, Spaced(t, more), i);
  }

  lemma EndOfSpaced(t: string, s: string)
    ensures Within(s, Spaced(t, s)) && Within(s, s)
  {
    assert OccursAt(s, Spaced(t, s), |t| + 1) && OccursAt(s, s, 0);
  }

  lemma WholeAfterSpace(sentences: seq<string>, pieces: seq<string>, current: string, sentence: string, limit: nat)
    requires ShortOnesWhole(sentences, pieces, current, limit) && Bytes(current) + 1 + Bytes(sentence) <= limit
    ensures ShortOnesWhole(sentences + [sentence], pieces, Spaced(current, sentence), limit)
  {
    EndOfSpaced(current, sentence);
    SpacedBytes(current, sentence);
    forall i | 0 <= i < |sentences| && Within(sentences[i], current)
      ensures Within(sentences[i], Spaced(current, sentence))
    {
      WithinSpaced(sentences[i], current, sentence);
    }
  }

  /** Pushing `current` onto the pieces loses nothing. */
  lemma WholeAfterPush(sentences: seq<string>, pieces: seq<string>, current: string, next: string, limit: nat)
    requires ShortOnesWhole(sentences, pieces, current, limit)
    ensures ShortOnesWhole(sentences, pieces + [current], next, limit)
  {
    var after := pieces + [current];
    assert after[|pieces|] == current;
    forall i | 0 <= i < |sentences| && WithinSome(sentences[i], pieces, current, limit)
      ensures WithinSome(sentences[i], after, next, limit)
    {
      if k :| 0 <= k < |pieces| && Bytes(pieces[k]) <= limit && Within(sentences[i], pieces[k]) {
        assert after[k] == pieces[k];
      }
    }
  }

  /** What was just read is longer than a chunk, or whole in `current`. */
  lemma WholeWithNext(
    sentences: seq<string>, pieces: seq<string>, more: seq<string>, sentence: string, current: string, limit: nat)
    requires ShortOnesWhole(sentences, pieces, current, limit)
    requires sentence == [] || Bytes(sentence) > limit || current == sentence
    ensures ShortOnesWhole(sentences + [sentence], pieces + more, current, limit)
  {
    EndOfSpaced([], sentence);
    forall i | 0 <= i < |sentences| && WithinSome(sentences[i], pieces, current, limit)
      ensures WithinSome(sentences[i], pieces + more, current, limit)
    {
      if k :| 0 <= k < |pieces| && Bytes(pieces[k]) <= limit && Within(sentences[i], pieces[k]) {
        assert (pieces + more)[k] == pieces[k];
      }
    }
  }

  lemma WholeFromEmpty(sentences: seq<string>, pieces: seq<string>, next: string, limit: nat)
    requires ShortOnesWhole(sentences, pieces, [], limit)
    ensures ShortOnesWhole(sentences, pieces, next, limit)
  {
    assert forall i | 0 <= i < |sentences| && Within(sentences[i], []) :: sentences[i] == [];
  }

  /** The last piece is pushed, or there is none. */
  lemma WholeAtTheEnd(sentences: seq<string>, pieces: seq<string>, current: string, limit: nat)
    requires ShortOnesWhole(sentences, pieces, current, limit)
    ensures ShortOnesWhole(sentences, Pushed(pieces, current), [], limit)
  {
    if current != [] { WholeAfterPush(sentences, pieces, current, [], limit); }
  }

  // ---- long sentences --------------------------------------------------

  /** `split_inclusive(',')`: every piece keeps its comma. */
  function CommaPieces(s: string): seq<string> {
    if s == [] then [] else
      var n := CommaEnd(s);
      [s[..n]] + CommaPieces(s[n..])
  }

  function CommaEnd(s: string): (n: nat)
    requires s != []
    ensures 0 < n <= |s|
  {
    if s[0] == ',' || |s| == 1 then 1 else 1 + CommaEnd(s[1..])
  }

  lemma CommaEndIsAComma(s: string)
    requires s != []
    ensures ',' !in s[..CommaEnd(s) - 1] && (CommaEnd(s) < |s| ==> s[CommaEnd(s) - 1] == ',')
    decreases |s|
  {
    if s[0] != ',' && |s| > 1 {
      CommaEndIsAComma(s[1..]);
      var n := CommaEnd(s[1..]);
      assert s[..n] == [s[0]] + s[1..][..n - 1] && s[n] == s[1..][n - 1];
    }
  }

  function Concat(pieces: seq<string>): string {
    if pieces == [] then [] else pieces[0] + Concat(pieces[1..])
  }

  /** The pieces are the sentence itself, cut after commas: each but the last ends with its only comma. */
  lemma {:induction false} CommaPiecesCutAtCommas(s: string)
    ensures Concat(CommaPieces(s)) == s && CutAtCommas(CommaPieces(s))
    decreases |s|
  {
    if s != [] {
      var n := CommaEnd(s);
      CommaPiecesCutAtCommas(s[n..]);
      FirstCommaPiece(s[..n], CommaPieces(s[n..]), s);
    }
  }

  /** One comma at most in each piece, at its end, and there in every piece but the last. */
  predicate CutAtCommas(pieces: seq<string>) {
    forall i | 0 <= i < |pieces| :: EndsAtComma(pieces[i], i == |pieces| - 1)
  }

  predicate EndsAtComma(piece: string, last: bool) {
    piece != [] && ',' !in piece[..|piece| - 1] && (last || piece[|piece| - 1] == ',')
  }

  lemma FirstCommaPiece(piece: string, more: seq<string>, s: string)
    requires s != [] && piece == s[..CommaEnd(s)] && CutAtCommas(more) && Concat(more) == s[CommaEnd(s)..]
    ensures CutAtCommas([piece] + more) && Concat([piece] + more) == s
  {
    CommaEndIsAComma(s);
    assert piece[..|piece| - 1] == s[..CommaEnd(s) - 1];
    assert more == [] ==> Concat(more) == [];
    assert ([piece] + more)[1..] == more;
  }

  lemma {:induction false} CommaPiecesKeepInk(s: string)
    ensures InkAll(CommaPieces(s)) == Ink(s)
  {
    if s != [] {
      var n := CommaEnd(s);
      CommaPiecesKeepInk(s[n..]);
      InkAllCons(s[..n], CommaPieces(s[n..]));
      InkAppend(s[..n], s[n..]);
      assert s == s[..n] + s[n..];
    }
  }

  /** After `i` comma pieces: finished pieces, and one being joined. */
  ghost predicate Joining(pieces: seq<string>, i: nat, out: seq<string>, current: string)
    requires i <= |pieces|
  {
    && (forall k | 0 <= k < |out| :: Clean(out[k])) && (current == [] || Clean(current))
    && Holds(out, current, AllWords(pieces[..i]))
  }

  lemma JoinWords(pieces: seq<string>, i: nat, out: seq<string>, current: string)
    requires i < |pieces| && Holds(out, current, AllWords(pieces[..i]))
    ensures var piece, words := Trim(pieces[i]), AllWords(pieces[..i + 1]);
            && (piece == [] ==> Holds(out, current, words))
            && (current == [] ==> Holds(out, piece, words))
            && Holds(out, Spaced(current, piece), words)
            && Holds(out + [current], piece, words)
  {
    var piece, words := Trim(pieces[i]), AllWords(pieces[..i]);
    AllWordsPrefix(pieces, i);
    WordsOfTrim(pieces[i]);
    if piece == [] {
      BlankHasNoWords(piece);
      assert words + [] == words;
    }
    if current == [] { StartBuilding(out, piece, words); }
    KeepBuilding(out, current, piece, words);
    PushAndRestart(out, current, piece, words);
  }

  /** What each branch of the loop does with the next piece. */
  lemma JoinNext(pieces: seq<string>, i: nat, out: seq<string>, current: string)
    requires i < |pieces| && Joining(pieces, i, out, current)
    ensures var piece := Trim(pieces[i]);
            && (piece == [] ==> Joining(pieces, i + 1, out, current))
            && (piece != [] && current == [] ==> Joining(pieces, i + 1, out, piece))
            && (piece != [] && current != [] ==> Joining(pieces, i + 1, out, Spaced(current, piece)))
            && (piece != [] && current != [] ==> Joining(pieces, i + 1, out + [current], piece))
  {
    var piece := Trim(pieces[i]);
    JoinWords(pieces, i, out, current);
    TrimIsTrimmed(pieces[i]);
    if piece != [] && current != [] { SpacedClean(current, piece); }
  }

  /** The pieces between commas, trimmed. */
  function Clauses(pieces: seq<string>): (clauses: seq<string>)
    ensures |clauses| == |pieces|
  {
    seq(|pieces|, i requires 0 <= i < |pieces| => Trim(pieces[i]))
  }

  lemma ClausesStayWhole(clauses: seq<string>, i: nat, out: seq<string>, current: string, limit: nat)
    requires i < |clauses| && ShortOnesWhole(clauses[..i], out, current, limit)
    ensures clauses[i] == [] ==> ShortOnesWhole(clauses[..i + 1], out, current, limit)
    ensures current == [] ==> ShortOnesWhole(clauses[..i + 1], out, clauses[i], limit)
    ensures Bytes(current) + 1 + Bytes(clauses[i]) <= limit ==>
              ShortOnesWhole(clauses[..i + 1], out, Spaced(current, clauses[i]), limit)
    ensures ShortOnesWhole(clauses[..i + 1], out + [current], clauses[i], limit)
  {
    assert clauses[..i + 1] == clauses[..i] + [clauses[i]] && out + [] == out;
    assert out + [current] + [] == out + [current];
    if clauses[i] == [] { WholeWithNext(clauses[..i], out, [], clauses[i], current, limit); }
    if current == [] {
      WholeFromEmpty(clauses[..i], out, clauses[i], limit);
      WholeWithNext(clauses[..i], out, [], clauses[i], clauses[i], limit);
    }
    if Bytes(current) + 1 + Bytes(clauses[i]) <= limit {
      WholeAfterSpace(clauses[..i], out, current, clauses[i], limit);
    }
    WholeAfterPush(clauses[..i], out, current, clauses[i], limit);
    WholeWithNext(clauses[..i], out + [current], [], clauses[i], clauses[i], limit);
  }

  /** Piece `i` starts with the clause `heads[i]`, and that clause did not fit behind the piece before. */
  predicate TightAt(out: seq<string>, heads: seq<string>, i: nat, limit: nat)
    requires i < |out| == |heads|
  {
    && heads[i] != [] && heads[i] <= out[i]
    && (i > 0 ==> Bytes(out[i - 1]) + 1 + Bytes(heads[i]) > limit)
  }

  /** The pieces are joined from clauses as far as the limit allows. */
  ghost predicate Tight(out: seq<string>, heads: seq<string>, clauses: seq<string>, limit: nat) {
    |heads| == |out| && forall i: nat | i < |out| :: TightAt(out, heads, i, limit) && heads[i] in clauses
  }

  /** So they are if the piece being joined were pushed now. */
  ghost predicate TightSoFar(out: seq<string>, heads: seq<string>, current: string, head: string, clauses: seq<string>,
                             limit: nat) {
    && Tight(out, heads, clauses, limit)
    && (current == [] ==> out == [])
    && (current != [] ==> Tight(out + [current], heads + [head], clauses, limit))
  }

  /** What each branch of the loop makes of a clause. */
  lemma TightNext(out: seq<string>, heads: seq<string>, current: string, head: string, clause: string,
                  clauses: seq<string>, limit: nat)
    requires TightSoFar(out, heads, current, head, clauses, limit) && clause != [] && clause in clauses
    ensures current == [] ==> TightSoFar(out, heads, clause, clause, clauses, limit)
    ensures current != [] ==> TightSoFar(out, heads, Spaced(current, clause), head, clauses, limit)
    ensures current != [] && Bytes(current) + 1 + Bytes(clause) > limit ==>
              TightSoFar(out + [current], heads + [head], clause, clause, clauses, limit)
  {
    if current != [] {
      GrownStaysTight(out, heads, current, head, Spaced(current, clause), clauses, limit);
      if Bytes(current) + 1 + Bytes(clause) > limit {
        PushStaysTight(out + [current], heads + [head], clause, clauses, limit);
      }
    } else {
      PushStaysTight(out, heads, clause, clauses, limit);
    }
  }

  lemma GrownStaysTight(out: seq<string>, heads: seq<string>, current: string, head: string, grown: string,
                        clauses: seq<string>, limit: nat)
    requires Tight(out + [current], heads + [head], clauses, limit) && |out| == |heads| && current <= grown
    ensures Tight(out + [grown], heads + [head], clauses, limit)
  {
    var before, after, all := out + [current], out + [grown], heads + [head];
    forall i: nat | i < |after|
      ensures TightAt(after, all, i, limit) && all[i] in clauses
    {
      assert TightAt(before, all, i, limit) && all[i] in clauses;
    }
  }

  lemma PushStaysTight(out: seq<string>, heads: seq<string>, clause: string, clauses: seq<string>, limit: nat)
    requires Tight(out, heads, clauses, limit) && clause != [] && clause in clauses
    requires out != [] ==> Bytes(out[|out| - 1]) + 1 + Bytes(clause) > limit
    ensures Tight(out + [clause], heads + [clause], clauses, limit)
  {
    var after, all := out + [clause], heads + [clause];
    forall i: nat | i < |after|
      ensures TightAt(after, all, i, limit) && all[i] in clauses
    {
      if i < |out| { assert TightAt(out, heads, i, limit) && heads[i] in clauses; }
    }
  }

  /** First pass: comma pieces, joined as long as they fit. A piece may still be too long. */
  method JoinCommaPieces(sentence: string, limit: nat) returns (out: seq<string>, ghost heads: seq<string>)
    ensures AllWords(out) == AllWords(CommaPieces(sentence))
    ensures forall i | 0 <= i < |out| :: Clean(out[i])
    ensures ShortOnesWhole(Clauses(CommaPieces(sentence)), out, [], limit)
    ensures Tight(out, heads, Clauses(CommaPieces(sentence)), limit)
  {
    out, heads := [], [];
    var current: string := [];
    var pieces := CommaPieces(sentence);
    ghost var clauses := Clauses(pieces);
    ghost var head: string := [];
    HoldsWhole([], []);
    for i := 0 to |pieces|
      invariant Joining(pieces, i, out, current)
      invariant ShortOnesWhole(clauses[..i], out, current, limit)
      invariant TightSoFar(out, heads, current, head, clauses, limit)
    {
      var piece := Trim(pieces[i]);
      JoinNext(pieces, i, out, current);
      ClausesStayWhole(clauses, i, out, current, limit);
      if piece == [] { continue; }
      assert clauses[i] in clauses;
      TightNext(out, heads, current, head, piece, clauses, limit);
      if current == [] {
        current, head := piece, piece;
      } else if Bytes(current) + 1 + Bytes(piece) <= limit {
        current := Spaced(current, piece);
      } else {
        out, heads := out + [current], heads + [head];
        current, head := piece, piece;
      }
    }
    assert pieces[..|pieces|] == pieces && clauses[..|pieces|] == clauses;
    PushLast(out, current, AllWords(pieces));
    WholeAtTheEnd(clauses, out, current, limit);
    if current != [] {
      out, heads := out + [current], heads + [head];
    }
  }

  lemma SpacedIsChunk(s: string, t: string, limit: nat)
    requires Clean(s) && Clean(t) && Bytes(s) + 1 + Bytes(t) <= limit
    ensures IsChunk(Spaced(s, t), limit)
  {
    SpacedClean(s, t);
    SpacedBytes(s, t);
  }

  /** The first word of `next` does not fit behind `part`. */
  predicate Full(part: string, next: string, limit: nat) {
    Words(next) != [] && Bytes(part) + 1 + Bytes(Words(next)[0]) > limit
  }

  predicate FullAt(parts: seq<string>, i: nat, limit: nat) {
    i + 1 < |parts| ==> Full(parts[i], parts[i + 1], limit)
  }

  predicate AllFull(parts: seq<string>, limit: nat) {
    forall i: nat | i < |parts| :: FullAt(parts, i, limit)
  }

  /** Whole parts as full as can be, and one being built. */
  ghost predicate Broken(parts: seq<string>, building: string, limit: nat) {
    && AllChunks(parts, limit) && AllFull(parts, limit)
    && IsChunk(building, limit) && Words(building) != []
    && (parts != [] ==> Full(parts[|parts| - 1], building, limit))
  }

  lemma BrokenStarts(word: string, limit: nat)
    requires Clean(word) && HasNoWhitespace(word)
    ensures Broken([], word, limit)
  {
    WordsOfWord(word);
  }

  lemma FullOfSpaced(part: string, building: string, word: string, limit: nat)
    requires Words(building) != []
    ensures Words(Spaced(building, word)) != []
    ensures Full(part, building, limit) ==> Full(part, Spaced(building, word), limit)
  {
    SpacedWords(building, word);
  }

  lemma BrokenJoins(parts: seq<string>, building: string, word: string, limit: nat)
    requires Broken(parts, building, limit) && Clean(word) && Bytes(building) + 1 + Bytes(word) <= limit
    ensures Broken(parts, Spaced(building, word), limit)
  {
    SpacedIsChunk(building, word, limit);
    FullOfSpaced([], building, word, limit);
    if parts != [] { FullOfSpaced(parts[|parts| - 1], building, word, limit); }
  }

  lemma FullPush(parts: seq<string>, building: string, limit: nat)
    requires AllFull(parts, limit) && (parts != [] ==> Full(parts[|parts| - 1], building, limit))
    ensures AllFull(parts + [building], limit)
  {
    var after := parts + [building];
    forall i: nat | i < |after|
      ensures FullAt(after, i, limit)
    {
      if i < |parts| { assert FullAt(parts, i, limit); }
    }
  }

  lemma BrokenPushes(parts: seq<string>, building: string, word: string, limit: nat)
    requires Broken(parts, building, limit) && Clean(word) && HasNoWhitespace(word)
    requires Bytes(building) + 1 + Bytes(word) > limit
    ensures Broken(parts + [building], word, limit)
  {
    WordsOfWord(word);
    FullPush(parts, building, limit);
  }

  /** After `i` words. */
  ghost predicate Breaking(words: seq<string>, i: nat, parts: seq<string>, building: string, limit: nat)
    requires i <= |words|
  {
    && Holds(parts, building, words[..i])
    && if i == 0 then parts == [] && building == [] else Broken(parts, building, limit)
  }

  lemma BreakStarts(words: seq<string>, limit: nat)
    requires words != [] && Clean(words[0]) && HasNoWhitespace(words[0])
    ensures Breaking(words, 1, [], words[0], limit)
  {
    BrokenStarts(words[0], limit);
    WordsOfWord(words[0]);
    assert words[..1] == [words[0]] && AllWords([]) + [words[0]] == [words[0]];
  }

  lemma WordJoins(words: seq<string>, i: nat, parts: seq<string>, building: string)
    requires i < |words| && Holds(parts, building, words[..i]) && words[i] != [] && HasNoWhitespace(words[i])
    ensures Holds(parts, Spaced(building, words[i]), words[..i + 1])
  {
    KeepBuilding(parts, building, words[i], words[..i]);
    WordsOfWord(words[i]);
    assert words[..i + 1] == words[..i] + [words[i]];
  }

  lemma WordPushes(words: seq<string>, i: nat, parts: seq<string>, building: string)
    requires i < |words| && Holds(parts, building, words[..i]) && words[i] != [] && HasNoWhitespace(words[i])
    ensures Holds(parts + [building], words[i], words[..i + 1])
  {
    PushAndRestart(parts, building, words[i], words[..i]);
    WordsOfWord(words[i]);
    assert words[..i + 1] == words[..i] + [words[i]];
  }

  lemma BreakJoins(words: seq<string>, i: nat, parts: seq<string>, building: string, limit: nat)
    requires 0 < i < |words| && Breaking(words, i, parts, building, limit) && Clean(words[i])
        && HasNoWhitespace(words[i])
    requires Bytes(building) + 1 + Bytes(words[i]) <= limit
    ensures Breaking(words, i + 1, parts, Spaced(building, words[i]), limit)
  {
    BrokenJoins(parts, building, words[i], limit);
    WordJoins(words, i, parts, building);
  }

  lemma BreakPushes(words: seq<string>, i: nat, parts: seq<string>, building: string, limit: nat)
    requires 0 < i < |words| && Breaking(words, i, parts, building, limit) && Clean(words[i])
        && HasNoWhitespace(words[i])
    requires Bytes(building) + 1 + Bytes(words[i]) > limit
    ensures Breaking(words, i + 1, parts + [building], words[i], limit)
  {
    BrokenPushes(parts, building, words[i], limit);
    WordPushes(words, i, parts, building);
  }

  lemma BreakEnds(words: seq<string>, parts: seq<string>, building: string, limit: nat)
    requires Breaking(words, |words|, parts, building, limit)
    ensures var all := Pushed(parts, building);
            AllWords(all) == words && AllChunks(all, limit) && AllFull(all, limit)
  {
    assert words[..|words|] == words;
    PushLast(parts, building, words);
    if words != [] { FullPush(parts, building, limit); }
  }

  /** Second pass: a piece that is still too long is broken between words, each part as full as the next word allows. */
  method BreakBetweenWords(piece: string, limit: nat) returns (parts: seq<string>)
    ensures AllWords(parts) == Words(piece) && AllChunks(parts, limit) && AllFull(parts, limit)
  {
    parts := [];
    var building: string := [];
    var words := Words(piece);
    WordsAreWords(piece);
    HoldsWhole([], []);
    for i := 0 to |words|
      invariant Breaking(words, i, parts, building, limit)
    {
      var word := words[i];
      if building == [] {
        BreakStarts(words, limit);
        building := word;
      } else if Bytes(building) + 1 + Bytes(word) <= limit {
        BreakJoins(words, i, parts, building, limit);
        building := Spaced(building, word);
      } else {
        BreakPushes(words, i, parts, building, limit);
        parts := parts + [building];
        building := word;
      }
    }
    BreakEnds(words, parts, building, limit);
    if building != [] {
      parts := parts + [building];
    }
  }

  lemma TakesParts(out: seq<string>, parts: seq<string>, pieces: seq<string>, i: nat)
    requires i < |pieces| && AllWords(out) == AllWords(pieces[..i]) && AllWords(parts) == Words(pieces[i])
    ensures AllWords(out + parts) == AllWords(pieces[..i + 1])
  {
    AllWordsPrefix(pieces, i);
    AllWordsAppend(out, parts);
  }

  /** The pieces that were within the limit are all still there. */
  ghost predicate KeepsShort(pieces: seq<string>, out: seq<string>, limit: nat) {
    forall i | 0 <= i < |pieces| && Bytes(pieces[i]) <= limit :: pieces[i] in out
  }

  lemma WholeInKept(clauses: seq<string>, pieces: seq<string>, out: seq<string>, limit: nat)
    requires ShortOnesWhole(clauses, pieces, [], limit) && KeepsShort(pieces, out, limit)
    ensures ShortOnesWhole(clauses, out, [], limit)
  {
    forall i | 0 <= i < |clauses| && WithinSome(clauses[i], pieces, [], limit)
      ensures WithinSome(clauses[i], out, [], limit)
    {
      if k :| 0 <= k < |pieces| && Bytes(pieces[k]) <= limit && Within(clauses[i], pieces[k]) {
        var l :| 0 <= l < |out| && out[l] == pieces[k];
      }
    }
  }

  lemma KeepsShortNext(pieces: seq<string>, i: nat, out: seq<string>, parts: seq<string>, limit: nat)
    requires i < |pieces| && KeepsShort(pieces[..i], out, limit) && (Bytes(pieces[i]) <= limit ==> parts == [pieces[i]])
    ensures KeepsShort(pieces[..i + 1], out + parts, limit)
  {
    forall k | 0 <= k < i + 1 && Bytes(pieces[k]) <= limit
      ensures pieces[k] in out + parts
    {
      if k < i { assert pieces[..i][k] in out; }
    }
  }

  /**
   * An over-long sentence: cut after commas, and only what is still too long between words.
   * No word of a clause is cut, and every clause that fits is kept whole.
   */
  method SplitLong(sentence: string, limit: nat) returns (out: seq<string>)
    ensures AllWords(out) == AllWords(CommaPieces(sentence)) && AllChunks(out, limit)
    ensures ShortOnesWhole(Clauses(CommaPieces(sentence)), out, [], limit)
  {
    var pieces, heads := JoinCommaPieces(sentence, limit);
    out := [];
    for i := 0 to |pieces|
      invariant AllWords(out) == AllWords(pieces[..i]) && AllChunks(out, limit)
      invariant KeepsShort(pieces[..i], out, limit)
    {
      var parts := [pieces[i]];
      AllWordsOfOne(pieces[i]);
      if Bytes(pieces[i]) > limit {
        parts := BreakBetweenWords(pieces[i], limit);
      }
      TakesParts(out, parts, pieces, i);
      KeepsShortNext(pieces, i, out, parts, limit);
      out := out + parts;
    }
    assert pieces[..|pieces|] == pieces;
    WholeInKept(Clauses(CommaPieces(sentence)), pieces, out, limit);
  }

  // ---- the chunker: words ----------------------------------------------

  /** What a sentence is cut into: nothing if it fits, its comma pieces if it does not. */
  function UnitsOf(sentence: string, limit: nat): seq<string> {
    if Bytes(sentence) <= limit then [sentence] else CommaPieces(sentence)
  }

  function AllUnits(sentences: seq<string>, limit: nat): seq<string> {
    if sentences == [] then [] else
      AllUnits(sentences[..|sentences| - 1], limit) + UnitsOf(sentences[|sentences| - 1], limit)
  }

  lemma AllUnitsPrefix(sentences: seq<string>, i: nat, limit: nat)
    requires i < |sentences|
    ensures AllUnits(sentences[..i + 1], limit) == AllUnits(sentences[..i], limit) + UnitsOf(sentences[i], limit)
  {
    assert sentences[..i + 1][..i] == sentences[..i];
  }

  lemma UnitWordsPrefix(sentences: seq<string>, i: nat, limit: nat)
    requires i < |sentences|
    ensures AllWords(AllUnits(sentences[..i + 1], limit))
         == AllWords(AllUnits(sentences[..i], limit)) + AllWords(UnitsOf(sentences[i], limit))
    ensures Bytes(sentences[i]) <= limit ==> AllWords(UnitsOf(sentences[i], limit)) == Words(sentences[i])
  {
    AllUnitsPrefix(sentences, i, limit);
    AllWordsAppend(AllUnits(sentences[..i], limit), UnitsOf(sentences[i], limit));
    AllWordsOfOne(sentences[i]);
  }

  lemma InkOfOne(piece: string)
    ensures InkAll([piece]) == Ink(piece)
  {
    InkAllPush([], piece);
    assert [] + [piece] == [piece];
  }

  lemma {:induction false} InkOfAllUnits(sentences: seq<string>, limit: nat)
    ensures InkAll(AllUnits(sentences, limit)) == InkAll(sentences)
  {
    if sentences != [] {
      var n := |sentences| - 1;
      InkOfAllUnits(sentences[..n], limit);
      InkAllAppend(AllUnits(sentences[..n], limit), UnitsOf(sentences[n], limit));
      InkOfOne(sentences[n]);
      CommaPiecesKeepInk(sentences[n]);
    }
  }

  /** Keeping the words keeps every character that is not white space. */
  lemma ChunksKeepInk(text: string, sentences: seq<string>, chunks: seq<string>, limit: nat)
    requires AllWords(sentences) == Words(text) && AllWords(chunks) == AllWords(AllUnits(sentences, limit))
    ensures InkAll(chunks) == Ink(text)
  {
    WordsKeepInk(text);
    InkOfAllWords(sentences);
    InkOfAllUnits(sentences, limit);
    InkOfAllWords(AllUnits(sentences, limit));
    InkOfAllWords(chunks);
  }

  /** What the chunks hold after the first `i` sentences. */
  ghost predicate Chunking(sentences: seq<string>, i: nat, chunks: seq<string>, current: string, limit: nat)
    requires i <= |sentences|
  {
    && AllChunks(chunks, limit) && (current == [] || (Clean(current) && Bytes(current) <= limit))
    && Holds(chunks, current, AllWords(AllUnits(sentences[..i], limit)))
  }

  /** The sentence goes onto the chunk being built. */
  lemma JoinsOn(sentences: seq<string>, i: nat, chunks: seq<string>, current: string, limit: nat)
    requires i < |sentences| && Clean(sentences[i]) && Chunking(sentences, i, chunks, current, limit)
    requires current != [] && Bytes(current) + 1 + Bytes(sentences[i]) <= limit
    ensures Chunking(sentences, i + 1, chunks, Spaced(current, sentences[i]), limit)
  {
    UnitWordsPrefix(sentences, i, limit);
    KeepBuilding(chunks, current, sentences[i], AllWords(AllUnits(sentences[..i], limit)));
    SpacedClean(current, sentences[i]);
    SpacedBytes(current, sentences[i]);
  }

  /** The chunk being built is full: it is pushed. */
  lemma Flushes(sentences: seq<string>, i: nat, chunks: seq<string>, current: string, limit: nat)
    requires i <= |sentences| && Chunking(sentences, i, chunks, current, limit) && current != []
    ensures Chunking(sentences, i, chunks + [current], [], limit)
  {
    var words := AllWords(AllUnits(sentences[..i], limit));
    PushLast(chunks, current, words);
    HoldsWhole(chunks + [current], words);
  }

  /** The sentence starts a new chunk. */
  lemma StartsNew(sentences: seq<string>, i: nat, chunks: seq<string>, limit: nat)
    requires i < |sentences| && AllSentences(sentences) && Chunking(sentences, i, chunks, [], limit)
    requires Bytes(sentences[i]) <= limit
    ensures Chunking(sentences, i + 1, chunks, sentences[i], limit)
  {
    UnitWordsPrefix(sentences, i, limit);
    StartBuilding(chunks, sentences[i], AllWords(AllUnits(sentences[..i], limit)));
  }

  /** The sentence was too long and came back in pieces. */
  lemma TakesPieces(sentences: seq<string>, i: nat, chunks: seq<string>, pieces: seq<string>, limit: nat)
    requires i < |sentences| && Chunking(sentences, i, chunks, [], limit) && Bytes(sentences[i]) > limit
    requires AllWords(pieces) == AllWords(CommaPieces(sentences[i])) && AllChunks(pieces, limit)
    ensures Chunking(sentences, i + 1, chunks + pieces, [], limit)
  {
    UnitWordsPrefix(sentences, i, limit);
    HoldsWhole(chunks, AllWords(AllUnits(sentences[..i], limit)));
    AllWordsAppend(chunks, pieces);
    HoldsWhole(chunks + pieces, AllWords(AllUnits(sentences[..i + 1], limit)));
  }

  // ---- the chunker: packing --------------------------------------------

  predicate Short(sentence: string, limit: nat) {
    Bytes(sentence) <= limit
  }

  /** Sentence `m` stands whole in chunk `at`. */
  ghost predicate StandsIn(sentence: string, chunks: seq<string>, at: nat, limit: nat) {
    at < |chunks| && Bytes(chunks[at]) <= limit && Within(sentence, chunks[at])
  }

  /** A sentence follows its predecessor in the same chunk, or in the next one because it would not have fitted. */
  predicate Follows(chunks: seq<string>, before: nat, at: nat, sentence: string, limit: nat) {
    at == before || (at == before + 1 && before < |chunks| && Bytes(chunks[before]) + 1 + Bytes(sentence) > limit)
  }

  /** Sentence `m`, if it fits a chunk, stands in one; and it follows its predecessor, if that fits one too. */
  ghost predicate PackedAt(sentences: seq<string>, place: seq<nat>, chunks: seq<string>, m: nat, limit: nat)
    requires m < |sentences| == |place|
  {
    Short(sentences[m], limit) ==>
      && StandsIn(sentences[m], chunks, place[m], limit)
      && (m > 0 && Short(sentences[m - 1], limit) ==> Follows(chunks, place[m - 1], place[m], sentences[m], limit))
  }

  /** Where every sentence that fits a chunk stands, and that short neighbours are packed as tightly as they fit. */
  ghost predicate Packed(sentences: seq<string>, place: seq<nat>, chunks: seq<string>, limit: nat) {
    |place| == |sentences| && forall m: nat | m < |sentences| :: PackedAt(sentences, place, chunks, m, limit)
  }

  /**
   * The chunks after a sentence: those before it are untouched, except that the last may have grown by the
   * sentence.
   */
  ghost predicate Grown(all: seq<string>, all': seq<string>, sentence: string, limit: nat) {
    && 0 < |all| <= |all'| && (forall q | 0 <= q < |all| - 1 :: all'[q] == all[q])
    && var last := |all| - 1;
       || all'[last] == all[last]
       || all[last] == []
       || (all'[last] == Spaced(all[last], sentence) && Bytes(all'[last]) <= limit)
  }

  lemma StandsInGrown(s: string, all: seq<string>, all': seq<string>, at: nat, sentence: string, limit: nat)
    requires s != [] && StandsIn(s, all, at, limit) && Grown(all, all', sentence, limit)
    ensures StandsIn(s, all', at, limit)
  {
    if at == |all| - 1 {
      WithinIsNoLonger(s, all[at]);
      if all'[at] != all[at] {
        WithinSpaced(s, all[at], sentence);
      }
    }
  }

  /** Sentences that are packed stay packed when the chunks grow. */
  lemma PackedAtGrown(
    sentences: seq<string>, place: seq<nat>, all: seq<string>, all': seq<string>, next: string, m: nat, limit: nat)
    requires m < |sentences| == |place| && sentences[m] != [] && (m > 0 ==> sentences[m - 1] != [])
    requires PackedAt(sentences, place, all, m, limit) && Grown(all, all', next, limit)
    ensures PackedAt(sentences, place, all', m, limit)
  {
    if Short(sentences[m], limit) { StandsInGrown(sentences[m], all, all', place[m], next, limit); }
  }

  /** What is packed does not depend on the sentences that come later. */
  lemma PackedAtLonger(
    sentences: seq<string>, longer: seq<string>, place: seq<nat>, place': seq<nat>, chunks: seq<string>, m: nat,
    limit: nat)
    requires m < |sentences| == |place| && sentences <= longer && place <= place' && |longer| == |place'|
    requires PackedAt(sentences, place, chunks, m, limit)
    ensures PackedAt(longer, place', chunks, m, limit)
  {
    assert longer[m] == sentences[m] && place'[m] == place[m];
    if m > 0 { assert longer[m - 1] == sentences[m - 1] && place'[m - 1] == place[m - 1]; }
  }

  lemma PackedNext(
    sentences: seq<string>, i: nat, place: seq<nat>, all: seq<string>, all': seq<string>, at: nat, limit: nat)
    requires i < |sentences| && (forall m | 0 <= m < |sentences| :: sentences[m] != [])
    requires Packed(sentences[..i], place, all, limit) && Grown(all, all', sentences[i], limit)
    requires Short(sentences[i], limit) ==> StandsIn(sentences[i], all', at, limit)
    requires i > 0 && Short(sentences[i - 1], limit) && Short(sentences[i], limit) ==>
               Follows(all', place[i - 1], at, sentences[i], limit)
    ensures Packed(sentences[..i + 1], place + [at], all', limit)
  {
    var next, place' := sentences[..i + 1], place + [at];
    forall m: nat | m < |next|
      ensures PackedAt(next, place', all', m, limit)
    {
      if m < i {
        PackedAtGrown(sentences[..i], place, all, all', sentences[i], m, limit);
        PackedAtLonger(sentences[..i], next, place, place', all', m, limit);
      }
    }
  }

  /**
   * The chunks and the one being built, packed so far; the last sentence read is in the one being built, if it
   * fits one.
   */
  ghost predicate Packing(
    sentences: seq<string>, i: nat, place: seq<nat>, chunks: seq<string>, current: string, limit: nat)
    requires i <= |sentences|
  {
    && (forall m | 0 <= m < |sentences| :: sentences[m] != [])
    && Packed(sentences[..i], place, chunks + [current], limit)
    && (i > 0 && Short(sentences[i - 1], limit) ==> place[i - 1] == |chunks| && current != [])
  }

  lemma PackJoins(sentences: seq<string>, i: nat, place: seq<nat>, chunks: seq<string>, current: string, limit: nat)
    requires i < |sentences| && Packing(sentences, i, place, chunks, current, limit) && current != []
    requires Bytes(current) + 1 + Bytes(sentences[i]) <= limit
    ensures Packing(sentences, i + 1, place + [|chunks|], chunks, Spaced(current, sentences[i]), limit)
  {
    var s := sentences[i];
    SpacedBytes(current, s);
    EndOfSpaced(current, s);
    PackedNext(sentences, i, place, chunks + [current], chunks + [Spaced(current, s)], |chunks|, limit);
  }

  /** After a chunk that is full, or after none. */
  lemma PackStarts(sentences: seq<string>, i: nat, place: seq<nat>, chunks: seq<string>, current: string, limit: nat)
    requires i < |sentences| && Packing(sentences, i, place, chunks, current, limit) && Short(sentences[i], limit)
    requires current == [] || Bytes(current) + 1 + Bytes(sentences[i]) > limit
    ensures var pushed := Pushed(chunks, current);
            Packing(sentences, i + 1, place + [|pushed|], pushed, sentences[i], limit)
  {
    var s, pushed := sentences[i], Pushed(chunks, current);
    EndOfSpaced([], s);
    assert current == [] ==> pushed + [s] == chunks + [s];
    PackedNext(sentences, i, place, chunks + [current], pushed + [s], |pushed|, limit);
  }

  lemma PackTakes(
    sentences: seq<string>, i: nat, place: seq<nat>, chunks: seq<string>, current: string, pieces: seq<string>,
    limit: nat)
    requires i < |sentences| && Packing(sentences, i, place, chunks, current, limit) && !Short(sentences[i], limit)
    ensures var pushed := Pushed(chunks, current);
            Packing(sentences, i + 1, place + [|pushed|], pushed + pieces, [], limit)
  {
    var pushed := Pushed(chunks, current);
    var all' := pushed + pieces + [[]];
    PackedNext(sentences, i, place, chunks + [current], all', |pushed|, limit);
  }

  lemma NothingStandsInTheEmptyChunk(sentence: string, chunks: seq<string>, at: nat, limit: nat)
    requires sentence != [] && StandsIn(sentence, chunks + [[]], at, limit)
    ensures StandsIn(sentence, chunks, at, limit)
  {
    WithinIsNoLonger(sentence, (chunks + [[]])[at]);
  }

  lemma PackEnds(sentences: seq<string>, place: seq<nat>, chunks: seq<string>, current: string, limit: nat)
    requires Packing(sentences, |sentences|, place, chunks, current, limit)
    ensures Packed(sentences, place, Pushed(chunks, current), limit)
  {
    assert sentences[..|sentences|] == sentences;
    if current == [] {
      forall m: nat | m < |sentences|
        ensures PackedAt(sentences, place, chunks, m, limit)
      {
        assert PackedAt(sentences, place, chunks + [[]], m, limit);
        if Short(sentences[m], limit) {
          NothingStandsInTheEmptyChunk(sentences[m], chunks, place[m], limit);
        }
      }
    }
  }

  // ---- the chunker: the loop -------------------------------------------

  /** The loop's invariant: what the chunks hold, and where the sentences stand in them. */
  ghost predicate Progress(
    sentences: seq<string>, i: nat, place: seq<nat>, chunks: seq<string>, current: string, limit: nat)
    requires i <= |sentences|
  {
    && AllSentences(sentences)
    && Chunking(sentences, i, chunks, current, limit) && Packing(sentences, i, place, chunks, current, limit)
  }

  lemma Begins(sentences: seq<string>, limit: nat)
    requires AllSentences(sentences)
    ensures Progress(sentences, 0, [], [], [], limit)
  {
    HoldsWhole([], []);
  }

  lemma ProgressJoins(sentences: seq<string>, i: nat, place: seq<nat>, chunks: seq<string>, current: string, limit: nat)
    requires i < |sentences| && Progress(sentences, i, place, chunks, current, limit)
    requires current != [] && Bytes(current) + 1 + Bytes(sentences[i]) <= limit
    ensures Progress(sentences, i + 1, place + [|chunks|], chunks, Spaced(current, sentences[i]), limit)
  {
    JoinsOn(sentences, i, chunks, current, limit);
    PackJoins(sentences, i, place, chunks, current, limit);
  }

  lemma ProgressFlushes(sentences: seq<string>, i: nat, chunks: seq<string>, current: string, limit: nat)
    requires i <= |sentences| && Chunking(sentences, i, chunks, current, limit)
    ensures Chunking(sentences, i, Pushed(chunks, current), [], limit)
  {
    if current != [] { Flushes(sentences, i, chunks, current, limit); }
  }

  lemma ProgressStarts(
    sentences: seq<string>, i: nat, place: seq<nat>, chunks: seq<string>, current: string, limit: nat)
    requires i < |sentences| && Progress(sentences, i, place, chunks, current, limit) && Short(sentences[i], limit)
    requires current == [] || Bytes(current) + 1 + Bytes(sentences[i]) > limit
    ensures var pushed := Pushed(chunks, current);
            Progress(sentences, i + 1, place + [|pushed|], pushed, sentences[i], limit)
  {
    ProgressFlushes(sentences, i, chunks, current, limit);
    StartsNew(sentences, i, Pushed(chunks, current), limit);
    PackStarts(sentences, i, place, chunks, current, limit);
  }

  lemma ProgressTakes(
    sentences: seq<string>, i: nat, place: seq<nat>, chunks: seq<string>, current: string, pieces: seq<string>,
    limit: nat)
    requires i < |sentences| && Progress(sentences, i, place, chunks, current, limit) && !Short(sentences[i], limit)
    requires AllWords(pieces) == AllWords(CommaPieces(sentences[i])) && AllChunks(pieces, limit)
    ensures var pushed := Pushed(chunks, current);
            Progress(sentences, i + 1, place + [|pushed|], pushed + pieces, [], limit)
  {
    ProgressFlushes(sentences, i, chunks, current, limit);
    TakesPieces(sentences, i, Pushed(chunks, current), pieces, limit);
    PackTakes(sentences, i, place, chunks, current, pieces, limit);
  }

  /** What a caller gets: the sentences, and the chunks they are packed into. */
  ghost predicate Chunked(text: string, sentences: seq<string>, place: seq<nat>, chunks: seq<string>, limit: nat) {
    && AllWords(sentences) == Words(text) && AllSentences(sentences) && FullStops(sentences)
    && AllWords(chunks) == AllWords(AllUnits(sentences, limit)) && AllChunks(chunks, limit)
    && Packed(sentences, place, chunks, limit)
  }

  lemma PushedChunks(chunks: seq<string>, current: string, limit: nat)
    requires AllChunks(chunks, limit) && (current == [] || (Clean(current) && Bytes(current) <= limit))
    ensures AllChunks(Pushed(chunks, current), limit)
  {
  }

  lemma EndsWords(sentences: seq<string>, chunks: seq<string>, current: string, limit: nat)
    requires Chunking(sentences, |sentences|, chunks, current, limit)
    ensures AllWords(Pushed(chunks, current)) == AllWords(AllUnits(sentences, limit))
  {
    assert sentences[..|sentences|] == sentences;
    PushLast(chunks, current, AllWords(AllUnits(sentences, limit)));
  }

  lemma Ends(text: string, sentences: seq<string>, place: seq<nat>, chunks: seq<string>, current: string, limit: nat)
    requires AllWords(sentences) == Words(text) && FullStops(sentences)
    requires Progress(sentences, |sentences|, place, chunks, current, limit)
    ensures Chunked(text, sentences, place, Pushed(chunks, current), limit)
  {
    PackEnds(sentences, place, chunks, current, limit);
    PushedChunks(chunks, current, limit);
    EndsWords(sentences, chunks, current, limit);
  }

  /** An over-long sentence becomes pieces of its own. */
  method TakeLong(split: seq<string>, i: nat, ghost place: seq<nat>, chunks: seq<string>, current: string, limit: nat)
    returns (chunks': seq<string>)
    requires i < |split| && Progress(split, i, place, chunks, current, limit) && Bytes(split[i]) > limit
    ensures Progress(split, i + 1, place + [|Pushed(chunks, current)|], chunks', [], limit)
  {
    var pieces := SplitLong(split[i], limit);
    ProgressTakes(split, i, place, chunks, current, pieces, limit);
    chunks' := if current != [] then chunks + [current] else chunks;
    chunks' := chunks' + pieces;
  }

  /** Takes up sentence `i`: onto the chunk being built, into a new one, or cut into pieces. */
  method TakeSentence(
    split: seq<string>, i: nat, ghost place: seq<nat>, chunks: seq<string>, current: string, limit: nat)
    returns (ghost place': seq<nat>, chunks': seq<string>, current': string)
    requires i < |split| && Progress(split, i, place, chunks, current, limit)
    ensures Progress(split, i + 1, place', chunks', current', limit)
  {
    var sentence := split[i];
    if current == [] && Bytes(sentence) <= limit {
      ProgressStarts(split, i, place, chunks, current, limit);
      return place + [|chunks|], chunks, sentence;
    }
    if Bytes(current) + 1 + Bytes(sentence) <= limit {
      ProgressJoins(split, i, place, chunks, current, limit);
      return place + [|chunks|], chunks, Spaced(current, sentence);
    }
    place' := place + [|Pushed(chunks, current)|];
    if Bytes(sentence) <= limit {
      ProgressStarts(split, i, place, chunks, current, limit);
      chunks', current' := if current != [] then chunks + [current] else chunks, sentence;
    } else {
      chunks' := TakeLong(split, i, place, chunks, current, limit);
      current' := [];
    }
  }

  /**
   * Every chunk is clean and within `max(limit, 40)` bytes unless it is a single word; the words are the text's, in
   * order, cut only after a comma of an over-long sentence; a sentence that fits is never cut, and starts a
   * chunk only if it did not fit behind the short sentence before it. So no character but white space is lost.
   */
  method ChunkForStreaming(text: string, maxChars: nat)
    returns (chunks: seq<string>, ghost sentences: seq<string>, ghost place: seq<nat>)
    ensures InkAll(chunks) == Ink(text)
    ensures Chunked(text, sentences, place, chunks, Max(maxChars, 40))
  {
    var limit: nat := Max(maxChars, 40);
    chunks := [];
    var current: string := [];
    var split := SplitSentences(text);
    sentences, place := split, [];
    Begins(split, limit);
    for i := 0 to |split|
      invariant Progress(split, i, place, chunks, current, limit)
    {
      place, chunks, current := TakeSentence(split, i, place, chunks, current, limit);
    }
    Ends(text, split, place, chunks, current, limit);
    if current != [] {
      chunks := chunks + [current];
    }
    ChunksKeepInk(text, split, chunks, limit);
  }
}
