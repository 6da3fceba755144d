/** Strings as the Rust code sees them: scalar values, their UTF-8 length, white space, `trim`. */
module Text {

  /** The Unicode White_Space property (`char::is_whitespace`). */
  predicate IsWhitespace(c: char) {
    var n := c as int;
    || 0x09 <= n <= 0x0D || n == 0x20 || n == 0x85 || n == 0xA0 || n == 0x1680
    || 0x2000 <= n <= 0x200A || n == 0x2028 || n == 0x2029 || n == 0x202F || n == 0x205F || n == 0x3000
  }

  /** `char::len_utf8`. */
  function CharBytes(c: char): (n: nat)
    ensures 1 <= n <= 4
  {
    var k := c as int;
    if k < 0x80 then 1 else if k < 0x800 then 2 else if k < 0x10000 then 3 else 4
  }

  /** `str::len`: the number of UTF-8 bytes. */
  function Bytes(s: string): (n: nat)
    ensures n >= |s|
  {
    if s == [] then 0 else CharBytes(s[0]) + Bytes(s[1..])
  }

  lemma {:induction false} BytesAppend(s: string, t: string)
    ensures Bytes(s + t) == Bytes(s) + Bytes(t)
  {
    if s == [] {
      assert s + t == t;
    } else {
      BytesAppend(s[1..], t);
      assert (s + t)[1..] == s[1..] + t;
    }
  }

  function TrimStart(s: string): (r: string)
    ensures r == [] || !IsWhitespace(r[0])
  {
    if s != [] && IsWhitespace(s[0]) then TrimStart(s[1..]) else s
  }

  lemma {:induction false} TrimStartIsSuffix(s: string)
    ensures |TrimStart(s)| <= |s| && TrimStart(s) == s[|s| - |TrimStart(s)|..]
  {
    if s != [] && IsWhitespace(s[0]) { TrimStartIsSuffix(s[1..]); }
  }

  function TrimEnd(s: string): (r: string)
    ensures r == [] || !IsWhitespace(r[|r| - 1])
    ensures |r| <= |s| && r == s[..|r|]
  {
    if s != [] && IsWhitespace(s[|s| - 1]) then TrimEnd(s[..|s| - 1]) else s
  }

  function Trim(s: string): string {
    TrimEnd(TrimStart(s))
  }

  /** No white space at either end (the empty string included). */
  predicate Trimmed(s: string) {
    s == [] || (!IsWhitespace(s[0]) && !IsWhitespace(s[|s| - 1]))
  }

  lemma TrimIsTrimmed(s: string)
    ensures Trimmed(Trim(s))
  {
  }

  lemma TrimOfTrimmed(s: string)
    requires Trimmed(s)
    ensures Trim(s) == s
  {
  }

  predicate Blank(s: string) {
    forall i | 0 <= i < |s| :: IsWhitespace(s[i])
  }

  lemma {:induction false} TrimStartDropsBlank(a: string, s: string)
    requires Blank(a) && s != [] && !IsWhitespace(s[0])
    ensures TrimStart(a + s) == s
  {
    if a == [] {
      assert a + s == s;
    } else {
      assert (a + s)[1..] == a[1..] + s && (a + s)[0] == a[0];
      TrimStartDropsBlank(a[1..], s);
    }
  }

  lemma {:induction false} TrimEndDropsBlank(s: string, c: string)
    requires Blank(c) && s != [] && !IsWhitespace(s[|s| - 1])
    ensures TrimEnd(s + c) == s
  {
    if c == [] {
      assert s + c == s;
    } else {
      var n := |c| - 1;
      assert (s + c)[..|s + c| - 1] == s + c[..n] && (s + c)[|s + c| - 1] == c[n];
      TrimEndDropsBlank(s, c[..n]);
    }
  }

  /** White space around a trimmed text is all that `trim` removes. */
  lemma TrimOfPadded(a: string, s: string, c: string)
    requires Blank(a) && Blank(c) && Trimmed(s) && s != []
    ensures Trim(a + s + c) == s
  {
    assert a + s + c == a + (s + c);
    TrimStartDropsBlank(a, s + c);
    TrimEndDropsBlank(s, c);
  }

  /** A text is what `trim` leaves of it, between white space. */
  lemma TrimSplits(s: string) returns (a: string, c: string)
    ensures Blank(a) && Blank(c) && s == a + Trim(s) + c
  {
    var r := TrimStart(s);
    TrimStartIsSuffix(s);
    TrimStartDropped(s);
    TrimEndDropped(r);
    a, c := s[..|s| - |r|], r[|TrimEnd(r)|..];
    SlicesJoin(s, |s| - |r|, r, |TrimEnd(r)|);
  }

  lemma SlicesJoin(s: string, from: nat, r: string, n: nat)
    requires from <= |s| && r == s[from..] && n <= |r|
    ensures s == s[..from] + r[..n] + r[n..]
  {
  }

  lemma {:induction false} TrimStartDropped(s: string)
    ensures |TrimStart(s)| <= |s| && Blank(s[..|s| - |TrimStart(s)|])
  {
    if s != [] && IsWhitespace(s[0]) {
      TrimStartDropped(s[1..]);
      var n := |s| - |TrimStart(s)|;
      assert forall i | 0 < i < n :: s[..n][i] == s[1..][..n - 1][i - 1];
    }
  }

  lemma {:induction false} TrimEndDropped(s: string)
    ensures Blank(s[|TrimEnd(s)|..])
  {
    if s != [] && IsWhitespace(s[|s| - 1]) {
      var front := s[..|s| - 1];
      TrimEndDropped(front);
      assert s[|TrimEnd(s)|..] == front[|TrimEnd(front)|..] + [s[|s| - 1]];
    }
  }

  /** The non-white-space characters of `s`, in order. */
  function Ink(s: string): string {
    if s == [] then [] else if IsWhitespace(s[0]) then Ink(s[1..]) else [s[0]] + Ink(s[1..])
  }

  /** What one character contributes. */
  function InkOf(c: char): string {
    if IsWhitespace(c) then [] else [c]
  }

  lemma InkCons(c: char, s: string)
    ensures Ink([c] + s) == InkOf(c) + Ink(s)
  {
    assert ([c] + s)[1..] == s;
  }

  lemma {:induction false} InkAppend(s: string, t: string)
    ensures Ink(s + t) == Ink(s) + Ink(t)
  {
    if s == [] {
      assert s + t == t;
    } else {
      InkAppend(s[1..], t);
      assert (s + t)[1..] == s[1..] + t && (s + t)[0] == s[0];
      InkCons(s[0], s[1..]);
      InkCons(s[0], s[1..] + t);
      assert s == [s[0]] + s[1..] && s + t == [s[0]] + (s[1..] + t);
    }
  }

  lemma {:induction false} TrimStartKeepsInk(s: string)
    ensures Ink(TrimStart(s)) == Ink(s)
  {
    if s != [] && IsWhitespace(s[0]) { TrimStartKeepsInk(s[1..]); }
  }

  lemma {:induction false} TrimEndKeepsInk(s: string)
    ensures Ink(TrimEnd(s)) == Ink(s)
  {
    if s != [] && IsWhitespace(s[|s| - 1]) {
      TrimEndKeepsInk(s[..|s| - 1]);
      InkAppend(s[..|s| - 1], [s[|s| - 1]]);
      assert s == s[..|s| - 1] + [s[|s| - 1]];
    }
  }

  lemma TrimKeepsInk(s: string)
    ensures Ink(Trim(s)) == Ink(s)
  {
    TrimStartKeepsInk(s);
    TrimEndKeepsInk(TrimStart(s));
  }
}
