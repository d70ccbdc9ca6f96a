/** Character and string helpers shared by both importers. */
module Text {

  /** java.lang.Character.toLowerCase restricted to ASCII letters. */
  function ToLowerChar(c: char): char {
    if 'A' <= c <= 'Z' then (c as int + 32) as char else c
  }

  /** String.toLowerCase, character by character (ASCII case mapping). */
  function ToLower(s: string): string {
    seq(|s|, i requires 0 <= i < |s| => ToLowerChar(s[i]))
  }

  /** String.equalsIgnoreCase under the ASCII case mapping. */
  predicate EqualsIgnoreCase(a: string, b: string) {
    ToLower(a) == ToLower(b)
  }

  /** Lower-cased text holds no upper-case ASCII letter. */
  lemma ToLowerHasNoUpper(s: string)
    ensures forall i :: 0 <= i < |ToLower(s)| ==> !('A' <= ToLower(s)[i] <= 'Z')
  {
  }

  /** The decimal digit for `d`. */
  function DigitChar(d: nat): char
    requires d < 10
  {
    ('0' as int + d) as char
  }

  /** Integer.toString on a non-negative number: its decimal digits, most significant first. */
  function NatToString(n: nat): string
    decreases n
  {
    if n < 10 then [DigitChar(n)] else NatToString(n / 10) + [DigitChar(n % 10)]
  }

  /** Number of occurrences of `c` in `s`. */
  function Count(s: string, c: char): nat {
    if s == [] then 0 else Count(s[..|s| - 1], c) + (if s[|s| - 1] == c then 1 else 0)
  }

  /** `p` occurs contiguously in `s`. */
  ghost predicate IsSubstring(p: string, s: string) {
    exists i, j :: 0 <= i <= j <= |s| && s[i..j] == p
  }

  /**
   * The pieces of `s` that a separator `c` has closed, in order. Defined by peeling off
   * the last character, the way a left-to-right scan extends what it has read.
   */
  function ClosedPieces(s: string, c: char): seq<string>
    decreases |s|
  {
    if s == [] then []
    else if s[|s| - 1] == c then ClosedPieces(s[..|s| - 1], c) + [OpenPiece(s[..|s| - 1], c)]
    else ClosedPieces(s[..|s| - 1], c)
  }

  /** The text after the last `c` in `s` (all of `s` when there is none). */
  function OpenPiece(s: string, c: char): string
    decreases |s|
  {
    if s == [] then []
    else if s[|s| - 1] == c then []
    else OpenPiece(s[..|s| - 1], c) + [s[|s| - 1]]
  }

  /** Every piece of `s` between occurrences of `c`, empty pieces included. */
  function SplitOn(s: string, c: char): seq<string> {
    ClosedPieces(s, c) + [OpenPiece(s, c)]
  }

  /** The pieces, each followed by `c`. */
  function Terminate(parts: seq<string>, c: char): string
    decreases |parts|
  {
    if parts == [] then [] else Terminate(parts[..|parts| - 1], c) + parts[|parts| - 1] + [c]
  }

  /** The pieces separated by `c`, the inverse of SplitOn. */
  function Join(parts: seq<string>, c: char): string {
    if parts == [] then [] else Terminate(parts[..|parts| - 1], c) + parts[|parts| - 1]
  }

  /** `s` without the run of `c` characters at its end. */
  function StripTrailing(s: string, c: char): string
    decreases |s|
  {
    if s != [] && s[|s| - 1] == c then StripTrailing(s[..|s| - 1], c) else s
  }

  /** Reading one more character: a separator closes the open piece, anything else extends it. */
  lemma {:induction false} SplitOnSnoc(s: string, ch: char, c: char)
    ensures ClosedPieces(s + [ch], c) == if ch == c then ClosedPieces(s, c) + [OpenPiece(s, c)] else ClosedPieces(s, c)
    ensures OpenPiece(s + [ch], c) == if ch == c then [] else OpenPiece(s, c) + [ch]
  {
    assert (s + [ch])[..|s|] == s;
  }

  /** SplitOn produces one more piece than there are separators. */
  lemma {:induction false} SplitOnLength(s: string, c: char)
    ensures |SplitOn(s, c)| == Count(s, c) + 1
  {
    if s != [] {
      SplitOnLength(s[..|s| - 1], c);
    }
  }

  /** No piece contains the separator. */
  lemma {:induction false} SplitOnPiecesFree(s: string, c: char)
    ensures forall p :: p in SplitOn(s, c) ==> c !in p
  {
    if s != [] {
      var s' := s[..|s| - 1];
      SplitOnPiecesFree(s', c);
      var cl := ClosedPieces(s', c);
      assert forall p :: p in cl ==> p in cl + [OpenPiece(s', c)];
    }
  }

  /** Without separators the whole string is the only piece. */
  lemma {:induction false} SplitOnNoSeparator(s: string, c: char)
    requires c !in s
    ensures ClosedPieces(s, c) == [] && OpenPiece(s, c) == s
    ensures SplitOn(s, c) == [s]
  {
    if s != [] {
      var s' := s[..|s| - 1];
      assert c !in s';
      SplitOnNoSeparator(s', c);
      assert s' + [s[|s| - 1]] == s;
    }
  }

  /** After a separator, the open piece only depends on what follows it. */
  lemma {:induction false} OpenPieceAfterSeparator(a: string, b: string, c: char)
    ensures OpenPiece(a + [c] + b, c) == OpenPiece(b, c)
    decreases |b|
  {
    if b == [] {
      assert a + [c] + b == a + [c];
      SplitOnSnoc(a, c, c);
    } else {
      var b' := b[..|b| - 1];
      var x := b[|b| - 1];
      OpenPieceAfterSeparator(a, b', c);
      assert a + [c] + b == (a + [c] + b') + [x];
      assert b == b' + [x];
      SplitOnSnoc(a + [c] + b', x, c);
      SplitOnSnoc(b', x, c);
    }
  }

  /** After a separator, the closed pieces are all of the pieces before it and those closed after it. */
  lemma {:induction false} ClosedPiecesAfterSeparator(a: string, b: string, c: char)
    ensures ClosedPieces(a + [c] + b, c) == SplitOn(a, c) + ClosedPieces(b, c)
    decreases |b|
  {
    if b == [] {
      assert a + [c] + b == a + [c];
      SplitOnSnoc(a, c, c);
    } else {
      var b' := b[..|b| - 1];
      var x := b[|b| - 1];
      var s' := a + [c] + b';
      ClosedPiecesAfterSeparator(a, b', c);
      assert a + [c] + b == s' + [x];
      assert b == b' + [x];
      SplitOnSnoc(s', x, c);
      SplitOnSnoc(b', x, c);
      if x == c {
        OpenPieceAfterSeparator(a, b', c);
        var front := SplitOn(a, c);
        var closed := ClosedPieces(b', c);
        calc {
          ClosedPieces(a + [c] + b, c);
          ClosedPieces(s', c) + [OpenPiece(s', c)];
          (front + closed) + [OpenPiece(b', c)];
          front + (closed + [OpenPiece(b', c)]);
          front + ClosedPieces(b, c);
        }
      }
    }
  }

  /** Splitting at a separator splits the two sides independently. */
  lemma SplitOnAppendSeparator(a: string, b: string, c: char)
    ensures SplitOn(a + [c] + b, c) == SplitOn(a, c) + SplitOn(b, c)
  {
    ClosedPiecesAfterSeparator(a, b, c);
    OpenPieceAfterSeparator(a, b, c);
    var front := SplitOn(a, c);
    assert (front + ClosedPieces(b, c)) + [OpenPiece(b, c)] == front + (ClosedPieces(b, c) + [OpenPiece(b, c)]);
  }

  /** The last piece is empty exactly when the input is empty or ends with the separator. */
  lemma SplitOnLastEmpty(s: string, c: char)
    ensures OpenPiece(s, c) == [] <==> s == [] || s[|s| - 1] == c
  {
  }

  /** The closed pieces followed by the open one spell the input. */
  lemma {:induction false} TerminateClosedPieces(s: string, c: char)
    ensures Terminate(ClosedPieces(s, c), c) + OpenPiece(s, c) == s
  {
    if s != [] {
      var s' := s[..|s| - 1];
      TerminateClosedPieces(s', c);
      var cl := ClosedPieces(s', c);
      var op := OpenPiece(s', c);
      var x := s[|s| - 1];
      assert s == s' + [x];
      if x == c {
        var parts := cl + [op];
        assert ClosedPieces(s, c) == parts && OpenPiece(s, c) == [];
        assert parts[..|parts| - 1] == cl && parts[|parts| - 1] == op;
        assert Terminate(parts, c) == Terminate(cl, c) + op + [c];
        assert Terminate(parts, c) + [] == Terminate(parts, c);
      } else {
        assert ClosedPieces(s, c) == cl && OpenPiece(s, c) == op + [x];
        assert Terminate(cl, c) + (op + [x]) == (Terminate(cl, c) + op) + [x];
      }
    }
  }

  /** Joining the pieces gives back the input. */
  lemma JoinSplitOn(s: string, c: char)
    ensures Join(SplitOn(s, c), c) == s
  {
    var cl := ClosedPieces(s, c);
    assert (cl + [OpenPiece(s, c)])[..|cl|] == cl;
    TerminateClosedPieces(s, c);
  }

  /** Joining one more piece appends a separator and the piece. */
  lemma JoinSnoc(init: seq<string>, last: string, c: char)
    requires init != []
    ensures Join(init + [last], c) == Join(init, c) + [c] + last
  {
    var parts := init + [last];
    assert parts[..|init|] == init && parts[|init|] == last;
    var n := |init| - 1;
    assert Terminate(init, c) == Terminate(init[..n], c) + init[n] + [c];
  }

  /** Splitting undoes joining: pieces without `c`, joined by `c`, split back into themselves. */
  lemma {:induction false} SplitOnJoin(parts: seq<string>, c: char)
    requires parts != []
    requires forall k :: 0 <= k < |parts| ==> c !in parts[k]
    ensures SplitOn(Join(parts, c), c) == parts
    decreases |parts|
  {
    var n := |parts| - 1;
    var init := parts[..n];
    var last := parts[n];
    SplitOnNoSeparator(last, c);
    assert parts == init + [last];
    if n == 0 {
      assert Join(parts, c) == last;
    } else {
      SplitOnJoin(init, c);
      JoinSnoc(init, last, c);
      SplitOnAppendSeparator(Join(init, c), last, c);
    }
  }

  /** The open piece is a suffix of the input. */
  lemma {:induction false} OpenPieceIsSuffix(s: string, c: char)
    ensures |OpenPiece(s, c)| <= |s| && s[|s| - |OpenPiece(s, c)|..] == OpenPiece(s, c)
  {
    if s != [] && s[|s| - 1] != c {
      var s' := s[..|s| - 1];
      OpenPieceIsSuffix(s', c);
      var k := |s'| - |OpenPiece(s', c)|;
      assert s[k..] == s'[k..] + [s[|s| - 1]];
    }
  }

  /** A substring of a prefix is a substring of the whole. */
  lemma SubstringOfPrefix(p: string, s: string, n: nat)
    requires n <= |s| && IsSubstring(p, s[..n])
    ensures IsSubstring(p, s)
  {
    var i, j :| 0 <= i <= j <= n && s[..n][i..j] == p;
    assert s[i..j] == s[..n][i..j];
  }

  /** Every piece is a contiguous part of the input. */
  lemma {:induction false} SplitOnPiecesAreSubstrings(s: string, c: char)
    ensures forall p :: p in SplitOn(s, c) ==> IsSubstring(p, s)
  {
    OpenPieceIsSuffix(s, c);
    var k := |s| - |OpenPiece(s, c)|;
    assert s[k..|s|] == OpenPiece(s, c);
    if s != [] {
      var n := |s| - 1;
      SplitOnPiecesAreSubstrings(s[..n], c);
      forall p | p in ClosedPieces(s, c)
        ensures IsSubstring(p, s)
      {
        assert p in SplitOn(s[..n], c);
        SubstringOfPrefix(p, s, n);
      }
    }
  }

  /** Substrings of substrings are substrings. */
  lemma SubstringTransitive(p: string, q: string, s: string)
    requires IsSubstring(p, q) && IsSubstring(q, s)
    ensures IsSubstring(p, s)
  {
    var i, j :| 0 <= i <= j <= |q| && q[i..j] == p;
    var k, l :| 0 <= k <= l <= |s| && s[k..l] == q;
    assert |q| == l - k;
    assert forall t :: 0 <= t < j - i ==> s[k + i..k + j][t] == q[i + t] == p[t];
    assert 0 <= k + i <= k + j <= |s| && s[k + i..k + j] == p;
  }
}
