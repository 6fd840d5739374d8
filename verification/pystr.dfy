/**
  The Python 2 string operations the rest of the model relies on:
  `isspace`, `rstrip()`, `replace(c, '')`, `''.join` and `sep.join` on byte
  strings, where a byte is modelled as a `char`, and `split()` on unicode
  strings, whose whitespace set is larger.
 */
module PyStr {

  /** Whitespace of a Python 2 byte string: space, \t, \n, \v, \f, \r. */
  predicate IsSpace(c: char) {
    c == ' ' || c == '\t' || c == '\n' || c == '\r' || c == '\U{000B}' || c == '\U{000C}'
  }

  /**
    Whitespace of a Python 2 unicode string (its Unicode 5.2 database): the
    byte whitespace, the separators U+001C to U+001F, NEL, no-break space,
    and the Unicode space, line and paragraph separators.
   */
  predicate IsUnicodeSpace(c: char) {
    ('\t' <= c <= '\r') || ('\U{001C}' <= c <= ' ') || c == '\U{0085}' || c == '\U{00A0}'
    || c == '\U{1680}' || c == '\U{180E}' || ('\U{2000}' <= c <= '\U{200A}')
    || c == '\U{2028}' || c == '\U{2029}' || c == '\U{202F}' || c == '\U{205F}' || c == '\U{3000}'
  }

  /** A word as unicode `split()` produces it: non-empty and free of whitespace. */
  predicate IsWord(w: string) {
    w != [] && forall i :: 0 <= i < |w| ==> !IsUnicodeSpace(w[i])
  }

  /** Right-strip: the longest prefix of `s` that does not end in whitespace. */
  function Rstrip(s: string): (r: string)
    ensures |r| <= |s| && r == s[..|r|]
    ensures r == [] || !IsSpace(r[|r| - 1])
    ensures forall i :: |r| <= i < |s| ==> IsSpace(s[i])
  {
    if s == [] || !IsSpace(s[|s| - 1]) then s else Rstrip(s[..|s| - 1])
  }

  /** Removal of a character: every occurrence of `c` dropped, the rest kept in order. */
  function RemoveChar(s: string, c: char): (r: string)
    ensures |r| <= |s| && c !in r
    ensures c !in s ==> r == s
  {
    if s == [] then []
    else (if s[0] == c then [] else [s[0]]) + RemoveChar(s[1..], c)
  }

  /** Exactly the characters of `s` other than `c` survive. */
  lemma {:induction false} RemoveCharMembers(s: string, c: char)
    ensures forall x :: x in RemoveChar(s, c) <==> x in s && x != c
    decreases |s|
  {
    if s != [] {
      RemoveCharMembers(s[1..], c);
      assert s == [s[0]] + s[1..];
    }
  }

  lemma {:induction false} RemoveCharAppend(a: string, b: string, c: char)
    ensures RemoveChar(a + b, c) == RemoveChar(a, c) + RemoveChar(b, c)
    decreases |a|
  {
    if a == [] {
      assert a + b == b;
    } else {
      var head := if a[0] == c then [] else [a[0]];
      assert (a + b)[0] == a[0] && (a + b)[1..] == a[1..] + b;
      RemoveCharAppend(a[1..], b, c);
      calc {
        RemoveChar(a + b, c);
        head + RemoveChar(a[1..] + b, c);
        head + (RemoveChar(a[1..], c) + RemoveChar(b, c));
        (head + RemoveChar(a[1..], c)) + RemoveChar(b, c);
        RemoveChar(a, c) + RemoveChar(b, c);
      }
    }
  }

  /** The strings of `ss` laid end to end. */
  function Concat(ss: seq<string>): string
  {
    if ss == [] then [] else ss[0] + Concat(ss[1..])
  }

  lemma {:induction false} ConcatAppend(a: seq<string>, b: seq<string>)
    ensures Concat(a + b) == Concat(a) + Concat(b)
    decreases |a|
  {
    if a == [] {
      assert a + b == b;
    } else {
      assert (a + b)[1..] == a[1..] + b;
      ConcatAppend(a[1..], b);
    }
  }

  /** The strings of `ss` with `sep` between neighbours. */
  function Join(sep: string, ss: seq<string>): string
  {
    if ss == [] then []
    else if |ss| == 1 then ss[0]
    else ss[0] + sep + Join(sep, ss[1..])
  }

  /** Length of the run of non-whitespace characters at the front of `s`. */
  function WordLength(s: string): (n: nat)
    ensures n <= |s|
    ensures forall i :: 0 <= i < n ==> !IsUnicodeSpace(s[i])
    ensures n == |s| || IsUnicodeSpace(s[n])
  {
    if s == [] || IsUnicodeSpace(s[0]) then 0 else 1 + WordLength(s[1..])
  }

  /** Length of the run of whitespace at the front of `s`. */
  function SpaceLength(s: string): (n: nat)
    ensures n <= |s|
    ensures forall i :: 0 <= i < n ==> IsUnicodeSpace(s[i])
    ensures n == |s| || !IsUnicodeSpace(s[n])
  {
    if s == [] || !IsUnicodeSpace(s[0]) then 0 else 1 + SpaceLength(s[1..])
  }

  /**
    Unicode `s.split()` with no separator: the maximal runs of non-whitespace, in
    order; leading, trailing and repeated whitespace produce no empty words.
   */
  function SplitWords(s: string): (ws: seq<string>)
    ensures forall i :: 0 <= i < |ws| ==> IsWord(ws[i])
    ensures |ws| <= |s|
    decreases |s|
  {
    if s == [] then []
    else if IsUnicodeSpace(s[0]) then SplitWords(s[SpaceLength(s)..])
    else
      var n := WordLength(s);
      [s[..n]] + SplitWords(s[n..])
  }

  /** `s` with all whitespace removed. */
  function NonSpace(s: string): string
  {
    if s == [] then [] else (if IsUnicodeSpace(s[0]) then [] else [s[0]]) + NonSpace(s[1..])
  }

  lemma {:induction false} NonSpaceAppend(a: string, b: string)
    ensures NonSpace(a + b) == NonSpace(a) + NonSpace(b)
    decreases |a|
  {
    if a == [] {
      assert a + b == b;
    } else {
      assert (a + b)[1..] == a[1..] + b;
      NonSpaceAppend(a[1..], b);
    }
  }

  lemma {:induction false} NonSpaceOfSpaces(s: string)
    requires forall i :: 0 <= i < |s| ==> IsUnicodeSpace(s[i])
    ensures NonSpace(s) == []
    decreases |s|
  {
    if s != [] {
      NonSpaceOfSpaces(s[1..]);
    }
  }

  lemma {:induction false} NonSpaceOfWord(s: string)
    requires forall i :: 0 <= i < |s| ==> !IsUnicodeSpace(s[i])
    ensures NonSpace(s) == s
    decreases |s|
  {
    if s != [] {
      NonSpaceOfWord(s[1..]);
    }
  }

  /** The words of `s.split()`, glued together, are exactly the non-whitespace characters of `s`. */
  lemma {:induction false} SplitWordsKeepsContent(s: string)
    ensures Concat(SplitWords(s)) == NonSpace(s)
    decreases |s|
  {
    if s == [] {
    } else if IsUnicodeSpace(s[0]) {
      var k := SpaceLength(s);
      assert s == s[..k] + s[k..];
      NonSpaceAppend(s[..k], s[k..]);
      NonSpaceOfSpaces(s[..k]);
      SplitWordsKeepsContent(s[k..]);
    } else {
      var n := WordLength(s);
      assert s == s[..n] + s[n..];
      NonSpaceAppend(s[..n], s[n..]);
      NonSpaceOfWord(s[..n]);
      SplitWordsKeepsContent(s[n..]);
      assert ([s[..n]] + SplitWords(s[n..]))[1..] == SplitWords(s[n..]);
    }
  }

  lemma {:induction false} SplitWordsLeadingSpace(s: string)
    requires s != [] && IsUnicodeSpace(s[0])
    ensures SplitWords(s) == SplitWords(s[1..])
    decreases |s|
  {
    var k := SpaceLength(s);
    if s[1..] != [] && IsUnicodeSpace(s[1]) {
      SplitWordsLeadingSpace(s[1..]);
      assert SpaceLength(s[1..]) == k - 1;
      assert s[1..][k - 1..] == s[k..];
    } else {
      assert k == 1;
    }
  }

  /** Joining words with single spaces and splitting again gives the words back. */
  lemma {:induction false} SplitJoinRoundTrip(ws: seq<string>)
    requires forall i :: 0 <= i < |ws| ==> IsWord(ws[i])
    ensures SplitWords(Join(" ", ws)) == ws
    decreases |ws|
  {
    if |ws| == 1 {
      var w: string := ws[0];
      assert w + [] == w;
      SplitWordFront(w, []);
    } else if |ws| > 1 {
      var w := ws[0];
      var rest := Join(" ", ws[1..]);
      var tail := " " + rest;
      assert Join(" ", ws) == w + tail;
      SplitWordFront(w, tail);
      SplitWordsLeadingSpace(tail);
      assert tail[1..] == rest;
      SplitJoinRoundTrip(ws[1..]);
      assert ws == [w] + ws[1..];
    }
  }

  /** A word followed by nothing or by whitespace is the first word of the split. */
  lemma SplitWordFront(w: string, tail: string)
    requires IsWord(w)
    requires tail == [] || IsUnicodeSpace(tail[0])
    ensures SplitWords(w + tail) == [w] + SplitWords(tail)
  {
    var s := w + tail;
    WordFront(w, tail);
    assert s[0] == w[0] && !IsUnicodeSpace(s[0]);
  }

  lemma WordFront(w: string, tail: string)
    requires IsWord(w)
    requires tail == [] || IsUnicodeSpace(tail[0])
    ensures WordLength(w + tail) == |w|
    ensures (w + tail)[..|w|] == w && (w + tail)[|w|..] == tail
    decreases |w|
  {
    if |w| > 1 {
      assert (w + tail)[1..] == w[1..] + tail;
      WordFront(w[1..], tail);
    }
  }
}
